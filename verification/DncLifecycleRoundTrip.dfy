/** When does a trip to OSM and back leave the tags of a feature alone?  The lifecycle blocks
    of translations/dnc_core.js undo each other exactly on the tags described by `Stable`. */
module DncLifecycleRoundTrip {
  import opened DncLifecycle
  import opened Objects
  import opened Text

  /** A value that the way back takes for a lifecycle state. */
  predicate Word(value: string) {
    value == "construction" || value == "proposed" || value == "abandoned" || value == "disused"
    || value == "destroyed" || value == "demolished"
  }

  predicate Prefixed(key: string) {
    "abandoned:" <= key || "disused:" <= key || "demolished:" <= key || "construction:" <= key
  }

  predicate NoWords(tags: Tags, m: nat) {
    forall j :: m <= j < |TYPES| ==> TYPES[j] in tags ==> !Word(tags[TYPES[j]])
  }

  predicate Filled(tags: Tags) {
    forall k <- tags :: tags[k] != ""
  }

  predicate Unprefixed(tags: Tags) {
    forall k <- tags :: !Prefixed(k)
  }

  predicate UnderConstruction(tags: Tags) {
    "condition" in tags && tags["condition"] == "construction" && FirstType(tags, 0) < |TYPES|
  }

  /** What a caller can check before the trip. */
  predicate Stable(tags: Tags) {
    && Filled(tags) && Unprefixed(tags)
    && if UnderConstruction(tags) then "construction" !in tags && NoWords(tags, FirstType(tags, 0) + 1)
       else NoWords(tags, 0)
  }

  // ----- Names -----

  lemma TypeNames(m: nat)
    requires m < |TYPES|
    ensures !Prefixed(TYPES[m]) && TYPES[m] != "construction" && TYPES[m] != "proposed" && TYPES[m] != "condition"
    ensures ':' !in TYPES[m]
    ensures DEFAULTS[m] != "" && !Word(DEFAULTS[m])
  {
    assert TYPES[0][0] == 'h' && TYPES[1][0] == 'b' && TYPES[2][0] == 'r' && TYPES[3][0] == 'b';
    assert "abandoned:"[0] == 'a' && "disused:"[0] == 'd' && "demolished:"[0] == 'd' && "construction:"[0] == 'c';
    assert "construction"[0] == 'c' && "proposed"[0] == 'p' && "condition"[0] == 'c';
    assert "abandoned"[0] == 'a' && "disused"[0] == 'd' && "destroyed"[0] == 'd' && "demolished"[0] == 'd';
    assert DEFAULTS[0][0] == 'r' && DEFAULTS[1][0] == 'y' && DEFAULTS[2][0] == 'r' && DEFAULTS[3][0] == 'y';
    NoColon(m);
  }

  lemma NoColon(m: nat)
    requires m < |TYPES|
    ensures ':' !in TYPES[m]
  {
    assert TYPES[0] == "highway" && TYPES[1] == "bridge" && TYPES[2] == "railway" && TYPES[3] == "building";
  }

  lemma OtherNames()
    ensures !Prefixed("construction") && !Prefixed("proposed") && !Prefixed("condition")
    ensures "construction" != "condition" && "proposed" != "condition" && "construction" != "proposed"
  {
    assert "construction"[0] == 'c' && "proposed"[0] == 'p' && "condition"[0] == 'c';
    assert "abandoned:"[0] == 'a' && "disused:"[0] == 'd' && "demolished:"[0] == 'd';
  }

  // ----- The feature tags -----

  lemma CycleTypeFrame(tags: Tags, m: nat, k: string)
    requires m < |TYPES| && k != TYPES[m] && k != "condition"
    ensures var r := CycleType(tags, m);
            && (k in r ==> k in tags && r[k] == tags[k])
            && (k != "construction" && k != "proposed" && k in tags ==> k in r)
  {
  }

  lemma {:induction false} CycleFrame(tags: Tags, m: nat, k: string)
    requires m <= |TYPES| && k != "condition" && (forall j :: m <= j < |TYPES| ==> k != TYPES[j])
    ensures var r := Cycle(tags, m);
            && (k in r ==> k in tags && r[k] == tags[k])
            && (k != "construction" && k != "proposed" && k in tags ==> k in r)
    decreases |TYPES| - m
  {
    if m < |TYPES| {
      CycleTypeFrame(tags, m, k);
      CycleFrame(CycleType(tags, m), m + 1, k);
    }
  }

  lemma {:induction false} CycleNothing(tags: Tags, m: nat)
    requires m <= |TYPES| && NoWords(tags, m)
    ensures Cycle(tags, m) == tags
    decreases |TYPES| - m
  {
  }

  lemma LaterTypes(m: nat)
    requires m < |TYPES|
    ensures forall j :: m < j < |TYPES| ==> TYPES[m] != TYPES[j]
  {
  }

  /** A lifecycle word in a feature tag never survives. */
  lemma {:induction false} CycleChanges(tags: Tags, m: nat)
    requires m <= |TYPES| && Filled(tags) && !NoWords(tags, m)
    ensures Cycle(tags, m) != tags
    decreases |TYPES| - m
  {
    var typ := TYPES[m];
    if typ in tags && Word(tags[typ]) {
      var next := CycleType(tags, m);
      TypeNames(m);
      OtherNames();
      LaterTypes(m);
      CycleFrame(next, m + 1, typ);
      var word := tags[typ];
      if (word == "construction" || word == "proposed") && Truthy(tags, word) {
        NotAType(word);
        CycleFrame(next, m + 1, word);
        assert word !in next;
      } else {
        assert next[typ] == DEFAULTS[m];
      }
    } else {
      CycleChanges(tags, m + 1);
    }
  }

  lemma NotAType(word: string)
    requires word == "construction" || word == "proposed"
    ensures forall j :: 0 <= j < |TYPES| ==> word != TYPES[j]
  {
  }

  lemma CycleIff(tags: Tags, m: nat)
    requires m <= |TYPES| && Filled(tags)
    ensures Cycle(tags, m) == tags <==> NoWords(tags, m)
  {
    if NoWords(tags, m) { CycleNothing(tags, m); } else { CycleChanges(tags, m); }
  }

  lemma {:induction false} CycleFilled(tags: Tags, m: nat)
    requires m <= |TYPES| && Filled(tags)
    ensures Filled(Cycle(tags, m))
    decreases |TYPES| - m
  {
    if m < |TYPES| {
      TypeNames(m);
      CycleFilled(CycleType(tags, m), m + 1);
    }
  }

  // ----- The cleanup loop -----

  lemma {:induction false} CleanNothing(tags: Tags, order: seq<string>)
    requires Filled(tags) && Unprefixed(tags)
    ensures CleanKeys(tags, order) == tags
    decreases |order|
  {
    if |order| > 0 {
      assert CleanKey(tags, order[0]) == tags;
      CleanNothing(tags, order[1..]);
    }
  }

  /** The name under which a prefixed key is put back. */
  function Target(key: string): string {
    if "abandoned:" <= key || "disused:" <= key then ReplaceFirst(ReplaceFirst(key, "abandoned:", ""), "disused:", "")
    else if "demolished:" <= key then ReplaceFirst(key, "demolished:", "")
    else ReplaceFirst(key, "construction:", "")
  }

  function ConditionOf(key: string): string {
    if "abandoned:" <= key || "disused:" <= key then "abandoned"
    else if "demolished:" <= key then "dismantled"
    else "construction"
  }

  lemma CleanPrefixed(tags: Tags, key: string)
    requires key in tags && tags[key] != "" && Prefixed(key)
    ensures CleanKey(tags, key) == Renamed(tags, key, Target(key), ConditionOf(key))
  {
  }

  lemma CleanUnprefixed(tags: Tags, key: string)
    requires key in tags ==> tags[key] != "" && !Prefixed(key)
    ensures CleanKey(tags, key) == tags
  {
  }

  lemma RenamedIsClean(tags: Tags, key: string, target: string, condition: string)
    requires Filled(tags) && key in tags && !Prefixed(target) && condition != ""
    requires forall k <- tags :: k != key ==> !Prefixed(k)
    ensures var renamed := Renamed(tags, key, target, condition); Filled(renamed) && Unprefixed(renamed - {key})
    ensures Prefixed(key) ==> Unprefixed(Renamed(tags, key, target, condition))
  {
    OtherNames();
  }

  /** With a single prefixed key, the loop renames that key and nothing else. */
  lemma {:induction false} CleanOne(tags: Tags, order: seq<string>, key: string)
    requires Filled(tags) && key in tags && Prefixed(key) && key in order
    requires forall k <- tags :: k != key ==> !Prefixed(k)
    requires !Prefixed(Target(key))
    ensures CleanKeys(tags, order) == Renamed(tags, key, Target(key), ConditionOf(key))
    decreases |order|
  {
    if order[0] == key {
      CleanPrefixed(tags, key);
      RenamedIsClean(tags, key, Target(key), ConditionOf(key));
      CleanNothing(Renamed(tags, key, Target(key), ConditionOf(key)), order[1..]);
    } else {
      CleanUnprefixed(tags, order[0]);
      CleanOne(tags, order[1..], key);
    }
  }

  /** Nothing empty is left after every key has been visited. */
  lemma {:induction false} CleanFills(tags: Tags, order: seq<string>)
    requires forall k <- tags :: tags[k] == "" ==> k in order
    ensures Filled(CleanKeys(tags, order))
    decreases |order|
  {
    if |order| > 0 {
      CleanFills(CleanKey(tags, order[0]), order[1..]);
    }
  }

  /** A prefixed key that no other key is renamed to is gone after the loop. */
  lemma {:induction false} CleanRemoves(tags: Tags, order: seq<string>, key: string)
    requires Prefixed(key)
    requires forall i :: 0 <= i < |order| ==> Prefixed(order[i]) ==> Target(order[i]) != key
    requires key in tags ==> key in order
    ensures key !in CleanKeys(tags, order)
    decreases |order|
  {
    if |order| > 0 {
      var next := CleanKey(tags, order[0]);
      OtherNames();
      if order[0] in tags && Prefixed(order[0]) && tags[order[0]] != "" {
        CleanPrefixed(tags, order[0]);
        assert Target(order[0]) != key;
      }
      CleanRemoves(next, order[1..], key);
    }
  }

  lemma {:induction false} CycleNeverAdds(tags: Tags, m: nat, key: string)
    requires m <= |TYPES| && Prefixed(key) && key !in tags
    ensures key !in Cycle(tags, m)
  {
    OtherNames();
    forall j | m <= j < |TYPES| ensures key != TYPES[j] { TypeNames(j); }
    CycleFrame(tags, m, key);
  }

  lemma Shorter(key: string, sub: string)
    requires |sub| > 0
    ensures |ReplaceFirst(key, sub, "")| <= |key|
    ensures sub <= key ==> |ReplaceFirst(key, sub, "")| < |key|
  {
  }

  lemma TargetShorter(key: string)
    requires Prefixed(key)
    ensures |Target(key)| < |key|
  {
    Shorter(key, "abandoned:");
    Shorter(ReplaceFirst(key, "abandoned:", ""), "disused:");
    Shorter(key, "demolished:");
    Shorter(key, "construction:");
    if "disused:" <= key && !("abandoned:" <= key) {
      DisusedShorter(key);
    }
  }

  /** A key that starts with `disused:` is shortened, whatever was taken out of it before. */
  lemma DisusedShorter(key: string)
    requires "disused:" <= key
    ensures |ReplaceFirst(ReplaceFirst(key, "abandoned:", ""), "disused:", "")| < |key|
  {
  }

  // ----- One prefixed feature tag -----

  lemma PrefixTaken(prefix: string, typ: string)
    requires prefix != ""
    ensures ReplaceFirst(prefix + typ, prefix, "") == typ
  {
  }

  /** A feature tag that was put behind a prefix is found again. */
  lemma TargetOf(prefix: string, m: nat)
    requires m < |TYPES| && (prefix == "abandoned:" || prefix == "demolished:")
    ensures Prefixed(prefix + TYPES[m]) && Target(prefix + TYPES[m]) == TYPES[m]
    ensures ConditionOf(prefix + TYPES[m]) == if prefix == "abandoned:" then "abandoned" else "dismantled"
  {
    TypeNames(m);
    if prefix == "abandoned:" {
      AbandonedTarget(TYPES[m]);
    } else {
      DemolishedTarget(TYPES[m]);
    }
  }

  lemma AbandonedTarget(typ: string)
    requires ':' !in typ
    ensures var key := "abandoned:" + typ; Prefixed(key) && Target(key) == typ && ConditionOf(key) == "abandoned"
  {
    PrefixTaken("abandoned:", typ);
    NoColonKept(typ, "disused:");
  }

  lemma DemolishedTarget(typ: string)
    ensures var key := "demolished:" + typ; Prefixed(key) && Target(key) == typ && ConditionOf(key) == "dismantled"
  {
    var key := "demolished:" + typ;
    PrefixTaken("demolished:", typ);
    assert key[0] == 'd' && key[1] == 'e' && "abandoned:"[0] == 'a' && "disused:"[1] == 'i';
    NoPrefix("abandoned:", key, 0);
    NoPrefix("disused:", key, 1);
  }

  lemma NoPrefix(prefix: string, key: string, i: nat)
    requires i < |prefix| && i < |key| && key[i] != prefix[i]
    ensures !(prefix <= key)
  {
  }

  lemma NoColonKept(s: string, sub: string)
    requires ':' !in s && |sub| > 0 && sub[|sub| - 1] == ':'
    ensures ReplaceFirst(s, sub, "") == s
  {
  }

  // ----- There and back -----

  lemma OsmKeys(tags: Tags, key: string)
    requires key in ToOsm(tags) && key !in tags && Prefixed(key)
    ensures exists n :: 0 <= n < |TYPES| && (key == "abandoned:" + TYPES[n] || key == "demolished:" + TYPES[n])
  {
    var n := FirstType(tags, 0);
    OtherNames();
    if n < |TYPES| {
      TypeNames(n);
      assert key == "abandoned:" + TYPES[n] || key == "demolished:" + TYPES[n];
    }
  }

  lemma {:induction false} Longest(keys: set<string>) returns (key: string)
    requires keys != {}
    ensures key in keys && forall k <- keys :: |k| <= |key|
  {
    var k :| k in keys;
    if keys == {k} {
      key := k;
    } else {
      var other := Longest(keys - {k});
      key := if |k| >= |other| then k else other;
    }
  }

  /** A key that already has one of the prefixes is lost. */
  lemma PrefixLost(tags: Tags, order: seq<string>)
    requires !Unprefixed(tags) && Enumerates(order, ToOsm(tags))
    ensures ToOgr(ToOsm(tags), order) != tags
  {
    var prefixed := set k | k in tags && Prefixed(k);
    var some :| some in tags && Prefixed(some);
    assert some in prefixed;
    var key := Longest(prefixed);
    forall i | 0 <= i < |order| && Prefixed(order[i])
      ensures Target(order[i]) != key
    {
      if order[i] in tags {
        assert order[i] in prefixed;
        TargetShorter(order[i]);
      } else {
        OsmKeys(tags, order[i]);
        var n :| 0 <= n < |TYPES| && (order[i] == "abandoned:" + TYPES[n] || order[i] == "demolished:" + TYPES[n]);
        TargetOf("abandoned:", n);
        TargetOf("demolished:", n);
        TypeNames(n);
      }
    }
    CleanRemoves(ToOsm(tags), order, key);
    CycleNeverAdds(CleanKeys(ToOsm(tags), order), 0, key);
  }

  lemma EmptyLost(tags: Tags, order: seq<string>)
    requires !Filled(tags) && Enumerates(order, ToOsm(tags))
    ensures ToOgr(ToOsm(tags), order) != tags
  {
    CleanFills(ToOsm(tags), order);
    CycleFilled(CleanKeys(ToOsm(tags), order), 0);
  }

  /** Under construction: the feature tag and the `construction` tag swap back. */
  lemma ConstructionTrip(tags: Tags, order: seq<string>)
    requires Filled(tags) && Unprefixed(tags) && UnderConstruction(tags)
    ensures ToOgr(ToOsm(tags), order) == tags <==> Stable(tags)
  {
    var n, osm := FirstType(tags, 0), ToOsm(tags);
    var typ := TYPES[n];
    TypeNames(n);
    OtherNames();
    ConstructionClean(tags, order);
    SkipTypes(tags, osm, n);
    ConstructionSwaps(tags);
    var rest := tags - {"construction"};
    NotAType("construction");
    if "construction" in tags {
      CycleFrame(rest, n + 1, "construction");
    } else {
      assert rest == tags;
      CycleIff(tags, n + 1);
    }
  }

  lemma ConstructionClean(tags: Tags, order: seq<string>)
    requires Filled(tags) && Unprefixed(tags) && UnderConstruction(tags)
    ensures CleanKeys(ToOsm(tags), order) == ToOsm(tags)
  {
    TypeNames(FirstType(tags, 0));
    OtherNames();
    assert Filled(ToOsm(tags)) && Unprefixed(ToOsm(tags));
    CleanNothing(ToOsm(tags), order);
  }

  lemma ConstructionSwaps(tags: Tags)
    requires Filled(tags) && UnderConstruction(tags)
    ensures CycleType(ToOsm(tags), FirstType(tags, 0)) == tags - {"construction"}
  {
  }

  lemma RenamedBack<K, V>(m: map<K, V>, key: K, typ: K, condition: K)
    requires typ in m && condition in m && key !in m && typ != condition
    ensures var osm := m[key := m[typ]] - {typ} - {condition};
            osm[typ := osm[key]][condition := m[condition]] - {key} == m
  {
  }

  /** Feature tags in front of the one that was worked on are not there. */
  lemma SkipTypes(tags: Tags, osm: Tags, n: nat)
    requires n == FirstType(tags, 0) < |TYPES| && Filled(tags)
    requires forall k <- osm :: k in tags || k == "construction"
    ensures Cycle(osm, 0) == Cycle(CycleType(osm, n), n + 1)
  {
    forall j | 0 <= j < n
      ensures TYPES[j] !in osm
    {
      NotAType("construction");
      assert !Truthy(tags, TYPES[j]);
    }
    SkipTo(osm, 0, n);
  }

  lemma {:induction false} SkipTo(tags: Tags, m: nat, n: nat)
    requires m <= n <= |TYPES| && forall j :: m <= j < n ==> TYPES[j] !in tags
    ensures Cycle(tags, m) == Cycle(tags, n)
    decreases n - m
  {
  }

  /** Abandoned or dismantled: the prefixed feature tag is renamed back. */
  lemma PrefixTrip(tags: Tags, order: seq<string>, prefix: string)
    requires Filled(tags) && Unprefixed(tags) && FirstType(tags, 0) < |TYPES|
    requires "condition" in tags
    requires (prefix == "abandoned:" && tags["condition"] == "abandoned")
             || (prefix == "demolished:" && tags["condition"] == "dismantled")
    requires Enumerates(order, ToOsm(tags))
    ensures CleanKeys(ToOsm(tags), order) == tags
  {
    var n, osm := FirstType(tags, 0), ToOsm(tags);
    var typ := TYPES[n];
    var key := prefix + typ;
    TypeNames(n);
    TargetOf(prefix, n);
    OtherNames();
    PrefixForm(tags, prefix);
    CleanOne(osm, order, key);
    RenamedBack(tags, key, typ, "condition");
  }

  lemma PrefixForm(tags: Tags, prefix: string)
    requires Filled(tags) && Unprefixed(tags) && FirstType(tags, 0) < |TYPES| && "condition" in tags
    requires (prefix == "abandoned:" && tags["condition"] == "abandoned")
             || (prefix == "demolished:" && tags["condition"] == "dismantled")
    ensures var typ, osm := TYPES[FirstType(tags, 0)], ToOsm(tags);
            var key := prefix + typ;
            && key !in tags && key in osm && osm[key] == tags[typ] && Filled(osm)
            && osm == tags[key := tags[typ]] - {typ} - {"condition"}
            && forall k <- osm :: k != key ==> !Prefixed(k)
  {
    var typ := TYPES[FirstType(tags, 0)];
    TargetOf(prefix, FirstType(tags, 0));
    TypeNames(FirstType(tags, 0));
    OtherNames();
    Renames(tags, prefix);
    RenamedForm(tags, typ, prefix + typ, "condition");
  }

  lemma Renames(tags: Tags, prefix: string)
    requires FirstType(tags, 0) < |TYPES| && "condition" in tags
    requires (prefix == "abandoned:" && tags["condition"] == "abandoned")
             || (prefix == "demolished:" && tags["condition"] == "dismantled")
    ensures var typ := TYPES[FirstType(tags, 0)];
            ToOsm(tags) == tags[prefix + typ := tags[typ]] - {typ} - {"condition"}
  {
  }

  lemma RenamedForm(tags: Tags, typ: string, key: string, condition: string)
    requires Filled(tags) && Unprefixed(tags) && Prefixed(key) && typ in tags && !Prefixed(typ) && !Prefixed(condition)
    ensures var osm := tags[key := tags[typ]] - {typ} - {condition};
            && key !in tags && key in osm && osm[key] == tags[typ] && Filled(osm)
            && forall k <- osm :: k != key ==> !Prefixed(k)
  {
  }

  /** Going to OSM and back gives a feature its own tags again if and only if they are
      stable, whatever the order in which the way back visits them. */
  lemma RoundTripIff(tags: Tags, order: seq<string>)
    requires Enumerates(order, ToOsm(tags))
    ensures ToOgr(ToOsm(tags), order) == tags <==> Stable(tags)
  {
    if !Filled(tags) {
      EmptyLost(tags, order);
    } else if !Unprefixed(tags) {
      PrefixLost(tags, order);
    } else if UnderConstruction(tags) {
      ConstructionTrip(tags, order);
    } else {
      if ToOsm(tags) == tags {
        CleanNothing(tags, order);
      } else if tags["condition"] == "abandoned" {
        PrefixTrip(tags, order, "abandoned:");
      } else {
        PrefixTrip(tags, order, "demolished:");
      }
      CycleIff(tags, 0);
    }
  }
}
