/** What the two lifecycle blocks of translations/dnc_core.js make of every tag: which feature
    tag gets which value, and which condition is left. */
module DncLifecycleWords {
  import opened DncLifecycle
  import opened DncLifecycleRoundTrip
  import opened Objects
  import opened Text
  import opened Wrappers

  /** The feature tags in their order, and what an unknown feature is taken for. */
  lemma Features()
    ensures TYPES == ["highway", "bridge", "railway", "building"] && DEFAULTS == ["road", "yes", "rail", "yes"]
  {
  }

  // ----- To OSM -----

  /** The feature tag that is worked on: the first one with a value. */
  predicate Worked(tags: Tags, n: nat) {
    n < |TYPES| && Truthy(tags, TYPES[n]) && forall j :: 0 <= j < n ==> !Truthy(tags, TYPES[j])
  }

  /** The prefix for a condition, other than construction. */
  function PrefixFor(condition: string): Option<string> {
    if condition == "abandoned" then Some("abandoned:") else if condition == "dismantled" then Some("demolished:") else None
  }

  /** What stands under a key on the way to OSM. */
  function OsmAt(tags: Tags, n: nat, key: string): Option<string>
    requires n < |TYPES| && TYPES[n] in tags && "condition" in tags
  {
    var typ, condition := TYPES[n], tags["condition"];
    if condition == "construction" then
      if key == "condition" then None
      else if key == typ then Some("construction")
      else if key == "construction" then Some(tags[typ])
      else At(tags, key)
    else if PrefixFor(condition).Some? then
      if key == "condition" || key == typ then None
      else if key == PrefixFor(condition).value + typ then Some(tags[typ])
      else At(tags, key)
    else At(tags, key)
  }

  /** Under construction the value goes into a tag of its own; an abandoned or dismantled
      feature gets a prefix; every other tag stays, and so does a feature without condition. */
  lemma OsmTags(tags: Tags, n: nat, key: string)
    ensures Worked(tags, n) && "condition" in tags ==> At(ToOsm(tags), key) == OsmAt(tags, n, key)
    ensures "condition" !in tags || (forall j :: 0 <= j < |TYPES| ==> !Truthy(tags, TYPES[j])) ==> ToOsm(tags) == tags
  {
    if Worked(tags, n) && "condition" in tags {
      TypeNames(n);
      OtherNames();
      assert FirstType(tags, 0) == n;
      PrefixIsLonger(n, key);
    }
  }

  lemma PrefixIsLonger(n: nat, key: string)
    requires n < |TYPES|
    ensures key == "abandoned:" + TYPES[n] || key == "demolished:" + TYPES[n] ==> key != TYPES[n] && key != "condition"
  {
    assert |"abandoned:"| == 10 && |"demolished:"| == 11 && "condition"[0] == 'c' && "abandoned:"[0] == 'a' && "demolished:"[0] == 'd';
  }

  // ----- To OGR: one feature tag -----

  /** The condition for a lifecycle word. */
  function ConditionFor(word: string): Option<string> {
    if word == "construction" then Some("construction")
    else if word == "proposed" then Some("proposed")
    else if word == "abandoned" || word == "disused" then Some("abandoned")
    else if word == "destroyed" then Some("destroyed")
    else if word == "demolished" then Some("dismantled")
    else None
  }

  /** Words under whose name the real value may stand. */
  predicate Swaps(word: string) {
    word == "construction" || word == "proposed"
  }

  /** What stands under a key after one feature tag has been looked at. */
  function TurnedAt(tags: Tags, m: nat, key: string): Option<string>
    requires m < |TYPES|
  {
    var typ := TYPES[m];
    if typ !in tags || ConditionFor(tags[typ]).None? then At(tags, key)
    else
      var word := tags[typ];
      var there := Swaps(word) && Truthy(tags, word);
      if key == "condition" then ConditionFor(word)
      else if key == typ then Some(if there then tags[word] else DEFAULTS[m])
      else if key == word && there then None
      else At(tags, key)
  }

  lemma Turned(tags: Tags, m: nat, key: string)
    requires m < |TYPES|
    ensures At(CycleType(tags, m), key) == TurnedAt(tags, m, key)
  {
    TypeNames(m);
    OtherNames();
  }

  // ----- To OGR: all feature tags -----

  predicate Says(tags: Tags, n: nat, word: string)
    requires n < |TYPES|
  {
    TYPES[n] in tags && tags[TYPES[n]] == word
  }

  predicate HasWord(tags: Tags, n: nat)
    requires n < |TYPES|
  {
    TYPES[n] in tags && ConditionFor(tags[TYPES[n]]).Some?
  }

  /** The value of a feature tag: for a lifecycle word, the real value, unless an earlier
      feature tag took it, and else the usual one. */
  function FeatureAt(tags: Tags, m: nat, n: nat): Option<string>
    requires m <= n < |TYPES|
  {
    if !HasWord(tags, n) then At(tags, TYPES[n])
    else
      var word := tags[TYPES[n]];
      if Swaps(word) && Truthy(tags, word) && forall j :: m <= j < n ==> !Says(tags, j, word) then Some(tags[word])
      else Some(DEFAULTS[n])
  }

  lemma NamesApart(m: nat, n: nat, word: string)
    requires m < |TYPES| && n < |TYPES|
    ensures m != n ==> TYPES[m] != TYPES[n]
    ensures Swaps(word) ==> word != TYPES[n] && word != "condition"
    ensures TYPES[n] != "condition"
  {
    TypeNames(n);
    OtherNames();
    if m < n {
      LaterTypes(m);
    } else if n < m {
      LaterTypes(n);
    }
  }

  /** A turn leaves the later feature tags alone. */
  lemma LaterKept(tags: Tags, m: nat)
    requires m < |TYPES|
    ensures forall j :: m < j < |TYPES| ==> At(CycleType(tags, m), TYPES[j]) == At(tags, TYPES[j])
  {
    forall j | m < j < |TYPES|
      ensures At(CycleType(tags, m), TYPES[j]) == At(tags, TYPES[j])
    {
      NamesApart(m, j, if TYPES[m] in tags then tags[TYPES[m]] else "");
      Turned(tags, m, TYPES[j]);
    }
  }

  /** A turn takes the real value away when its feature tag says the name. */
  lemma SwapTurned(tags: Tags, m: nat, word: string)
    requires m < |TYPES| && Swaps(word)
    ensures At(CycleType(tags, m), word) == if Truthy(tags, word) && Says(tags, m, word) then None else At(tags, word)
  {
    NamesApart(m, m, word);
    Turned(tags, m, word);
  }

  lemma {:induction false} FeatureAfter(tags: Tags, m: nat, n: nat)
    requires m <= n < |TYPES|
    ensures At(Cycle(tags, m), TYPES[n]) == FeatureAt(tags, m, n)
    decreases n - m
  {
    var next := CycleType(tags, m);
    if m == n {
      TypeNames(n);
      OtherNames();
      Turned(tags, m, TYPES[n]);
      LaterTypes(n);
      CycleFrame(next, n + 1, TYPES[n]);
    } else {
      FeatureAfter(next, m + 1, n);
      LaterKept(tags, m);
      assert At(next, TYPES[n]) == At(tags, TYPES[n]);
      NextFeature(tags, next, m, n);
    }
  }

  /** After a turn a later feature tag is in for the same. */
  lemma NextFeature(tags: Tags, next: Tags, m: nat, n: nat)
    requires m < n < |TYPES| && next == CycleType(tags, m)
    requires forall j :: m < j < |TYPES| ==> At(next, TYPES[j]) == At(tags, TYPES[j])
    ensures FeatureAt(next, m + 1, n) == FeatureAt(tags, m, n)
  {
    assert At(next, TYPES[n]) == At(tags, TYPES[n]);
    if HasWord(tags, n) && Swaps(tags[TYPES[n]]) {
      var word := tags[TYPES[n]];
      SwapTurned(tags, m, word);
      forall j | m < j < n
        ensures Says(next, j, word) <==> Says(tags, j, word)
      {
        assert At(next, TYPES[j]) == At(tags, TYPES[j]);
      }
    }
  }

  /** The tag with the real value is taken away when some feature tag says its name. */
  lemma {:induction false} SwapAfter(tags: Tags, m: nat, word: string)
    requires m <= |TYPES| && Swaps(word)
    ensures At(Cycle(tags, m), word)
            == if Truthy(tags, word) && exists j :: m <= j < |TYPES| && Says(tags, j, word) then None else At(tags, word)
    decreases |TYPES| - m
  {
    if m < |TYPES| {
      var next := CycleType(tags, m);
      SwapTurned(tags, m, word);
      SwapAfter(next, m + 1, word);
      LaterKept(tags, m);
      assert forall j :: m < j < |TYPES| ==> At(next, TYPES[j]) == At(tags, TYPES[j]);
      assert forall j :: m < j < |TYPES| ==> (Says(next, j, word) <==> Says(tags, j, word));
    }
  }

  lemma NoTurn(tags: Tags, m: nat)
    requires m < |TYPES| && !HasWord(tags, m)
    ensures CycleType(tags, m) == tags
  {
  }

  /** Without lifecycle words nothing changes. */
  lemma {:induction false} NoWordsNoChange(tags: Tags, m: nat)
    requires m <= |TYPES| && forall j :: m <= j < |TYPES| ==> !HasWord(tags, j)
    ensures Cycle(tags, m) == tags
    decreases |TYPES| - m
  {
    if m < |TYPES| {
      NoTurn(tags, m);
      NoWordsNoChange(tags, m + 1);
    }
  }

  /** The condition is that of the last feature tag with a lifecycle word. */
  lemma {:induction false} ConditionAfter(tags: Tags, m: nat, n: nat)
    requires m <= n < |TYPES| && HasWord(tags, n) && forall j :: n < j < |TYPES| ==> !HasWord(tags, j)
    ensures At(Cycle(tags, m), "condition") == ConditionFor(tags[TYPES[n]])
    decreases n - m
  {
    var next := CycleType(tags, m);
    LaterKept(tags, m);
    assert forall j :: m < j < |TYPES| ==> At(next, TYPES[j]) == At(tags, TYPES[j]);
    assert forall j :: m < j < |TYPES| ==> (HasWord(next, j) <==> HasWord(tags, j));
    if m == n {
      Turned(tags, m, "condition");
      NoWordsNoChange(next, m + 1);
    } else {
      ConditionAfter(next, m + 1, n);
    }
  }

  lemma {:induction false} OthersStay(tags: Tags, m: nat, key: string)
    requires m <= |TYPES| && key != "condition" && !Swaps(key) && forall j :: m <= j < |TYPES| ==> key != TYPES[j]
    ensures At(Cycle(tags, m), key) == At(tags, key)
  {
    CycleFrame(tags, m, key);
  }

  // ----- To OGR: the clean-up -----

  /** The key has a lifecycle prefix, and a value that moves to the key without it. */
  predicate Moves(tags: Tags, key: string) {
    key in tags && tags[key] != "" && Prefixed(key)
  }

  /** No such value moves to a key that is there, or to that of another one. */
  predicate NoClash(tags: Tags) {
    && (forall k <- tags :: Moves(tags, k) ==> Target(k) !in tags && !Prefixed(Target(k)) && Target(k) != "condition")
    && (forall j, k :: j in tags && k in tags && j != k && Moves(tags, j) && Moves(tags, k) ==> Target(j) != Target(k))
  }

  /** What has become of the keys that were visited: those in `gone` are gone, what stood under
      a key of `to` stands under its target, and nothing else has come but the extra key. */
  ghost predicate Carried<K, V>(m: map<K, V>, gone: set<K>, to: map<K, K>, extra: K, done: set<K>, now: map<K, V>) {
    && (forall k <- m :: k != extra && !(k in done && k in gone) ==> k in now && now[k] == m[k])
    && (forall k <- gone :: k != extra && k in done ==> k !in now)
    && (forall k <- to :: k in done && k in m ==> to[k] in now && now[to[k]] == m[k])
    && (forall key <- now :: key in m || key == extra || exists k :: k in to && k in done && to[k] == key)
  }

  ghost predicate Separate<K, V>(m: map<K, V>, gone: set<K>, to: map<K, K>, extra: K) {
    && (forall k <- gone :: k in m)
    && (forall k <- to :: k in gone && k != extra && to[k] !in m && to[k] != extra)
    && (forall j, k :: j in to && k in to && j != k ==> to[j] != to[k])
  }

  lemma CarryOne<K, V>(m: map<K, V>, gone: set<K>, to: map<K, K>, extra: K, done: set<K>, now: map<K, V>, k: K, v: V)
    requires Separate(m, gone, to, extra) && Carried(m, gone, to, extra, done, now) && k in to && k !in done
    ensures k in now
    ensures Carried(m, gone, to, extra, done + {k}, now[to[k] := now[k]][extra := v] - {k})
  {
    var next := now[to[k] := m[k]][extra := v] - {k};
    forall key | key in next
      ensures key in m || key == extra || exists j :: j in to && j in done + {k} && to[j] == key
    {
      if key == to[k] {
        assert k in done + {k};
      }
    }
  }

  lemma DropOne<K, V>(m: map<K, V>, gone: set<K>, to: map<K, K>, extra: K, done: set<K>, now: map<K, V>, k: K)
    requires Separate(m, gone, to, extra) && Carried(m, gone, to, extra, done, now) && k in m && k !in to && k !in done
    ensures (k in gone || k == extra) ==> Carried(m, gone, to, extra, done + {k}, now - {k})
    ensures (k !in gone || k == extra) ==> Carried(m, gone, to, extra, done + {k}, now)
  {
  }

  /** The keys that are gone after their visit. */
  function Gone(tags: Tags): set<string> {
    set k | k in tags && (tags[k] == "" || Prefixed(k))
  }

  function Targets(tags: Tags): map<string, string> {
    map k | k in tags && Moves(tags, k) :: Target(k)
  }

  ghost predicate Cleaned(tags: Tags, done: set<string>, cleaned: Tags) {
    Carried(tags, Gone(tags), Targets(tags), "condition", done, cleaned)
  }

  lemma ClashFree(tags: Tags)
    requires NoClash(tags)
    ensures Separate(tags, Gone(tags), Targets(tags), "condition")
  {
    OtherNames();
  }

  lemma CleanVisit(tags: Tags, done: set<string>, cleaned: Tags, k: string)
    requires NoClash(tags) && Cleaned(tags, done, cleaned) && k in tags && k !in done
    ensures Cleaned(tags, done + {k}, CleanKey(cleaned, k))
  {
    ClashFree(tags);
    OtherNames();
    if Moves(tags, k) {
      CarryOne(tags, Gone(tags), Targets(tags), "condition", done, cleaned, k, ConditionOf(k));
      CleanPrefixed(cleaned, k);
    } else {
      DropOne(tags, Gone(tags), Targets(tags), "condition", done, cleaned, k);
      KeyCleaned(cleaned, k);
    }
  }

  lemma KeyCleaned(tags: Tags, k: string)
    ensures k in tags && tags[k] == "" ==> CleanKey(tags, k) == tags - {k}
    ensures k !in tags || (tags[k] != "" && !Prefixed(k)) ==> CleanKey(tags, k) == tags
  {
  }

  lemma {:induction false} CleansAll(tags: Tags, order: seq<string>, done: set<string>, now: Tags)
    requires NoClash(tags) && Cleaned(tags, done, now)
    requires forall i :: 0 <= i < |order| ==> order[i] in tags && order[i] !in done
    requires forall i, j :: 0 <= i < j < |order| ==> order[i] != order[j]
    ensures Cleaned(tags, done + (set k | k in order), CleanKeys(now, order))
    decreases |order|
  {
    if |order| == 0 {
      assert done + (set k | k in order) == done;
    } else {
      CleanVisit(tags, done, now, order[0]);
      CleansAll(tags, order[1..], done + {order[0]}, CleanKey(now, order[0]));
      assert done + {order[0]} + (set k | k in order[1..]) == done + (set k | k in order);
    }
  }

  /** After the clean-up, but for the condition: no empty and no prefixed tag is left, the
      values of the prefixed ones stand without the prefix, and all other tags stay. */
  lemma CleanedTags(tags: Tags, order: seq<string>, key: string)
    requires NoClash(tags) && Enumerates(order, tags) && key != "condition"
    ensures key in tags ==> At(CleanKeys(tags, order), key) == if tags[key] == "" || Prefixed(key) then None else Some(tags[key])
    ensures key !in tags && key in CleanKeys(tags, order) ==>
              exists k :: Moves(tags, k) && Target(k) == key && CleanKeys(tags, order)[key] == tags[k]
    ensures forall k :: Moves(tags, k) && Target(k) == key ==> At(CleanKeys(tags, order), key) == Some(tags[k])
  {
    ClashFree(tags);
    CleansAll(tags, order, {}, tags);
    assert {} + (set k | k in order) == tags.Keys;
    var now := CleanKeys(tags, order);
    assert Cleaned(tags, tags.Keys, now);
    if key in now && key !in tags {
      var k :| k in Targets(tags) && k in tags.Keys && Targets(tags)[k] == key;
      assert Moves(tags, k) && now[Targets(tags)[k]] == tags[k];
    }
    forall k | Moves(tags, k) && Target(k) == key
      ensures At(now, key) == Some(tags[k])
    {
      assert k in Targets(tags) && Targets(tags)[k] == key;
    }
  }

  lemma {:induction false} ConditionKept(now: Tags, order: seq<string>)
    requires forall i :: 0 <= i < |order| ==> !Moves(now, order[i])
    requires "condition" in now && now["condition"] != ""
    ensures At(CleanKeys(now, order), "condition") == At(now, "condition")
    decreases |order|
  {
    if |order| > 0 {
      KeyCleaned(now, order[0]);
      ConditionKept(CleanKey(now, order[0]), order[1..]);
    }
  }

  /** These keys are still to be visited, each once. */
  predicate ToVisit(tags: Tags, order: seq<string>, done: set<string>) {
    && (forall i :: 0 <= i < |order| ==> order[i] in tags && order[i] !in done)
    && (forall i, j :: 0 <= i < j < |order| ==> order[i] != order[j])
  }

  /** No value behind this place moves. */
  predicate LastMove(tags: Tags, order: seq<string>, n: nat) {
    n < |order| && Moves(tags, order[n]) && forall i :: n < i < |order| ==> !Moves(tags, order[i])
  }

  lemma VisitRest(tags: Tags, order: seq<string>, done: set<string>, n: nat)
    requires ToVisit(tags, order, done) && LastMove(tags, order, n)
    ensures n > 0 ==> ToVisit(tags, order[1..], done + {order[0]}) && LastMove(tags, order[1..], n - 1)
  {
  }

  lemma {:induction false} CleansCondition(tags: Tags, order: seq<string>, n: nat, done: set<string>, now: Tags)
    requires NoClash(tags) && Cleaned(tags, done, now) && ToVisit(tags, order, done) && LastMove(tags, order, n)
    ensures At(CleanKeys(now, order), "condition") == Some(ConditionOf(order[n]))
    decreases |order|
  {
    CleanVisit(tags, done, now, order[0]);
    if n > 0 {
      VisitRest(tags, order, done, n);
      CleansCondition(tags, order[1..], n - 1, done + {order[0]}, CleanKey(now, order[0]));
    } else {
      NotYetMoved(tags, done, now, order[0]);
      LastPrefixed(tags, order, done, now);
    }
  }

  lemma NotYetMoved(tags: Tags, done: set<string>, now: Tags, key: string)
    requires NoClash(tags) && Cleaned(tags, done, now) && key !in done && Moves(tags, key)
    ensures key in now && now[key] == tags[key]
  {
    ClashFree(tags);
    OtherNames();
  }

  lemma LastPrefixed(tags: Tags, order: seq<string>, done: set<string>, now: Tags)
    requires |order| > 0 && order[0] in now && order[0] in tags && now[order[0]] == tags[order[0]] && Moves(tags, order[0])
    requires NoClash(tags) && Cleaned(tags, done + {order[0]}, CleanKey(now, order[0]))
    requires forall i :: 0 < i < |order| ==> order[i] in tags && order[i] !in done && order[i] != order[0] && !Moves(tags, order[i])
    ensures At(CleanKeys(now, order), "condition") == Some(ConditionOf(order[0]))
  {
    var next, rest := CleanKey(now, order[0]), order[1..];
    OtherNames();
    CleanPrefixed(now, order[0]);
    assert At(next, "condition") == Some(ConditionOf(order[0]));
    forall i | 0 <= i < |rest|
      ensures !Moves(next, rest[i])
    {
      assert rest[i] == order[i + 1];
      NotMoved(tags, done + {order[0]}, next, rest[i]);
    }
    ConditionKept(next, rest);
  }

  lemma NotMoved(tags: Tags, done: set<string>, now: Tags, key: string)
    requires Cleaned(tags, done, now) && key in tags && key !in done && !Moves(tags, key)
    ensures !Moves(now, key)
  {
    OtherNames();
  }

  /** The condition is that of the prefixed tag that was visited last. */
  lemma CleanedCondition(tags: Tags, order: seq<string>, n: nat)
    requires NoClash(tags) && Enumerates(order, tags) && LastMove(tags, order, n)
    ensures At(CleanKeys(tags, order), "condition") == Some(ConditionOf(order[n]))
  {
    ClashFree(tags);
    CleansCondition(tags, order, n, {}, tags);
  }

  /** Without prefixed tags the condition stays, unless it is empty. */
  lemma {:induction false} CleanedWithoutPrefix(now: Tags, order: seq<string>)
    requires forall k <- now :: !Moves(now, k)
    requires "condition" in now && now["condition"] == "" ==> "condition" in order
    ensures At(CleanKeys(now, order), "condition") == if Truthy(now, "condition") then At(now, "condition") else None
    decreases |order|
  {
    if |order| > 0 {
      KeyCleaned(now, order[0]);
      CleanedWithoutPrefix(CleanKey(now, order[0]), order[1..]);
    }
  }

  /** The four prefixes, with what they say about the condition. */
  lemma Prefixes(rest: string)
    requires ':' !in rest
    ensures Prefixed("abandoned:" + rest) && Target("abandoned:" + rest) == rest && ConditionOf("abandoned:" + rest) == "abandoned"
    ensures Prefixed("disused:" + rest) && Target("disused:" + rest) == rest && ConditionOf("disused:" + rest) == "abandoned"
    ensures Prefixed("demolished:" + rest) && Target("demolished:" + rest) == rest && ConditionOf("demolished:" + rest) == "dismantled"
    ensures Prefixed("construction:" + rest) && Target("construction:" + rest) == rest
    ensures ConditionOf("construction:" + rest) == "construction"
  {
    AbandonedTarget(rest);
    DemolishedTarget(rest);
    DisusedTarget(rest);
    ConstructionTarget(rest);
  }

  lemma DisusedTarget(rest: string)
    requires ':' !in rest
    ensures var key := "disused:" + rest; Prefixed(key) && Target(key) == rest && ConditionOf(key) == "abandoned"
  {
    var key := "disused:" + rest;
    PrefixTaken("disused:", rest);
    forall j
      ensures !OccursAt(key, "abandoned:", j)
    {
      if 0 <= j && j + 10 <= |key| {
        assert key[j..j + 10][9] == key[j + 9] && "abandoned:"[9] == ':';
        assert j + 9 >= 8 && key[j + 9] == rest[j + 1];
      }
    }
  }

  lemma ConstructionTarget(rest: string)
    ensures var key := "construction:" + rest; Prefixed(key) && Target(key) == rest && ConditionOf(key) == "construction"
  {
    var key := "construction:" + rest;
    PrefixTaken("construction:", rest);
    assert key[0] == 'c' && "abandoned:"[0] == 'a' && "disused:"[0] == 'd' && "demolished:"[0] == 'd';
    NoPrefix("abandoned:", key, 0);
    NoPrefix("disused:", key, 0);
    NoPrefix("demolished:", key, 0);
  }
}
