/** The export of translations/RenderDb.js as its caller sees it: what the clean-up of Hoot's
    own tags leaves, what stands in which column, and the way back. */
module RenderDbTranslate {
  import opened Lists
  import opened Objects
  import opened RenderDb
  import opened RenderDbColumns
  import opened RenderDbNames
  import opened RenderDbPacking
  import opened RenderDbRoundTrip
  import opened Renaming
  import opened Text
  import opened Wrappers

  // ----- The clean-up -----

  /** What the clean-up leaves under a key: the identifier moves to `osm_id` when there is none
      yet, and an invalid status, a layer name and an ingest time are dropped. */
  function CleanedAt(tags: Tags, key: string): Option<string> {
    var moved := Truthy(tags, "hoot:id") && !Truthy(tags, "osm_id");
    if key == "osm_id" then At(tags, if moved then "hoot:id" else "osm_id")
    else if key == "hoot:id" then if moved then None else At(tags, key)
    else if key == "hoot:status" && At(tags, key).Some? && tags[key] in ["invalid", "Invalid"] then None
    else if key in ["hoot:layername", "source:ingest:datetime"] && Truthy(tags, key) then None
    else At(tags, key)
  }

  ghost predicate Cleaned(tags: Tags, cleaned: Tags) {
    forall key :: At(cleaned, key) == CleanedAt(tags, key)
  }

  lemma KeysDiffer()
    ensures "osm_id" != "hoot:id" && "osm_id"[0] == 'o' && "hoot:id"[5] == 'i'
    ensures "hoot:status"[5] == 's' && "hoot:layername"[5] == 'l' && "source:ingest:datetime"[0] == 's'
  {
  }

  lemma CleansAt(tags: Tags, key: string)
    ensures At(DropMetadata(tags), key) == CleanedAt(tags, key)
  {
    KeysDiffer();
  }

  lemma SameAt(a: Tags, b: Tags)
    requires forall key :: At(a, key) == At(b, key)
    ensures a == b
  {
    forall key
      ensures key in a <==> key in b
      ensures key in a ==> a[key] == b[key]
    {
      assert At(a, key) == At(b, key);
    }
  }

  /** This is what the clean-up leaves, and nothing else is. */
  lemma CleanedIff(tags: Tags, cleaned: Tags)
    ensures Cleaned(tags, cleaned) <==> cleaned == DropMetadata(tags)
  {
    forall key
      ensures At(DropMetadata(tags), key) == CleanedAt(tags, key)
    {
      CleansAt(tags, key);
    }
    if Cleaned(tags, cleaned) {
      SameAt(cleaned, DropMetadata(tags));
    }
  }

  // ----- Tags that mark errors -----

  predicate Usable(key: string) {
    !Contains(key, "error:")
  }

  function Unmarked(tags: Tags): Tags {
    map key | key in tags && Usable(key) :: tags[key]
  }

  predicate UsableNames(c: Config) {
    forall k <- c.swap :: Usable(c.swap[k])
  }

  lemma SortUnmarked(s: Sorted, key: string, c: Config)
    requires UsableNames(c)
    ensures var t, plain := SortTag(s, key, c), Sorted(Unmarked(s.tags), s.list);
            Sorted(Unmarked(t.tags), t.list) == if Usable(key) then SortTag(plain, key, c) else plain
  {
  }

  lemma {:induction false} SortsUnmarked(s: Sorted, order: seq<string>, c: Config)
    requires UsableNames(c)
    ensures var t := SortTags(s, order, c);
            Sorted(Unmarked(t.tags), t.list) == SortTags(Sorted(Unmarked(s.tags), s.list), Filter(order, Usable), c)
    decreases |order|
  {
    if |order| > 0 {
      SortUnmarked(s, order[0], c);
      SortsUnmarked(SortTag(s, order[0], c), order[1..], c);
    }
  }

  lemma {:induction false} MarkedGo(s: Sorted, order: seq<string>, c: Config)
    requires UsableNames(c) && forall k <- s.tags :: Usable(k) || k in order
    ensures Unmarked(SortTags(s, order, c).tags) == SortTags(s, order, c).tags
    decreases |order|
  {
    if |order| > 0 {
      MarkedGo(SortTag(s, order[0], c), order[1..], c);
    }
  }

  lemma {:induction false} FilterOnce(order: seq<string>, keep: string -> bool)
    requires forall i, j :: 0 <= i < j < |order| ==> order[i] != order[j]
    ensures forall i, j :: 0 <= i < j < |Filter(order, keep)| ==> Filter(order, keep)[i] != Filter(order, keep)[j]
  {
    if |order| > 0 {
      FilterOnce(order[1..], keep);
      FilterIs(order[1..], keep);
      assert order[0] !in order[1..];
    }
  }

  lemma EnumeratesUnmarked(tags: Tags, order: seq<string>)
    requires Enumerates(order, tags)
    ensures Enumerates(Filter(order, Usable), Unmarked(tags))
  {
    FilterOnce(order, Usable);
    FilterIs(order, Usable);
    forall i | 0 <= i < |Filter(order, Usable)|
      ensures Filter(order, Usable)[i] in Unmarked(tags)
    {
      assert Filter(order, Usable)[i] in Filter(order, Usable);
    }
  }

  /** Tags that mark errors never come out, and make no difference to the others. */
  lemma ErrorsAreDropped(tags: Tags, order: seq<string>, c: Config)
    requires UsableNames(c) && Enumerates(order, tags)
    ensures Enumerates(Filter(order, Usable), Unmarked(tags))
    ensures Export(tags, order, c) == Export(Unmarked(tags), Filter(order, Usable), c)
  {
    EnumeratesUnmarked(tags, order);
    SortsUnmarked(Sorted(tags, []), order, c);
    MarkedGo(Sorted(tags, []), order, c);
  }

  // ----- What stands in the table -----

  /** Written out: the tags with a shorter name stand under it, those with a column under
      their own name, and the texts of the others in the text columns; nothing else is there. */
  ghost predicate Stands(tags: Tags, texts: seq<string>, c: Config, attrs: Tags) {
    && (forall k <- tags :: k in c.swap ==> At(attrs, c.swap[k]) == Some(tags[k]) && k !in attrs)
    && (forall k <- tags :: k !in c.swap ==> At(attrs, k) == if k in c.columns then Some(tags[k]) else None)
    && (forall i :: 0 <= i < |COLUMN_NAMES| ==>
          At(attrs, COLUMN_NAMES[i]) == if i < |texts| then Some(texts[i]) else if i == 0 then Some("") else None)
    && (forall a <- attrs :: a in COLUMN_NAMES || a in tags || exists k :: k in tags && k in c.swap && c.swap[k] == a)
  }

  lemma TextColumnsAt(groups: seq<seq<string>>, i: nat)
    requires |Texts(groups)| <= |COLUMN_NAMES| && i < |COLUMN_NAMES|
    ensures At(TextColumns(groups), COLUMN_NAMES[i])
            == if i < |Texts(groups)| then Some(Texts(groups)[i]) else if i == 0 then Some("") else None
  {
    if groups == [] {
      assert COLUMN_NAMES[0] == "tags";
      if i > 0 {
        NamesDiffer(0, i);
      }
    } else {
      TextMapAt(Texts(groups), 0, i);
    }
  }

  lemma ExportStands(tags: Tags, order: seq<string>, c: Config)
    requires Consistent(c) && Survivors(tags, c) && Enumerates(order, tags)
    ensures Stands(tags, Texts(Groups(Entries(PackedList(tags, order, c)), c)), c, Export(tags, order, c))
  {
    var groups := Groups(Entries(PackedList(tags, order, c)), c);
    var out := ExportForm(tags, order, c);
    TextColumnsAreNamed(groups);
    forall i | 0 <= i < |COLUMN_NAMES|
      ensures At(TextColumns(groups), COLUMN_NAMES[i])
              == if i < |Texts(groups)| then Some(Texts(groups)[i]) else if i == 0 then Some("") else None
    {
      TextColumnsAt(groups, i);
    }
    OutHasNoTexts(tags, c, out);
    OutStands(tags, Texts(groups), TextColumns(groups), c, out);
  }

  /** The tags in their columns, with nothing named like a text column among them. */
  ghost predicate InColumns(tags: Tags, c: Config, out: Tags) {
    && Fresh(tags, c.swap, c.restore) && Renaming.Result(tags, c.swap, c.restore, c.columns, out)
    && (forall k <- out :: k !in COLUMN_NAMES) && (forall k <- tags :: k !in COLUMN_NAMES)
    && (forall k <- c.swap :: c.swap[k] !in COLUMN_NAMES)
  }

  lemma OutHasNoTexts(tags: Tags, c: Config, out: Tags)
    requires Consistent(c) && Survivors(tags, c) && Fresh(tags, c.swap, c.restore)
    requires Renaming.Result(tags, c.swap, c.restore, c.columns, out)
    ensures InColumns(tags, c, out)
  {
    SurvivorsAreNotNames(tags, c);
    forall k | k in c.swap
      ensures c.swap[k] !in COLUMN_NAMES
    {
      assert c.swap[k] in c.restore;
    }
    forall k | k in out
      ensures k !in COLUMN_NAMES
    {
      assert k in tags || k in c.restore;
    }
  }

  lemma Beside(out: Tags, extra: Tags, k: string)
    requires forall a <- extra :: a in COLUMN_NAMES
    requires forall a <- out :: a !in COLUMN_NAMES
    ensures At(out + extra, k) == if k in COLUMN_NAMES then At(extra, k) else At(out, k)
  {
  }

  lemma TagStands(tags: Tags, extra: Tags, c: Config, out: Tags, k: string)
    requires InColumns(tags, c, out) && (forall a <- extra :: a in COLUMN_NAMES) && k in tags
    ensures k in c.swap ==> At(out + extra, c.swap[k]) == Some(tags[k]) && k !in out + extra
    ensures k !in c.swap ==> At(out + extra, k) == if k in c.columns then Some(tags[k]) else None
  {
    Beside(out, extra, k);
    if k in c.swap {
      Beside(out, extra, c.swap[k]);
    }
  }

  lemma NothingElse(tags: Tags, extra: Tags, c: Config, out: Tags, a: string)
    requires InColumns(tags, c, out) && (forall k <- extra :: k in COLUMN_NAMES) && a in out + extra
    ensures a in COLUMN_NAMES || a in tags || exists k :: k in tags && k in c.swap && c.swap[k] == a
  {
    if a in out && a !in tags {
      assert c.restore[a] in tags && c.swap[c.restore[a]] == a;
    }
  }

  lemma OutStands(tags: Tags, texts: seq<string>, extra: Tags, c: Config, out: Tags)
    requires InColumns(tags, c, out)
    requires forall k <- extra :: k in COLUMN_NAMES
    requires forall i :: 0 <= i < |COLUMN_NAMES| ==>
               At(extra, COLUMN_NAMES[i]) == if i < |texts| then Some(texts[i]) else if i == 0 then Some("") else None
    ensures Stands(tags, texts, c, out + extra)
  {
    forall k | k in tags
      ensures k in c.swap ==> At(out + extra, c.swap[k]) == Some(tags[k]) && k !in out + extra
      ensures k !in c.swap ==> At(out + extra, k) == if k in c.columns then Some(tags[k]) else None
    {
      TagStands(tags, extra, c, out, k);
    }
    forall i | 0 <= i < |COLUMN_NAMES|
      ensures At(out + extra, COLUMN_NAMES[i]) == At(extra, COLUMN_NAMES[i])
    {
      Beside(out, extra, COLUMN_NAMES[i]);
    }
    forall a | a in out + extra
      ensures a in COLUMN_NAMES || a in tags || exists k :: k in tags && k in c.swap && c.swap[k] == a
    {
      NothingElse(tags, extra, c, out, a);
    }
  }

  // ----- There and back -----

  /** What the whole export writes is what it would write for the cleaned tags without those
      that mark errors, and importing it gives these back, as far as they found room. */
  lemma TranslateRoundTrip(tags: Tags, cleaned: Tags, order: seq<string>, back: seq<string>, c: Config)
    requires Cleaned(tags, cleaned) && Consistent(c) && UsableNames(c) && Survivors(Unmarked(cleaned), c)
    requires Enumerates(order, cleaned) && Enumerates(back, Export(DropMetadata(tags), order, c))
    ensures var kept, visit, attrs := Unmarked(cleaned), Filter(order, Usable), Export(DropMetadata(tags), order, c);
            && Stands(kept, Texts(Groups(Entries(PackedList(kept, visit, c)), c)), c, attrs)
            && Import(attrs, back, c) == Ok(Returned(kept, visit, c))
            && (HasRoom(kept, visit, c) ==>
                  Returned(kept, visit, c) == if PackedList(kept, visit, c) == [] then kept + map["tags" := ""] else kept)
  {
    var kept, visit := Unmarked(cleaned), Filter(order, Usable);
    CleanedIff(tags, cleaned);
    ErrorsAreDropped(cleaned, order, c);
    ExportStands(kept, visit, c);
    RoundTrip(kept, visit, back, c);
    if HasRoom(kept, visit, c) {
      LosslessWithRoom(kept, visit, c);
    }
  }

  /** So a feature that has only Hoot's identifier comes back with it as `osm_id`. */
  lemma IdentifierComesBack(tags: Tags, cleaned: Tags, order: seq<string>, back: seq<string>, c: Config)
    requires Cleaned(tags, cleaned) && Consistent(c) && UsableNames(c) && Survivors(Unmarked(cleaned), c)
    requires Enumerates(order, cleaned) && Enumerates(back, Export(DropMetadata(tags), order, c))
    requires Truthy(tags, "hoot:id") && !Truthy(tags, "osm_id")
    requires HasRoom(Unmarked(cleaned), Filter(order, Usable), c)
    ensures var r := Import(Export(DropMetadata(tags), order, c), back, c);
            r.Ok? && At(r.value, "osm_id") == Some(tags["hoot:id"]) && "hoot:id" !in r.value
  {
    TranslateRoundTrip(tags, cleaned, order, back, c);
    var kept, r := Unmarked(cleaned), Import(Export(DropMetadata(tags), order, c), back, c).value;
    IdentifierIsUsable();
    IdentifierIsKept(tags, cleaned);
    BesideText(kept, r, "osm_id");
    BesideText(kept, r, "hoot:id");
  }

  lemma BesideText(kept: Tags, r: Tags, key: string)
    requires (r == kept || r == kept + map["tags" := ""]) && key != "tags"
    ensures At(r, key) == At(kept, key)
  {
  }

  lemma IdentifierIsKept(tags: Tags, cleaned: Tags)
    requires Cleaned(tags, cleaned) && Truthy(tags, "hoot:id") && !Truthy(tags, "osm_id") && Usable("osm_id")
    ensures At(Unmarked(cleaned), "osm_id") == Some(tags["hoot:id"]) && "hoot:id" !in Unmarked(cleaned)
  {
    KeysDiffer();
    assert At(cleaned, "osm_id") == CleanedAt(tags, "osm_id");
    assert At(cleaned, "hoot:id") == CleanedAt(tags, "hoot:id");
  }

  lemma NoColon(name: string)
    requires forall i :: 0 <= i < |name| ==> name[i] != ':'
    ensures Usable(name)
  {
    forall j
      ensures !OccursAt(name, "error:", j)
    {
      if 0 <= j && j + 6 <= |name| {
        assert name[j + 5] != ':' && "error:"[5] == ':';
        assert name[j..j + 6][5] == name[j + 5];
      }
    }
  }

  lemma IdentifierIsUsable()
    ensures Usable("osm_id") && "osm_id" != "tags" && "hoot:id" != "tags" && "osm_id" != "hoot:id"
  {
    NoColon("osm_id");
  }

  /** None of the shorter names marks an error. */
  lemma ShorterNamesAreUsable(columns: set<string>)
    ensures UsableNames(Config(Listed(SHP_SWAP_LIST), InputSwapList(), columns, true))
    ensures UsableNames(Config(Listed(GDB_SWAP_LIST), InputSwapList(), columns, false))
    ensures UsableNames(Config(map[], InputSwapList(), columns, false))
  {
    forall i | 0 <= i < |SHP_SWAP_LIST|
      ensures forall j :: 0 <= j < |SHP_SWAP_LIST[i].column| ==> SHP_SWAP_LIST[i].column[j] != ':'
    {
      ShpWithoutColon(i);
    }
    forall i | 0 <= i < |GDB_SWAP_LIST|
      ensures forall j :: 0 <= j < |GDB_SWAP_LIST[i].column| ==> GDB_SWAP_LIST[i].column[j] != ':'
    {
      GdbWithoutColon(i);
    }
    ListedUsable(SHP_SWAP_LIST);
    ListedUsable(GDB_SWAP_LIST);
  }

  predicate WithoutColon(list: seq<Rename>) {
    forall i :: 0 <= i < |list| ==> forall j :: 0 <= j < |list[i].column| ==> list[i].column[j] != ':'
  }

  lemma ShpWithoutColon(i: nat)
    requires i < |SHP_SWAP_LIST|
    ensures forall j :: 0 <= j < |SHP_SWAP_LIST[i].column| ==> SHP_SWAP_LIST[i].column[j] != ':'
  {
  }

  lemma GdbWithoutColon(i: nat)
    requires i < |GDB_SWAP_LIST|
    ensures forall j :: 0 <= j < |GDB_SWAP_LIST[i].column| ==> GDB_SWAP_LIST[i].column[j] != ':'
  {
  }

  lemma ListedUsable(list: seq<Rename>)
    requires WithoutColon(list)
    ensures forall k <- Listed(list) :: Usable(Listed(list)[k])
  {
    ListedFrom(list);
    forall k | k in Listed(list)
      ensures Usable(Listed(list)[k])
    {
      var i :| 0 <= i < |list| && list[i] == Rename(k, Listed(list)[k]);
      NoColon(list[i].column);
    }
  }
}
