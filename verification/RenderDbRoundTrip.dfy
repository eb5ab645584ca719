/** Exporting with translations/RenderDb.js and importing again. */
module RenderDbRoundTrip {
  import opened Lists
  import opened Objects
  import opened Renaming
  import opened RenderDb
  import opened RenderDbColumns
  import opened RenderDbPacking
  import opened Text
  import opened Wrappers

  /** The renaming lists undo each other and leave the text columns alone. */
  predicate Consistent(c: Config) {
    && (forall k <- c.swap :: c.swap[k] in c.restore && c.restore[c.swap[k]] == k)
    && (forall n <- COLUMN_NAMES :: n !in c.restore && n !in c.swap)
  }

  /** A tag with neither a column nor a shorter column name is packed into a text column. */
  predicate IsPacked(key: string, c: Config) {
    key !in c.swap && key !in c.columns
  }

  /** What a tag must look like to come back under its own name and with its own value. */
  predicate Survivor(tags: Tags, key: string, c: Config)
    requires key in tags
  {
    && !Contains(key, "error:") && key !in COLUMN_NAMES
    && (key in c.swap ==> c.swap[key] !in tags)
    && (key !in c.swap && key in c.columns ==> key !in c.restore)
    && (IsPacked(key, c) ==> PlainTag(Tag(key, tags[key])) && key != "," && key != "=>" && tags[key] != ",")
  }

  predicate Survivors(tags: Tags, c: Config) {
    forall k <- tags :: Survivor(tags, k, c)
  }

  // ----- The loops over the keys -----

  function PackedTag(tags: Tags, key: string, c: Config): seq<Tag> {
    if key in tags && IsPacked(key, c) then [Tag(key, tags[key])] else []
  }

  /** The tags that go into the text columns, in the order they are visited. */
  function PackedList(tags: Tags, order: seq<string>, c: Config): seq<Tag> {
    if |order| == 0 then [] else PackedTag(tags, order[0], c) + PackedList(tags, order[1..], c)
  }

  lemma SortTagMoves(s: Sorted, key: string, c: Config)
    requires key in s.tags && !Contains(key, "error:")
    ensures SortTag(s, key, c).tags == MoveKey(s.tags, key, c.swap, c.columns)
    ensures SortTag(s, key, c).list == s.list + PackedTag(s.tags, key, c)
  {
  }

  lemma {:induction false} SortTagsMove(tags: Tags, c: Config, done: set<string>, s: Sorted, order: seq<string>)
    requires Fresh(tags, c.swap, c.restore) && Moved(tags, c.swap, c.restore, c.columns, done, s.tags)
    requires forall i :: 0 <= i < |order| ==> order[i] in tags && order[i] !in done && !Contains(order[i], "error:")
    requires forall i, j :: 0 <= i < j < |order| ==> order[i] != order[j]
    ensures SortTags(s, order, c).tags == MoveKeys(s.tags, order, c.swap, c.columns)
    ensures SortTags(s, order, c).list == s.list + PackedList(tags, order, c)
    decreases |order|
  {
    if |order| > 0 {
      var next := SortTag(s, order[0], c);
      SortTagMoves(s, order[0], c);
      MoveKeyMoves(tags, c.swap, c.restore, c.columns, done, s.tags, order[0]);
      SortTagsMove(tags, c, done + {order[0]}, next, order[1..]);
      Associative(s.list, PackedTag(tags, order[0], c), PackedList(tags, order[1..], c));
    }
  }

  lemma {:induction false} RestoreNamesMove(attrs: Tags, order: seq<string>, c: Config, keep: set<string>)
    requires forall i :: 0 <= i < |order| ==> order[i] in keep
    ensures RestoreNames(attrs, order, c) == MoveKeys(attrs, order, c.restore, keep)
    decreases |order|
  {
    if |order| > 0 {
      RestoreNamesMove(RestoreName(attrs, order[0], c), order[1..], c, keep);
    }
  }

  lemma SurvivorsFresh(tags: Tags, c: Config)
    requires Consistent(c) && Survivors(tags, c)
    ensures Fresh(tags, c.swap, c.restore)
  {
  }

  /** The columns of the table, and the tags left for the text columns. */
  lemma Sorting(tags: Tags, order: seq<string>, c: Config) returns (out: Tags)
    requires Consistent(c) && Survivors(tags, c) && Enumerates(order, tags)
    ensures SortTags(Sorted(tags, []), order, c) == Sorted(out, PackedList(tags, order, c))
    ensures Renaming.Result(tags, c.swap, c.restore, c.columns, out)
    ensures Fresh(tags, c.swap, c.restore)
  {
    SurvivorsFresh(tags, c);
    forall i | 0 <= i < |order|
      ensures !Contains(order[i], "error:")
    {
      assert Survivor(tags, order[i], c);
    }
    SortTagsMove(tags, c, {}, Sorted(tags, []), order);
    VisitAll(tags, order, c.swap, c.restore, c.columns);
    out := MoveKeys(tags, order, c.swap, c.columns);
  }

  // ----- The text columns -----

  lemma NamesDiffer(i: nat, j: nat)
    requires i < j < |COLUMN_NAMES|
    ensures COLUMN_NAMES[i] != COLUMN_NAMES[j]
  {
  }

  /** The text columns from the `i`-th on. */
  function TextMap(texts: seq<string>, i: nat): Tags
    requires i + |texts| <= |COLUMN_NAMES|
    decreases |texts|
  {
    if |texts| == 0 then map[] else map[COLUMN_NAMES[i] := texts[0]] + TextMap(texts[1..], i + 1)
  }

  lemma {:induction false} TextMapAt(texts: seq<string>, i: nat, k: nat)
    requires i + |texts| <= |COLUMN_NAMES| && k < |COLUMN_NAMES|
    ensures COLUMN_NAMES[k] in TextMap(texts, i) <==> i <= k < i + |texts|
    ensures i <= k < i + |texts| ==> TextMap(texts, i)[COLUMN_NAMES[k]] == texts[k - i]
    decreases |texts|
  {
    if |texts| > 0 {
      TextMapAt(texts[1..], i + 1, k);
      if k < i { NamesDiffer(k, i); }
      if i < k { NamesDiffer(i, k); }
    }
  }

  lemma {:induction false} TextMapKeys(texts: seq<string>, i: nat)
    requires i + |texts| <= |COLUMN_NAMES|
    ensures forall k <- TextMap(texts, i) :: k in COLUMN_NAMES
    decreases |texts|
  {
    if |texts| > 0 {
      TextMapKeys(texts[1..], i + 1);
    }
  }

  lemma OneMore<K, V>(m: map<K, V>, k: K, v: V, later: map<K, V>)
    ensures m[k := v] + later == m + (map[k := v] + later)
  {
  }

  lemma {:induction false} PutColumnsAdds(tags: Tags, texts: seq<string>, i: nat)
    requires i + |texts| <= |COLUMN_NAMES|
    ensures PutColumns(tags, texts, i) == tags + TextMap(texts, i)
    decreases |texts|
  {
    if |texts| > 0 {
      var next := tags[COLUMN_NAMES[i] := texts[0]];
      PutColumnsAdds(next, texts[1..], i + 1);
      OneMore(tags, COLUMN_NAMES[i], texts[0], TextMap(texts[1..], i + 1));
    }
  }

  // ----- Unpacking -----

  ghost predicate Within(list: seq<Tag>, tags: Tags) {
    forall i :: 0 <= i < |list| ==> list[i].key in tags && tags[list[i].key] == list[i].value
  }

  function Keys(list: seq<Tag>): set<string> {
    if |list| == 0 then {} else {list[0].key} + Keys(list[1..])
  }

  lemma {:induction false} KeysAre(list: seq<Tag>)
    ensures forall k :: k in Keys(list) <==> exists i :: 0 <= i < |list| && list[i].key == k
  {
    if |list| > 0 {
      var rest := list[1..];
      KeysAre(rest);
      forall k
        ensures k in Keys(list) <==> exists i :: 0 <= i < |list| && list[i].key == k
      {
        if i :| 0 <= i < |rest| && rest[i].key == k {
          assert list[i + 1].key == k;
        }
        if i :| 0 <= i < |list| && list[i].key == k {
          assert i > 0 ==> rest[i - 1].key == k;
        }
      }
    }
  }

  lemma {:induction false} AssignAll(base: Tags, list: seq<Tag>, tags: Tags)
    requires Within(list, tags)
    ensures Assign(base, list) == base + Picked(tags, Keys(list))
    decreases |list|
  {
    if |list| == 0 {
      PickedNothing(base, tags);
    } else {
      var t, rest := list[0], list[1..];
      AssignAll(base[t.key := t.value], rest, tags);
      PickedOne(base, tags, t.key);
      PickedUnion(base, tags, {t.key}, Keys(rest));
    }
  }

  ghost predicate Decodable(group: seq<Tag>, tags: Tags) {
    && |group| >= 1 && AllPlain(group) && Readable(group) && Within(group, tags)
    && forall i :: 0 <= i < |group| ==> group[i].key !in COLUMN_NAMES
  }

  function AllKeys(groups: seq<seq<Tag>>): set<string> {
    if |groups| == 0 then {} else Keys(groups[0]) + AllKeys(groups[1..])
  }

  function GroupTexts(groups: seq<seq<Tag>>): (texts: seq<string>)
    ensures |texts| == |groups|
  {
    if |groups| == 0 then [] else [ColumnText(groups[0])] + GroupTexts(groups[1..])
  }

  lemma {:induction false} UnpackNothing(attrs: Tags, i: nat)
    requires i <= |COLUMN_NAMES|
    requires forall k :: i <= k < |COLUMN_NAMES| ==> !Truthy(attrs, COLUMN_NAMES[k])
    ensures Unpack(attrs, COLUMN_NAMES[i..]) == Ok(attrs)
    decreases |COLUMN_NAMES| - i
  {
    if i < |COLUMN_NAMES| {
      UnpackNothing(attrs, i + 1);
      assert COLUMN_NAMES[i..][1..] == COLUMN_NAMES[i + 1..];
    }
  }

  predicate NamesFree(tags: Tags) {
    forall n <- COLUMN_NAMES :: n !in tags
  }

  lemma GroupKeysFree(base: Tags, group: seq<Tag>, tags: Tags)
    requires NamesFree(base) && Decodable(group, tags)
    ensures NamesFree(base + Picked(tags, Keys(group)))
  {
    KeysAre(group);
  }

  /** The import takes the text columns apart, one by one. */
  lemma {:induction false} UnpackGroups(base: Tags, groups: seq<seq<Tag>>, i: nat, tags: Tags)
    requires i + |groups| <= |COLUMN_NAMES|
    requires forall g :: 0 <= g < |groups| ==> Decodable(groups[g], tags)
    requires NamesFree(base)
    ensures Unpack(base + TextMap(GroupTexts(groups), i), COLUMN_NAMES[i..])
            == Ok(base + Picked(tags, AllKeys(groups)))
    decreases |groups|
  {
    if |groups| == 0 {
      UnpackNothing(base, i);
      PickedNothing(base, tags);
      assert base + map[] == base;
    } else {
      var group, rest := groups[0], groups[1..];
      var next := base + Picked(tags, Keys(group));
      UnpackOne(base, group, rest, i, tags);
      GroupKeysFree(base, group, tags);
      UnpackGroups(next, rest, i + 1, tags);
      PickedUnion(base, tags, Keys(group), AllKeys(rest));
      assert [group] + rest == groups;
    }
  }

  lemma UnpackOne(base: Tags, group: seq<Tag>, rest: seq<seq<Tag>>, i: nat, tags: Tags)
    requires i + 1 + |rest| <= |COLUMN_NAMES| && Decodable(group, tags)
    requires COLUMN_NAMES[i] !in base
    ensures Unpack(base + TextMap(GroupTexts([group] + rest), i), COLUMN_NAMES[i..])
            == Unpack(base + Picked(tags, Keys(group)) + TextMap(GroupTexts(rest), i + 1), COLUMN_NAMES[i + 1..])
  {
    var n, texts := COLUMN_NAMES[i], GroupTexts([group] + rest);
    var later := TextMap(GroupTexts(rest), i + 1);
    var attrs := base + TextMap(texts, i);
    assert ([group] + rest)[1..] == rest && texts[1..] == GroupTexts(rest);
    TextMapAt(GroupTexts(rest), i + 1, i);
    assert n in attrs && attrs[n] == ColumnText(group) && attrs - {n} == base + later;
    ColumnRoundTripIff(group);
    ColumnNotEmpty(group);
    AssignAll(base + later, group, tags);
    PickedBeside(base, later, tags, group, rest, i);
    assert COLUMN_NAMES[i..][0] == n && COLUMN_NAMES[i..][1..] == COLUMN_NAMES[i + 1..];
  }

  lemma PickedBeside(base: Tags, later: Tags, tags: Tags, group: seq<Tag>, rest: seq<seq<Tag>>, i: nat)
    requires i + 1 + |rest| <= |COLUMN_NAMES| && Decodable(group, tags)
    requires later == TextMap(GroupTexts(rest), i + 1)
    ensures base + later + Picked(tags, Keys(group)) == base + Picked(tags, Keys(group)) + later
  {
    TextMapKeys(GroupTexts(rest), i + 1);
    KeysAre(group);
    PickedCommutes(base, later, tags, Keys(group));
  }

  lemma ColumnNotEmpty(group: seq<Tag>)
    requires |group| >= 1
    ensures ColumnText(group) != ""
  {
  }

  // ----- From the texts of a column back to its tags -----

  lemma {:induction false} EntriesAt(list: seq<Tag>)
    ensures |Entries(list)| == |list|
    ensures forall i :: 0 <= i < |list| ==> Entries(list)[i] == Entry(list[i])
  {
    if |list| > 0 {
      EntriesAt(list[1..]);
    }
  }

  ghost predicate IsEntryOf(e: string, list: seq<Tag>) {
    exists i :: 0 <= i < |list| && Entry(list[i]) == e
  }

  ghost predicate AllEntriesOf(group: seq<string>, list: seq<Tag>) {
    forall j :: 0 <= j < |group| ==> IsEntryOf(group[j], list)
  }

  ghost function TagIndex(e: string, list: seq<Tag>): (i: nat)
    requires IsEntryOf(e, list)
    ensures i < |list| && Entry(list[i]) == e
  {
    var i :| 0 <= i < |list| && Entry(list[i]) == e;
    i
  }

  ghost function TagsOf(group: seq<string>, list: seq<Tag>): (tags: seq<Tag>)
    requires AllEntriesOf(group, list)
    ensures |tags| == |group|
  {
    if |group| == 0 then [] else [list[TagIndex(group[0], list)]] + TagsOf(group[1..], list)
  }

  /** Tags a column can hold: plain, and readable in any place of it. */
  ghost predicate Storable(list: seq<Tag>) {
    && AllPlain(list)
    && forall i :: 0 <= i < |list| ==> list[i].key != "," && list[i].key != "=>" && list[i].value != ","
  }

  lemma EntryInjective(a: Tag, b: Tag)
    requires Storable([a, b]) && Entry(a) == Entry(b)
    ensures a == b
  {
    assert [a, b][0] == a && [a, b][1] == b;
    ColumnRoundTripIff([a]);
    ColumnRoundTripIff([b]);
    assert Entries([a]) == [Entry(a)] && Entries([b]) == [Entry(b)];
    assert [a][0] == [b][0];
  }

  lemma {:induction false} TagsOfGroup(group: seq<string>, list: seq<Tag>)
    requires AllEntriesOf(group, list)
    ensures Entries(TagsOf(group, list)) == group
    ensures forall j :: 0 <= j < |group| ==> TagsOf(group, list)[j] in list
  {
    if |group| > 0 {
      TagsOfGroup(group[1..], list);
      assert TagsOf(group, list)[1..] == TagsOf(group[1..], list);
    }
  }

  function StoredKeys(list: seq<Tag>, stored: seq<string>): set<string> {
    set i | 0 <= i < |list| && Entry(list[i]) in stored :: list[i].key
  }

  lemma OneTagPerEntry(list: seq<Tag>, n: nat)
    requires n < |list| && Storable(list)
    ensures forall i :: 0 <= i < |list| && Entry(list[i]) == Entry(list[n]) ==> list[i] == list[n]
  {
    forall i | 0 <= i < |list| && Entry(list[i]) == Entry(list[n])
      ensures list[i] == list[n]
    {
      EntryInjective(list[i], list[n]);
    }
  }

  lemma {:induction false} TagsOfKeys(group: seq<string>, list: seq<Tag>)
    requires AllEntriesOf(group, list) && Storable(list)
    ensures Keys(TagsOf(group, list)) == StoredKeys(list, group)
  {
    if |group| > 0 {
      var e, rest := group[0], group[1..];
      var n := TagIndex(e, list);
      TagsOfKeys(rest, list);
      assert TagsOf(group, list)[1..] == TagsOf(rest, list);
      OneTagPerEntry(list, n);
      StoredSplit(list, e, rest, n);
      assert group == [e] + rest;
    }
  }

  lemma StoredSplit(list: seq<Tag>, e: string, rest: seq<string>, n: nat)
    requires n < |list| && Entry(list[n]) == e
    requires forall i :: 0 <= i < |list| && Entry(list[i]) == e ==> list[i] == list[n]
    ensures StoredKeys(list, [e] + rest) == {list[n].key} + StoredKeys(list, rest)
  {
  }

  ghost function GroupsOf(groups: seq<seq<string>>, list: seq<Tag>): (r: seq<seq<Tag>>)
    requires forall g :: 0 <= g < |groups| ==> AllEntriesOf(groups[g], list)
    ensures |r| == |groups|
  {
    if |groups| == 0 then [] else [TagsOf(groups[0], list)] + GroupsOf(groups[1..], list)
  }

  lemma {:induction false} GroupsOfTexts(groups: seq<seq<string>>, list: seq<Tag>, tags: Tags)
    requires forall g :: 0 <= g < |groups| ==> AllEntriesOf(groups[g], list) && groups[g] != []
    requires Storable(list) && Within(list, tags)
    requires forall i :: 0 <= i < |list| ==> list[i].key !in COLUMN_NAMES
    ensures GroupTexts(GroupsOf(groups, list)) == Texts(groups)
    ensures AllKeys(GroupsOf(groups, list)) == StoredKeys(list, Flatten(groups))
    ensures forall g :: 0 <= g < |groups| ==> Decodable(GroupsOf(groups, list)[g], tags)
  {
    if |groups| > 0 {
      var group, rest := groups[0], groups[1..];
      var r := GroupsOf(groups, list);
      assert r[1..] == GroupsOf(rest, list);
      GroupsOfTexts(rest, list, tags);
      TagsOfGroup(group, list);
      TagsOfKeys(group, list);
      StoredConcat(list, group, Flatten(rest));
    }
    forall g | 0 <= g < |groups|
      ensures Decodable(GroupsOf(groups, list)[g], tags)
    {
      GroupOf(groups, list, g);
      TagsOfGroup(groups[g], list);
      GroupDecodable(TagsOf(groups[g], list), list, tags);
    }
  }

  lemma {:induction false} GroupOf(groups: seq<seq<string>>, list: seq<Tag>, g: nat)
    requires forall h :: 0 <= h < |groups| ==> AllEntriesOf(groups[h], list)
    requires g < |groups|
    ensures GroupsOf(groups, list)[g] == TagsOf(groups[g], list)
  {
    if g > 0 {
      GroupOf(groups[1..], list, g - 1);
    }
  }

  lemma GroupDecodable(group: seq<Tag>, list: seq<Tag>, tags: Tags)
    requires |group| >= 1 && Storable(list) && Within(list, tags)
    requires forall i :: 0 <= i < |list| ==> list[i].key !in COLUMN_NAMES
    requires forall j :: 0 <= j < |group| ==> group[j] in list
    ensures Decodable(group, tags)
  {
  }

  lemma StoredConcat(list: seq<Tag>, a: seq<string>, b: seq<string>)
    ensures StoredKeys(list, a + b) == StoredKeys(list, a) + StoredKeys(list, b)
  {
  }

  // ----- The whole round trip -----

  lemma {:induction false} PackedListSound(tags: Tags, order: seq<string>, c: Config)
    ensures var list := PackedList(tags, order, c);
            && Within(list, tags)
            && (forall i :: 0 <= i < |list| ==> IsPacked(list[i].key, c))
            && (forall k :: k in order && k in tags && IsPacked(k, c) ==> Tag(k, tags[k]) in list)
  {
    if |order| > 0 {
      PackedListSound(tags, order[1..], c);
    }
  }

  lemma PackedListStorable(tags: Tags, order: seq<string>, c: Config)
    requires Survivors(tags, c)
    ensures Storable(PackedList(tags, order, c))
    ensures forall i :: 0 <= i < |PackedList(tags, order, c)| ==> PackedList(tags, order, c)[i].key !in COLUMN_NAMES
  {
  }

  lemma {:induction false} KeptFrom(list: seq<string>)
    ensures forall j :: 0 <= j < |Kept(list)| ==> Kept(list)[j] in list
  {
    if |list| > 0 {
      if !Long(list[0]) {
        KeptFrom(list[1..]);
      } else if |list| > 1 {
        KeptFrom(list[2..]);
      }
    }
  }

  lemma {:induction false} InConcat(groups: seq<seq<string>>, g: nat, j: nat)
    requires g < |groups| && j < |groups[g]|
    ensures groups[g][j] in Flatten(groups)
  {
    if g > 0 {
      InConcat(groups[1..], g - 1, j);
    }
  }

  lemma GroupsHoldEntries(list: seq<Tag>, c: Config)
    ensures var groups := Groups(Entries(list), c);
            forall g :: 0 <= g < |groups| ==> AllEntriesOf(groups[g], list) && groups[g] != []
  {
    var es := Entries(list);
    var groups := Groups(es, c);
    EntriesAt(list);
    KeptFrom(es);
    forall g | 0 <= g < |groups|
      ensures AllEntriesOf(groups[g], list) && groups[g] != []
    {
      if c.shp && Counted(es) > FIELD_WIDTH {
        GroupStartsInList(Kept(es), COLUMN_COUNT, g);
      }
      forall j | 0 <= j < |groups[g]|
        ensures groups[g][j] in Kept(es)
      {
        if c.shp && Counted(es) > FIELD_WIDTH {
          InConcat(groups, g, j);
          StoredInList(Kept(es), COLUMN_COUNT, groups[g][j]);
        }
      }
    }
  }

  lemma StoredInList(list: seq<string>, n: nat, e: string)
    requires e in Flatten(Pack(list, n).groups)
    ensures e in list
  {
    PackConserves(list, n);
    assert e in multiset(Flatten(Pack(list, n).groups));
    assert e in multiset(list);
  }

  lemma {:induction false} CountedNeedsKept(list: seq<string>)
    ensures Kept(list) == [] ==> Counted(list) == 0
  {
  }

  /** Everything that reaches the text columns. */
  function Stored(tags: Tags, order: seq<string>, c: Config): seq<string> {
    Flatten(Groups(Entries(PackedList(tags, order, c)), c))
  }

  /** The keys that get a column of their own. */
  function Named(c: Config): set<string> {
    c.swap.Keys + c.columns
  }

  /** An empty text column is not taken apart by the import. */
  function Residue(groups: seq<seq<string>>): Tags {
    if groups == [] then map["tags" := ""] else map[]
  }

  /** What the import gives back: the tags with a column, and the packed tags that found
      room.  An empty text column is not split up, and stays behind as a tag. */
  function Returned(tags: Tags, order: seq<string>, c: Config): Tags {
    Picked(tags, Named(c))
    + Residue(Groups(Entries(PackedList(tags, order, c)), c))
    + Picked(tags, StoredKeys(PackedList(tags, order, c), Stored(tags, order, c)))
  }

  /** The text columns the export adds. */
  function TextColumns(groups: seq<seq<string>>): Tags
    requires |Texts(groups)| <= |COLUMN_NAMES|
  {
    if groups == [] then map["tags" := ""] else TextMap(Texts(groups), 0)
  }

  lemma ExportForm(tags: Tags, order: seq<string>, c: Config) returns (out: Tags)
    requires Consistent(c) && Survivors(tags, c) && Enumerates(order, tags)
    ensures Fresh(tags, c.swap, c.restore) && Renaming.Result(tags, c.swap, c.restore, c.columns, out)
    ensures var groups := Groups(Entries(PackedList(tags, order, c)), c);
            |Texts(groups)| <= |COLUMN_NAMES| && Export(tags, order, c) == out + TextColumns(groups)
  {
    out := Sorting(tags, order, c);
    var list := Entries(PackedList(tags, order, c));
    var groups, kept := Groups(list, c), Kept(list);
    GroupsCount(list, c);
    if groups == [] {
      CountedNeedsKept(list);
    }
    TextColumnsForm(out, Join(kept, ","), groups);
  }

  lemma TextColumnsForm(out: Tags, first: string, groups: seq<seq<string>>)
    requires |Texts(groups)| <= |COLUMN_NAMES| && (groups == [] ==> first == "")
    ensures PutColumns(out["tags" := first], Texts(groups), 0) == out + TextColumns(groups)
  {
    var base := out["tags" := first];
    PutColumnsAdds(base, Texts(groups), 0);
    if groups == [] {
      assert base + map[] == base;
    } else {
      TextMapAt(Texts(groups), 0, 0);
      assert COLUMN_NAMES[0] == "tags";
      Overwritten(out, "tags", first, TextMap(Texts(groups), 0));
    }
  }

  lemma TextColumnsAreNamed(groups: seq<seq<string>>)
    requires |Texts(groups)| <= |COLUMN_NAMES|
    ensures forall k <- TextColumns(groups) :: k in COLUMN_NAMES
  {
    TextMapKeys(Texts(groups), 0);
    assert COLUMN_NAMES[0] == "tags";
  }

  lemma ImportForm(tags: Tags, out: Tags, extra: Tags, back: seq<string>, c: Config)
    requires Consistent(c) && Survivors(tags, c) && Enumerates(back, out + extra)
    requires Fresh(tags, c.swap, c.restore) && Renaming.Result(tags, c.swap, c.restore, c.columns, out)
    requires forall k <- extra :: k in COLUMN_NAMES
    ensures RestoreNames(out + extra, back, c)
            == Picked(tags, Named(c)) + extra
  {
    var both := out + extra;
    SurvivorsAreNotNames(tags, c);
    forall k | k in tags && k !in c.swap && k in c.columns
      ensures k !in c.restore
    {
      assert Survivor(tags, k, c);
    }
    BackIsFresh(tags, c.swap, c.restore, c.columns, out, extra);
    VisitAll(both, back, c.restore, c.swap, both.Keys);
    RestoreNamesMove(both, back, c, both.Keys);
    ThereAndBack(tags, c.swap, c.restore, c.columns, out, extra, RestoreNames(both, back, c));
  }

  /** Exporting and importing, with the keys visited in any order both times. */
  lemma RoundTrip(tags: Tags, order: seq<string>, back: seq<string>, c: Config)
    requires Consistent(c) && Survivors(tags, c)
    requires Enumerates(order, tags) && Enumerates(back, Export(tags, order, c))
    ensures Import(Export(tags, order, c), back, c) == Ok(Returned(tags, order, c))
  {
    var list := PackedList(tags, order, c);
    var groups := Groups(Entries(list), c);
    var base := Picked(tags, Named(c));
    var out := ExportForm(tags, order, c);
    TextColumnsAreNamed(groups);
    ImportForm(tags, out, TextColumns(groups), back, c);
    SurvivorsAreNotNames(tags, c);
    UnpackReturns(tags, order, c, base);
  }

  lemma UnpackReturns(tags: Tags, order: seq<string>, c: Config, base: Tags)
    requires Consistent(c) && Survivors(tags, c) && NamesFree(base)
    ensures var list := PackedList(tags, order, c);
            var groups := Groups(Entries(list), c);
            && |Texts(groups)| <= |COLUMN_NAMES|
            && Unpack(base + TextColumns(groups), COLUMN_NAMES)
               == Ok(base + Residue(groups) + Picked(tags, StoredKeys(list, Stored(tags, order, c))))
  {
    var list := PackedList(tags, order, c);
    GroupsCount(Entries(list), c);
    PackedListStorable(tags, order, c);
    PackedListSound(tags, order, c);
    GroupsHoldEntries(list, c);
    UnpackStored(tags, list, Groups(Entries(list), c), base);
  }

  /** Unpacking text columns that hold entries of `list`. */
  lemma UnpackStored(tags: Tags, list: seq<Tag>, groups: seq<seq<string>>, base: Tags)
    requires |groups| == |Texts(groups)| <= |COLUMN_NAMES| && NamesFree(base)
    requires Storable(list) && Within(list, tags)
    requires forall i :: 0 <= i < |list| ==> list[i].key !in COLUMN_NAMES
    requires forall g :: 0 <= g < |groups| ==> AllEntriesOf(groups[g], list) && groups[g] != []
    ensures Unpack(base + TextColumns(groups), COLUMN_NAMES)
            == Ok(base + Residue(groups) + Picked(tags, StoredKeys(list, Flatten(groups))))
  {
    if groups == [] {
      UnpackEmpty(base);
      NothingStored(list);
      PickedNothing(base + Residue(groups), tags);
    } else {
      GroupsOfTexts(groups, list, tags);
      UnpackGroups(base, GroupsOf(groups, list), 0, tags);
      WholeSeq(COLUMN_NAMES);
      PlusNothing(base);
    }
  }

  lemma WholeSeq(names: seq<string>)
    ensures names[0..] == names
  {
  }

  lemma NothingStored(list: seq<Tag>)
    ensures StoredKeys(list, []) == {}
  {
  }

  lemma UnpackEmpty(base: Tags)
    requires NamesFree(base)
    ensures Unpack(base + map["tags" := ""], COLUMN_NAMES) == Ok(base + map["tags" := ""])
  {
    var attrs := base + map["tags" := ""];
    forall k | 0 <= k < |COLUMN_NAMES|
      ensures !Truthy(attrs, COLUMN_NAMES[k])
    {
      assert COLUMN_NAMES[k] !in base;
    }
    UnpackNothing(attrs, 0);
    assert COLUMN_NAMES[0..] == COLUMN_NAMES;
  }

  lemma SurvivorsAreNotNames(tags: Tags, c: Config)
    requires Survivors(tags, c)
    ensures NamesFree(tags)
  {
  }

  /** Room for everything: every entry fits a field, and for shapefiles the entries with
      their separators sum to at most 766 characters. */
  predicate HasRoom(tags: Tags, order: seq<string>, c: Config) {
    var es := Entries(PackedList(tags, order, c));
    (forall i :: 0 <= i < |es| ==> !Long(es[i])) && (c.shp ==> Weight(es) <= 766)
  }

  /** With room for everything, no tag is lost or changed. */
  lemma LosslessWithRoom(tags: Tags, order: seq<string>, c: Config)
    requires Consistent(c) && Survivors(tags, c) && Enumerates(order, tags) && HasRoom(tags, order, c)
    ensures Returned(tags, order, c)
            == if PackedList(tags, order, c) == [] then tags + map["tags" := ""] else tags
  {
    var list := PackedList(tags, order, c);
    SurvivorsAreNotNames(tags, c);
    PackedAreStored(tags, order, c);
    GroupsEmptyIff(list, c);
    BesideResidue(tags, Named(c), StoredKeys(list, Stored(tags, order, c)), Groups(Entries(list), c));
  }

  lemma BesideResidue(tags: Tags, first: set<string>, second: set<string>, groups: seq<seq<string>>)
    requires NamesFree(tags) && forall k <- tags :: k in first || k in second
    ensures Picked(tags, first) + Residue(groups) + Picked(tags, second)
            == if groups == [] then tags + map["tags" := ""] else tags
  {
  }

  lemma GroupsEmptyIff(list: seq<Tag>, c: Config)
    requires forall i :: 0 <= i < |Entries(list)| ==> !Long(Entries(list)[i])
    ensures Groups(Entries(list), c) == [] <==> list == []
  {
  }

  lemma PackedAreStored(tags: Tags, order: seq<string>, c: Config)
    requires Enumerates(order, tags) && HasRoom(tags, order, c)
    ensures forall k <- tags :: k in Named(c) || k in StoredKeys(PackedList(tags, order, c), Stored(tags, order, c))
  {
    var list := PackedList(tags, order, c);
    EntriesAt(list);
    PackedListSound(tags, order, c);
    forall i | 0 <= i < |list|
      ensures Entry(list[i]) in Stored(tags, order, c)
    {
      EverythingStored(Entries(list), c, i);
    }
    forall k | k in tags && k !in Named(c)
      ensures k in StoredKeys(list, Stored(tags, order, c))
    {
      assert IsPacked(k, c);
      assert Tag(k, tags[k]) in list;
    }
  }

  lemma EverythingStored(es: seq<string>, c: Config, i: nat)
    requires i < |es| && (forall j :: 0 <= j < |es| ==> !Long(es[j])) && (c.shp ==> Weight(es) <= 766)
    ensures es[i] in Flatten(Groups(es, c))
  {
    KeptAll(es);
    if c.shp && Counted(es) > FIELD_WIDTH {
      Capacity(es);
      PackConserves(es, COLUMN_COUNT);
      assert es[i] in multiset(es);
      assert es[i] in multiset(Flatten(Pack(es, COLUMN_COUNT).groups));
    } else {
      assert Flatten([es]) == es + [];
    }
  }
}
