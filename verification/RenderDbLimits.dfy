/** Where the export of translations/RenderDb.js runs into the width of a field: when its
    columns fit, and features for which they do not, or in which a tag finds no room. */
module RenderDbLimits {
  import opened Lists
  import opened Objects
  import opened QuotedText
  import opened RenderDb
  import opened RenderDbColumns
  import opened RenderDbNames
  import opened RenderDbPacking
  import opened RenderDbRoundTrip
  import opened Renaming
  import opened Text
  import opened Wrappers

  /** Every text column is within the width of a field. */
  ghost predicate ColumnsFit(list: seq<string>, c: Config) {
    forall k :: 0 <= k < |Texts(Groups(list, c))| ==> |Texts(Groups(list, c))[k]| <= FIELD_WIDTH
  }

  /** The columns of a shapefile fit if and only if the sum that the code tests is too large
      for one field, so that they are split, or the entries fit one field with their commas. */
  lemma ColumnsFitIff(list: seq<string>, c: Config)
    requires c.shp && NoAdjacentLong(list)
    ensures ColumnsFit(list, c) <==> Counted(list) > FIELD_WIDTH || Weight(Kept(list)) <= FIELD_WIDTH + 1
  {
    var kept, groups := Kept(list), Groups(list, c);
    KeptFitsIff(list);
    TextsLength(groups);
    if Counted(list) > FIELD_WIDTH {
      PackFits(kept, COLUMN_COUNT);
    } else if kept != [] {
      UnsplitFitsIff(kept);
      assert groups == [kept] && Texts(groups)[0] == Join(kept, ",");
    }
  }

  // ----- Features at the limit -----

  /** The format for shapefiles, with the lists of the translation and any columns. */
  function Shapefile(columns: set<string>): Config {
    Config(Listed(SHP_SWAP_LIST), InputSwapList(), columns, true)
  }

  /** These keys have no column, and are not renamed. */
  predicate Leaves(c: Config, order: seq<string>) {
    c.shp && Consistent(c) && forall i :: 0 <= i < |order| ==> IsPacked(order[i], c)
  }

  /** No renaming list knows a key of one letter. */
  lemma ShapefileLeaves(columns: set<string>, order: seq<string>)
    requires Letters(order) && forall i :: 0 <= i < |order| ==> order[i] !in columns
    ensures Leaves(Shapefile(columns), order)
  {
    FormatsAreConsistent(columns);
    NamesAreLong();
    ListedLong(SHP_SWAP_LIST);
  }

  lemma ListedLong(list: seq<Rename>)
    requires LongNames(list)
    ensures forall k <- Listed(list) :: |k| > 1
  {
    ListedFrom(list);
    forall k | k in Listed(list)
      ensures |k| > 1
    {
      var i :| 0 <= i < |list| && list[i] == Rename(k, Listed(list)[k]);
      assert |list[i].tag| > 5;
    }
  }

  /** A value of the given length. */
  function Filler(length: nat): (value: string)
    ensures |value| == length && forall i :: 0 <= i < length ==> value[i] == 'x'
  {
    seq(length, _ => 'x')
  }

  /** Different keys of one letter each. */
  predicate Letters(order: seq<string>) {
    && (forall i :: 0 <= i < |order| ==> |order[i]| == 1 && 'a' <= order[i][0] <= 'z')
    && (forall i, j :: 0 <= i < j < |order| ==> order[i] != order[j])
  }

  lemma EntryLength(tag: Tag)
    ensures |Entry(tag)| == |tag.key| + |tag.value| + 6
  {
    assert |KEY_SEP| == 4;
  }

  lemma ColumnNamesAreLong()
    ensures forall n <- COLUMN_NAMES :: |n| >= 4
  {
  }

  lemma LetterSurvives(tags: Tags, key: string, c: Config)
    requires IsPacked(key, c)
    requires key in tags && |key| == 1 && 'a' <= key[0] <= 'z' && |tags[key]| > 1 && tags[key] == Filler(|tags[key]|)
    ensures Survivor(tags, key, c)
  {
    ColumnNamesAreLong();
    assert |"error:"| == 6 && |"=>"| == 2 && ","[0] == ',' && QuoteFree(tags[key]) && QuoteFree(key);
    assert IndexOf(key, "error:") == -1;
  }

  lemma LettersSurvive(tags: Tags, order: seq<string>, c: Config)
    requires Leaves(c, order) && Letters(order) && Enumerates(order, tags) && forall k <- tags :: |tags[k]| > 1 && tags[k] == Filler(|tags[k]|)
    ensures Consistent(c) && Survivors(tags, c)
  {
    forall k | k in tags
      ensures Survivor(tags, k, c)
    {
      var i :| 0 <= i < |order| && order[i] == k;
      LetterSurvives(tags, k, c);
    }
  }

  /** All tags go into the text columns, as they are visited. */
  lemma {:induction false} AllPacked(tags: Tags, order: seq<string>, c: Config)
    requires Leaves(c, order)
    requires forall i :: 0 <= i < |order| ==> order[i] in tags
    ensures |PackedList(tags, order, c)| == |order|
    ensures forall i :: 0 <= i < |order| ==> PackedList(tags, order, c)[i] == Tag(order[i], tags[order[i]])
  {
    if |order| > 0 {
      AllPacked(tags, order[1..], c);
    }
  }

  /** The entries of a feature, in the order of its keys. */
  function EntriesOf(tags: Tags, order: seq<string>, c: Config): seq<string> {
    Entries(PackedList(tags, order, c))
  }

  lemma EntryAt(tags: Tags, order: seq<string>, c: Config)
    requires Leaves(c, order) && Letters(order) && Enumerates(order, tags)
    ensures |EntriesOf(tags, order, c)| == |order|
    ensures forall i :: 0 <= i < |order| ==>
              EntriesOf(tags, order, c)[i] == Entry(Tag(order[i], tags[order[i]])) && |EntriesOf(tags, order, c)[i]| == |tags[order[i]]| + 7
  {
    AllPacked(tags, order, c);
    EntriesAt(PackedList(tags, order, c));
    forall i | 0 <= i < |order|
      ensures |EntriesOf(tags, order, c)[i]| == |tags[order[i]]| + 7
    {
      EntryLength(Tag(order[i], tags[order[i]]));
    }
  }

  /** When the columns are not split, the first of them holds everything that was kept. */
  lemma UnsplitColumn(tags: Tags, order: seq<string>, c: Config)
    requires Consistent(c) && Survivors(tags, c) && Enumerates(order, tags)
    requires Counted(EntriesOf(tags, order, c)) <= FIELD_WIDTH && Kept(EntriesOf(tags, order, c)) != []
    ensures "tags" in Export(tags, order, c)
    ensures Export(tags, order, c)["tags"] == Join(Kept(EntriesOf(tags, order, c)), ",")
  {
    var groups := Groups(EntriesOf(tags, order, c), c);
    var out := ExportForm(tags, order, c);
    assert groups == [Kept(EntriesOf(tags, order, c))];
    TextsLength(groups);
    TextMapAt(Texts(groups), 0, 0);
    assert COLUMN_NAMES[0] == "tags";
  }

  const TWO := ["a", "b"]

  lemma TotalOfTwo(x: string, y: string)
    ensures TotalLength([x, y]) == |x| + |y|
  {
    assert [x, y][1..] == [y] && [y][1..] == [];
    assert TotalLength([y]) == |y| + TotalLength([]);
  }

  lemma TwoUnsplit(tags: Tags, c: Config)
    requires Leaves(c, TWO) && Letters(TWO) && Enumerates(TWO, tags) && Survivors(tags, c)
    requires forall i :: 0 <= i < 2 ==> |tags[TWO[i]]| == 120
    ensures var es := EntriesOf(tags, TWO, c);
            && NoAdjacentLong(es) && Counted(es) == FIELD_WIDTH
            && "tags" in Export(tags, TWO, c) && |Export(tags, TWO, c)["tags"]| == FIELD_WIDTH + 1
  {
    var es := EntriesOf(tags, TWO, c);
    EntryAt(tags, TWO, c);
    KeptAll(es);
    assert es == [es[0], es[1]];
    TotalOfTwo(es[0], es[1]);
    UnsplitColumn(tags, TWO, c);
    assert Join(es, ",") == es[0] + "," + es[1];
  }

  /** Two entries of 127 characters are not split, and the column of 255 does not fit. */
  lemma UnsplitOverflows(columns: set<string>)
    requires "a" !in columns && "b" !in columns
    ensures var c, tags := Shapefile(columns), map["a" := Filler(120), "b" := Filler(120)];
            && Enumerates(TWO, tags) && Survivors(tags, c)
            && NoAdjacentLong(EntriesOf(tags, TWO, c)) && Counted(EntriesOf(tags, TWO, c)) == FIELD_WIDTH
            && "tags" in Export(tags, TWO, c) && |Export(tags, TWO, c)["tags"]| == FIELD_WIDTH + 1
  {
    var tags := map["a" := Filler(120), "b" := Filler(120)];
    TwoLetters(tags, columns);
    TwoUnsplit(tags, Shapefile(columns));
  }

  lemma SecondLongIsKept(first: string, second: string)
    requires Long(first)
    ensures Kept([first, second]) == [second] && Counted([first, second]) == 0 && Join([second], ",") == second
  {
    assert [first, second][1..] == [second] && [first, second][2..] == [] && [second][1..] == [];
  }

  /** Of two over-long entries side by side the second one is kept, and not even counted. */
  lemma AdjacentLongIsStored(columns: set<string>)
    requires "a" !in columns && "b" !in columns
    ensures var c, tags := Shapefile(columns), map["a" := Filler(300), "b" := Filler(300)];
            && Enumerates(TWO, tags) && Survivors(tags, c) && Counted(EntriesOf(tags, TWO, c)) == 0
            && "tags" in Export(tags, TWO, c) && |Export(tags, TWO, c)["tags"]| == 307
  {
    var c, tags := Shapefile(columns), map["a" := Filler(300), "b" := Filler(300)];
    TwoLetters(tags, columns);
    var es := EntriesOf(tags, TWO, c);
    EntryAt(tags, TWO, c);
    assert es == [es[0], es[1]];
    SecondLongIsKept(es[0], es[1]);
    UnsplitColumn(tags, TWO, c);
  }

  lemma TwoLetters(tags: Tags, columns: set<string>)
    requires "a" !in columns && "b" !in columns
    requires tags.Keys == {"a", "b"} && forall k <- tags :: |tags[k]| > 1 && tags[k] == Filler(|tags[k]|)
    ensures Letters(TWO) && Enumerates(TWO, tags) && Leaves(Shapefile(columns), TWO) && Survivors(tags, Shapefile(columns))
  {
    assert TWO[0] == "a" && TWO[1] == "b" && "a"[0] != "b"[0];
    assert forall k <- tags :: k in TWO;
    ShapefileLeaves(columns, TWO);
    LettersSurvive(tags, TWO, Shapefile(columns));
  }

  // ----- The capacity -----

  const SIX := ["a", "b", "c", "d", "e", "f"]

  lemma SixLetters()
    ensures Letters(SIX) && |SIX| == 6 && SIX[0] == "a"
  {
    assert SIX[0] == "a" && SIX[1] == "b" && SIX[2] == "c" && SIX[3] == "d" && SIX[4] == "e" && SIX[5] == "f";
    assert "a"[0] == 'a' && "b"[0] == 'b' && "c"[0] == 'c' && "d"[0] == 'd' && "e"[0] == 'e' && "f"[0] == 'f';
  }

  /** One entry of 126 characters, and all others of 127. */
  function WideTags(order: seq<string>): Tags
    requires |order| > 0
  {
    map k | k in order :: if k == order[0] then Filler(119) else Filler(120)
  }

  lemma WideTagsSurvive(order: seq<string>, c: Config)
    requires Leaves(c, order) && Letters(order) && |order| > 0
    ensures Enumerates(order, WideTags(order)) && Survivors(WideTags(order), c)
    ensures |WideTags(order)[order[0]]| == 119 && forall i :: 1 <= i < |order| ==> |WideTags(order)[order[i]]| == 120
  {
    assert forall i :: 1 <= i < |order| ==> order[i] != order[0];
    LettersSurvive(WideTags(order), order, c);
  }

  lemma {:induction false} EqualWeights(es: seq<string>, n: nat)
    requires forall i :: 0 <= i < |es| ==> |es[i]| == n
    ensures Weight(es) == (n + 1) * |es|
  {
    if |es| > 0 {
      EqualWeights(es[1..], n);
    }
  }

  lemma {:induction false} TotalAndWeight(es: seq<string>)
    ensures Weight(es) == TotalLength(es) + |es|
  {
    if |es| > 0 {
      TotalAndWeight(es[1..]);
    }
  }

  predicate Wide(es: seq<string>) {
    |es| == 6 && |es[0]| == 126 && forall i :: 1 <= i < 6 ==> |es[i]| == 127
  }

  lemma WideStack(es: seq<string>)
    requires Wide(es)
    ensures Weight(es) == 767 && Kept(es) == es && Counted(es) > FIELD_WIDTH && (forall e <- es :: !Long(e))
    ensures Pack(es, COLUMN_COUNT).left == [es[0]]
  {
    var rest := es[1..];
    assert forall i :: 0 <= i < 5 ==> rest[i] == es[i + 1];
    EqualWeights(rest, 127);
    KeptAll(es);
    TotalAndWeight(es);
    WideEntriesStack(es, 5);
  }

  /** Every entry is stored but the first. */
  lemma FirstIsLeft(es: seq<string>, i: nat)
    requires Wide(es) && i < 6
    ensures es[i] in Flatten(Pack(es, COLUMN_COUNT).groups) <==> i > 0
  {
    var stored, e := Flatten(Pack(es, COLUMN_COUNT).groups), es[i];
    WideStack(es);
    PackCount(e, es, COLUMN_COUNT);
    CountIn(stored, e);
    CountIn(es, e);
    CountIn(es[1..], e);
    CountIn([es[0]], e);
    assert Count(es, e) == Count([es[0]], e) + Count(es[1..], e) by {
      assert es == [es[0]] + es[1..];
      CountConcat([es[0]], es[1..], e);
    }
    assert i == 0 ==> e !in es[1..];
    assert Count([es[0]], e) == if es[0] == e then 1 else 0;
  }

  /** What comes back when all entries but one are stored. */
  lemma AllButOne(tags: Tags, order: seq<string>, c: Config, lost: string)
    requires Leaves(c, order) && Letters(order) && Enumerates(order, tags) && Groups(EntriesOf(tags, order, c), c) != []
    requires forall i :: 0 <= i < |order| && i < |EntriesOf(tags, order, c)| ==>
               (EntriesOf(tags, order, c)[i] in Stored(tags, order, c) <==> order[i] != lost)
    ensures Returned(tags, order, c) == tags - {lost}
  {
    var list, stored := PackedList(tags, order, c), Stored(tags, order, c);
    AllPacked(tags, order, c);
    EntryAt(tags, order, c);
    forall k | k in tags
      ensures k in StoredKeys(list, stored) <==> k != lost
    {
      var i :| 0 <= i < |order| && order[i] == k;
      assert list[i].key == k && Entry(list[i]) == EntriesOf(tags, order, c)[i];
    }
    PickedBut(tags, c, StoredKeys(list, stored), lost);
  }

  lemma PickedBut(tags: Tags, c: Config, keys: set<string>, lost: string)
    requires forall k <- tags :: k !in Named(c)
    requires forall k <- tags :: k in keys <==> k != lost
    ensures Picked(tags, Named(c)) + map[] + Picked(tags, keys) == tags - {lost}
  {
  }

  lemma WideEntries(tags: Tags, order: seq<string>, c: Config)
    requires Leaves(c, order) && Letters(order) && Enumerates(order, tags) && |order| == 6
    requires |tags[order[0]]| == 119 && forall i :: 1 <= i < 6 ==> |tags[order[i]]| == 120
    ensures Wide(EntriesOf(tags, order, c))
  {
    EntryAt(tags, order, c);
  }

  /** 767 is the least sum that can leave a tag over: a feature of six tags whose entries fit
      a field, and of which five come back. */
  lemma CapacityIsTight(columns: set<string>, back: seq<string>)
    requires forall k <- SIX :: k !in columns
    requires Enumerates(back, Export(WideTags(SIX), SIX, Shapefile(columns)))
    ensures var c, tags := Shapefile(columns), WideTags(SIX);
            && Enumerates(SIX, tags) && Survivors(tags, c)
            && Weight(EntriesOf(tags, SIX, c)) == 767 && (forall e <- EntriesOf(tags, SIX, c) :: !Long(e))
            && Import(Export(tags, SIX, c), back, c) == Ok(tags - {"a"})
  {
    var c := Shapefile(columns);
    SixLetters();
    ShapefileLeaves(columns, SIX);
    WideTagsSurvive(SIX, c);
    WideEntries(WideTags(SIX), SIX, c);
    FiveComeBack(WideTags(SIX), SIX, c, back);
  }

  lemma FiveComeBack(tags: Tags, order: seq<string>, c: Config, back: seq<string>)
    requires Leaves(c, order) && Letters(order) && Enumerates(order, tags) && Survivors(tags, c) && |order| == 6
    requires Enumerates(back, Export(tags, order, c)) && Wide(EntriesOf(tags, order, c))
    ensures Weight(EntriesOf(tags, order, c)) == 767 && forall e <- EntriesOf(tags, order, c) :: !Long(e)
    ensures Import(Export(tags, order, c), back, c) == Ok(tags - {order[0]})
  {
    var es := EntriesOf(tags, order, c);
    WideStack(es);
    RoundTrip(tags, order, back, c);
    forall i | 0 <= i < 6
      ensures es[i] in Stored(tags, order, c) <==> order[i] != order[0]
    {
      FirstIsLeft(es, i);
    }
    AllButOne(tags, order, c, order[0]);
  }
}
