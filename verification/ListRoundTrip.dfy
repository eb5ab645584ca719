/** Lists of codes, translated to OSM and back: what comes back of each column. */
module ListRoundTrip {
  import opened ListAttributes
  import opened Objects
  import opened Routing
  import opened Text

  /** A piece of the list in a column. */
  datatype Item = Item(col: string, piece: string)

  /** Where an item goes, and what it becomes there. */
  function Target(lookup: Lookup, e: Item): Item {
    if Known(lookup, e.col, e.piece) then Item(lookup[e.col][e.piece].0, lookup[e.col][e.piece].1) else e
  }

  function Place(lookup: Lookup): Item -> string {
    e => Target(lookup, e).col
  }

  function Items(col: string, pieces: seq<string>): seq<Item> {
    if |pieces| == 0 then [] else [Item(col, pieces[0])] + Items(col, pieces[1..])
  }

  /** The known items of a column. */
  function ColumnItems(from: Tags, col: string, w: Way): seq<Item> {
    if col in from && col in w.lookup then Items(col, KnownPieces(col, Pieces(from[col], w.cut), w.lookup)) else []
  }

  /** The known items of all columns, in the order of the visit. */
  function AllItems(from: Tags, order: seq<string>, w: Way): seq<Item> {
    if |order| == 0 then [] else ColumnItems(from, order[0], w) + AllItems(from, order[1..], w)
  }

  /** What the items become. */
  function Values(lookup: Lookup, items: seq<Item>): seq<string> {
    if |items| == 0 then [] else [Target(lookup, items[0]).piece] + Values(lookup, items[1..])
  }

  function GlueAll(text: string, values: seq<string>, glue: char): string
    decreases |values|
  {
    if |values| == 0 then text else GlueAll(Glue(text, values[0], glue), values[1..], glue)
  }

  lemma {:induction false} ValuesConcat(lookup: Lookup, a: seq<Item>, b: seq<Item>)
    ensures Values(lookup, a + b) == Values(lookup, a) + Values(lookup, b)
  {
    if |a| == 0 {
      assert a + b == b;
    } else {
      assert (a + b)[1..] == a[1..] + b;
      ValuesConcat(lookup, a[1..], b);
    }
  }

  lemma {:induction false} GlueAllConcat(text: string, a: seq<string>, b: seq<string>, glue: char)
    ensures GlueAll(text, a + b, glue) == GlueAll(GlueAll(text, a, glue), b, glue)
    decreases |a|
  {
    if |a| == 0 {
      assert a + b == b;
    } else {
      assert (a + b)[1..] == a[1..] + b;
      GlueAllConcat(Glue(text, a[0], glue), a[1..], b, glue);
    }
  }

  lemma {:induction false} GlueIsJoin(text: string, values: seq<string>, glue: char)
    requires forall v <- values :: v != ""
    ensures text != "" ==> GlueAll(text, values, glue) == Join([text] + values, [glue])
    ensures text == "" ==> GlueAll(text, values, glue) == Join(values, [glue])
    decreases |values|
  {
    if |values| == 0 {
    } else {
      var next := Glue(text, values[0], glue);
      assert values[0] in values && forall v <- values[1..] :: v in values;
      GlueIsJoin(next, values[1..], glue);
      if text == "" {
        assert [values[0]] + values[1..] == values;
      } else {
        JoinGlued(text, values, [glue]);
      }
    }
  }

  lemma JoinGlued(text: string, values: seq<string>, sep: string)
    requires |values| > 0
    ensures Join([text] + values, sep) == Join([text + sep + values[0]] + values[1..], sep)
  {
  }

  // ----- What one way does to a tag -----

  /** No extra tag is ever written to this place. */
  ghost predicate NeverExtra(w: Way, place: string) {
    forall col, piece, n | Known(w.extra, col, piece) :: Incremented(w.extra[col][piece].0, n) != place
  }

  function ValuesAt(items: seq<Item>, place: string, w: Way): seq<string> {
    Values(w.lookup, Pick(items, Place(w.lookup), place))
  }

  lemma OnePiece(out: Tags, col: string, piece: string, w: Way, place: string)
    requires NeverExtra(w, place)
    ensures Value(AddExtra(AddListed(out, col, piece, w), col, piece, w), place)
            == if Known(w.lookup, col, piece) && w.lookup[col][piece].0 == place
               then Glue(Value(out, place), w.lookup[col][piece].1, w.glue) else Value(out, place)
  {
    if Known(w.extra, col, piece) {
      var n := FreshIsFirstFree(AddListed(out, col, piece, w), w.extra[col][piece].0);
    }
  }

  lemma {:induction false} PiecesAt(out: Tags, col: string, pieces: seq<string>, w: Way, place: string)
    requires NeverExtra(w, place)
    ensures Value(AddPieces(out, col, pieces, w), place)
            == GlueAll(Value(out, place), ValuesAt(Items(col, KnownPieces(col, pieces, w.lookup)), place, w), w.glue)
    decreases |pieces|
  {
    if |pieces| > 0 {
      OnePiece(out, col, pieces[0], w, place);
      PiecesAt(AddExtra(AddListed(out, col, pieces[0], w), col, pieces[0], w), col, pieces[1..], w, place);
      FirstItem(col, pieces, w, place);
      var rest := ValuesAt(Items(col, KnownPieces(col, pieces[1..], w.lookup)), place, w);
      assert [] + rest == rest;
      if Known(w.lookup, col, pieces[0]) {
        assert ([w.lookup[col][pieces[0]].1] + rest)[1..] == rest;
      }
    }
  }

  lemma OneItem(e: Item, w: Way, place: string)
    ensures ValuesAt([e], place, w) == if Target(w.lookup, e).col == place then [Target(w.lookup, e).piece] else []
  {
    assert [e][1..] == [];
    assert Pick([e], Place(w.lookup), place) == if Target(w.lookup, e).col == place then [e] else [];
    assert Values(w.lookup, [e]) == [Target(w.lookup, e).piece] + Values(w.lookup, []);
  }

  lemma FirstItem(col: string, pieces: seq<string>, w: Way, place: string)
    requires |pieces| > 0
    ensures ValuesAt(Items(col, KnownPieces(col, pieces, w.lookup)), place, w)
            == (if Known(w.lookup, col, pieces[0]) && w.lookup[col][pieces[0]].0 == place
                then [w.lookup[col][pieces[0]].1] else [])
               + ValuesAt(Items(col, KnownPieces(col, pieces[1..], w.lookup)), place, w)
  {
    var rest := Items(col, KnownPieces(col, pieces[1..], w.lookup));
    assert [] + ValuesAt(rest, place, w) == ValuesAt(rest, place, w);
    assert [] + KnownPieces(col, pieces[1..], w.lookup) == KnownPieces(col, pieces[1..], w.lookup);
    if Known(w.lookup, col, pieces[0]) {
      var e := Item(col, pieces[0]);
      assert KnownPieces(col, pieces, w.lookup)[1..] == KnownPieces(col, pieces[1..], w.lookup);
      assert Items(col, KnownPieces(col, pieces, w.lookup)) == [e] + rest;
      PickConcat([e], rest, Place(w.lookup), place);
      OneItem(e, w, place);
      ValuesConcat(w.lookup, Pick([e], Place(w.lookup), place), Pick(rest, Place(w.lookup), place));
    }
  }

  lemma {:induction false} SameItems(from: Tags, order: seq<string>, col: string, w: Way)
    requires col !in order
    ensures AllItems(from - {col}, order, w) == AllItems(from, order, w)
  {
    if |order| > 0 {
      assert order[0] in order;
      SameItems(from, order[1..], col, w);
    }
  }

  /** The text at a place is what the items sent there become, glued together. */
  lemma {:induction false} TextAt(s: State, order: seq<string>, w: Way, place: string)
    requires NeverExtra(w, place) && Distinct(order)
    ensures Value(TranslateLists(s, order, w).out, place)
            == GlueAll(Value(s.out, place), ValuesAt(AllItems(s.from, order, w), place, w), w.glue)
    decreases |order|
  {
    if |order| > 0 {
      var next := TranslateColumn(s, order[0], w);
      var here, rest := ColumnItems(s.from, order[0], w), AllItems(s.from, order[1..], w);
      TextAt(next, order[1..], w, place);
      SameItems(s.from, order[1..], order[0], w);
      if order[0] in s.from && order[0] in w.lookup {
        PiecesAt(s.out, order[0], Pieces(s.from[order[0]], w.cut), w, place);
      }
      PickConcat(here, rest, Place(w.lookup), place);
      ValuesConcat(w.lookup, Pick(here, Place(w.lookup), place), Pick(rest, Place(w.lookup), place));
      GlueAllConcat(Value(s.out, place), ValuesAt(here, place, w), ValuesAt(rest, place, w), w.glue);
    }
  }

  /** The columns that are used up are those with a known piece. */
  lemma {:induction false} UsedUp(s: State, order: seq<string>, w: Way, col: string)
    requires Distinct(order)
    ensures col in TranslateLists(s, order, w).from <==>
            col in s.from && (col in order ==> ColumnItems(s.from, col, w) == [])
    decreases |order|
  {
    if |order| > 0 {
      UsedUp(TranslateColumn(s, order[0], w), order[1..], w, col);
    }
  }
}
