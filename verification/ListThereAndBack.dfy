/** The round trip of translations/ENCv311_to_OSM.js and translations/ENCv311_to_OGR.js for
    attributes that hold lists. */
module ListThereAndBack {
  import opened ListAttributes
  import opened ListRoundTrip
  import opened Lists
  import opened Objects
  import opened Routing
  import opened Text

  /** Going back undoes every translation of a code, and no value looks like a list. */
  ghost predicate OneToOne(fwd: Lookup, back: Lookup) {
    forall col, code | Known(fwd, col, code) :: UndoneBy(fwd, back, col, code)
  }

  predicate UndoneBy(fwd: Lookup, back: Lookup, col: string, code: string)
    requires Known(fwd, col, code)
  {
    var row := fwd[col][code];
    row.1 != "" && ';' !in row.1 && Known(back, row.0, row.1) && back[row.0][row.1] == (col, code)
  }

  // ----- The items -----

  predicate Good(fwd: Lookup, e: Item) {
    Known(fwd, e.col, e.piece) && ',' !in e.piece
  }

  function PiecesOf(items: seq<Item>): seq<string> {
    if |items| == 0 then [] else [items[0].piece] + PiecesOf(items[1..])
  }

  function Column(e: Item): string {
    e.col
  }

  lemma NoSeparator(piece: string, c: char)
    requires !Contains(piece, [c])
    ensures c !in piece
  {
    forall i | 0 <= i < |piece|
      ensures piece[i] != c
    {
      assert !OccursAt(piece, [c], i);
      assert piece[i..i + 1] == [piece[i]];
    }
  }

  lemma {:induction false} KnownItems(col: string, pieces: seq<string>, lookup: Lookup)
    requires forall p <- pieces :: ',' !in p
    ensures forall e <- Items(col, KnownPieces(col, pieces, lookup)) :: e.col == col && Good(lookup, e)
    ensures PiecesOf(Items(col, KnownPieces(col, pieces, lookup))) == KnownPieces(col, pieces, lookup)
  {
    if |pieces| > 0 {
      assert pieces[0] in pieces && forall p <- pieces[1..] :: p in pieces;
      KnownItems(col, pieces[1..], lookup);
      var rest := KnownPieces(col, pieces[1..], lookup);
      assert [] + rest == rest;
      if Known(lookup, col, pieces[0]) {
        assert ([pieces[0]] + rest)[1..] == rest;
        var items := Items(col, [pieces[0]] + rest);
        assert items == [Item(col, pieces[0])] + Items(col, rest);
        assert items[1..] == Items(col, rest);
      }
    }
  }

  lemma GoodColumn(attrs: Tags, col: string, w: Way)
    requires w.cut == ','
    ensures forall e <- ColumnItems(attrs, col, w) :: e.col == col && Good(w.lookup, e)
    ensures col in attrs && col in w.lookup ==>
              PiecesOf(ColumnItems(attrs, col, w)) == KnownPieces(col, Pieces(attrs[col], w.cut), w.lookup)
  {
    if col in attrs {
      var pieces := Pieces(attrs[col], w.cut);
      forall p | p in pieces
        ensures ',' !in p
      {
        NoSeparator(p, ',');
      }
      KnownItems(col, pieces, w.lookup);
    }
  }

  lemma {:induction false} GoodItems(attrs: Tags, order: seq<string>, w: Way)
    requires w.cut == ','
    ensures forall e <- AllItems(attrs, order, w) :: e.col in order && Good(w.lookup, e)
  {
    if |order| > 0 {
      GoodColumn(attrs, order[0], w);
      GoodItems(attrs, order[1..], w);
      assert forall c :: c in order <==> c == order[0] || c in order[1..];
    }
  }

  lemma {:induction false} PickAll<E, K>(s: seq<E>, route: E -> K, k: K)
    requires forall e <- s :: route(e) == k
    ensures Pick(s, route, k) == s
  {
    if |s| > 0 {
      assert s[0] in s;
      PickAll(s[1..], route, k);
    }
  }

  /** The items of one column, among all of them. */
  lemma {:induction false} ItemsOfColumn(attrs: Tags, order: seq<string>, w: Way, col: string)
    requires w.cut == ',' && Distinct(order)
    ensures Pick(AllItems(attrs, order, w), Column, col) == if col in order then ColumnItems(attrs, col, w) else []
  {
    if |order| > 0 {
      var here, rest := ColumnItems(attrs, order[0], w), AllItems(attrs, order[1..], w);
      GoodColumn(attrs, order[0], w);
      ItemsOfColumn(attrs, order[1..], w, col);
      PickConcat(here, rest, Column, col);
      if col == order[0] {
        PickAll(here, Column, col);
      } else {
        PickNone(here, Column, col);
      }
    }
  }

  // ----- The lists in between -----

  predicate ListValue(back: Lookup, tag: string, v: string) {
    v != "" && ';' !in v && Known(back, tag, v)
  }

  lemma {:induction false} SentValues(items: seq<Item>, tag: string, fwd: Lookup, back: Lookup)
    requires OneToOne(fwd, back) && forall e <- items :: Good(fwd, e)
    ensures forall v <- Values(fwd, Pick(items, Place(fwd), tag)) :: ListValue(back, tag, v)
    ensures tag !in back ==> Values(fwd, Pick(items, Place(fwd), tag)) == []
  {
    if |items| > 0 {
      assert items[0] in items && forall e <- items[1..] :: e in items;
      SentValues(items[1..], tag, fwd, back);
      var rest := Pick(items[1..], Place(fwd), tag);
      assert [] + rest == rest;
      assert ([items[0]] + rest)[1..] == rest;
    }
  }

  lemma {:induction false} AllKnown(tag: string, values: seq<string>, back: Lookup)
    requires forall v <- values :: Known(back, tag, v)
    ensures KnownPieces(tag, values, back) == values
  {
    if |values| > 0 {
      assert values[0] in values && forall v <- values[1..] :: v in values;
      AllKnown(tag, values[1..], back);
    }
  }

  lemma SplitGlued(values: seq<string>, c: char)
    requires forall v <- values :: v != "" && c !in v
    ensures values == [] ==> GlueAll("", values, c) == ""
    ensures values != [] ==> GlueAll("", values, c) != "" && Split(GlueAll("", values, c), [c]) == values
  {
    if values != [] {
      GlueIsJoin("", values, c);
      forall v | v in values
        ensures EndsAtFirst(v, [c])
      {
        CharEndsAtFirst(v, c);
      }
      SplitJoin(values, [c]);
      assert values[0] in values;
    }
  }

  /** The values in a tag between the two ways are those that were sent there. */
  lemma ColumnBetween(tags: Tags, items: seq<Item>, tag: string, fwd: Lookup, back: Lookup)
    requires OneToOne(fwd, back) && forall e <- items :: Good(fwd, e)
    requires tag in back ==> Value(tags, tag) == GlueAll("", Values(fwd, Pick(items, Place(fwd), tag)), ';')
    ensures ColumnItems(tags, tag, ToOgr(back)) == Items(tag, Values(fwd, Pick(items, Place(fwd), tag)))
  {
    var values := Values(fwd, Pick(items, Place(fwd), tag));
    SentValues(items, tag, fwd, back);
    if tag in back {
      SplitGlued(values, ';');
      if values != [] {
        AllKnown(tag, values, back);
      } else {
        assert Split("", ";") == [""];
        assert KnownPieces(tag, [""], back) == KnownPieces(tag, [], back);
      }
    }
  }

  // ----- Coming back -----

  lemma {:induction false} OneTagBack(items: seq<Item>, tag: string, col: string, fwd: Lookup, back: Lookup)
    requires OneToOne(fwd, back) && forall e <- items :: Good(fwd, e) && Target(fwd, e).col == tag
    ensures Values(back, Pick(Items(tag, Values(fwd, items)), Place(back), col)) == PiecesOf(Pick(items, Column, col))
  {
    if |items| > 0 {
      var e, rest := items[0], items[1..];
      assert e in items && forall f <- rest :: f in items;
      OneTagBack(rest, tag, col, fwd, back);
      var sent := Item(tag, Target(fwd, e).piece);
      assert Target(back, sent) == e;
      var values := Values(fwd, rest);
      assert ([Target(fwd, e).piece] + values)[1..] == values;
      PickFirst([sent], Items(tag, values), back, col);
      PiecesFirst(e, rest, col);
    }
  }

  lemma PickFirst(sent: seq<Item>, rest: seq<Item>, back: Lookup, col: string)
    requires |sent| == 1
    ensures Values(back, Pick(sent + rest, Place(back), col))
            == (if Target(back, sent[0]).col == col then [Target(back, sent[0]).piece] else [])
               + Values(back, Pick(rest, Place(back), col))
  {
  }

  lemma PiecesFirst(e: Item, rest: seq<Item>, col: string)
    ensures PiecesOf(Pick([e] + rest, Column, col)) == (if e.col == col then [e.piece] else []) + PiecesOf(Pick(rest, Column, col))
  {
  }

  lemma {:induction false} PiecesConcat(a: seq<Item>, b: seq<Item>)
    ensures PiecesOf(a + b) == PiecesOf(a) + PiecesOf(b)
  {
    if |a| == 0 {
      assert a + b == b;
    } else {
      assert (a + b)[1..] == a[1..] + b;
      PiecesConcat(a[1..], b);
    }
  }

  /** What comes back to a column: its own items, collected tag by tag. */
  lemma {:induction false} AllTagsBack(tags: Tags, order: seq<string>, items: seq<Item>, col: string, fwd: Lookup, back: Lookup)
    requires OneToOne(fwd, back) && forall e <- items :: Good(fwd, e)
    requires forall tag <- order :: tag in back ==>
               Value(tags, tag) == GlueAll("", Values(fwd, Pick(items, Place(fwd), tag)), ';')
    ensures Values(back, Pick(AllItems(tags, order, ToOgr(back)), Place(back), col))
            == PiecesOf(Pick(Collect(order, items, Place(fwd)), Column, col))
  {
    if |order| > 0 {
      var tag := order[0];
      var picked := Pick(items, Place(fwd), tag);
      var here, rest := ColumnItems(tags, tag, ToOgr(back)), AllItems(tags, order[1..], ToOgr(back));
      assert tag in order && forall t <- order[1..] :: t in order;
      AllTagsBack(tags, order[1..], items, col, fwd, back);
      ColumnBetween(tags, items, tag, fwd, back);
      PickedGood(items, tag, fwd);
      OneTagBack(picked, tag, col, fwd, back);
      PickConcat(here, rest, Place(back), col);
      ValuesConcat(back, Pick(here, Place(back), col), Pick(rest, Place(back), col));
      PickConcat(picked, Collect(order[1..], items, Place(fwd)), Column, col);
      PiecesConcat(Pick(picked, Column, col), Pick(Collect(order[1..], items, Place(fwd)), Column, col));
    }
  }

  lemma {:induction false} PickedGood(items: seq<Item>, tag: string, fwd: Lookup)
    requires forall e <- items :: Good(fwd, e)
    ensures forall e <- Pick(items, Place(fwd), tag) :: Good(fwd, e) && Target(fwd, e).col == tag
  {
    if |items| > 0 {
      assert items[0] in items && forall e <- items[1..] :: e in items;
      PickedGood(items[1..], tag, fwd);
    }
  }

  lemma {:induction false} CountPieces(items: seq<Item>, col: string, x: string)
    ensures Count(PiecesOf(Pick(items, Column, col)), x) == Count(items, Item(col, x))
  {
    if |items| > 0 {
      CountPieces(items[1..], col, x);
      assert [items[0]] + items[1..] == items;
      PiecesFirst(items[0], items[1..], col);
      CountConcat(if items[0].col == col then [items[0].piece] else [], PiecesOf(Pick(items[1..], Column, col)), x);
    }
  }

  /** Collecting tag by tag keeps every item of a column, if all its tags are collected. */
  lemma CollectedPieces(items: seq<Item>, order: seq<string>, col: string, fwd: Lookup)
    requires Distinct(order) && forall e <- items :: Target(fwd, e).col in order
    ensures multiset(PiecesOf(Pick(Collect(order, items, Place(fwd)), Column, col))) == multiset(PiecesOf(Pick(items, Column, col)))
  {
    var collected := Collect(order, items, Place(fwd));
    forall x
      ensures Count(PiecesOf(Pick(collected, Column, col)), x) == Count(PiecesOf(Pick(items, Column, col)), x)
    {
      CountPieces(collected, col, x);
      CountPieces(items, col, x);
      CountCollect(order, items, Place(fwd), Item(col, x));
      if Target(fwd, Item(col, x)).col !in order {
        CountIn(items, Item(col, x));
      }
    }
    SameCounts(PiecesOf(Pick(collected, Column, col)), PiecesOf(Pick(items, Column, col)));
  }

  /** Lists going to OSM and coming back. */
  datatype Trip = Trip(fwd: Lookup, extra: Lookup, back: Lookup, attrs: Tags, given: Tags, order: seq<string>,
                       start: Tags, backOrder: seq<string>)

  /** The tags after the way there, and the attributes after the way back. */
  function Between(t: Trip): Tags {
    TranslateLists(State(t.attrs, t.given), t.order, ToOsm(t.fwd, t.extra)).out
  }

  function Result(t: Trip): Tags {
    TranslateLists(State(Between(t), t.start), t.backOrder, ToOgr(t.back)).out
  }

  /** The tables undo each other; no list tag is in use before, or is used for an extra tag;
      and both loops go through what there is, in whatever order. */
  ghost predicate Fair(t: Trip) {
    && OneToOne(t.fwd, t.back)
    && (forall tag <- t.back :: NeverExtra(ToOsm(t.fwd, t.extra), tag) && Value(t.given, tag) == "")
    && Distinct(t.order) && Distinct(t.backOrder)
    && (forall tag <- Between(t) :: tag in t.backOrder)
  }

  /** The known codes in a column. */
  function Codes(t: Trip, col: string): seq<string> {
    if col in t.attrs then KnownPieces(col, Split(t.attrs[col], ","), t.fwd) else []
  }

  lemma TagsHold(t: Trip, tag: string)
    requires Fair(t) && tag in t.back
    ensures Value(Between(t), tag)
            == GlueAll("", Values(t.fwd, Pick(AllItems(t.attrs, t.order, ToOsm(t.fwd, t.extra)), Place(t.fwd), tag)), ';')
  {
    TextAt(State(t.attrs, t.given), t.order, ToOsm(t.fwd, t.extra), tag);
  }

  /** What comes back to a column, before it is cut again. */
  lemma ResultText(t: Trip, col: string)
    requires Fair(t) && Value(t.start, col) == ""
    ensures var items := AllItems(t.attrs, t.order, ToOsm(t.fwd, t.extra));
            Value(Result(t), col)
            == GlueAll("", PiecesOf(Pick(Collect(t.backOrder, items, Place(t.fwd)), Column, col)), ',')
  {
    var items := AllItems(t.attrs, t.order, ToOsm(t.fwd, t.extra));
    GoodItems(t.attrs, t.order, ToOsm(t.fwd, t.extra));
    forall tag | tag in t.backOrder && tag in t.back
      ensures Value(Between(t), tag) == GlueAll("", Values(t.fwd, Pick(items, Place(t.fwd), tag)), ';')
    {
      TagsHold(t, tag);
    }
    AllTagsBack(Between(t), t.backOrder, items, col, t.fwd, t.back);
    TextAt(State(Between(t), t.start), t.backOrder, ToOgr(t.back), col);
  }

  /** Every item is in a tag that the way back visits. */
  lemma ItemsVisited(t: Trip)
    requires Fair(t)
    ensures forall e <- AllItems(t.attrs, t.order, ToOsm(t.fwd, t.extra)) :: Target(t.fwd, e).col in t.backOrder
  {
    var items := AllItems(t.attrs, t.order, ToOsm(t.fwd, t.extra));
    GoodItems(t.attrs, t.order, ToOsm(t.fwd, t.extra));
    forall e | e in items
      ensures Target(t.fwd, e).col in t.backOrder
    {
      var tag := Target(t.fwd, e).col;
      var values := Values(t.fwd, Pick(items, Place(t.fwd), tag));
      TagsHold(t, tag);
      SentValues(items, tag, t.fwd, t.back);
      SplitGlued(values, ';');
      SentSome(items, e, t.fwd);
    }
  }

  lemma {:induction false} SentSome(items: seq<Item>, e: Item, fwd: Lookup)
    requires e in items
    ensures Values(fwd, Pick(items, Place(fwd), Target(fwd, e).col)) != []
  {
    if items[0] != e {
      SentSome(items[1..], e, fwd);
    }
  }

  lemma {:induction false} PiecesAreCodes(items: seq<Item>, col: string, fwd: Lookup)
    requires forall e <- items :: Good(fwd, e)
    ensures forall p <- PiecesOf(Pick(items, Column, col)) :: p != "" && ',' !in p
  {
    if |items| > 0 {
      assert items[0] in items && forall e <- items[1..] :: e in items;
      PiecesAreCodes(items[1..], col, fwd);
      assert [items[0]] + items[1..] == items;
      PiecesFirst(items[0], items[1..], col);
    }
  }

  lemma {:induction false} CollectedGood(order: seq<string>, items: seq<Item>, fwd: Lookup)
    requires forall e <- items :: Good(fwd, e)
    ensures forall e <- Collect(order, items, Place(fwd)) :: Good(fwd, e)
  {
    if |order| > 0 {
      CollectedGood(order[1..], items, fwd);
      PickedGood(items, order[0], fwd);
    }
  }

  lemma CodesAre(t: Trip, col: string)
    requires Fair(t) && col in t.order && col in t.fwd
    ensures Codes(t, col) == PiecesOf(Pick(AllItems(t.attrs, t.order, ToOsm(t.fwd, t.extra)), Column, col))
  {
    ItemsOfColumn(t.attrs, t.order, ToOsm(t.fwd, t.extra), col);
    GoodColumn(t.attrs, col, ToOsm(t.fwd, t.extra));
  }

  /** The known codes of a column come back, each as often as before. */
  lemma CodesComeBack(t: Trip, col: string)
    requires Fair(t) && col in t.order && col in t.fwd && Value(t.start, col) == ""
    ensures Codes(t, col) == [] ==> Value(Result(t), col) == ""
    ensures Codes(t, col) != [] ==> multiset(Split(Value(Result(t), col), ",")) == multiset(Codes(t, col))
  {
    var items := AllItems(t.attrs, t.order, ToOsm(t.fwd, t.extra));
    var back := PiecesOf(Pick(Collect(t.backOrder, items, Place(t.fwd)), Column, col));
    GoodItems(t.attrs, t.order, ToOsm(t.fwd, t.extra));
    ItemsVisited(t);
    ResultText(t, col);
    CodesAre(t, col);
    CollectedPieces(items, t.backOrder, col, t.fwd);
    CollectedGood(t.backOrder, items, t.fwd);
    PiecesAreCodes(Collect(t.backOrder, items, Place(t.fwd)), col, t.fwd);
    SplitGlued(back, ',');
    assert |back| == |multiset(back)| && |Codes(t, col)| == |multiset(Codes(t, col))|;
  }

  /** If they all went to one tag they come back in their order; a list of nothing but such
      codes comes back as the same text. */
  lemma CodesComeBackInOrder(t: Trip, col: string, home: string)
    requires Fair(t) && col in t.order && col in t.fwd && Value(t.start, col) == ""
    requires forall p <- Codes(t, col) :: Target(t.fwd, Item(col, p)).col == home
    requires Codes(t, col) != []
    ensures Split(Value(Result(t), col), ",") == Codes(t, col)
    ensures Codes(t, col) == Split(t.attrs[col], ",") ==> Value(Result(t), col) == t.attrs[col]
  {
    var items := AllItems(t.attrs, t.order, ToOsm(t.fwd, t.extra));
    GoodItems(t.attrs, t.order, ToOsm(t.fwd, t.extra));
    ItemsVisited(t);
    ResultText(t, col);
    CodesAre(t, col);
    CodesHere(items, col, t.fwd);
    forall e | e in items && Column(e) == col
      ensures Place(t.fwd)(e) == home
    {
    }
    PickCollect(t.backOrder, items, Place(t.fwd), Column, col, home);
    PiecesAreCodes(items, col, t.fwd);
    SplitGlued(Codes(t, col), ',');
  }

  lemma {:induction false} CodesHere(items: seq<Item>, col: string, fwd: Lookup)
    ensures forall e <- items :: e.col == col ==> e.piece in PiecesOf(Pick(items, Column, col))
    ensures PiecesOf(Pick(items, Column, col)) != [] ==> exists e :: e in items && e.col == col
  {
    if |items| > 0 {
      CodesHere(items[1..], col, fwd);
      assert [items[0]] + items[1..] == items;
      PiecesFirst(items[0], items[1..], col);
      assert items[0] in items && forall e <- items[1..] :: e in items;
    }
  }
}
