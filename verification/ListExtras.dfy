/** The extra tags of translations/ENCv311_to_OSM.js: every code that asks for one gets a tag
    of its own, and all other tags are as if there were none. */
module ListExtras {
  import opened ListAttributes
  import opened ListRoundTrip
  import opened Objects
  import opened Routing

  /** The extra tags that a column asks for: name and value, in the order of its pieces. */
  function ExtrasOf(col: string, pieces: seq<string>, extra: Lookup): seq<(string, string)> {
    if |pieces| == 0 then []
    else
      (if pieces[0] != "" && col in extra && pieces[0] in extra[col] then [extra[col][pieces[0]]] else [])
      + ExtrasOf(col, pieces[1..], extra)
  }

  /** Those of all columns that hold lists, in the order of the visit. */
  function Extras(from: Tags, order: seq<string>, w: Way): seq<(string, string)> {
    if |order| == 0 then []
    else
      (if order[0] in from && order[0] in w.lookup then ExtrasOf(order[0], Pieces(from[order[0]], w.cut), w.extra) else [])
      + Extras(from, order[1..], w)
  }

  /** Extra values are not empty, and no counted-up extra tag is the tag of a list. */
  ghost predicate Apart(w: Way) {
    && (forall col, piece | Known(w.extra, col, piece) :: w.extra[col][piece].1 != "")
    && (forall col, piece, c, p, n | Known(w.extra, col, piece) && Known(w.lookup, c, p) ::
          Incremented(w.extra[col][piece].0, n) != w.lookup[c][p].0)
  }

  /** The tag is the extra one, counted up past the tags that are in use. */
  ghost predicate CountedUp(base: string, place: string, after: Tags) {
    exists n: nat :: place == Incremented(base, n) && forall m: nat :: m < n ==> Value(after, Incremented(base, m)) != ""
  }

  /** The extra tag has a place that was free, and holds its value there. */
  ghost predicate PlacedAt(before: Tags, extra: (string, string), place: string, after: Tags) {
    Value(before, place) == "" && Value(after, place) == extra.1 && CountedUp(extra.0, place, after)
  }

  /** Every extra tag has a place of its own. */
  ghost predicate Placed(before: Tags, extras: seq<(string, string)>, places: seq<string>, after: Tags) {
    && |places| == |extras| && (forall i :: 0 <= i < |places| ==> PlacedAt(before, extras[i], places[i], after))
    && (forall i, j :: 0 <= i < j < |places| ==> places[i] != places[j])
  }

  /** Tags that are in use stay in use, and those that are not the tag of a list stay as they
      are. */
  ghost predicate Keeps(w: Way, before: Tags, after: Tags) {
    forall k | Value(before, k) != "" ::
      Value(after, k) != "" && ((forall c, p | Known(w.lookup, c, p) :: w.lookup[c][p].0 != k) ==> Value(after, k) == Value(before, k))
  }

  lemma PieceKeeps(out: Tags, col: string, piece: string, w: Way)
    ensures Keeps(w, out, AddExtra(AddListed(out, col, piece, w), col, piece, w))
  {
    var listed := AddListed(out, col, piece, w);
    if Known(w.extra, col, piece) {
      var n := FreshIsFirstFree(listed, w.extra[col][piece].0);
    }
  }

  lemma PiecePlaced(out: Tags, col: string, piece: string, w: Way) returns (places: seq<string>)
    requires Apart(w)
    ensures var after := AddExtra(AddListed(out, col, piece, w), col, piece, w);
            && Placed(out, ExtrasOf(col, [piece], w.extra), places, after)
            && forall k :: k !in places ==> Value(after, k) == Value(AddListed(out, col, piece, w), k)
  {
    places := [];
    var listed := AddListed(out, col, piece, w);
    assert [piece][1..] == [];
    if Known(w.extra, col, piece) {
      var base := w.extra[col][piece].0;
      var n := FreshIsFirstFree(listed, base);
      places := [Fresh(listed, base)];
      assert CountedUp(base, places[0], AddExtra(listed, col, piece, w));
      assert ExtrasOf(col, [piece], w.extra) == [w.extra[col][piece]];
    }
  }

  // ----- One after the other -----

  /** This is an extra tag of the table. */
  ghost predicate IsExtra(w: Way, e: (string, string)) {
    exists col, piece :: Known(w.extra, col, piece) && w.extra[col][piece] == e
  }

  ghost predicate Asked(w: Way, extras: seq<(string, string)>) {
    forall i :: 0 <= i < |extras| ==> IsExtra(w, extras[i])
  }

  lemma PlaceIsNoList(w: Way, extra: (string, string), place: string, after: Tags)
    requires Apart(w) && Asked(w, [extra]) && CountedUp(extra.0, place, after)
    ensures extra.1 != "" && forall c, p | Known(w.lookup, c, p) :: w.lookup[c][p].0 != place
  {
    assert IsExtra(w, [extra][0]);
  }

  lemma KeepsThen(w: Way, a: Tags, b: Tags, c: Tags)
    requires Keeps(w, a, b) && Keeps(w, b, c)
    ensures Keeps(w, a, c)
  {
  }

  lemma PlaceStays(w: Way, extra: (string, string), place: string, mid: Tags, after: Tags)
    requires Apart(w) && Asked(w, [extra]) && Keeps(w, mid, after)
    requires CountedUp(extra.0, place, mid) && Value(mid, place) == extra.1
    ensures CountedUp(extra.0, place, after) && Value(after, place) == extra.1 != ""
  {
    PlaceIsNoList(w, extra, place, mid);
    var n: nat :| place == Incremented(extra.0, n) && forall m: nat :: m < n ==> Value(mid, Incremented(extra.0, m)) != "";
    assert forall m: nat :: m < n ==> Value(after, Incremented(extra.0, m)) != "";
  }

  lemma PlacedThen(w: Way, before: Tags, xs: seq<(string, string)>, ps: seq<string>, mid: Tags,
                   ys: seq<(string, string)>, qs: seq<string>, after: Tags)
    requires Apart(w) && Asked(w, xs) && Keeps(w, before, mid) && Keeps(w, mid, after)
    requires Placed(before, xs, ps, mid) && Placed(mid, ys, qs, after)
    ensures Placed(before, xs + ys, ps + qs, after)
  {
    forall i | 0 <= i < |ps|
      ensures PlacedAt(before, xs[i], ps[i], after) && Value(mid, ps[i]) != ""
    {
      assert PlacedAt(before, xs[i], ps[i], mid) && Asked(w, [xs[i]]);
      PlaceStays(w, xs[i], ps[i], mid, after);
    }
    forall j | 0 <= j < |qs|
      ensures PlacedAt(before, ys[j], qs[j], after) && Value(mid, qs[j]) == ""
    {
      assert PlacedAt(mid, ys[j], qs[j], after);
    }
    JoinPlaced(before, xs, ps, ys, qs, after);
  }

  lemma JoinPlaced(before: Tags, xs: seq<(string, string)>, ps: seq<string>, ys: seq<(string, string)>, qs: seq<string>, after: Tags)
    requires Placed(before, xs, ps, after) && Placed(before, ys, qs, after)
    requires forall i, j :: 0 <= i < |ps| && 0 <= j < |qs| ==> ps[i] != qs[j]
    ensures Placed(before, xs + ys, ps + qs, after)
  {
    var zs, rs := xs + ys, ps + qs;
    forall i | 0 <= i < |rs|
      ensures PlacedAt(before, zs[i], rs[i], after)
    {
      assert if i < |ps| then zs[i] == xs[i] && rs[i] == ps[i] else zs[i] == ys[i - |ps|] && rs[i] == qs[i - |ps|];
    }
    assert forall i, j :: 0 <= i < j < |rs| ==> rs[i] != rs[j];
  }

  /** Two stretches of a run, beside a run without extra tags. */
  lemma Stretches(w: Way, before: Tags, xs: seq<(string, string)>, ps: seq<string>, mid: Tags, ys: seq<(string, string)>,
                  qs: seq<string>, after: Tags, plain: Tags, so: seq<string>)
    requires Apart(w) && Asked(w, xs) && Keeps(w, before, mid) && Keeps(w, mid, after)
    requires Placed(before, xs, ps, mid) && Placed(mid, ys, qs, after) && SameBeside(after, plain, so + ps + qs)
    ensures Placed(before, xs + ys, ps + qs, after) && Keeps(w, before, after) && SameBeside(after, plain, so + (ps + qs))
  {
    PlacedThen(w, before, xs, ps, mid, ys, qs, after);
    KeepsThen(w, before, mid, after);
    assert so + ps + qs == so + (ps + qs);
  }

  /** The same way without extra tags. */
  function Plain(w: Way): Way {
    w.(extra := map[])
  }

  /** All places but these have the same value. */
  ghost predicate SameBeside(a: Tags, b: Tags, places: seq<string>) {
    forall k :: k !in places ==> Value(a, k) == Value(b, k)
  }

  lemma ExtrasAsked(w: Way, col: string, piece: string)
    ensures Asked(w, ExtrasOf(col, [piece], w.extra))
  {
    assert [piece][1..] == [];
  }

  lemma ExtrasStep(col: string, pieces: seq<string>, extra: Lookup)
    requires |pieces| > 0
    ensures ExtrasOf(col, pieces, extra) == ExtrasOf(col, [pieces[0]], extra) + ExtrasOf(col, pieces[1..], extra)
  {
    assert [pieces[0]][1..] == [];
  }

  lemma PieceBeside(out: Tags, plain: Tags, so: seq<string>, first: seq<string>, mid: Tags, col: string, piece: string, w: Way)
    requires SameBeside(out, plain, so)
    requires forall k :: k !in first ==> Value(mid, k) == Value(AddListed(out, col, piece, w), k)
    ensures SameBeside(mid, AddExtra(AddListed(plain, col, piece, Plain(w)), col, piece, Plain(w)), so + first)
  {
  }

  /** The pieces of one column, with what was written so far beside what would have been. */
  lemma {:induction false} PiecesPlaced(out: Tags, plain: Tags, so: seq<string>, col: string, pieces: seq<string>, w: Way)
    returns (places: seq<string>)
    requires Apart(w) && SameBeside(out, plain, so)
    ensures Placed(out, ExtrasOf(col, pieces, w.extra), places, AddPieces(out, col, pieces, w))
    ensures Keeps(w, out, AddPieces(out, col, pieces, w))
    ensures SameBeside(AddPieces(out, col, pieces, w), AddPieces(plain, col, pieces, Plain(w)), so + places)
    decreases |pieces|
  {
    places := [];
    if |pieces| == 0 {
      assert so + [] == so;
    } else {
      var mid := AddExtra(AddListed(out, col, pieces[0], w), col, pieces[0], w);
      var first := PiecePlaced(out, col, pieces[0], w);
      var plainMid := AddExtra(AddListed(plain, col, pieces[0], Plain(w)), col, pieces[0], Plain(w));
      PieceKeeps(out, col, pieces[0], w);
      PieceBeside(out, plain, so, first, mid, col, pieces[0], w);
      var rest := PiecesPlaced(mid, plainMid, so + first, col, pieces[1..], w);
      ExtrasAsked(w, col, pieces[0]);
      ExtrasStep(col, pieces, w.extra);
      Stretches(w, out, ExtrasOf(col, [pieces[0]], w.extra), first, mid, ExtrasOf(col, pieces[1..], w.extra), rest,
                AddPieces(out, col, pieces, w), AddPieces(plain, col, pieces, Plain(w)), so);
      places := first + rest;
    }
  }

  // ----- All columns -----

  lemma AskedConcat(w: Way, a: seq<(string, string)>, b: seq<(string, string)>)
    requires Asked(w, a) && Asked(w, b)
    ensures Asked(w, a + b)
  {
  }

  lemma {:induction false} PiecesAsked(w: Way, col: string, pieces: seq<string>)
    ensures Asked(w, ExtrasOf(col, pieces, w.extra))
  {
    if |pieces| > 0 {
      PiecesAsked(w, col, pieces[1..]);
      ExtrasAsked(w, col, pieces[0]);
      ExtrasStep(col, pieces, w.extra);
      AskedConcat(w, ExtrasOf(col, [pieces[0]], w.extra), ExtrasOf(col, pieces[1..], w.extra));
    }
  }

  lemma {:induction false} SameExtras(from: Tags, order: seq<string>, col: string, w: Way)
    requires col !in order
    ensures Extras(from - {col}, order, w) == Extras(from, order, w)
  {
    if |order| > 0 {
      SameExtras(from, order[1..], col, w);
    }
  }

  lemma {:induction false} ColumnsPlaced(s: State, plain: Tags, so: seq<string>, order: seq<string>, w: Way)
    returns (places: seq<string>)
    requires Apart(w) && SameBeside(s.out, plain, so) && Distinct(order)
    ensures Placed(s.out, Extras(s.from, order, w), places, TranslateLists(s, order, w).out)
    ensures Keeps(w, s.out, TranslateLists(s, order, w).out)
    ensures SameBeside(TranslateLists(s, order, w).out, TranslateLists(State(s.from, plain), order, Plain(w)).out, so + places)
    decreases |order|
  {
    places := [];
    if |order| == 0 {
      assert so + [] == so;
    } else {
      var col, rest := order[0], order[1..];
      var next, plainNext := TranslateColumn(s, col, w), TranslateColumn(State(s.from, plain), col, Plain(w));
      var here, xs := [], [];
      if col in s.from && col in w.lookup {
        var pieces := Pieces(s.from[col], w.cut);
        here := PiecesPlaced(s.out, plain, so, col, pieces, w);
        xs := ExtrasOf(col, pieces, w.extra);
        PiecesAsked(w, col, pieces);
      } else {
        assert so + [] == so;
      }
      var later := ColumnsPlaced(next, plainNext.out, so + here, rest, w);
      SameExtras(s.from, rest, col, w);
      Stretches(w, s.out, xs, here, next.out, Extras(s.from, rest, w), later, TranslateLists(s, order, w).out,
                TranslateLists(State(s.from, plain), order, Plain(w)).out, so);
      places := here + later;
    }
  }

  lemma PlainNeverExtra(w: Way, place: string)
    ensures NeverExtra(Plain(w), place)
  {
  }

  lemma {:induction false} PlainItems(from: Tags, order: seq<string>, w: Way)
    ensures AllItems(from, order, Plain(w)) == AllItems(from, order, w)
  {
    if |order| > 0 {
      PlainItems(from, order[1..], w);
    }
  }

  /** Every extra tag that a known code asks for is added, under a name of its own: its name
      counted up past the tags in use. All other tags hold what the lists become, and nothing
      else. */
  lemma ExtrasAreAdded(s: State, order: seq<string>, w: Way) returns (places: seq<string>)
    requires Apart(w) && Distinct(order)
    ensures var out := TranslateLists(s, order, w).out;
            && Placed(s.out, Extras(s.from, order, w), places, out)
            && forall k :: k !in places ==>
                 Value(out, k) == GlueAll(Value(s.out, k), ValuesAt(AllItems(s.from, order, w), k, w), w.glue)
  {
    places := ColumnsPlaced(s, s.out, [], order, w);
    assert [] + places == places;
    PlainItems(s.from, order, w);
    forall k | k !in places
      ensures Value(TranslateLists(s, order, w).out, k)
              == GlueAll(Value(s.out, k), ValuesAt(AllItems(s.from, order, w), k, w), w.glue)
    {
      PlainNeverExtra(w, k);
      TextAt(s, order, Plain(w), k);
    }
  }

  /** To OSM: what is between commas in the columns stands between semicolons in the tags. */
  lemma ColumnsBecomeTags(notUsed: Tags, tags: Tags, order: seq<string>, lookup: Lookup, extra: Lookup) returns (places: seq<string>)
    requires Apart(ToOsm(lookup, extra)) && Distinct(order)
    ensures var w, out := Way(lookup, extra, ',', ';'), TranslateLists(State(notUsed, tags), order, ToOsm(lookup, extra)).out;
            && Placed(tags, Extras(notUsed, order, w), places, out)
            && forall k :: k !in places ==> Value(out, k) == GlueAll(Value(tags, k), ValuesAt(AllItems(notUsed, order, w), k, w), ';')
  {
    places := ExtrasAreAdded(State(notUsed, tags), order, ToOsm(lookup, extra));
  }

  /** And back: what is between semicolons in the tags stands between commas in the columns. */
  lemma TagsBecomeColumns(tags: Tags, attrs: Tags, order: seq<string>, lookup: Lookup, k: string)
    requires Distinct(order)
    ensures var w, out := Way(lookup, map[], ';', ','), TranslateLists(State(tags, attrs), order, ToOgr(lookup)).out;
            Value(out, k) == GlueAll(Value(attrs, k), ValuesAt(AllItems(tags, order, w), k, w), ',')
  {
    TextAt(State(tags, attrs), order, ToOgr(lookup), k);
  }
}
