/** Attributes that hold lists, as in translations/ENCv311_to_OSM.js and
    translations/ENCv311_to_OGR.js: every code of a list becomes a value in the list of a tag,
    and the other way round. */
module ListAttributes {
  import opened Iteration
  import opened Objects
  import opened Text

  /** What a code, or a value, of a column is translated to: a name and a value. */
  type Lookup = map<string, map<string, (string, string)>>

  // ----- Fresh tags -----

  predicate IsDigit(c: char) {
    '0' <= c <= '9'
  }

  /** A digit at the end is counted up.  The empty string and white space pass for a number
      too, but not one that can be read. */
  function IncrementTag(tag: string): string {
    if tag == "" then "NaN"
    else
      var front, end := tag[..|tag| - 1], tag[|tag| - 1];
      if end == '9' then front + "10"
      else if IsDigit(end) then front + [end + 1 as char]
      else if end in SPACES then front + "NaN"
      else tag + "1"
  }

  /** Ten times the length, plus the digit at the end: counting up never lowers it. */
  function Height(tag: string): nat {
    10 * |tag| + if tag != "" && IsDigit(tag[|tag| - 1]) then (tag[|tag| - 1] - '0') as nat else 0
  }

  lemma IncrementIsHigher(tag: string)
    ensures Height(IncrementTag(tag)) > Height(tag)
  {
  }

  function Incremented(tag: string, n: nat): string {
    Iterate(IncrementTag, tag, n)
  }

  /** Counting up goes higher and higher, so it never comes back to the same tag. */
  lemma IncrementsGoUp(tag: string, m: nat, n: nat)
    requires m < n
    ensures Height(Incremented(tag, m)) < Height(Incremented(tag, n))
    ensures Incremented(tag, m) != Incremented(tag, n)
  {
    forall t
      ensures Height(IncrementTag(t)) > Height(t)
    {
      IncrementIsHigher(t);
    }
    GoesUp(IncrementTag, Height, tag, m, n);
  }

  /** The value of a tag; a missing one is as good as an empty one. */
  function Value(tags: Tags, name: string): string {
    if name in tags then tags[name] else ""
  }

  /** The tags that are in use from some height on. */
  function InUse(tags: Tags, height: nat): set<string> {
    set k | k in tags && tags[k] != "" && Height(k) >= height
  }

  lemma FewerInUse(tags: Tags, tag: string)
    requires Value(tags, tag) != ""
    ensures |InUse(tags, Height(IncrementTag(tag)))| < |InUse(tags, Height(tag))|
  {
    IncrementIsHigher(tag);
    var less, more := InUse(tags, Height(IncrementTag(tag))), InUse(tags, Height(tag));
    assert tag in more && tag !in less && less <= more;
    Smaller(less, more - {tag});
  }

  lemma {:induction false} Smaller<T>(a: set<T>, b: set<T>)
    requires a <= b
    ensures |a| <= |b|
  {
    if a != {} {
      var x :| x in a;
      Smaller(a - {x}, b - {x});
    }
  }

  /** The first tag, counting up, that is not in use. */
  function Fresh(tags: Tags, tag: string): string
    decreases |InUse(tags, Height(tag))|
  {
    if Value(tags, tag) == "" then tag
    else
      FewerInUse(tags, tag);
      Fresh(tags, IncrementTag(tag))
  }

  method FreshTag(tags: Tags, tag: string) returns (ntag: string)
    ensures ntag == Fresh(tags, tag)
  {
    ntag := tag;
    while ntag in tags && tags[ntag] != ""
      invariant Fresh(tags, ntag) == Fresh(tags, tag)
      decreases |InUse(tags, Height(ntag))|
    {
      FewerInUse(tags, ntag);
      ntag := IncrementTag(ntag);
    }
  }

  /** The fresh tag is reached after no more steps than there are tags, and it is the first
      one that is free. */
  lemma FreshIsFirstFree(tags: Tags, tag: string) returns (n: nat)
    ensures n <= |tags|
    ensures Fresh(tags, tag) == Incremented(tag, n) && Value(tags, Fresh(tags, tag)) == ""
    ensures forall m :: 0 <= m < n ==> Value(tags, Incremented(tag, m)) != ""
  {
    var taken := k => Value(tags, k) != "";
    var left := k => |InUse(tags, Height(k))|;
    forall k | taken(k)
      ensures left(IncrementTag(k)) < left(k)
    {
      FewerInUse(tags, k);
    }
    n := FindsFirst(IncrementTag, taken, k => Fresh(tags, k), left, tag);
    Smaller(InUse(tags, Height(tag)), tags.Keys);
    assert forall m :: 0 <= m < n ==> taken(Incremented(tag, m));
  }

  // ----- Lists -----

  /** One way of translating lists: what to, extra tags, and how lists are cut and glued. */
  datatype Way = Way(lookup: Lookup, extra: Lookup, cut: char, glue: char)

  function Glue(list: string, value: string, glue: char): string {
    if list == "" then value else list + [glue] + value
  }

  predicate Known(lookup: Lookup, col: string, piece: string) {
    piece != "" && col in lookup && piece in lookup[col]
  }

  function AddListed(out: Tags, col: string, piece: string, w: Way): Tags {
    if !Known(w.lookup, col, piece) then out
    else
      var row := w.lookup[col][piece];
      out[row.0 := Glue(Value(out, row.0), row.1, w.glue)]
  }

  function AddExtra(out: Tags, col: string, piece: string, w: Way): Tags {
    if !Known(w.extra, col, piece) then out
    else
      var row := w.extra[col][piece];
      out[Fresh(out, row.0) := row.1]
  }

  function AddPieces(out: Tags, col: string, pieces: seq<string>, w: Way): Tags
    decreases |pieces|
  {
    if |pieces| == 0 then out
    else AddPieces(AddExtra(AddListed(out, col, pieces[0], w), col, pieces[0], w), col, pieces[1..], w)
  }

  function KnownPieces(col: string, pieces: seq<string>, lookup: Lookup): seq<string> {
    if |pieces| == 0 then []
    else (if Known(lookup, col, pieces[0]) then [pieces[0]] else []) + KnownPieces(col, pieces[1..], lookup)
  }

  datatype State = State(from: Tags, out: Tags)

  function Pieces(text: string, cut: char): seq<string> {
    Split(text, [cut])
  }

  /** A column of which some piece is known is used up. */
  function TranslateColumn(s: State, col: string, w: Way): State {
    if col !in s.from || col !in w.lookup then s
    else
      var pieces := Pieces(s.from[col], w.cut);
      State(if KnownPieces(col, pieces, w.lookup) == [] then s.from else s.from - {col}, AddPieces(s.out, col, pieces, w))
  }

  function TranslateLists(s: State, order: seq<string>, w: Way): State
    decreases |order|
  {
    if |order| == 0 then s else TranslateLists(TranslateColumn(s, order[0], w), order[1..], w)
  }

  /** To OSM: comma lists become semicolon lists, and some codes have extra tags. */
  function ToOsm(lookup: Lookup, extra: Lookup): Way {
    Way(lookup, extra, ',', ';')
  }

  /** And back, where there is nothing extra. */
  function ToOgr(lookup: Lookup): Way {
    Way(lookup, map[], ';', ',')
  }

  method AddCodes(given: Tags, col: string, valList: seq<string>, lookup: Lookup, extra: Lookup) returns (tags: Tags, used: bool)
    requires col in lookup
    ensures tags == AddPieces(given, col, valList, ToOsm(lookup, extra))
    ensures used <==> KnownPieces(col, valList, lookup) != []
  {
    tags, used := given, false;
    for value := 0 to |valList|
      invariant AddPieces(given, col, valList, ToOsm(lookup, extra)) == AddPieces(tags, col, valList[value..], ToOsm(lookup, extra))
      invariant KnownPieces(col, valList, lookup) != [] <==> used || KnownPieces(col, valList[value..], lookup) != []
    {
      var piece := valList[value];
      assert valList[value..][1..] == valList[value + 1..];
      if piece == "" {
        continue;
      }
      if piece in lookup[col] {
        var row := lookup[col][piece];
        var ntag := row.0;
        if ntag !in tags || tags[ntag] == "" {
          tags := tags[ntag := row.1];
        } else {
          tags := tags[ntag := tags[ntag] + ";" + row.1];
        }
        used := true;
      }
      if col in extra && piece in extra[col] {
        var row := extra[col][piece];
        var ntag := FreshTag(tags, row.0);
        tags := tags[ntag := row.1];
      }
    }
  }

  method FixListAttributes(notUsed: Tags, given: Tags, order: seq<string>, lookup: Lookup, extra: Lookup)
    returns (notUsedAttrs: Tags, tags: Tags)
    ensures State(notUsedAttrs, tags) == TranslateLists(State(notUsed, given), order, ToOsm(lookup, extra))
  {
    notUsedAttrs, tags := notUsed, given;
    for n := 0 to |order|
      invariant TranslateLists(State(notUsed, given), order, ToOsm(lookup, extra))
                == TranslateLists(State(notUsedAttrs, tags), order[n..], ToOsm(lookup, extra))
    {
      var col := order[n];
      assert order[n..][1..] == order[n + 1..];
      if col in notUsedAttrs && col in lookup {
        var valList := Split(notUsedAttrs[col], ",");
        var used;
        tags, used := AddCodes(tags, col, valList, lookup, extra);
        if used {
          notUsedAttrs := notUsedAttrs - {col};
        }
      }
    }
  }

  method AddValues(given: Tags, col: string, valList: seq<string>, lookup: Lookup) returns (attrs: Tags, used: bool)
    requires col in lookup
    ensures attrs == AddPieces(given, col, valList, ToOgr(lookup))
    ensures used <==> KnownPieces(col, valList, lookup) != []
  {
    attrs, used := given, false;
    for value := 0 to |valList|
      invariant AddPieces(given, col, valList, ToOgr(lookup)) == AddPieces(attrs, col, valList[value..], ToOgr(lookup))
      invariant KnownPieces(col, valList, lookup) != [] <==> used || KnownPieces(col, valList[value..], lookup) != []
    {
      var piece := valList[value];
      assert valList[value..][1..] == valList[value + 1..];
      if piece == "" {
        continue;
      }
      if piece in lookup[col] {
        var row := lookup[col][piece];
        var nAttr := row.0;
        if nAttr !in attrs || attrs[nAttr] == "" {
          attrs := attrs[nAttr := row.1];
        } else {
          attrs := attrs[nAttr := attrs[nAttr] + "," + row.1];
        }
        used := true;
      }
    }
  }

  method SplitListTags(given: Tags, givenAttrs: Tags, order: seq<string>, lookup: Lookup) returns (tags: Tags, attrs: Tags)
    ensures State(tags, attrs) == TranslateLists(State(given, givenAttrs), order, ToOgr(lookup))
  {
    tags, attrs := given, givenAttrs;
    for n := 0 to |order|
      invariant TranslateLists(State(given, givenAttrs), order, ToOgr(lookup))
                == TranslateLists(State(tags, attrs), order[n..], ToOgr(lookup))
    {
      var col := order[n];
      assert order[n..][1..] == order[n + 1..];
      if col in tags && col in lookup {
        var valList := Split(tags[col], ";");
        var used;
        attrs, used := AddValues(attrs, col, valList, lookup);
        if used {
          tags := tags - {col};
        }
      }
    }
  }

  // ----- Nothing is overwritten -----

  predicate Extends(now: string, before: string) {
    before == "" || before <= now
  }

  lemma {:induction false} PiecesExtend(out: Tags, col: string, pieces: seq<string>, w: Way, k: string)
    ensures Extends(Value(AddPieces(out, col, pieces, w), k), Value(out, k))
    decreases |pieces|
  {
    if |pieces| > 0 {
      var listed := AddListed(out, col, pieces[0], w);
      if Known(w.extra, col, pieces[0]) {
        var _ := FreshIsFirstFree(listed, w.extra[col][pieces[0]].0);
      }
      var next := AddExtra(listed, col, pieces[0], w);
      assert Extends(Value(next, k), Value(out, k));
      PiecesExtend(next, col, pieces[1..], w, k);
      PrefixTrans(Value(out, k), Value(next, k), Value(AddPieces(out, col, pieces, w), k));
    }
  }

  lemma PrefixTrans(a: string, b: string, c: string)
    requires Extends(b, a) && Extends(c, b)
    ensures Extends(c, a)
  {
  }

  /** A value that is there is never overwritten, only extended. */
  lemma {:induction false} ValuesOnlyGrow(s: State, order: seq<string>, w: Way, k: string)
    ensures Extends(Value(TranslateLists(s, order, w).out, k), Value(s.out, k))
    decreases |order|
  {
    if |order| > 0 {
      var next := TranslateColumn(s, order[0], w);
      if order[0] in s.from && order[0] in w.lookup {
        PiecesExtend(s.out, order[0], Pieces(s.from[order[0]], w.cut), w, k);
      }
      ValuesOnlyGrow(next, order[1..], w, k);
      PrefixTrans(Value(s.out, k), Value(next.out, k), Value(TranslateLists(s, order, w).out, k));
    }
  }
}
