/** Text seen as the segments between its double quotes.  Splitting such a text at a
    quoted pattern is splitting the list of its segments. */
module QuotedText {
  import opened Text

  const QUOTE := "\""

  /** The segments of a text, of which there is at least one. */
  datatype Segments = Last(text: string) | More(text: string, rest: Segments)

  function Quoted(segments: Segments): string {
    match segments
    case Last(text) => text
    case More(text, rest) => text + QUOTE + Quoted(rest)
  }

  predicate QuoteFree(s: string) {
    forall i :: 0 <= i < |s| ==> s[i] != '\"'
  }

  predicate Plain(segments: Segments) {
    QuoteFree(segments.text) && (segments.More? ==> Plain(segments.rest))
  }

  function Pattern(m: string): string {
    QUOTE + m + QUOTE
  }

  /** The segments of `front`, then `m`, then those of `back`. */
  function Between(front: Segments, m: string, back: Segments): Segments {
    match front
    case Last(text) => More(text, More(m, back))
    case More(text, rest) => More(text, Between(rest, m, back))
  }

  /** No segment but the first is `m`. */
  predicate TailAvoids(segments: Segments, m: string) {
    segments.More? ==> segments.rest.text != m && TailAvoids(segments.rest, m)
  }

  /** No segment with a quote on both sides is `m`. */
  predicate InnerAvoids(segments: Segments, m: string) {
    segments.More? && segments.rest.More? ==> segments.rest.text != m && InnerAvoids(segments.rest, m)
  }

  /** Up to its first quote a text determines its first segment. */
  lemma FirstSegment(y: string, rest: string, m: string)
    requires QuoteFree(y) && QuoteFree(m)
    ensures m + QUOTE <= y + QUOTE + rest <==> m == y
  {
    var text := y + QUOTE + rest;
    if |y| < |m| {
      assert text[|y|] == '\"' && (m + QUOTE)[|y|] == m[|y|] != '\"';
    } else if |m| < |y| {
      assert text[|m|] == y[|m|] != '\"' && (m + QUOTE)[|m|] == '\"';
    } else {
      assert text[..|m|] == y && (m + QUOTE)[..|m|] == m;
    }
  }

  lemma NoQuoteNoPrefix(y: string, m: string)
    requires QuoteFree(y)
    ensures !(m + QUOTE <= y)
  {
    if |m| < |y| {
      assert y[|m|] != '\"' && (m + QUOTE)[|m|] == '\"';
    }
  }

  /** At the first quote of a text, the pattern is there iff its inside follows. */
  lemma OccursAtQuote(x: string, rest: string, m: string)
    ensures OccursAt(x + QUOTE + rest, Pattern(m), |x|) <==> m + QUOTE <= rest
  {
    var text, n := x + QUOTE + rest, |m| + 2;
    if |x| + n <= |text| {
      assert text[|x|..|x| + n] == QUOTE + rest[..|m| + 1];
      assert Pattern(m) == QUOTE + (m + QUOTE);
      assert (QUOTE + rest[..|m| + 1])[1..] == rest[..|m| + 1];
      assert (QUOTE + (m + QUOTE))[1..] == m + QUOTE;
    }
  }

  lemma NotBeforeQuote(x: string, rest: string, m: string, j: nat)
    requires QuoteFree(x) && j < |x|
    ensures !OccursAt(x + rest, Pattern(m), j)
  {
    var text, n := x + rest, |m| + 2;
    if j + n <= |text| {
      assert text[j..j + n][0] == x[j] != '\"';
    }
  }

  lemma BehindQuote(x: string, rest: string, m: string, j: nat)
    requires j > |x|
    ensures OccursAt(x + QUOTE + rest, Pattern(m), j) <==> OccursAt(rest, Pattern(m), j - |x| - 1)
  {
  }

  /** Peeling the first segment off the search for the pattern. */
  lemma IndexOfPattern(x: string, rest: string, m: string)
    requires QuoteFree(x)
    ensures IndexOf(x + QUOTE + rest, Pattern(m)) ==
            if m + QUOTE <= rest then |x|
            else if IndexOf(rest, Pattern(m)) == -1 then -1
            else |x| + 1 + IndexOf(rest, Pattern(m))
  {
    var text, p := x + QUOTE + rest, Pattern(m);
    var i := IndexOf(rest, p);
    OccursAtQuote(x, rest, m);
    forall j {:trigger OccursAt(text, p, j)} | 0 <= j < |x|
      ensures !OccursAt(text, p, j)
    {
      assert text == x + (QUOTE + rest);
      NotBeforeQuote(x, QUOTE + rest, m, j);
    }
    forall j {:trigger OccursAt(text, p, j)} | j > |x|
      ensures OccursAt(text, p, j) <==> OccursAt(rest, p, j - |x| - 1)
    {
      BehindQuote(x, rest, m, j);
    }
    if m + QUOTE <= rest {
      IndexOfIs(text, p, |x|);
    } else if i != -1 {
      assert OccursAt(text, p, |x| + 1 + i);
      IndexOfIs(text, p, |x| + 1 + i);
    }
  }

  lemma IndexOfInPlain(s: string, m: string)
    requires QuoteFree(s)
    ensures IndexOf(s, Pattern(m)) == -1
  {
    forall j
      ensures !OccursAt(s, Pattern(m), j)
    {
      if 0 <= j < |s| {
        assert s + "" == s;
        NotBeforeQuote(s, "", m, j);
      }
    }
  }

  lemma {:induction false} QuotedBetween(front: Segments, m: string, back: Segments)
    ensures Quoted(Between(front, m, back)) == Quoted(front) + Pattern(m) + Quoted(back)
  {
    if front.More? {
      QuotedBetween(front.rest, m, back);
    } else {
      assert Quoted(More(m, back)) == m + QUOTE + Quoted(back);
    }
  }

  /** The pattern is found behind a front that does not contain its inside. */
  lemma {:induction false} IndexOfBetween(front: Segments, m: string, back: Segments)
    requires Plain(front) && QuoteFree(m) && TailAvoids(front, m)
    ensures IndexOf(Quoted(Between(front, m, back)), Pattern(m)) == |Quoted(front)|
  {
    match front
    case Last(text) =>
      IndexOfPattern(text, Quoted(More(m, back)), m);
      FirstSegment(m, Quoted(back), m);
    case More(text, rest) =>
      var next := Between(rest, m, back);
      assert next == More(rest.text, next.rest);
      IndexOfPattern(text, Quoted(next), m);
      FirstSegment(next.text, Quoted(next.rest), m);
      IndexOfBetween(rest, m, back);
  }

  lemma {:induction false} IndexOfNone(segments: Segments, m: string)
    requires Plain(segments) && QuoteFree(m) && InnerAvoids(segments, m)
    ensures IndexOf(Quoted(segments), Pattern(m)) == -1
  {
    match segments
    case Last(text) => IndexOfInPlain(text, m);
    case More(text, rest) =>
      IndexOfPattern(text, Quoted(rest), m);
      IndexOfNone(rest, m);
      match rest
      case Last(y) => NoQuoteNoPrefix(y, m);
      case More(y, more) => FirstSegment(y, Quoted(more), m);
  }

  /** Splitting a text in which no inner segment is the pattern's inside. */
  lemma SplitNone(segments: Segments, m: string)
    requires Plain(segments) && QuoteFree(m) && InnerAvoids(segments, m)
    ensures Split(Quoted(segments), Pattern(m)) == [Quoted(segments)]
  {
    IndexOfNone(segments, m);
  }

  /** Splitting a text at the first inner segment that is the pattern's inside. */
  lemma SplitBetween(front: Segments, m: string, back: Segments)
    requires Plain(front) && QuoteFree(m) && TailAvoids(front, m)
    ensures Split(Quoted(Between(front, m, back)), Pattern(m))
            == [Quoted(front)] + Split(Quoted(back), Pattern(m))
  {
    var text := Quoted(Between(front, m, back));
    IndexOfBetween(front, m, back);
    QuotedBetween(front, m, back);
    assert text[..|Quoted(front)|] == Quoted(front);
    assert text[|Quoted(front)| + |Pattern(m)|..] == Quoted(back);
  }
}
