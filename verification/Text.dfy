/** The JavaScript string operations the translation scripts rely on: `indexOf`,
    `split`, `join` and the one-shot `replace` of a literal pattern. */
module Text {

  /** What JavaScript takes for white space. */
  const SPACES := "\t\n\U{000B}\U{000C}\r \U{00A0}\U{1680}\U{2000}\U{2001}\U{2002}\U{2003}\U{2004}\U{2005}\U{2006}"
                + "\U{2007}\U{2008}\U{2009}\U{200A}\U{2028}\U{2029}\U{202F}\U{205F}\U{3000}\U{FEFF}"

  /** `sub` stands at position `i` of `s`. */
  predicate OccursAt(s: string, sub: string, i: int) {
    0 <= i && i + |sub| <= |s| && s[i..i + |sub|] == sub
  }

  predicate Contains(s: string, sub: string) {
    IndexOf(s, sub) != -1
  }

  /** Position of the first occurrence, or -1. */
  function IndexOf(s: string, sub: string): (i: int)
    ensures -1 <= i
    ensures i != -1 ==> OccursAt(s, sub, i) && forall j :: 0 <= j < i ==> !OccursAt(s, sub, j)
    ensures i == -1 ==> forall j :: !OccursAt(s, sub, j)
  {
    if |s| < |sub| then -1
    else if OccursAt(s, sub, 0) then 0
    else if s == "" then -1
    else
      assert forall j {:trigger OccursAt(s, sub, j)} :: 1 <= j ==> (OccursAt(s, sub, j) <==> OccursAt(s[1..], sub, j - 1)) by {
        OccursInTail(s, sub);
      }
      var r := IndexOf(s[1..], sub);
      if r == -1 then -1 else r + 1
  }

  lemma OccursInTail(s: string, sub: string)
    requires s != ""
    ensures forall j {:trigger OccursAt(s, sub, j)} ::
              1 <= j ==> (OccursAt(s, sub, j) <==> OccursAt(s[1..], sub, j - 1))
  {
  }

  /** The first occurrence is determined by its two defining facts. */
  lemma IndexOfIs(s: string, sub: string, i: int)
    requires OccursAt(s, sub, i)
    requires forall j :: 0 <= j < i ==> !OccursAt(s, sub, j)
    ensures IndexOf(s, sub) == i
  {
  }

  function Join(parts: seq<string>, sep: string): string {
    if |parts| == 0 then ""
    else if |parts| == 1 then parts[0]
    else parts[0] + sep + Join(parts[1..], sep)
  }

  function Split(s: string, sep: string): (parts: seq<string>)
    requires sep != ""
    ensures |parts| >= 1
    ensures Join(parts, sep) == s
    ensures forall p <- parts :: !Contains(p, sep)
  {
    var i := IndexOf(s, sep);
    if i == -1 then [s]
    else
      assert s == s[..i] + sep + s[i + |sep|..];
      assert !Contains(s[..i], sep) by { PrefixHasNoEarlier(s, sep, i); }
      [s[..i]] + Split(s[i + |sep|..], sep)
  }

  lemma PrefixHasNoEarlier(s: string, sub: string, i: int)
    requires 0 <= i <= |s| && sub != ""
    requires forall j :: 0 <= j < i ==> !OccursAt(s, sub, j)
    ensures !Contains(s[..i], sub)
  {
    forall j
      ensures !OccursAt(s[..i], sub, j)
    {
      if 0 <= j && j + |sub| <= i {
        assert s[..i][j..j + |sub|] == s[j..j + |sub|];
        assert !OccursAt(s, sub, j);
      }
    }
  }

  /** A separator that follows `p` is the first one: nothing in `p`, not even
      together with the start of the separator, looks like one. */
  predicate EndsAtFirst(p: string, sep: string) {
    forall j :: 0 <= j < |p| ==> !OccursAt(p + sep, sep, j)
  }

  /** Splitting takes off exactly the piece in front of the first separator. */
  lemma SplitStep(p: string, sep: string, rest: string)
    requires sep != "" && EndsAtFirst(p, sep)
    ensures Split(p + sep + rest, sep) == [p] + Split(rest, sep)
  {
    var s := p + sep + rest;
    forall j | 0 <= j < |p|
      ensures !OccursAt(s, sep, j)
    {
      assert s[j..j + |sep|] == (p + sep)[j..j + |sep|];
      assert !OccursAt(p + sep, sep, j);
    }
    assert s[|p|..|p| + |sep|] == sep;
    IndexOfIs(s, sep, |p|);
    assert s[..|p|] == p && s[|p| + |sep|..] == rest;
  }

  /** Splitting inverts joining when no piece hides a separator. */
  lemma {:induction false} SplitJoin(parts: seq<string>, sep: string)
    requires sep != "" && |parts| >= 1
    requires forall p <- parts :: EndsAtFirst(p, sep)
    ensures Split(Join(parts, sep), sep) == parts
  {
    if |parts| == 1 {
      assert !Contains(parts[0], sep) by { EndsAtFirstHasNone(parts[0], sep); }
    } else {
      SplitStep(parts[0], sep, Join(parts[1..], sep));
      SplitJoin(parts[1..], sep);
    }
  }

  lemma EndsAtFirstHasNone(p: string, sep: string)
    requires sep != "" && EndsAtFirst(p, sep)
    ensures !Contains(p, sep)
  {
    forall j
      ensures !OccursAt(p, sep, j)
    {
      if 0 <= j && j + |sep| <= |p| {
        assert (p + sep)[j..j + |sep|] == p[j..j + |sep|];
        assert !OccursAt(p + sep, sep, j);
      }
    }
  }

  /** A one-character separator that does not occur in `p` ends it. */
  lemma CharEndsAtFirst(p: string, c: char)
    requires c !in p
    ensures EndsAtFirst(p, [c])
  {
    forall j | 0 <= j < |p|
      ensures !OccursAt(p + [c], [c], j)
    {
      assert (p + [c])[j..j + 1] == [p[j]];
    }
  }

  /** `s.replace(sub, with)` for a literal pattern: the first occurrence only. */
  function ReplaceFirst(s: string, sub: string, with: string): string {
    var i := IndexOf(s, sub);
    if i == -1 then s else s[..i] + with + s[i + |sub|..]
  }

  function TotalLength(parts: seq<string>): nat {
    if |parts| == 0 then 0 else |parts[0]| + TotalLength(parts[1..])
  }

  /** Joining is unaffected by whether the last piece is put on separately. */
  lemma {:induction false} JoinSnoc(parts: seq<string>, last: string, sep: string)
    requires |parts| >= 1
    ensures Join(parts + [last], sep) == Join(parts, sep) + sep + last
  {
    if |parts| == 1 {
      assert (parts + [last])[1..] == [last];
    } else {
      assert (parts + [last])[1..] == parts[1..] + [last];
      JoinSnoc(parts[1..], last, sep);
      assert Join(parts + [last], sep) == parts[0] + sep + (Join(parts[1..], sep) + sep + last);
    }
  }
}
