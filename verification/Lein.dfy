/** The phonetic code by which translations/TranslationServer.js finds names that sound alike.
    Letters are ASCII letters. */
module Lein {
  import opened Lists
  import opened Text
  import opened Wrappers

  // ----- Letters -----

  function UpperChar(c: char): char {
    if 'a' <= c <= 'z' then (c as int - 32) as char else c
  }

  function Upper(s: string): string {
    seq(|s|, i requires 0 <= i < |s| => UpperChar(s[i]))
  }

  predicate IsCapital(c: char) {
    'A' <= c <= 'Z'
  }

  predicate IsLetter(c: char) {
    IsCapital(UpperChar(c))
  }

  /** Vowels, Y, W and H. */
  predicate IsDropped(c: char) {
    c == 'A' || c == 'E' || c == 'I' || c == 'O' || c == 'U' || c == 'Y' || c == 'W' || c == 'H'
  }

  const CODED := "DTMNLRBFPVCJKGQSXZ"
  const CODES := "112233444455555555"

  // ----- The steps -----

  predicate Clean(c: char) {
    IsCapital(c) || c in SPACES
  }

  predicate Sounds(c: char) {
    !IsDropped(c)
  }

  function Squeezed(s: string): string {
    if |s| <= 1 then s
    else Squeezed(s[..|s| - 1]) + if s[|s| - 1] == s[|s| - 2] then "" else [s[|s| - 1]]
  }

  /** The group a letter belongs to; other characters stay as they are. */
  function CodeOf(c: char): char {
    match c
    case 'D' => '1' case 'T' => '1'
    case 'M' => '2' case 'N' => '2'
    case 'L' => '3' case 'R' => '3'
    case 'B' => '4' case 'F' => '4' case 'P' => '4' case 'V' => '4'
    case 'C' => '5' case 'J' => '5' case 'K' => '5' case 'G' => '5' case 'Q' => '5'
    case 'S' => '5' case 'X' => '5' case 'Z' => '5'
    case _ => c
  }

  function Coded(s: string): string {
    seq(|s|, i requires 0 <= i < |s| => CodeOf(s[i]))
  }

  function Padded(code: string): (s: string)
    ensures |s| == 4
  {
    (code + "0000")[..4]
  }

  /** The letters and white space of a name, in upper case. */
  function Cleaned(name: string): string {
    Filter(Upper(name), Clean)
  }

  /** What is left of the letters after the first. */
  function Skeleton(tail: string): string {
    Squeezed(Filter(tail, Sounds))
  }

  /** A name without a letter has an undefined first letter, which prints as a word. */
  function GetLein(name: string): string {
    var code := Cleaned(name);
    if code == "" then Padded("undefined") else Padded([code[0]] + Coded(First(Skeleton(code[1..]), 4)))
  }

  method Squeeze(target: string) returns (squeezed: string)
    ensures squeezed == Squeezed(target)
  {
    squeezed := First(target, 1);
    var i := 1;
    while i < |target|
      invariant 1 <= i && (i <= |target| || target == "")
      invariant squeezed == Squeezed(First(target, i))
    {
      assert First(target, i + 1)[..i] == First(target, i);
      if target[i] != target[i - 1] {
        squeezed := squeezed + [target[i]];
      }
      i := i + 1;
    }
  }

  const UNEQUAL := "talisman/helpers#translation: given strings don't have the same length."

  /** No later letter among the first `n` is the one at `i`. */
  predicate LastOf(text: string, n: nat, i: int)
    requires n <= |text|
  {
    0 <= i < n && forall j :: i < j < n ==> text[j] != text[i]
  }

  method Translation(first: string, second: string) returns (r: Result<map<char, char>>)
    ensures |first| != |second| ==> r == Thrown(Error(UNEQUAL))
    ensures |first| == |second| ==> r.Ok? && r.value.Keys == (set c | c in first)
    ensures r.Ok? ==> |first| == |second| && forall i :: LastOf(first, |first|, i) ==> r.value[first[i]] == second[i]
  {
    if |first| != |second| {
      return Thrown(Error(UNEQUAL));
    }
    var index: map<char, char> := map[];
    for i := 0 to |first|
      invariant index.Keys == set c | c in first[..i]
      invariant forall j :: LastOf(first, i, j) ==> index[first[j]] == second[j]
    {
      assert first[..i + 1] == first[..i] + [first[i]];
      LastStep(first, i);
      index := index[first[i] := second[i]];
    }
    assert first[..|first|] == first;
    r := Ok(index);
  }

  lemma LastStep(text: string, n: nat)
    requires n < |text|
    ensures forall j :: LastOf(text, n + 1, j) ==> j == n || (LastOf(text, n, j) && text[j] != text[n] && text[j] in text[..n])
  {
    forall j | LastOf(text, n + 1, j) && j < n
      ensures LastOf(text, n, j) && text[j] != text[n] && text[j] in text[..n]
    {
      assert text[..n][j] == text[j];
    }
  }

  function InTable(index: map<char, char>, c: char): char {
    if c in index then index[c] else c
  }

  lemma CodedSnoc(s: string, i: nat)
    requires i < |s|
    ensures Coded(s[..i + 1]) == Coded(s[..i]) + [CodeOf(s[i])]
  {
  }

  /** The index of the two constants is the grouping of the letters. */
  lemma IndexIsCode(index: map<char, char>, c: char)
    requires index.Keys == set d | d in CODED
    requires forall i :: 0 <= i < |CODED| ==> index[CODED[i]] == CODES[i]
    ensures InTable(index, c) == CodeOf(c)
  {
    if c in index {
      var i :| 0 <= i < |CODED| && CODED[i] == c;
      EachCode(i);
    } else {
      NoOtherCodes(c);
    }
  }

  lemma EachCode(i: nat)
    requires i < |CODED|
    ensures |CODED| == |CODES| && CodeOf(CODED[i]) == CODES[i]
  {
  }

  lemma NoOtherCodes(c: char)
    requires c !in CODED
    ensures CodeOf(c) == c
  {
  }

  /** No letter has two codes. */
  lemma EachLetterOnce()
    ensures |CODED| == |CODES| && forall i :: 0 <= i < |CODED| ==> LastOf(CODED, |CODED|, i)
  {
  }

  method Translate(backup: string) returns (code: string)
    ensures code == Coded(backup)
  {
    var r := Translation(CODED, CODES);
    EachLetterOnce();
    var index := r.value;
    code := "";
    for i := 0 to |backup|
      invariant code == Coded(backup[..i])
    {
      IndexIsCode(index, backup[i]);
      CodedSnoc(backup, i);
      code := code + [InTable(index, backup[i])];
    }
    assert backup[..|backup|] == backup;
  }

  method Lein(name: string) returns (lein: string)
    ensures lein == GetLein(name)
  {
    var code := Cleaned(name);
    if code == "" {
      return Padded("undefined");
    }
    var squeezed := Squeeze(Filter(code[1..], Sounds));
    var digits := Translate(First(squeezed, 4));
    lein := Padded([code[0]] + digits);
  }

  // ----- The form of a code -----

  predicate AllLetters(name: string) {
    forall c <- name :: IsLetter(c)
  }

  lemma {:induction false} SqueezedIs(s: string)
    ensures forall c <- Squeezed(s) :: c in s
  {
    if |s| > 1 {
      SqueezedIs(s[..|s| - 1]);
    }
  }

  lemma CodeIsDigit(c: char)
    requires IsCapital(c) && !IsDropped(c)
    ensures '1' <= CodeOf(c) <= '5'
  {
  }

  lemma UpperLetters(name: string)
    requires AllLetters(name)
    ensures forall c <- Upper(name) :: IsCapital(c)
    ensures Cleaned(name) == Upper(name)
  {
    forall c | c in Upper(name)
      ensures IsCapital(c)
    {
      var i :| 0 <= i < |name| && Upper(name)[i] == c;
      assert name[i] in name;
    }
    FilterAll(Upper(name), Clean);
  }

  lemma SkeletonCodes(tail: string)
    requires forall c <- tail :: IsCapital(c)
    ensures forall d <- Coded(First(Skeleton(tail), 4)) :: '1' <= d <= '5'
  {
    var sounds := First(Skeleton(tail), 4);
    FilterIs(tail, Sounds);
    SqueezedIs(Filter(tail, Sounds));
    forall d | d in Coded(sounds)
      ensures '1' <= d <= '5'
    {
      var i :| 0 <= i < |sounds| && Coded(sounds)[i] == d;
      assert sounds[i] in sounds && sounds[i] in Skeleton(tail);
      CodeIsDigit(sounds[i]);
    }
  }

  lemma PaddedForm(first: char, digits: string)
    requires forall d <- digits :: '1' <= d <= '5'
    ensures var code := Padded([first] + digits);
            code[0] == first && forall i :: 1 <= i < 4 ==> '0' <= code[i] <= '5'
  {
    var code := [first] + digits + "0000";
    forall i | 1 <= i < 4
      ensures '0' <= code[i] <= '5'
    {
      if i <= |digits| {
        assert code[i] == digits[i - 1] && digits[i - 1] in digits;
      }
    }
  }

  /** The code of a word is its first letter and three digits from 0 to 5. */
  lemma LeinForm(name: string)
    requires name != "" && AllLetters(name)
    ensures |GetLein(name)| == 4 && GetLein(name)[0] == UpperChar(name[0])
    ensures forall i :: 1 <= i < 4 ==> '0' <= GetLein(name)[i] <= '5'
  {
    UpperLetters(name);
    var tail := Upper(name)[1..];
    assert forall c <- tail :: c in Upper(name);
    SkeletonCodes(tail);
    PaddedForm(Upper(name)[0], Coded(First(Skeleton(tail), 4)));
  }

  lemma {:induction false} NoRepeats(s: string)
    ensures s != "" ==> Squeezed(s) != "" && Squeezed(s)[|Squeezed(s)| - 1] == s[|s| - 1]
    ensures forall i :: 0 <= i < |Squeezed(s)| - 1 ==> Squeezed(s)[i] != Squeezed(s)[i + 1]
  {
    if |s| > 1 {
      NoRepeats(s[..|s| - 1]);
    }
  }

  /** The letters that are dropped, and the five groups of those that are not. */
  lemma Groups(c: char)
    ensures IsDropped(c) <==> c in "AEIOUYWH"
    ensures c in "DT" ==> CodeOf(c) == '1'
    ensures c in "MN" ==> CodeOf(c) == '2'
    ensures c in "LR" ==> CodeOf(c) == '3'
    ensures c in "BFPV" ==> CodeOf(c) == '4'
    ensures c in "CJKGQSXZ" ==> CodeOf(c) == '5'
    ensures IsCapital(c) ==> c in "AEIOUYWHDTMNLRBFPVCJKGQSXZ"
  {
  }

  /** The letters after the first that sound, without repetitions: the first three of them are
      coded, and zeros fill up what is missing. */
  lemma LeinDigits(name: string)
    requires name != "" && AllLetters(name)
    ensures var sounds := Squeezed(Filter(Upper(name)[1..], c => c !in "AEIOUYWH"));
            && GetLein(name)[0] == UpperChar(name[0])
            && forall i :: 1 <= i < 4 ==> GetLein(name)[i] == if i <= |sounds| then CodeOf(sounds[i - 1]) else '0'
  {
    UpperLetters(name);
    var tail := Upper(name)[1..];
    forall c
      ensures Sounds(c) <==> c !in "AEIOUYWH"
    {
      Groups(c);
    }
    SameFilter(tail, Sounds, c => c !in "AEIOUYWH");
    var sounds := Skeleton(tail);
    var digits := Coded(First(sounds, 4));
    assert forall i :: 0 <= i < |digits| ==> digits[i] == CodeOf(sounds[i]);
    var code := [Upper(name)[0]] + digits + "0000";
    assert forall i :: 1 <= i <= |digits| ==> code[i] == digits[i - 1];
  }

  lemma {:induction false} SameFilter(s: string, f: char -> bool, g: char -> bool)
    requires forall c :: f(c) <==> g(c)
    ensures Filter(s, f) == Filter(s, g)
  {
    if |s| > 0 {
      SameFilter(s[1..], f, g);
    }
  }

  // ----- What sounds alike -----

  lemma UpperConcat(a: string, b: string)
    ensures Upper(a + b) == Upper(a) + Upper(b)
  {
  }

  lemma CleanedConcat(a: string, b: string)
    ensures Cleaned(a + b) == Cleaned(a) + Cleaned(b)
  {
    UpperConcat(a, b);
    FilterConcat(Upper(a), Upper(b), Clean);
  }

  /** A doubled letter is squeezed into one, wherever it stands. */
  lemma {:induction false} SqueezedDouble(a: string, c: char, b: string)
    ensures Squeezed(a + [c, c] + b) == Squeezed(a + [c] + b)
    decreases |b|
  {
    if |b| == 0 {
      SqueezedSnoc(a + [c], c);
      assert a + [c, c] + b == a + [c] + [c] && a + [c] + b == a + [c];
      assert Squeezed(a + [c]) + "" == Squeezed(a + [c]);
    } else {
      var front, last := b[..|b| - 1], b[|b| - 1];
      SqueezedDouble(a, c, front);
      assert a + [c, c] + b == a + [c, c] + front + [last] && a + [c] + b == a + [c] + front + [last];
      SqueezedSnoc(a + [c, c] + front, last);
      SqueezedSnoc(a + [c] + front, last);
      SameLast(a, c, front);
    }
  }

  lemma SameLast(a: string, c: char, front: string)
    ensures (a + [c, c] + front)[|a| + 1 + |front|] == (a + [c] + front)[|a| + |front|]
  {
  }

  lemma SqueezedSnoc(s: string, c: char)
    requires s != ""
    ensures Squeezed(s + [c]) == Squeezed(s) + if c == s[|s| - 1] then "" else [c]
  {
    var t := s + [c];
    assert t[..|t| - 1] == s && t[|t| - 1] == c && t[|t| - 2] == s[|s| - 1];
  }

  /** The code depends on the first letter and the skeleton of the rest only. */
  lemma SameSkeletonSameCode(a: string, b: string)
    requires Cleaned(a) != "" && Cleaned(b) != "" && Cleaned(a)[0] == Cleaned(b)[0]
    requires Skeleton(Cleaned(a)[1..]) == Skeleton(Cleaned(b)[1..])
    ensures GetLein(a) == GetLein(b)
  {
  }

  /** Letters that have no sound of their own. */
  predicate Silent(s: string) {
    forall c <- s :: IsDropped(UpperChar(c))
  }

  lemma SilentIsDropped(s: string)
    requires Silent(s)
    ensures Filter(Cleaned(s), Sounds) == ""
  {
    FilterIs(Upper(s), Clean);
    forall c | c in Upper(s)
      ensures !Sounds(c)
    {
      var i :| 0 <= i < |s| && Upper(s)[i] == c;
      assert s[i] in s;
    }
    FilterNone(Cleaned(s), Sounds);
  }

  /** Vowels, Y, W and H after the first letter make no difference. */
  lemma SilentLettersDoNotMatter(a: string, silent: string, b: string)
    requires Cleaned(a) != "" && Silent(silent)
    ensures GetLein(a + silent + b) == GetLein(a + b)
  {
    var head, s, tail := Cleaned(a), Cleaned(silent), Cleaned(b);
    CleanedConcat(a + silent, b);
    CleanedConcat(a, silent);
    CleanedConcat(a, b);
    assert (head + s + tail)[1..] == head[1..] + s + tail && (head + tail)[1..] == head[1..] + tail;
    FilterConcat(head[1..] + s, tail, Sounds);
    FilterConcat(head[1..], s, Sounds);
    FilterConcat(head[1..], tail, Sounds);
    SilentIsDropped(silent);
    assert Filter(head[1..], Sounds) + "" + Filter(tail, Sounds) == Filter(head[1..], Sounds) + Filter(tail, Sounds);
    SameSkeletonSameCode(a + silent + b, a + b);
  }

  lemma OneLetter(c: char)
    requires IsLetter(c) && !IsDropped(UpperChar(c))
    ensures Cleaned([c]) == [UpperChar(c)] && Filter(Cleaned([c]), Sounds) == [UpperChar(c)]
  {
    assert Upper([c]) == [UpperChar(c)];
    assert [UpperChar(c)][1..] == "";
    assert Filter("", Clean) == "" && Filter("", Sounds) == "";
  }

  /** Doubling a letter that sounds makes no difference after the first letter, even if the
      two are not written alike, or have silent letters between them. */
  lemma DoubledLettersDoNotMatter(a: string, c: char, silent: string, d: char, b: string)
    requires Cleaned(a) != "" && Silent(silent)
    requires IsLetter(c) && !IsDropped(UpperChar(c)) && UpperChar(d) == UpperChar(c)
    ensures GetLein(a + [c] + silent + [d] + b) == GetLein(a + [c] + b)
  {
    SilentLettersDoNotMatter(a + [c], silent, [d] + b) by {
      CleanedConcat(a, [c]);
    }
    assert a + [c] + silent + ([d] + b) == a + [c] + silent + [d] + b;
    assert a + [c] + ([d] + b) == a + [c] + [d] + b;
    DoubledNextToEachOther(a, c, d, b);
  }

  lemma DoubledNextToEachOther(a: string, c: char, d: char, b: string)
    requires Cleaned(a) != ""
    requires IsLetter(c) && !IsDropped(UpperChar(c)) && UpperChar(d) == UpperChar(c)
    ensures GetLein(a + [c] + [d] + b) == GetLein(a + [c] + b)
  {
    var head, tail, u := Cleaned(a), Cleaned(b), UpperChar(c);
    OneLetter(c);
    OneLetter(d);
    CleanedConcat(a + [c] + [d], b);
    CleanedConcat(a + [c], [d]);
    CleanedConcat(a + [c], b);
    CleanedConcat(a, [c]);
    assert (head + [u] + [u] + tail)[1..] == head[1..] + [u] + [u] + tail;
    assert (head + [u] + tail)[1..] == head[1..] + [u] + tail;
    var h, t := Filter(head[1..], Sounds), Filter(tail, Sounds);
    FilterConcat(head[1..] + [u] + [u], tail, Sounds);
    FilterConcat(head[1..] + [u], [u], Sounds);
    FilterConcat(head[1..] + [u], tail, Sounds);
    FilterConcat(head[1..], [u], Sounds);
    assert h + [u] + [u] + t == h + [u, u] + t;
    SqueezedDouble(h, u, t);
    SameSkeletonSameCode(a + [c] + [d] + b, a + [c] + b);
  }
}
