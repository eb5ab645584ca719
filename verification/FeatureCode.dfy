/** The Feature Code attribute: translations/etds40.js writes the codes of all features into
    one string, and translations/etds40_osm.js reads up to two of them again. */
module FeatureCode {
  import opened Text
  import opened Wrappers

  const NOT_FOUND := "Not found"
  const AND := " & "

  /** The description of each code that has one. */
  type Descriptions = map<string, string>

  function Described(code: string, desc: string): string {
    code + ":" + desc
  }

  /** The codes that can be written. */
  function KnownCodes(codes: seq<string>, lookup: Descriptions): seq<string> {
    if |codes| == 0 then []
    else (if codes[0] in lookup then [codes[0]] else []) + KnownCodes(codes[1..], lookup)
  }

  function Parts(codes: seq<string>, lookup: Descriptions): seq<string> {
    if |codes| == 0 then []
    else (if codes[0] in lookup then [Described(codes[0], lookup[codes[0]])] else []) + Parts(codes[1..], lookup)
  }

  function Written(codes: seq<string>, lookup: Descriptions): string {
    if Parts(codes, lookup) == [] then NOT_FOUND else Join(Parts(codes, lookup), AND)
  }

  lemma {:induction false} PartsSnoc(codes: seq<string>, code: string, lookup: Descriptions)
    ensures Parts(codes + [code], lookup)
            == Parts(codes, lookup) + if code in lookup then [Described(code, lookup[code])] else []
  {
    if |codes| == 0 {
      assert codes + [code] == [code];
    } else {
      assert (codes + [code])[1..] == codes[1..] + [code];
      PartsSnoc(codes[1..], code, lookup);
    }
  }

  /** What is written is never mistaken for the mark that nothing was: it has a colon. */
  lemma {:induction false} NeverTheMark(parts: seq<string>)
    requires |parts| > 0 && ':' in parts[0]
    ensures Join(parts, AND) != NOT_FOUND
  {
    assert ':' in Join(parts, AND);
    assert ':' !in NOT_FOUND;
  }

  lemma {:induction false} PartsHaveColons(codes: seq<string>, lookup: Descriptions)
    ensures forall p <- Parts(codes, lookup) :: ':' in p
  {
    if |codes| > 0 {
      PartsHaveColons(codes[1..], lookup);
      if codes[0] in lookup {
        assert Described(codes[0], lookup[codes[0]])[|codes[0]|] == ':';
      }
    }
  }

  method WriteFeatureCode(codes: seq<string>, fcodeLookup: Descriptions) returns (text: string)
    ensures text == Written(codes, fcodeLookup)
  {
    text := NOT_FOUND;
    for fNum := 0 to |codes|
      invariant text == Written(codes[..fNum], fcodeLookup)
    {
      var tFCODE := codes[fNum];
      ghost var parts := Parts(codes[..fNum], fcodeLookup);
      assert codes[..fNum + 1] == codes[..fNum] + [tFCODE];
      PartsSnoc(codes[..fNum], tFCODE, fcodeLookup);
      PartsHaveColons(codes[..fNum], fcodeLookup);
      assert parts + [] == parts;
      if tFCODE in fcodeLookup {
        ghost var part := Described(tFCODE, fcodeLookup[tFCODE]);
        assert parts == [] ==> parts + [part] == [part];
        if |parts| > 0 {
          NeverTheMark(parts);
          JoinSnoc(parts, Described(tFCODE, fcodeLookup[tFCODE]), AND);
        }
        if text != NOT_FOUND {
          text := text + " & " + (tFCODE + ":" + fcodeLookup[tFCODE]);
        } else {
          text := tFCODE + ":" + fcodeLookup[tFCODE];
        }
      }
    }
    assert codes[..|codes|] == codes;
  }

  /** What one more feature adds: its code with its description, if the code has one, behind an
      ampersand unless it is the first. */
  lemma WrittenOneMore(codes: seq<string>, code: string, lookup: Descriptions)
    ensures Written([], lookup) == "Not found"
    ensures Written(codes + [code], lookup)
            == if code !in lookup then Written(codes, lookup)
               else if forall c <- codes :: c !in lookup then code + ":" + lookup[code]
               else Written(codes, lookup) + " & " + (code + ":" + lookup[code])
  {
    var parts := Parts(codes, lookup);
    PartsSnoc(codes, code, lookup);
    AnyParts(codes, lookup);
    if code in lookup {
      var part := Described(code, lookup[code]);
      assert parts == [] ==> parts + [part] == [part];
      if parts != [] {
        JoinSnoc(parts, part, AND);
      }
    } else {
      assert parts + [] == parts;
    }
  }

  lemma {:induction false} AnyParts(codes: seq<string>, lookup: Descriptions)
    ensures Parts(codes, lookup) == [] <==> forall c <- codes :: c !in lookup
  {
    if |codes| > 0 {
      AnyParts(codes[1..], lookup);
      assert forall c :: c in codes <==> c == codes[0] || c in codes[1..];
    }
  }

  /** The text has this piece, between ampersands or at its ends. */
  ghost predicate HasPiece(text: string, piece: string) {
    exists before, after :: text == before + piece + after
      && (before == "" || EndsWith(before, " & ")) && (after == "" || " & " <= after)
  }

  predicate EndsWith(text: string, end: string) {
    |end| <= |text| && text[|text| - |end|..] == end
  }

  lemma LastPiece(text: string, piece: string)
    ensures HasPiece(piece, piece) && HasPiece(text + " & " + piece, piece)
  {
    assert piece == "" + piece + "";
    var before := text + " & ";
    assert before[|before| - 3..] == " & ";
    assert text + " & " + piece == before + piece + "";
  }

  lemma EarlierPiece(text: string, piece: string, more: string)
    requires HasPiece(text, piece)
    ensures HasPiece(text + " & " + more, piece)
  {
    var before, after :| text == before + piece + after
      && (before == "" || EndsWith(before, " & ")) && (after == "" || " & " <= after);
    var rest := after + " & " + more;
    assert " & " <= rest;
    assert text + " & " + more == before + piece + rest;
  }

  /** Every code with a description is written, with it, wherever it stands. */
  lemma {:induction false} EveryCodeIsWritten(codes: seq<string>, lookup: Descriptions, i: nat)
    requires i < |codes| && codes[i] in lookup
    ensures HasPiece(Written(codes, lookup), codes[i] + ":" + lookup[codes[i]])
    decreases |codes|
  {
    var n := |codes| - 1;
    var front, last, piece := codes[..n], codes[n], codes[i] + ":" + lookup[codes[i]];
    assert codes == front + [last];
    WrittenOneMore(front, last, lookup);
    if i == n {
      LastPiece(Written(front, lookup), piece);
    } else {
      EveryCodeIsWritten(front, lookup, i);
      assert front[i] in front;
      if last in lookup {
        EarlierPiece(Written(front, lookup), piece, last + ":" + lookup[last]);
      }
    }
  }

  // ----- Reading -----

  /** The first code, and the second if there is one. */
  datatype Codes = Codes(first: string, second: string)

  function CodeIn(part: string): string {
    Split(part, ":")[0]
  }

  function Read(text: string): Option<Codes> {
    if text == "" || text == NOT_FOUND then None
    else if !Contains(text, AND) then Some(Codes(CodeIn(text), ""))
    else
      SplitFound(text, AND);
      Some(Codes(CodeIn(Split(text, AND)[0]), CodeIn(Split(text, AND)[1])))
  }

  lemma SplitFound(text: string, sep: string)
    requires sep != "" && Contains(text, sep)
    ensures |Split(text, sep)| >= 2
  {
  }

  method ReadFeatureCode(featureCode: Option<string>) returns (codes: Option<Codes>)
    ensures codes == if featureCode.None? then None else Read(featureCode.value)
  {
    if featureCode.None? || featureCode.value == "" || featureCode.value == NOT_FOUND {
      return None;
    }
    var text, fCode2 := featureCode.value, "";
    if IndexOf(text, " & ") > -1 {
      SplitFound(text, AND);
      var tList := Split(text, " & ");
      var fcode := Split(tList[0], ":");
      text := fcode[0];
      fcode := Split(tList[1], ":");
      fCode2 := fcode[0];
    } else {
      var fcode := Split(text, ":");
      text := fcode[0];
    }
    codes := Some(Codes(text, fCode2));
  }

  // ----- The first code -----

  /** A code that is read as it was written. */
  predicate Plain(code: string) {
    ':' !in code && !Contains(code, AND)
  }

  lemma CodeBeforeColon(code: string, rest: string)
    requires ':' !in code
    ensures CodeIn(code + ":" + rest) == code
  {
    CharEndsAtFirst(code, ':');
    SplitStep(code, ":", rest);
  }

  /** Where the text up to some place is cut depends on nothing after that. */
  lemma FirstPiece(text: string, sep: string)
    requires sep != ""
    ensures Split(text, sep)[0] == if Contains(text, sep) then text[..IndexOf(text, sep)] else text
  {
  }

  lemma AndAfterColon(code: string, rest: string)
    requires !Contains(code, AND)
    ensures IndexOf(code + ":" + rest, AND) == -1 || IndexOf(code + ":" + rest, AND) > |code|
  {
    forall j | 0 <= j <= |code|
      ensures !OccursAt(code + ":" + rest, AND, j)
    {
      NoAndAcross(code, rest, j);
    }
  }

  /** No separator begins in the code or at the colon, unless it is inside the code. */
  lemma NoAndAcross(code: string, rest: string, j: nat)
    requires j <= |code| && !OccursAt(code, AND, j)
    ensures !OccursAt(code + ":" + rest, AND, j)
  {
    var text := code + ":" + rest;
    if j + 3 <= |code| {
      assert text[j..j + 3] == code[j..j + 3];
    } else if j + 3 <= |text| {
      assert text[j..j + 3][|code| - j] == ':';
      assert AND[0] != ':' && AND[1] != ':' && AND[2] != ':';
    }
  }

  lemma AndInCode(code: string, rest: string)
    requires Contains(code, AND)
    ensures 0 <= IndexOf(code + ":" + rest, AND) < |code|
  {
    var j := IndexOf(code, AND);
    assert (code + ":" + rest)[j..j + 3] == code[j..j + 3];
    assert OccursAt(code + ":" + rest, AND, j);
  }

  /** The first code is read back if and only if it is plain, whatever follows it. */
  lemma FirstCodeIff(code: string, rest: string)
    ensures CodeIn(Split(code + ":" + rest, AND)[0]) == code <==> Plain(code)
  {
    var text := code + ":" + rest;
    FirstPiece(text, AND);
    var piece := Split(text, AND)[0];
    if Contains(code, AND) {
      AndInCode(code, rest);
      FirstPiece(piece, ":");
      assert |CodeIn(piece)| < |code|;
    } else {
      AndAfterColon(code, rest);
      var more := piece[|code| + 1..];
      assert piece == code + ":" + more;
      ColonIff(code, more);
    }
  }

  lemma ColonIff(code: string, rest: string)
    ensures CodeIn(code + ":" + rest) == code <==> ':' !in code
  {
    var text := code + ":" + rest;
    if ':' !in code {
      CodeBeforeColon(code, rest);
    } else {
      FirstPiece(text, ":");
      var j :| 0 <= j < |code| && code[j] == ':';
      assert text[j..j + 1] == ":";
      assert OccursAt(text, ":", j);
    }
  }

  // ----- The second code -----

  lemma FirstPieceIsPrefix(text: string)
    ensures CodeIn(Split(text, AND)[0]) <= text
  {
  }

  /** What comes after the first separator. */
  lemma SecondPiece(text: string, i: nat)
    requires IndexOf(text, AND) == i
    ensures i + 3 <= |text| && |Split(text, AND)| >= 2 && Split(text, AND)[1] == Split(text[i + 3..], AND)[0]
  {
  }

  function Xs(n: nat): (s: string)
    ensures |s| == n && forall c <- s :: c == 'x'
  {
    if n == 0 then "" else "x" + Xs(n - 1)
  }

  lemma XsArePlain(n: nat)
    ensures Plain(Xs(n))
  {
    forall j
      ensures !OccursAt(Xs(n), AND, j)
    {
      if 0 <= j && j + 3 <= n {
        assert Xs(n)[j] in Xs(n);
        assert Xs(n)[j..j + 3][0] == 'x';
      }
    }
  }

  lemma HiddenInside(part: string, rest: string, i: nat)
    requires i + 3 <= |part| && IndexOf(part + AND + rest, AND) == i
    ensures |Split(part + AND + rest, AND)| >= 2 && |CodeIn(Split(part + AND + rest, AND)[1])| <= |part|
  {
    var text := part + AND + rest;
    SecondPiece(text, i);
    var tail := text[i + 3..];
    assert tail == part[i + 3..] + AND + rest;
    FoundInJoin(part[i + 3..], rest);
    assert tail[|part| - i - 3..|part| - i] == AND;
    assert OccursAt(tail, AND, |part| - i - 3);
    FirstPiece(tail, AND);
    FirstPiece(Split(tail, AND)[0], ":");
  }

  lemma HiddenAcross(part: string, rest: string, i: nat)
    requires i < |part| < i + 3 && IndexOf(part + AND + rest, AND) == i
    ensures |Split(part + AND + rest, AND)| >= 2
    ensures CodeIn(Split(part + AND + rest, AND)[1]) <= "& " + rest
  {
    var text := part + AND + rest;
    SecondPiece(text, i);
    assert text[|part|] == ' ' && text[|part| + 1] == '&';
    assert text[i..i + 3][1] == text[i + 1];
    assert i == |part| - 2;
    assert text[i + 3..] == "& " + rest;
    FirstPieceIsPrefix(text[i + 3..]);
  }

  ghost predicate SecondIsRead(part: string, code: string, rest: string) {
    var text := part + AND + (code + ":" + rest);
    |Split(text, AND)| >= 2 && CodeIn(Split(text, AND)[1]) == code
  }

  lemma StartsOtherwise(part: string, code: string, rest: string, start: string)
    requires code != "" && start != "" && code[0] != start[0]
    requires |Split(part + AND + (code + ":" + rest), AND)| >= 2
    requires CodeIn(Split(part + AND + (code + ":" + rest), AND)[1]) <= start
             || |CodeIn(Split(part + AND + (code + ":" + rest), AND)[1])| < |code|
    ensures !SecondIsRead(part, code, rest)
  {
  }

  /** A part that hides a separator spoils the next code. */
  lemma SpoiltSecond(part: string, code: string)
    requires !EndsAtFirst(part, AND) && |code| > |part| && code[0] != '&'
    ensures !SecondIsRead(part, code, "")
  {
    var rest := code + ":" + "";
    var i := HiddenAnd(part, rest);
    if i + 3 <= |part| {
      HiddenInside(part, rest, i);
    } else {
      HiddenAcross(part, rest, i);
    }
    StartsOtherwise(part, code, "", "& " + rest);
  }

  lemma HiddenAnd(part: string, rest: string) returns (i: nat)
    requires !EndsAtFirst(part, AND)
    ensures i < |part| && IndexOf(part + AND + rest, AND) == i && OccursAt(part + AND + rest, AND, i)
  {
    var text := part + AND + rest;
    var j :| 0 <= j < |part| && OccursAt(part + AND, AND, j);
    assert text[j..j + 3] == (part + AND)[j..j + 3];
    assert OccursAt(text, AND, j);
    i := IndexOf(text, AND);
  }

  lemma SecondAfter(part: string, code: string, rest: string)
    requires EndsAtFirst(part, AND)
    ensures Split(part + AND + (code + ":" + rest), AND) == [part] + Split(code + ":" + rest, AND)
    ensures |Split(part + AND + (code + ":" + rest), AND)| >= 2
    ensures CodeIn(Split(part + AND + (code + ":" + rest), AND)[1]) == code <==> Plain(code)
  {
    SplitStep(part, AND, code + ":" + rest);
    FirstCodeIff(code, rest);
  }

  /** Every plain code is read back after a part if and only if the part hides no separator,
      not even together with the one that follows it. */
  lemma SecondCodeIff(part: string)
    ensures (forall code, rest | Plain(code) :: SecondIsRead(part, code, rest)) <==> EndsAtFirst(part, AND)
  {
    if EndsAtFirst(part, AND) {
      forall code, rest | Plain(code)
        ensures SecondIsRead(part, code, rest)
      {
        SecondAfter(part, code, rest);
      }
    } else {
      var code := Xs(|part| + 1);
      XsArePlain(|part| + 1);
      assert code[0] in code;
      SpoiltSecond(part, code);
    }
  }

  // ----- Writing, then reading -----

  /** A description that hides no separator; one without an ampersand is clear. */
  predicate Clear(desc: string) {
    EndsAtFirst(desc, AND)
  }

  lemma NoAmpersandIsClear(desc: string)
    requires '&' !in desc
    ensures Clear(desc)
  {
    forall j | 0 <= j < |desc|
      ensures !OccursAt(desc + AND, AND, j)
    {
      var text := desc + AND;
      assert text[j + 1] != '&';
      assert text[j..j + 3][1] == text[j + 1];
    }
  }

  lemma ClearPart(code: string, desc: string)
    requires Plain(code)
    ensures EndsAtFirst(Described(code, desc), AND) <==> Clear(desc)
  {
    var part, whole := Described(code, desc), Described(code, desc) + AND;
    forall j | 0 <= j < |desc|
      ensures OccursAt(desc + AND, AND, j) <==> OccursAt(whole, AND, |code| + 1 + j)
    {
      assert whole[|code| + 1..] == desc + AND;
      assert whole[|code| + 1 + j..|code| + 1 + j + 3] == (desc + AND)[j..j + 3];
    }
    forall j | 0 <= j <= |code|
      ensures !OccursAt(whole, AND, j)
    {
      assert whole == code + ":" + (desc + AND);
      NoAndAcross(code, desc + AND, j);
    }
    if Clear(desc) {
      forall j | 0 <= j < |part|
        ensures !OccursAt(whole, AND, j)
      {
        assert j > |code| ==> !OccursAt(desc + AND, AND, j - |code| - 1);
      }
    }
  }

  lemma {:induction false} PartsOfKnown(codes: seq<string>, lookup: Descriptions)
    ensures |Parts(codes, lookup)| == |KnownCodes(codes, lookup)|
    ensures forall i :: 0 <= i < |Parts(codes, lookup)| ==>
              var c := KnownCodes(codes, lookup)[i]; c in codes && c in lookup && Parts(codes, lookup)[i] == Described(c, lookup[c])
  {
    if |codes| > 0 {
      PartsOfKnown(codes[1..], lookup);
    }
  }

  /** The description of the first known code hides no separator. */
  predicate FirstClear(known: seq<string>, lookup: Descriptions) {
    |known| > 0 && known[0] in lookup ==> if |known| == 1 then !Contains(lookup[known[0]], AND) else Clear(lookup[known[0]])
  }

  /** The first two of these codes, or one, or none. */
  function FirstTwo(known: seq<string>): Option<Codes> {
    if |known| == 0 then None else Some(Codes(known[0], if |known| == 1 then "" else known[1]))
  }

  /** Of the codes that were written the first two are read back, or the only one, if and only
      if they are plain. */
  lemma CodesAreReadBackIff(codes: seq<string>, lookup: Descriptions)
    requires FirstClear(KnownCodes(codes, lookup), lookup)
    ensures var known := KnownCodes(codes, lookup);
            Read(Written(codes, lookup)) == FirstTwo(known) <==>
              (|known| > 0 ==> Plain(known[0])) && (|known| > 1 ==> Plain(known[1]))
  {
    var known, parts := KnownCodes(codes, lookup), Parts(codes, lookup);
    PartsOfKnown(codes, lookup);
    if |known| > 0 {
      PartsHaveColons(codes, lookup);
      NeverTheMark(parts);
      if |known| == 1 {
        OnlyCodeIff(known[0], lookup[known[0]]);
      } else {
        var rest := RestAfter(known[1], lookup[known[1]], parts[1..]);
        TwoCodesIff(known[0], lookup[known[0]], known[1], rest);
      }
    }
  }

  lemma ReadTwo(text: string)
    requires text != "" && text != NOT_FOUND && Contains(text, AND)
    ensures |Split(text, AND)| >= 2
    ensures Read(text) == Some(Codes(CodeIn(Split(text, AND)[0]), CodeIn(Split(text, AND)[1])))
  {
  }

  lemma FirstOfTwoIff(first: string, desc: string, tail: string)
    ensures CodeIn(Split(Described(first, desc) + AND + tail, AND)[0]) == first <==> Plain(first)
  {
    assert Described(first, desc) + AND + tail == first + ":" + (desc + AND + tail);
    FirstCodeIff(first, desc + AND + tail);
  }

  lemma TwoCodesIff(first: string, desc: string, second: string, rest: string)
    requires Clear(desc) && Described(first, desc) + AND + (second + ":" + rest) != NOT_FOUND
    ensures Read(Described(first, desc) + AND + (second + ":" + rest)) == Some(Codes(first, second))
            <==> Plain(first) && Plain(second)
  {
    var part, tail := Described(first, desc), second + ":" + rest;
    FoundInJoin(part, tail);
    ReadTwo(part + AND + tail);
    FirstOfTwoIff(first, desc, tail);
    if Plain(first) {
      ClearPart(first, desc);
      SecondAfter(part, second, rest);
    }
  }

  lemma OnlyCodeIff(code: string, desc: string)
    requires !Contains(desc, AND) && Described(code, desc) != NOT_FOUND
    ensures Read(Described(code, desc)) == Some(Codes(code, "")) <==> Plain(code)
  {
    var text := Described(code, desc);
    FirstCodeIff(code, desc);
    FirstPiece(text, AND);
    if Plain(code) {
      NoAndInPart(code, desc);
    }
    if Contains(text, AND) {
      ReadTwo(text);
    }
  }

  lemma NoAndInPart(code: string, desc: string)
    requires !Contains(code, AND) && !Contains(desc, AND)
    ensures !Contains(Described(code, desc), AND)
  {
    var text := Described(code, desc);
    forall j
      ensures !OccursAt(text, AND, j)
    {
      if 0 <= j <= |code| {
        NoAndAcross(code, desc, j);
      } else if j > |code| && j + 3 <= |text| {
        assert text[j..j + 3] == desc[j - |code| - 1..j - |code| + 2];
        assert !OccursAt(desc, AND, j - |code| - 1);
      }
    }
  }

  lemma RestAfter(code: string, desc: string, parts: seq<string>) returns (rest: string)
    requires |parts| > 0 && parts[0] == Described(code, desc)
    ensures Join(parts, AND) == code + ":" + rest
  {
    rest := if |parts| == 1 then desc else desc + AND + Join(parts[1..], AND);
  }

  lemma FoundInJoin(part: string, rest: string)
    ensures Contains(part + AND + rest, AND) && part + AND + rest != ""
  {
    var text := part + AND + rest;
    assert text[|part|..|part| + 3] == AND;
    assert OccursAt(text, AND, |part|);
  }
}
