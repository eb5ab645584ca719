/** Text columns of translations/RenderDb.js whose tags may hold double quotes, which are not
    escaped: exactly which of them the import reads back. */
module RenderDbQuotes {
  import opened QuotedText
  import opened RenderDbColumns
  import opened Text
  import opened Wrappers

  // ----- The pieces of a column -----

  function Body(tag: Tag): string {
    tag.key + KEY_SEP + tag.value
  }

  /** A piece, with the quotes at the ends of the column that belong to it. */
  function Piece(opening: bool, tag: Tag, closing: bool): string {
    (if opening then QUOTE else "") + tag.key + KEY_SEP + (tag.value + if closing then QUOTE else "")
  }

  /** The rest of a column, from the piece of its first tag on. */
  function Rest(opening: bool, tags: seq<Tag>): string
    requires |tags| >= 1
    decreases |tags|
  {
    if |tags| == 1 then Piece(opening, tags[0], true)
    else Piece(opening, tags[0], false) + ENTRY_SEP + Rest(false, tags[1..])
  }

  lemma PieceOfEntry(tag: Tag)
    ensures QUOTE + Piece(false, tag, true) == Entry(tag) == Piece(true, tag, true)
    ensures Piece(true, tag, false) + QUOTE == Entry(tag)
    ensures Piece(true, tag, false) == QUOTE + Piece(false, tag, false)
  {
    assert tag.value + "" == tag.value && "" + tag.key == tag.key;
  }

  lemma {:induction false} ColumnIsRest(tags: seq<Tag>)
    requires |tags| >= 1
    ensures ColumnText(tags) == Rest(true, tags) == QUOTE + Rest(false, tags)
    decreases |tags|
  {
    var tag := tags[0];
    PieceOfEntry(tag);
    if |tags| == 1 {
      assert Entries(tags) == [Entry(tag)];
    } else {
      ColumnIsRest(tags[1..]);
      var more := Rest(false, tags[1..]);
      assert Entries(tags)[1..] == Entries(tags[1..]);
      assert ColumnText(tags) == Entry(tag) + "," + (QUOTE + more);
      assert ENTRY_SEP == QUOTE + "," + QUOTE;
      assert Piece(true, tag, false) + ENTRY_SEP + more == Piece(true, tag, false) + QUOTE + "," + QUOTE + more;
      assert QUOTE + (Piece(false, tag, false) + ENTRY_SEP + more) == (QUOTE + Piece(false, tag, false)) + ENTRY_SEP + more;
    }
  }

  // ----- Taking out one quote -----

  /** After a quote there are only quotes. */
  predicate QuotesLast(v: string) {
    forall i, j :: 0 <= i < j < |v| && v[i] == '\"' ==> v[j] == '\"'
  }

  lemma QuoteAt(s: string, j: int)
    requires 0 <= j < |s|
    ensures OccursAt(s, QUOTE, j) <==> s[j] == '\"'
  {
    assert s[j..j + 1] == [s[j]];
  }

  lemma FirstQuote(s: string)
    ensures IndexOf(s, QUOTE) == -1 <==> QuoteFree(s)
    ensures IndexOf(s, QUOTE) != -1 ==>
              var i := IndexOf(s, QUOTE); 0 <= i < |s| && s[i] == '\"' && forall j :: 0 <= j < i ==> s[j] != '\"'
  {
    forall j | 0 <= j < |s|
      ensures OccursAt(s, QUOTE, j) <==> s[j] == '\"'
    {
      QuoteAt(s, j);
    }
  }

  /** The length tells whether there was a quote. */
  lemma OneQuoteLess(s: string)
    ensures |ReplaceFirst(s, QUOTE, "")| == |s| - if QuoteFree(s) then 0 else 1
    ensures QuoteFree(s) ==> ReplaceFirst(s, QUOTE, "") == s
  {
    FirstQuote(s);
  }

  /** A closing quote is the one that is taken out if no other is in front of something. */
  lemma ClosedIff(v: string)
    ensures ReplaceFirst(v + QUOTE, QUOTE, "") == v <==> QuotesLast(v)
  {
    var s := v + QUOTE;
    FirstQuote(s);
    assert s[|v|] == '\"';
    var i := IndexOf(s, QUOTE);
    TakenOutIff(v, i);
    assert ReplaceFirst(s, QUOTE, "") == s[..i] + s[i + 1..];
  }

  lemma TakenOutIff(v: string, i: nat)
    requires i <= |v| && (v + QUOTE)[i] == '\"' && forall j :: 0 <= j < i ==> (v + QUOTE)[j] != '\"'
    ensures (v + QUOTE)[..i] + (v + QUOTE)[i + 1..] == v <==> QuotesLast(v)
  {
    var s := v + QUOTE;
    var r := s[..i] + s[i + 1..];
    assert forall j :: 0 <= j < i ==> r[j] == s[j] == v[j];
    assert forall j :: i <= j < |v| ==> r[j] == s[j + 1];
    if QuotesLast(v) {
      assert forall j :: i <= j < |v| ==> v[j] == '\"' && s[j + 1] == '\"';
    }
    if r == v {
      forall j | i <= j < |v|
        ensures v[j] == '\"'
      {
        AllFrom(v, i, j);
      }
    }
  }

  lemma {:induction false} AllFrom(v: string, i: nat, j: nat)
    requires i <= j < |v| && (v + QUOTE)[i] == '\"'
    requires forall k :: i <= k < |v| ==> v[k] == (v + QUOTE)[k + 1]
    ensures v[j] == '\"'
    decreases j
  {
    if j > i {
      AllFrom(v, i, j - 1);
      assert v[j - 1] == (v + QUOTE)[j];
    }
  }

  // ----- One piece -----

  /** What is in front of the first separator. */
  lemma FrontOf(p: string, sep: string, rest: string)
    requires sep != ""
    ensures var parts := Split(p + sep + rest, sep);
            && |parts| >= 2 && |parts[0]| <= |p| && parts[0] == p[..|parts[0]|]
            && (parts[0] == p <==> EndsAtFirst(p, sep))
            && (EndsAtFirst(p, sep) ==> parts == [p] + Split(rest, sep))
  {
    var s := p + sep + rest;
    assert s[|p|..|p| + |sep|] == sep;
    assert OccursAt(s, sep, |p|);
    var i := IndexOf(s, sep);
    assert s[..i] == p[..i];
    forall j | 0 <= j < |p|
      ensures OccursAt(s, sep, j) <==> OccursAt(p + sep, sep, j)
    {
      assert s[j..j + |sep|] == (p + sep)[j..j + |sep|];
    }
    if EndsAtFirst(p, sep) {
      SplitStep(p, sep, rest);
    }
  }

  lemma FrontOfWhole(s: string, sep: string)
    requires sep != ""
    ensures var parts := Split(s, sep);
            && |parts[0]| <= |s| && parts[0] == s[..|parts[0]|]
            && (parts[0] == s <==> !Contains(s, sep)) && (!Contains(s, sep) ==> parts == [s])
  {
  }

  /** The key of a piece comes back: behind the opening quote of the column it may hold
      quotes, as long as no separator begins before its end; elsewhere it may not. */
  lemma KeyIff(opening: bool, key: string, rest: string)
    ensures var parts := Split((if opening then QUOTE else "") + key + KEY_SEP + rest, KEY_SEP);
            && |parts| >= 2
            && (ReplaceFirst(parts[0], QUOTE, "") == key <==>
                if opening then EndsAtFirst(QUOTE + key, KEY_SEP) else QuoteFree(key))
            && (ReplaceFirst(parts[0], QUOTE, "") == key ==> parts[1..] == Split(rest, KEY_SEP))
  {
    var front := (if opening then QUOTE else "") + key;
    var text := front + KEY_SEP + rest;
    FrontOf(front, KEY_SEP, rest);
    var part := Split(text, KEY_SEP)[0];
    OneQuoteLess(part);
    if opening {
      ReplaceLeading(key);
      OpeningStays(key, rest);
    } else {
      assert front == key;
      if QuoteFree(key) {
        FreeEndsAtFirst(key);
      }
    }
  }

  /** The opening quote is part of what is in front of the first separator. */
  lemma OpeningStays(key: string, rest: string)
    ensures var part := Split(QUOTE + key + KEY_SEP + rest, KEY_SEP)[0];
            && (ReplaceFirst(part, QUOTE, "") == key ==> part == QUOTE + key)
  {
    var text := QUOTE + key + KEY_SEP + rest;
    FrontOf(QUOTE + key, KEY_SEP, rest);
    var part := Split(text, KEY_SEP)[0];
    OneQuoteLess(part);
    if key == "" {
      NotAtOnce(text);
    }
    if part != "" {
      assert part[0] == (QUOTE + key)[0] == '\"';
      assert !QuoteFree(part);
    }
  }

  /** Two quotes do not begin a key separator. */
  lemma NotAtOnce(text: string)
    requires |text| >= 2 && text[1] == '\"'
    ensures IndexOf(text, KEY_SEP) != 0
  {
    assert KEY_SEP[1] == '=';
    assert |text| >= 4 ==> text[0..4][1] == text[1];
    assert !OccursAt(text, KEY_SEP, 0);
  }

  lemma FreeEndsAtFirst(key: string)
    requires QuoteFree(key)
    ensures EndsAtFirst(key, KEY_SEP)
  {
    forall j | 0 <= j < |key|
      ensures !OccursAt(key + KEY_SEP, KEY_SEP, j)
    {
      assert (key + KEY_SEP)[j] == key[j] && KEY_SEP[0] == '\"';
      assert j + 4 <= |key + KEY_SEP| ==> (key + KEY_SEP)[j..j + 4][0] == key[j];
    }
  }

  /** No key separator in a text in which quotes come last. */
  lemma LastHasNoKeySep(v: string)
    requires QuotesLast(v)
    ensures !Contains(v, KEY_SEP) && !Contains(v + QUOTE, KEY_SEP)
  {
    assert KEY_SEP[0] == '\"' && KEY_SEP[1] == '=';
    forall s, j | s == v || s == v + QUOTE
      ensures !OccursAt(s, KEY_SEP, j)
    {
      if 0 <= j && j + 4 <= |s| {
        assert s[j..j + 4][0] == s[j] && s[j..j + 4][1] == s[j + 1];
      }
    }
  }

  /** The value of a piece comes back if it has no quotes, or, in front of the closing quote
      of the column, if its quotes come last. */
  lemma ValueIff(value: string, closing: bool)
    ensures ReplaceFirst(Split(value + if closing then QUOTE else "", KEY_SEP)[0], QUOTE, "") == value
            <==> if closing then QuotesLast(value) else QuoteFree(value)
  {
    var text := value + if closing then QUOTE else "";
    FrontOfWhole(text, KEY_SEP);
    var part := Split(text, KEY_SEP)[0];
    OneQuoteLess(part);
    if closing {
      ClosedIff(value);
      if QuotesLast(value) {
        LastHasNoKeySep(value);
      }
      WholeOrShorter(value);
    } else {
      assert text == value;
      if QuoteFree(value) {
        LastHasNoKeySep(value);
      }
    }
  }

  /** What is in front of a separator in a closed value is either all of it, or too short. */
  lemma WholeOrShorter(value: string)
    ensures var part := Split(value + QUOTE, KEY_SEP)[0]; part == value + QUOTE || |part| < |value|
  {
    FrontOfWhole(value + QUOTE, KEY_SEP);
    assert |KEY_SEP| == 4;
  }

  predicate KeyReads(opening: bool, key: string) {
    if opening then EndsAtFirst(QUOTE + key, KEY_SEP) else QuoteFree(key)
  }

  predicate ValueReads(value: string, closing: bool) {
    if closing then QuotesLast(value) else QuoteFree(value)
  }

  lemma DecodePieceIff(opening: bool, tag: Tag, closing: bool)
    ensures DecodePiece(Piece(opening, tag, closing)) == Ok(tag) <==> KeyReads(opening, tag.key) && ValueReads(tag.value, closing)
  {
    KeyIff(opening, tag.key, tag.value + if closing then QUOTE else "");
    ValueIff(tag.value, closing);
  }

  lemma PartsLength(piece: string)
    requires |Split(piece, KEY_SEP)| >= 2
    ensures var parts := Split(piece, KEY_SEP); |piece| >= |parts[0]| + |parts[1]| + 4
    ensures Split(piece, KEY_SEP)[0] == "" ==> IndexOf(piece, KEY_SEP) == 0
    ensures Split(piece, KEY_SEP)[0] <= piece
  {
    var parts := Split(piece, KEY_SEP);
    assert piece == parts[0] + KEY_SEP + Join(parts[1..], KEY_SEP);
    assert |Join(parts[1..], KEY_SEP)| >= |parts[1]|;
    FrontOfWhole(piece, KEY_SEP);
  }

  /** The start of a piece that reads as its tag is all of it. */
  lemma StartIsWhole(opening: bool, tag: Tag, piece: string)
    requires piece <= Piece(opening, tag, false) && DecodePiece(piece) == Ok(tag)
    ensures piece == Piece(opening, tag, false)
  {
    var parts, whole := Split(piece, KEY_SEP), Piece(opening, tag, false);
    PartsLength(piece);
    OneQuoteLess(parts[0]);
    OneQuoteLess(parts[1]);
    assert |whole| == |tag.key| + |tag.value| + 4 + if opening then 1 else 0;
    if opening {
      OpeningIsInKey(tag, piece);
    }
  }

  /** The opening quote is taken out of the key. */
  lemma OpeningIsInKey(tag: Tag, piece: string)
    requires piece <= Piece(true, tag, false) && DecodePiece(piece) == Ok(tag)
    ensures !QuoteFree(Split(piece, KEY_SEP)[0])
  {
    var part, whole := Split(piece, KEY_SEP)[0], Piece(true, tag, false);
    PartsLength(piece);
    OneQuoteLess(part);
    assert |part| >= 1 || (tag.key == "" && IndexOf(piece, KEY_SEP) == 0);
    QuotedPiece(tag);
    if |piece| >= 2 && piece[1] == '\"' {
      NotAtOnce(piece);
    }
    assert part != "";
    assert part[0] == piece[0] == whole[0];
  }

  lemma QuotedPiece(tag: Tag)
    ensures var piece := Piece(true, tag, false);
            |piece| >= 2 && piece[0] == '\"' && (tag.key == "" ==> piece[1] == KEY_SEP[0])
  {
  }

  // ----- The whole column -----

  /** The piece reads as its tag, and ends where the import thinks that it does. */
  predicate PieceReads(opening: bool, tag: Tag, closing: bool) {
    && KeyReads(opening, tag.key) && ValueReads(tag.value, closing)
    && if closing then !Contains(Piece(opening, tag, true), ENTRY_SEP)
       else EndsAtFirst(Piece(opening, tag, false), ENTRY_SEP)
  }

  predicate AllRead(opening: bool, tags: seq<Tag>)
    requires |tags| >= 1
    decreases |tags|
  {
    PieceReads(opening, tags[0], |tags| == 1) && (|tags| > 1 ==> AllRead(false, tags[1..]))
  }

  lemma {:induction false} DecodedLength(pieces: seq<string>)
    ensures DecodePieces(pieces).Ok? ==> |DecodePieces(pieces).value| == |pieces|
    ensures |pieces| > 0 && DecodePieces(pieces).Ok? ==>
              DecodePiece(pieces[0]) == Ok(DecodePieces(pieces).value[0])
              && DecodePieces(pieces[1..]) == Ok(DecodePieces(pieces).value[1..])
  {
    if |pieces| > 0 {
      DecodedLength(pieces[1..]);
    }
  }

  lemma LastIff(opening: bool, tag: Tag)
    ensures DecodeColumn(Piece(opening, tag, true)) == Ok([tag]) <==> PieceReads(opening, tag, true)
  {
    var piece := Piece(opening, tag, true);
    FrontOfWhole(piece, ENTRY_SEP);
    DecodePieceIff(opening, tag, true);
    DecodedLength(Split(piece, ENTRY_SEP));
    if !Contains(piece, ENTRY_SEP) {
      DecodeFirst(piece, []);
      assert [piece] + [] == [piece] && [tag] + [] == [tag];
    } else {
      SplitFurther(piece, ENTRY_SEP);
    }
  }

  lemma SplitFurther(text: string, sep: string)
    requires sep != "" && Contains(text, sep)
    ensures |Split(text, sep)| >= 2
  {
  }

  lemma DecodeBoth(piece: string, rest: seq<string>, tags: seq<Tag>)
    requires |tags| >= 1
    ensures DecodePieces([piece] + rest) == Ok(tags) <==> DecodePiece(piece) == Ok(tags[0]) && DecodePieces(rest) == Ok(tags[1..])
  {
    DecodeFirst(piece, rest);
    assert tags == [tags[0]] + tags[1..];
    if DecodePiece(piece).Ok? && DecodePieces(rest).Ok? {
      var t, others := DecodePiece(piece).value, DecodePieces(rest).value;
      assert ([t] + others)[0] == t && ([t] + others)[1..] == others;
    }
  }

  /** If the column reads as its tags, its first piece ends where the import thinks. */
  lemma ReadEndsAtFirst(opening: bool, tags: seq<Tag>, more: string)
    requires |tags| > 1 && DecodeColumn(Piece(opening, tags[0], false) + ENTRY_SEP + more) == Ok(tags)
    ensures EndsAtFirst(Piece(opening, tags[0], false), ENTRY_SEP)
  {
    var piece := Piece(opening, tags[0], false);
    var pieces := Split(piece + ENTRY_SEP + more, ENTRY_SEP);
    FrontOf(piece, ENTRY_SEP, more);
    DecodedLength(pieces);
    StartIsWhole(opening, tags[0], pieces[0]);
  }

  /** The first piece, and what follows it. */
  lemma FirstIff(opening: bool, tags: seq<Tag>)
    requires |tags| > 1
    ensures DecodeColumn(Rest(opening, tags)) == Ok(tags) <==>
              PieceReads(opening, tags[0], false) && DecodeColumn(Rest(false, tags[1..])) == Ok(tags[1..])
  {
    var piece, more := Piece(opening, tags[0], false), Rest(false, tags[1..]);
    DecodePieceIff(opening, tags[0], false);
    if EndsAtFirst(piece, ENTRY_SEP) {
      SplitStep(piece, ENTRY_SEP, more);
      DecodeBoth(piece, Split(more, ENTRY_SEP), tags);
    }
    if DecodeColumn(piece + ENTRY_SEP + more) == Ok(tags) {
      ReadEndsAtFirst(opening, tags, more);
    }
  }

  lemma {:induction false} RestReadsIff(opening: bool, tags: seq<Tag>)
    requires |tags| >= 1
    ensures DecodeColumn(Rest(opening, tags)) == Ok(tags) <==> AllRead(opening, tags)
    decreases |tags|
  {
    if |tags| == 1 {
      LastIff(opening, tags[0]);
      assert tags == [tags[0]];
    } else {
      FirstIff(opening, tags);
      RestReadsIff(false, tags[1..]);
    }
  }

  // ----- The condition in plain words -----

  /** A value without the quotes at its end. */
  function Unquoted(value: string): string {
    var i := IndexOf(value, QUOTE);
    if i == -1 then value else value[..i]
  }

  /** A piece without quotes of its own is only cut short at a value that is a lone comma. */
  lemma CommaIff(tag: Tag)
    requires QuoteFree(tag.key) && QuoteFree(tag.value)
    ensures EndsAtFirst(Piece(false, tag, false), ENTRY_SEP) <==> tag.value != ","
  {
    var piece := Piece(false, tag, false);
    var text, n := piece + ENTRY_SEP, |tag.key|;
    assert piece == tag.key + KEY_SEP + tag.value;
    assert KEY_SEP[0] == '\"' && KEY_SEP[1] == '=' && KEY_SEP[2] == '>' && KEY_SEP[3] == '\"';
    assert ENTRY_SEP[0] == '\"' && ENTRY_SEP[1] == ',' && ENTRY_SEP[2] == '\"';
    forall j | 0 <= j < |piece| && (j != n + 3 || tag.value != ",")
      ensures !OccursAt(text, ENTRY_SEP, j)
    {
      assert text[j..j + 3][0] == text[j] && text[j..j + 3][1] == text[j + 1] && text[j..j + 3][2] == text[j + 2];
      assert j < n ==> text[j] == tag.key[j];
      assert n <= j < n + 4 ==> text[j] == KEY_SEP[j - n];
      assert n + 4 <= j ==> text[j] == tag.value[j - n - 4];
      assert j == n ==> text[j + 1] == '=';
    }
    if tag.value == "," {
      assert text[n + 3..n + 6] == ENTRY_SEP;
      assert OccursAt(text, ENTRY_SEP, n + 3);
    }
  }

  lemma UnquotedIs(value: string)
    requires QuotesLast(value)
    ensures var n := |Unquoted(value)|;
            && n <= |value| && Unquoted(value) == value[..n] && QuoteFree(value[..n])
            && forall i :: n <= i < |value| ==> value[i] == '\"'
  {
    FirstQuote(value);
  }

  lemma EntrySepAt(text: string, j: int)
    ensures OccursAt(text, ENTRY_SEP, j) <==>
            0 <= j && j + 3 <= |text| && text[j] == '\"' && text[j + 1] == ',' && text[j + 2] == '\"'
  {
    assert ENTRY_SEP == ['\"', ',', '\"'];
    assert 0 <= j && j + 3 <= |text| ==> text[j..j + 3] == [text[j], text[j + 1], text[j + 2]];
  }

  /** A text whose quotes are those of a key separator at `n`, and all behind what is shown. */
  predicate LastForm(text: string, n: nat, shown: string) {
    && |text| >= n + 5 + |shown|
    && (forall j :: 0 <= j < n ==> text[j] != '\"')
    && text[n] == '\"' && text[n + 1] == '=' && text[n + 2] == '>' && text[n + 3] == '\"'
    && (forall j :: 0 <= j < |shown| ==> text[n + 4 + j] == shown[j] && shown[j] != '\"')
    && (forall j :: n + 4 + |shown| <= j < |text| ==> text[j] == '\"')
  }

  lemma LastPieceForm(tag: Tag)
    requires QuoteFree(tag.key) && QuotesLast(tag.value)
    ensures LastForm(Piece(false, tag, true), |tag.key|, Unquoted(tag.value))
  {
    var text, n, shown := Piece(false, tag, true), |tag.key|, Unquoted(tag.value);
    UnquotedIs(tag.value);
    assert text == tag.key + KEY_SEP + tag.value + QUOTE;
    assert KEY_SEP[0] == '\"' && KEY_SEP[1] == '=' && KEY_SEP[2] == '>' && KEY_SEP[3] == '\"';
    forall j | 0 <= j < |shown|
      ensures text[n + 4 + j] == shown[j] && shown[j] != '\"'
    {
      assert text[n + 4 + j] == tag.value[j];
    }
    forall j | 0 <= j < n
      ensures text[j] != '\"'
    {
      assert text[j] == tag.key[j];
    }
    forall j | n + 4 + |shown| <= j < |text|
      ensures text[j] == '\"'
    {
      assert j < n + 4 + |tag.value| ==> text[j] == tag.value[j - n - 4];
    }
  }

  lemma CommaInText(text: string, n: nat, shown: string)
    requires LastForm(text, n, shown)
    ensures !Contains(text, ENTRY_SEP) <==> shown != ","
  {
    if shown == "," {
      assert text[n + 4 + 0] == shown[0];
      EntrySepAt(text, n + 3);
    } else {
      forall j
        ensures !OccursAt(text, ENTRY_SEP, j)
      {
        NoCommaAt(text, n, shown, j);
      }
    }
  }

  lemma NoCommaAt(text: string, n: nat, shown: string, j: int)
    requires LastForm(text, n, shown) && shown != ","
    ensures !OccursAt(text, ENTRY_SEP, j)
  {
    EntrySepAt(text, j);
    if j == n + 3 {
      assert |shown| >= 1 ==> text[n + 4 + 0] == shown[0];
      assert |shown| >= 2 ==> text[n + 4 + 1] == shown[1];
      assert |shown| == 1 ==> shown[0] != ',';
    } else if n + 4 <= j < n + 4 + |shown| {
      assert text[n + 4 + (j - n - 4)] == shown[j - n - 4];
    }
  }

  /** The last piece is cut at a value that is a lone comma and quotes. */
  lemma LastCommaIff(tag: Tag)
    requires QuoteFree(tag.key) && QuotesLast(tag.value)
    ensures !Contains(Piece(false, tag, true), ENTRY_SEP) <==> Unquoted(tag.value) != ","
  {
    LastPieceForm(tag);
    CommaInText(Piece(false, tag, true), |tag.key|, Unquoted(tag.value));
  }

  /** Behind the first tag: keys and values without quotes, but for those at the very end, and
      no value that is a lone comma. */
  predicate LaterReadable(tags: seq<Tag>)
    requires |tags| >= 1
  {
    var last := |tags| - 1;
    && (forall i :: 0 <= i < last ==> PlainTag(tags[i]) && tags[i].value != ",")
    && QuoteFree(tags[last].key) && QuotesLast(tags[last].value) && Unquoted(tags[last].value) != ","
  }

  lemma {:induction false} LaterReadIff(tags: seq<Tag>)
    requires |tags| >= 1
    ensures AllRead(false, tags) <==> LaterReadable(tags)
    decreases |tags|
  {
    if |tags| == 1 {
      if QuoteFree(tags[0].key) && QuotesLast(tags[0].value) {
        LastCommaIff(tags[0]);
      }
    } else {
      var rest := tags[1..];
      LaterReadIff(rest);
      if PlainTag(tags[0]) {
        CommaIff(tags[0]);
      }
      assert rest[|rest| - 1] == tags[|tags| - 1];
      assert forall i :: 0 <= i < |rest| - 1 ==> rest[i] == tags[i + 1];
      assert LaterReadable(tags) <==> PlainTag(tags[0]) && tags[0].value != "," && LaterReadable(rest) by {
        LaterStep(tags);
      }
    }
  }

  lemma LaterStep(tags: seq<Tag>)
    requires |tags| > 1
    ensures LaterReadable(tags) <==> PlainTag(tags[0]) && tags[0].value != "," && LaterReadable(tags[1..])
  {
    var rest, last := tags[1..], |tags| - 1;
    assert forall i :: 0 <= i < |rest| ==> rest[i] == tags[i + 1];
    if LaterReadable(rest) && PlainTag(tags[0]) && tags[0].value != "," {
      forall i | 0 <= i < last
        ensures PlainTag(tags[i]) && tags[i].value != ","
      {
        assert i > 0 ==> rest[i - 1] == tags[i];
      }
    }
  }

  /** The first key may hold quotes, as long as no separator begins in front of its end, and
      the last value may end in quotes. */
  predicate ReadableColumn(tags: seq<Tag>)
    requires |tags| >= 1
  {
    && EndsAtFirst(QUOTE + tags[0].key, KEY_SEP)
    && if |tags| == 1 then QuotesLast(tags[0].value) && !Contains(Entry(tags[0]), ENTRY_SEP)
       else QuoteFree(tags[0].value) && EndsAtFirst(QUOTE + Body(tags[0]), ENTRY_SEP) && LaterReadable(tags[1..])
  }

  lemma OpeningPiece(tag: Tag)
    ensures Piece(true, tag, false) == QUOTE + Body(tag)
  {
  }

  lemma AllReadIff(tags: seq<Tag>)
    requires |tags| >= 1
    ensures AllRead(true, tags) <==> ReadableColumn(tags)
  {
    if |tags| == 1 {
      PieceOfEntry(tags[0]);
    } else {
      OpeningPiece(tags[0]);
      LaterReadIff(tags[1..]);
    }
  }

  /** For every list of tags, with quotes or without: a column reads back as exactly those
      tags, in order, if and only if it is readable. */
  lemma ColumnReadsIff(tags: seq<Tag>)
    requires |tags| >= 1
    ensures DecodeColumn(ColumnText(tags)) == Ok(tags) <==> ReadableColumn(tags)
  {
    ColumnIsRest(tags);
    RestReadsIff(true, tags);
    AllReadIff(tags);
  }
}
