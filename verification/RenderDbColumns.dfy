/** How translations/RenderDb.js writes a tag into a text column, and how the import
    reads the column back. */
module RenderDbColumns {
  import opened QuotedText
  import opened Text
  import opened Wrappers

  datatype Tag = Tag(key: string, value: string)

  // The separators the import splits at: `","` and `"=>"`.
  const ENTRY_SEP := Pattern(",")
  const KEY_SEP := Pattern("=>")

  function Entry(tag: Tag): string {
    QUOTE + tag.key + KEY_SEP + tag.value + QUOTE
  }

  function Entries(tags: seq<Tag>): seq<string> {
    if |tags| == 0 then [] else [Entry(tags[0])] + Entries(tags[1..])
  }

  /** The code indexes into the result of a split; a missing piece is a TypeError. */
  function DecodePiece(piece: string): Result<Tag> {
    var parts := Split(piece, KEY_SEP);
    if |parts| < 2 then Thrown(TypeError)
    else Ok(Tag(ReplaceFirst(parts[0], QUOTE, ""), ReplaceFirst(parts[1], QUOTE, "")))
  }

  function DecodePieces(pieces: seq<string>): Result<seq<Tag>> {
    if |pieces| == 0 then Ok([])
    else
      match DecodePiece(pieces[0])
      case Thrown(_) => Thrown(TypeError)
      case Ok(tag) =>
        match DecodePieces(pieces[1..])
        case Thrown(_) => Thrown(TypeError)
        case Ok(rest) => Ok([tag] + rest)
  }

  /** The tags the import assigns, in order, for one text column. */
  function DecodeColumn(text: string): Result<seq<Tag>> {
    DecodePieces(Split(text, ENTRY_SEP))
  }

  // ----- The column round trip -----

  predicate PlainTag(tag: Tag) {
    QuoteFree(tag.key) && QuoteFree(tag.value)
  }

  /** The segments of a column text behind its opening quote. */
  function ColumnSegments(tags: seq<Tag>): Segments
    requires |tags| >= 1
  {
    More(tags[0].key, More("=>", More(tags[0].value,
      if |tags| == 1 then Last("") else More(",", ColumnSegments(tags[1..])))))
  }

  /** A column as the export writes it. */
  function ColumnText(tags: seq<Tag>): string {
    Join(Entries(tags), ",")
  }

  lemma {:induction false} ColumnIsQuoted(tags: seq<Tag>)
    requires |tags| >= 1
    ensures ColumnText(tags) == QUOTE + Quoted(ColumnSegments(tags))
  {
    var tag := tags[0];
    if |tags| == 1 {
      assert Entries(tags) == [Entry(tag)];
      QuotedPiece(tag, Last(""));
    } else {
      var rest := ColumnSegments(tags[1..]);
      ColumnIsQuoted(tags[1..]);
      QuotedPiece(tag, More(",", rest));
      assert Entries(tags)[1..] == Entries(tags[1..]);
      assert ColumnText(tags) == Entry(tag) + "," + ColumnText(tags[1..]);
    }
  }

  lemma QuotedPiece(tag: Tag, tail: Segments)
    ensures QUOTE + Quoted(More(tag.key, More("=>", More(tag.value, tail)))) == Entry(tag) + Quoted(tail)
  {
    assert Quoted(More(tag.value, tail)) == tag.value + QUOTE + Quoted(tail);
    assert Quoted(More("=>", More(tag.value, tail))) == "=>" + QUOTE + Quoted(More(tag.value, tail));
  }

  /** The segments with the opening quote of the column still in front, or already gone. */
  function Opened(opening: bool, segments: Segments): Segments {
    if opening then More("", segments) else segments
  }

  function Closed(text: string, closing: bool): Segments {
    if closing then More(text, Last("")) else Last(text)
  }

  /** The part of a column that one tag takes up. */
  function PieceSegments(opening: bool, tag: Tag, closing: bool): Segments {
    Opened(opening, More(tag.key, More("=>", Closed(tag.value, closing))))
  }

  lemma NoQuoteToReplace(s: string)
    requires QuoteFree(s)
    ensures ReplaceFirst(s, QUOTE, "") == s
  {
    forall j
      ensures !OccursAt(s, QUOTE, j)
    {
      if 0 <= j < |s| {
        assert s[j..j + 1][0] == s[j] != '\"';
      }
    }
  }

  lemma ReplaceLeading(s: string)
    ensures ReplaceFirst(QUOTE + s, QUOTE, "") == s
  {
  }

  lemma ReplaceTrailing(s: string)
    requires QuoteFree(s)
    ensures ReplaceFirst(s + QUOTE, QUOTE, "") == s
  {
    CharEndsAtFirst(s, '\"');
    assert (s + QUOTE)[|s|..|s| + 1] == QUOTE;
    IndexOfIs(s + QUOTE, QUOTE, |s|);
  }

  /** One piece, with or without the quotes at the ends of the column, gives its tag back
      unless a leading key is itself the key separator. */
  lemma DecodePieceOf(opening: bool, tag: Tag, closing: bool)
    requires PlainTag(tag) && !(opening && tag.key == "=>")
    ensures DecodePiece(Quoted(PieceSegments(opening, tag, closing))) == Ok(tag)
  {
    var front, back := Opened(opening, Last(tag.key)), Closed(tag.value, closing);
    assert PieceSegments(opening, tag, closing) == Between(front, "=>", back);
    SplitBetween(front, "=>", back);
    SplitNone(back, "=>");
    KeyOf(opening, tag.key);
    ValueOf(tag.value, closing);
  }

  lemma KeyOf(opening: bool, key: string)
    requires QuoteFree(key)
    ensures ReplaceFirst(Quoted(Opened(opening, Last(key))), QUOTE, "") == key
  {
    if opening {
      assert Quoted(More("", Last(key))) == QUOTE + key;
      ReplaceLeading(key);
    } else {
      NoQuoteToReplace(key);
    }
  }

  lemma ValueOf(value: string, closing: bool)
    requires QuoteFree(value)
    ensures ReplaceFirst(Quoted(Closed(value, closing)), QUOTE, "") == value
  {
    NoQuoteToReplace(value);
    ReplaceTrailing(value);
    assert value + QUOTE + "" == value + QUOTE;
  }

  /** Without an inner key separator the import throws. */
  lemma DecodeTooShort(segments: Segments)
    requires Plain(segments) && InnerAvoids(segments, "=>")
    ensures DecodePiece(Quoted(segments)) == Thrown(TypeError)
  {
    SplitNone(segments, "=>");
  }

  predicate NoCommaValue(tags: seq<Tag>) {
    forall i :: 0 <= i < |tags| ==> tags[i].value != ","
  }

  predicate AllPlain(tags: seq<Tag>) {
    forall i :: 0 <= i < |tags| ==> PlainTag(tags[i])
  }

  lemma DecodeFirst(piece: string, rest: seq<string>)
    ensures DecodePieces([piece] + rest) ==
            match DecodePiece(piece)
            case Thrown(_) => Thrown(TypeError)
            case Ok(tag) =>
              match DecodePieces(rest)
              case Thrown(_) => Thrown(TypeError)
              case Ok(others) => Ok([tag] + others)
  {
  }

  /** A column, with or without its opening quote, decodes to its tags, and throws as soon
      as one of the values is a lone comma. */
  lemma {:induction false} DecodeFrom(opening: bool, tags: seq<Tag>)
    requires |tags| >= 1 && AllPlain(tags)
    requires opening ==> tags[0].key != "," && tags[0].key != "=>"
    ensures DecodeColumn(Quoted(Opened(opening, ColumnSegments(tags))))
            == if NoCommaValue(tags) then Ok(tags) else Thrown(TypeError)
    decreases |tags|
  {
    var tag, rest := tags[0], tags[1..];
    assert tags == [tag] + rest;
    if tag.value == "," {
      CommaValueThrows(opening, tags);
    } else {
      SplitFirstPiece(opening, tags);
      DecodePieceOf(opening, tag, |tags| == 1);
      DecodeFirst(Quoted(PieceSegments(opening, tag, |tags| == 1)), RestPieces(tags));
      CommaValueFirst(tag, rest);
      if |tags| > 1 {
        DecodeFrom(false, rest);
      }
    }
  }

  /** The pieces behind the first one. */
  function RestPieces(tags: seq<Tag>): seq<string>
    requires |tags| >= 1
  {
    if |tags| == 1 then [] else Split(Quoted(ColumnSegments(tags[1..])), ENTRY_SEP)
  }

  lemma SplitFirstPiece(opening: bool, tags: seq<Tag>)
    requires |tags| >= 1 && AllPlain(tags) && tags[0].value != ","
    requires opening ==> tags[0].key != ","
    ensures Split(Quoted(Opened(opening, ColumnSegments(tags))), ENTRY_SEP)
            == [Quoted(PieceSegments(opening, tags[0], |tags| == 1))] + RestPieces(tags)
  {
    var tag := tags[0];
    PieceAvoidsComma(opening, tag, |tags| == 1);
    if |tags| == 1 {
      SplitNone(PieceSegments(opening, tag, true), ",");
    } else {
      TwoBetween(opening, tag.key, "=>", tag.value, ColumnSegments(tags[1..]));
      SplitBetween(PieceSegments(opening, tag, false), ",", ColumnSegments(tags[1..]));
    }
  }

  lemma PieceAvoidsComma(opening: bool, tag: Tag, closing: bool)
    requires PlainTag(tag) && tag.value != "," && !(opening && tag.key == ",")
    ensures var piece := PieceSegments(opening, tag, closing);
            Plain(piece) && if closing then InnerAvoids(piece, ",") else TailAvoids(piece, ",")
  {
    var inner := More("=>", Closed(tag.value, closing));
    assert Plain(inner) && if closing then InnerAvoids(inner, ",") else TailAvoids(inner, ",");
    assert Plain(More(tag.key, inner));
    assert if closing then InnerAvoids(More(tag.key, inner), ",") else TailAvoids(More(tag.key, inner), ",");
  }

  lemma OneBetween(opening: bool, a: string, b: string, back: Segments)
    ensures Opened(opening, More(a, More(b, More(",", back)))) == Between(Opened(opening, More(a, Last(b))), ",", back)
  {
    assert Between(Last(b), ",", back) == More(b, More(",", back));
    assert Between(More(a, Last(b)), ",", back) == More(a, More(b, More(",", back)));
  }

  lemma TwoBetween(opening: bool, a: string, b: string, c: string, back: Segments)
    ensures Opened(opening, More(a, More(b, More(c, More(",", back)))))
            == Between(Opened(opening, More(a, More(b, Last(c)))), ",", back)
  {
    OneBetween(false, b, c, back);
    assert Between(More(a, More(b, Last(c))), ",", back) == More(a, Between(More(b, Last(c)), ",", back));
  }

  lemma CommaValueFirst(tag: Tag, rest: seq<Tag>)
    ensures NoCommaValue([tag] + rest) <==> tag.value != "," && NoCommaValue(rest)
  {
    assert ([tag] + rest)[0] == tag;
    assert forall i :: 0 <= i < |rest| ==> rest[i] == ([tag] + rest)[i + 1];
  }

  lemma CommaValueThrows(opening: bool, tags: seq<Tag>)
    requires |tags| >= 1 && AllPlain(tags) && tags[0].value == ","
    requires opening ==> tags[0].key != "," && tags[0].key != "=>"
    ensures DecodeColumn(Quoted(Opened(opening, ColumnSegments(tags)))) == Thrown(TypeError)
  {
    var front := Opened(opening, More(tags[0].key, Last("=>")));
    var back := ColumnSegments(tags).rest.rest.rest;
    OneBetween(opening, tags[0].key, "=>", back);
    assert ColumnSegments(tags) == More(tags[0].key, More("=>", More(",", back)));
    SplitBetween(front, ",", back);
    DecodeTooShort(front);
  }

  predicate Readable(tags: seq<Tag>)
    requires |tags| >= 1
  {
    tags[0].key != "," && tags[0].key != "=>" && NoCommaValue(tags)
  }

  /** A column of tags without double quotes reads back as exactly those tags, in order, if
      and only if its first key is neither `,` nor `=>` and no value is `,`. */
  lemma ColumnRoundTripIff(tags: seq<Tag>)
    requires |tags| >= 1 && AllPlain(tags)
    ensures DecodeColumn(ColumnText(tags)) == Ok(tags) <==> Readable(tags)
  {
    ColumnIsQuoted(tags);
    assert ColumnText(tags) == Quoted(Opened(true, ColumnSegments(tags)));
    if tags[0].key == "," {
      CommaKeyThrows(tags);
    } else if tags[0].key == "=>" {
      ArrowKeyChanges(tags);
    } else {
      DecodeFrom(true, tags);
    }
  }

  lemma CommaKeyThrows(tags: seq<Tag>)
    requires |tags| >= 1 && tags[0].key == ","
    ensures DecodeColumn(Quoted(Opened(true, ColumnSegments(tags)))) == Thrown(TypeError)
  {
    var back := ColumnSegments(tags).rest;
    assert Opened(true, ColumnSegments(tags)) == Between(Last(""), ",", back);
    SplitBetween(Last(""), ",", back);
    DecodeTooShort(Last(""));
  }

  lemma ArrowKeyChanges(tags: seq<Tag>)
    requires |tags| >= 1 && AllPlain(tags) && tags[0].key == "=>"
    ensures DecodeColumn(Quoted(Opened(true, ColumnSegments(tags)))) != Ok(tags)
  {
    var tag := tags[0];
    if tag.value == "," {
      var back := ColumnSegments(tags).rest.rest.rest;
      var front := More("", More("=>", Last("=>")));
      OneBetween(true, "=>", "=>", back);
      SplitBetween(front, ",", back);
      ArrowPiece(front);
      DecodeFirst(Quoted(front), Split(Quoted(back), ENTRY_SEP));
    } else {
      var front := PieceSegments(true, tag, |tags| == 1);
      SplitFirstPiece(true, tags);
      ArrowPiece(front);
      DecodeFirst(Quoted(front), RestPieces(tags));
    }
  }

  lemma ArrowPiece(front: Segments)
    requires front.More? && front.text == "" && front.rest.text == "=>" && front.rest.More?
    ensures DecodePiece(Quoted(front)).Ok? ==> DecodePiece(Quoted(front)).value.key == ""
  {
    assert front == Between(Last(""), "=>", front.rest.rest);
    SplitBetween(Last(""), "=>", front.rest.rest);
    NoQuoteToReplace("");
  }

  /** Double quotes are not escaped: one in front of a value moves to its end. */
  lemma LeadingQuoteMoves(k: string, v: string)
    requires QuoteFree(k) && k != "," && k != "=>"
    requires QuoteFree(v) && v != "," && v != "=>"
    ensures DecodeColumn(ColumnText([Tag(k, QUOTE + v)])) == Ok([Tag(k, v + QUOTE)])
  {
    var piece := Quoted(Between(More("", Last(k)), "=>", More("", More(v, Last("")))));
    QuotedColumn(k, v);
    QuotedPieceDecodes(k, v);
    DecodeFirst(piece, []);
    assert [piece] + [] == [piece];
    assert [Tag(k, v + QUOTE)] + [] == [Tag(k, v + QUOTE)];
  }

  lemma QuoteInValue(v: string)
    ensures Quoted(More("", More(v, Last("")))) == QUOTE + v + QUOTE
  {
    assert Quoted(More(v, Last(""))) == v + QUOTE + "" == v + QUOTE;
    assert "" + QUOTE + (v + QUOTE) == QUOTE + v + QUOTE;
  }

  lemma PlainQuoted(k: string, v: string)
    requires QuoteFree(k) && QuoteFree(v) && k != "," && v != ","
    ensures var segments := More("", More(k, More("=>", More("", More(v, Last(""))))));
            Plain(segments) && InnerAvoids(segments, ",")
  {
    var end := More(v, Last(""));
    assert Plain(Last("")) && InnerAvoids(Last(""), ",");
    assert Plain(end) && InnerAvoids(end, ",");
    var back := More("", end);
    assert Plain(back) && InnerAvoids(back, ",");
    var value := More("=>", back);
    assert "=>"[0] != ',' && |"=>"| == 2;
    assert Plain(value) && InnerAvoids(value, ",");
    var key := More(k, value);
    assert Plain(key) && InnerAvoids(key, ",");
  }

  lemma QuotedColumn(k: string, v: string)
    requires QuoteFree(k) && QuoteFree(v) && k != "," && v != ","
    ensures Split(ColumnText([Tag(k, QUOTE + v)]), ENTRY_SEP)
            == [Quoted(Between(More("", Last(k)), "=>", More("", More(v, Last("")))))]
  {
    var tag, front, back := Tag(k, QUOTE + v), More("", Last(k)), More("", More(v, Last("")));
    var segments := Between(front, "=>", back);
    QuoteInValue(v);
    QuotedBetween(front, "=>", back);
    assert Quoted(front) == "" + QUOTE + k;
    assert Entries([tag]) == [Entry(tag)];
    assert ColumnText([tag]) == Quoted(segments);
    assert segments == More("", More(k, More("=>", back)));
    PlainQuoted(k, v);
    SplitNone(segments, ",");
  }

  lemma QuotedPieceDecodes(k: string, v: string)
    requires QuoteFree(k) && QuoteFree(v) && k != "=>" && v != "=>"
    ensures DecodePiece(Quoted(Between(More("", Last(k)), "=>", More("", More(v, Last(""))))))
            == Ok(Tag(k, v + QUOTE))
  {
    var front, back := More("", Last(k)), More("", More(v, Last("")));
    SplitBetween(front, "=>", back);
    SplitNone(back, "=>");
    QuoteInValue(v);
    assert Quoted(front) == QUOTE + k;
    assert Quoted(back) == QUOTE + (v + QUOTE);
    ReplaceLeading(k);
    ReplaceLeading(v + QUOTE);
  }
}
