/** Searches in which the schema search of translations/TranslationServer.js finds more than
    it was asked for, or throws; and an engine of the kind that the results assume. */
module SchemaSearchExamples {
  import opened Lein
  import opened Lists
  import opened SchemaSearch
  import opened SchemaSearchLimits
  import opened Text
  import opened Wrappers

  // ----- An engine -----

  function Inserted(h: Hit, s: seq<Hit>): seq<Hit> {
    if |s| > 0 && h.idx.At? && s[0].idx.At? && h.idx.n > s[0].idx.n then [s[0]] + Inserted(h, s[1..]) else [h] + s
  }

  function Sorted(s: seq<Hit>): seq<Hit> {
    if |s| == 0 then [] else Inserted(s[0], Sorted(s[1..]))
  }

  lemma {:induction false} InsertedHits(h: Hit, s: seq<Hit>)
    ensures multiset(Inserted(h, s)) == multiset([h]) + multiset(s)
  {
    if |s| > 0 {
      assert s == [s[0]] + s[1..];
      InsertedHits(h, s[1..]);
    }
  }

  predicate Numbered(s: seq<Hit>) {
    forall i :: 0 <= i < |s| ==> s[i].idx.At?
  }

  lemma {:induction false} InsertedAscends(h: Hit, s: seq<Hit>)
    requires h.idx.At? && Numbered(s) && Ascending(s)
    ensures Numbered(Inserted(h, s)) && Ascending(Inserted(h, s))
    ensures |Inserted(h, s)| > 0
    ensures Inserted(h, s)[0] == h || (|s| > 0 && Inserted(h, s)[0] == s[0] && s[0].idx.n <= h.idx.n)
  {
    if |s| > 0 && h.idx.n > s[0].idx.n {
      var rest := s[1..];
      assert forall i :: 0 <= i < |rest| ==> rest[i] == s[i + 1];
      InsertedAscends(h, rest);
      AscendingStep(s[0], Inserted(h, rest));
    } else {
      AscendingStep(h, s);
    }
  }

  lemma AscendingStep(h: Hit, s: seq<Hit>)
    requires h.idx.At? && Numbered(s) && Ascending(s) && (|s| > 0 ==> h.idx.n <= s[0].idx.n)
    ensures Numbered([h] + s) && Ascending([h] + s)
  {
    assert forall i :: 0 <= i < |s| ==> s[0].idx.n <= s[i].idx.n;
  }

  lemma {:induction false} SortedIs(s: seq<Hit>)
    ensures multiset(Sorted(s)) == multiset(s)
    ensures Numbered(s) ==> Numbered(Sorted(s)) && Ascending(Sorted(s))
  {
    if |s| > 0 {
      var rest := s[1..];
      assert s == [s[0]] + rest;
      SortedIs(rest);
      InsertedHits(s[0], Sorted(rest));
      if Numbered(s) {
        assert forall i :: 0 <= i < |rest| ==> rest[i] == s[i + 1];
        InsertedAscends(s[0], Sorted(rest));
      }
    }
  }

  /** A number written in decimal digits. */
  function Decimal(s: string): Index {
    if |s| == 0 then At(0)
    else
      match Decimal(s[..|s| - 1])
      case At(n) => if '0' <= s[|s| - 1] <= '9' then At(10 * n + (s[|s| - 1] - '0') as int) else NotANumber
      case _ => NotANumber
  }

  function OneWord(s: string): seq<string> {
    [s]
  }

  const ENGINE := Engine(Sorted, Decimal, OneWord)

  /** There are engines that sort. */
  lemma EngineSorts()
    ensures Sorts(ENGINE)
  {
    forall s
      ensures Reordered(s, ENGINE.sort(s)) && (AllNumbers(s) ==> Ascending(ENGINE.sort(s)))
    {
      SortedIs(s);
      assert AllNumbers(s) ==> forall i :: 0 <= i < |s| ==> s[i] in s;
    }
  }

  // ----- A search that throws -----

  lemma NowhereOfGeometry(schema: seq<Entry>, geom: string)
    requires forall i :: 0 <= i < |schema| ==> !Has(schema[i].geom, geom)
    ensures OfGeometry(schema, geom) == []
  {
    FilterNone<nat>(Places(|schema|), (i: nat) => i < |schema| && Has(schema[i].geom, geom));
  }

  lemma NoSounds(schema: seq<Entry>, o: Options, e: Engine)
    requires Sorts(e) && OfGeometry(schema, o.geom) == []
    ensures SoundHits(schema, o, e) == []
  {
    SortKeeps(e, []);
    assert SoundHits(schema, o, e) == e.sort([]);
  }

  lemma ThrowsTypeError(schema: seq<Entry>, o: Options, e: Engine)
    requires Search(schema, o, e).Thrown?
    ensures Search(schema, o, e) == Thrown(TypeError)
  {
  }

  lemma KHasNoNeighbours(c: char)
    requires c == 'k' || c == 'K'
    ensures IntendedKeys(c) == None
  {
  }

  /** In a schema without entries of the geometry, a text that begins with K ends in an
      exception, whatever the engine. */
  lemma SearchForKThrows(schema: seq<Entry>, o: Options, e: Engine)
    requires Sorts(e) && o.limit > 0 && o.text != "" && (o.text[0] == 'k' || o.text[0] == 'K')
    requires forall i :: 0 <= i < |schema| ==> !Has(schema[i].geom, o.geom)
    ensures Search(schema, o, e) == Thrown(TypeError)
  {
    NowhereOfGeometry(schema, o.geom);
    NoSounds(schema, o, e);
    KHasNoNeighbours(o.text[0]);
    SearchFailsIff(schema, o, e);
    ThrowsTypeError(schema, o, e);
  }

  // ----- A search that finds too much -----

  const FIRST_LETTERS := "bvghn"

  /** Three letters, with an A in the middle. */
  function Word(first: char, last: char): string {
    [first, 'a', last]
  }

  /** Entries described as bad, vad, gad, had and nad. */
  function Schema(): seq<Entry> {
    seq(5, i requires 0 <= i < 5 => Entry("", "", Word(FIRST_LETTERS[i], 'd'), ""))
  }

  const BAT := Options("", "bat", 2, 200)

  predicate Small(c: char) {
    'a' <= c <= 'z'
  }

  lemma FirstLetters()
    ensures |FIRST_LETTERS| == 5 && forall i :: 0 <= i < 5 ==> Small(FIRST_LETTERS[i]) && (FIRST_LETTERS[i] == 'b' <==> i == 0)
    ensures FIRST_LETTERS[1] == 'v' && FIRST_LETTERS[2] == 'g'
  {
  }

  /** A word is in another one only if they are the same. */
  lemma WordInWord(a: char, x: char, b: char, y: char)
    requires Small(a) && Small(b) && Small(x) && Small(y)
    ensures Has(Word(a, x), Word(b, y)) <==> a == b && x == y
  {
    var s, sub := Lower(Word(a, x)), Lower(Word(b, y));
    assert s == Word(a, x) && sub == Word(b, y);
    assert s[0] == a && s[2] == x && sub[0] == b && sub[2] == y;
    assert s[0..3] == s;
    assert IndexOf(s[1..], sub) == -1;
  }

  lemma LeinOfWord(c: char, d: char)
    requires Small(c) && (d == 'd' || d == 't')
    ensures GetLein(Word(c, d)) == [UpperChar(c), '1', '0', '0']
  {
    var name, upper := Word(c, d), [UpperChar(c), 'A', UpperChar(d)];
    assert Upper(name) == upper;
    FilterAll(upper, Clean);
    assert upper[1..] == ['A', UpperChar(d)] && ['A', UpperChar(d)][1..] == [UpperChar(d)] && [UpperChar(d)][1..] == [];
    assert Filter([UpperChar(d)], Sounds) == [UpperChar(d)];
    assert Filter(upper[1..], Sounds) == [UpperChar(d)];
    assert Skeleton(upper[1..]) == [UpperChar(d)];
    assert Coded([UpperChar(d)]) == "1";
    assert [UpperChar(c)] + "1" + "0000" == [UpperChar(c), '1', '0', '0', '0', '0'];
  }

  /** Words sound alike when they begin with the same letter, and not at all otherwise. */
  lemma WordDistance(c: char, x: char, d: char, y: char)
    requires Small(c) && Small(d) && (x == 'd' || x == 't') && (y == 'd' || y == 't')
    ensures KeySoundDistance(Word(c, x), Word(d, y), ENGINE) == if c == d then At(0) else Infinite
    ensures SoundDistance(Word(c, x), Word(d, y), ENGINE) == if c == d then At(0) else Infinite
  {
    LeinOfWord(c, x);
    LeinOfWord(d, y);
    HundredsApart(UpperChar(c), UpperChar(d));
    HundredsApart(c, d);
    LowerHundred(c);
    LowerHundred(d);
  }

  lemma LowerHundred(c: char)
    requires Small(c)
    ensures Lower([UpperChar(c), '1', '0', '0']) == [c, '1', '0', '0']
  {
  }

  lemma HundredsApart(c: char, d: char)
    ensures CodeDistance([c, '1', '0', '0'], [d, '1', '0', '0'], ENGINE) == if c == d then At(0) else Infinite
  {
    assert [c, '1', '0', '0'][1..] == "100" && [d, '1', '0', '0'][1..] == "100";
    assert "100"[..2] == "10" && "10"[..1] == "1" && "1"[..0] == "";
    assert Decimal("1") == At(1) && Decimal("10") == At(10) && Decimal("100") == At(100);
  }

  lemma SchemaAt(i: nat)
    requires i < 5
    ensures |Schema()| == 5 && Schema()[i] == Entry("", "", Word(FIRST_LETTERS[i], 'd'), "")
  {
  }

  lemma EmptyHasEmpty()
    ensures Has("", "")
  {
    assert Lower("") == "" && OccursAt("", "", 0);
  }

  lemma PlacesAre(n: nat)
    ensures forall i: nat :: i in Places(n) <==> i < n
  {
    forall i: nat | i < n
      ensures i in Places(n)
    {
      assert Places(n)[i] == i;
    }
  }

  /** The text is in no code and no description. */
  lemma NotInSchema(c: char, i: nat)
    requires Small(c) && i < 5
    ensures !InCode(Schema(), i, Word(c, 't')) && !InDesc(Schema(), i, Word(c, 't'))
  {
    FirstLetters();
    WordInWord(FIRST_LETTERS[i], 'd', c, 't');
    assert Lower("") == "" && |Lower(Word(c, 't'))| == 3;
  }

  lemma BatIsWord()
    ensures BAT.text == Word('b', 't')
  {
  }

  lemma NothingMatchesBat()
    ensures forall i :: !IsMatch(Schema(), BAT, i)
  {
    BatIsWord();
    forall i: nat
      ensures !IsMatch(Schema(), BAT, i)
    {
      if i < 5 {
        NotInSchema('b', i);
      }
    }
  }

  /** Five entries of any geometry, none of which holds the text. */
  ghost predicate NoneHolds(schema: seq<Entry>, text: string) {
    && |schema| == 5
    && forall i: nat :: i < 5 ==> schema[i].geom == "" && !InCode(schema, i, text) && !InDesc(schema, i, text)
  }

  lemma AllPlaces(schema: seq<Entry>, text: string, geom: string)
    requires NoneHolds(schema, text) && geom == ""
    ensures Filter(OfGeometry(schema, geom), (i: nat) => !InCode(schema, i, text) && !InDesc(schema, i, text)) == Places(5)
    ensures Filter(OfGeometry(schema, geom), (i: nat) => !InDesc(schema, i, text)) == Places(5)
  {
    EmptyHasEmpty();
    PlacesAre(5);
    FilterAll<nat>(Places(5), (i: nat) => i < |schema| && Has(schema[i].geom, geom));
    FilterAll<nat>(Places(5), (i: nat) => !InCode(schema, i, text) && !InDesc(schema, i, text));
    FilterAll<nat>(Places(5), (i: nat) => !InDesc(schema, i, text));
  }

  /** The first entry sounds like the text, and the others begin otherwise. */
  lemma FirstSoundsAlike(schema: seq<Entry>, o: Options)
    requires NoneHolds(schema, o.text) && o.geom == "" && 0 <= o.maxDistance
    requires forall i: nat :: i < 5 ==> SoundIndex(schema, i, o.text, ENGINE) == if i == 0 then At(0) else Infinite
    ensures |SoundHits(schema, o, ENGINE)| == 1
  {
    AllPlaces(schema, o.text, o.geom);
    OneNear((i: nat) => Hit(i, SoundIndex(schema, i, o.text, ENGINE)), o);
  }

  lemma BatInSchema()
    ensures NoneHolds(Schema(), BAT.text)
  {
    BatIsWord();
    forall i: nat | i < 5
      ensures Schema()[i].geom == "" && !InCode(Schema(), i, BAT.text) && !InDesc(Schema(), i, BAT.text)
    {
      SchemaAt(i);
      NotInSchema('b', i);
    }
  }

  /** Of the five descriptions one sounds like the text. */
  lemma OneSoundsAlike()
    ensures |SoundHits(Schema(), BAT, ENGINE)| == 1
  {
    BatIsWord();
    BatInSchema();
    forall i: nat | i < 5
      ensures SoundIndex(Schema(), i, BAT.text, ENGINE) == if i == 0 then At(0) else Infinite
    {
      SoundOfPlace(i);
    }
    FirstSoundsAlike(Schema(), BAT);
  }

  lemma OneNear(f: nat -> Hit, o: Options)
    requires f(0).idx == At(0) && 0 <= o.maxDistance && forall i :: 1 <= i < 5 ==> f(i).idx == Infinite
    ensures |ENGINE.sort(Filter(Map(Places(5), f), h => Near(h, o)))| == 1
  {
    var hits := Map(Places(5), f);
    assert forall i :: 0 <= i < 5 ==> hits[i] == f(i);
    OnlyFirstNear(hits, o);
    EngineSorts();
    SortKeeps(ENGINE, [hits[0]]);
  }

  lemma LeastOfOne(word: string, f: string -> Index)
    requires f(word) != NotANumber
    ensures Least(Map([word], f)) == f(word)
  {
    assert Map([word], f) == [f(word)];
    assert [f(word)][1..] == [];
    assert Least([]) == Infinite;
  }

  lemma SoundOfEntry(schema: seq<Entry>, i: nat, text: string, d: Index)
    requires i < |schema| && Lower(schema[i].desc) == schema[i].desc
    requires d != NotANumber && SoundDistance(text, schema[i].desc, ENGINE) == d
    ensures SoundIndex(schema, i, text, ENGINE) == d
  {
    LeastOfOne(schema[i].desc, w => SoundDistance(text, w, ENGINE));
  }

  lemma SoundOfPlace(i: nat)
    requires i < 5
    ensures SoundIndex(Schema(), i, Word('b', 't'), ENGINE) == if i == 0 then At(0) else Infinite
  {
    var c := FIRST_LETTERS[i];
    FirstLetters();
    SchemaAt(i);
    WordDistance('b', 't', c, 'd');
    LowerWord(c, 'd');
    SoundOfEntry(Schema(), i, Word('b', 't'), if i == 0 then At(0) else Infinite);
  }

  lemma LowerWord(c: char, d: char)
    requires Small(c) && Small(d)
    ensures Lower(Word(c, d)) == Word(c, d)
  {
  }

  lemma OnlyFirstNear(hits: seq<Hit>, o: Options)
    requires 0 <= o.maxDistance && |hits| > 0 && hits[0].idx == At(0) && forall i :: 1 <= i < |hits| ==> hits[i].idx == Infinite
    ensures Filter(hits, h => Near(h, o)) == [hits[0]]
  {
    FilterNone(hits[1..], h => Near(h, o));
  }

  lemma FuzzyBats()
    ensures FuzzyStrings(BAT.text) == Some([Word('v', 't'), Word('g', 't'), Word('h', 't'), Word('n', 't')])
  {
    BatIsWord();
    var keys, text := "vghn", BAT.text;
    assert text[1..] == "at";
    assert IntendedKeys('b') == Some(keys);
    assert keys[0] == 'v' && keys[1] == 'g' && keys[2] == 'h' && keys[3] == 'n';
    assert forall k: char :: [k] + "at" == Word(k, 't');
    assert Map(keys, k => [k] + text[1..]) == [Word('v', 't'), Word('g', 't'), Word('h', 't'), Word('n', 't')];
  }

  lemma SomeKeySound(schema: seq<Entry>, o: Options, text: string, i: nat)
    requires NoneHolds(schema, text) && o.geom == "" && 0 <= o.maxDistance
    requires i < 5 && KeySoundIndex(schema, i, text, ENGINE) == At(0)
    ensures |KeySoundHits(schema, text, o, ENGINE)| > 0
  {
    AllPlaces(schema, text, o.geom);
    SomeNear((j: nat) => Hit(j, KeySoundIndex(schema, j, text, ENGINE)), i, o);
  }

  /** A description with the other first letter sounds like the other text. */
  lemma KeySounds(i: nat)
    requires i < 5
    ensures |KeySoundHits(Schema(), Word(FIRST_LETTERS[i], 't'), BAT, ENGINE)| > 0
  {
    FirstLetters();
    forall j: nat | j < 5
      ensures Schema()[j].geom == ""
      ensures !InCode(Schema(), j, Word(FIRST_LETTERS[i], 't')) && !InDesc(Schema(), j, Word(FIRST_LETTERS[i], 't'))
    {
      SchemaAt(j);
      NotInSchema(FIRST_LETTERS[i], j);
    }
    KeySoundOfPlace(i);
    SomeKeySound(Schema(), BAT, Word(FIRST_LETTERS[i], 't'), i);
  }

  lemma SomeNear(f: nat -> Hit, i: nat, o: Options)
    requires i < 5 && f(i).idx == At(0) && 0 <= o.maxDistance
    ensures |First(ENGINE.sort(Filter(Map(Places(5), f), h => Near(h, o))), 5)| > 0
  {
    var hits := Map(Places(5), f);
    assert hits[i] == f(i);
    var near := Filter(hits, h => Near(h, o));
    assert hits[i] in hits;
    FilterIs(hits, h => Near(h, o));
    assert hits[i] in near;
    EngineSorts();
    SortKeeps(ENGINE, near);
  }

  lemma NoPlusS(desc: string)
    requires '+' !in desc
    ensures Split(desc, "+s") == [desc]
  {
    forall j
      ensures !OccursAt(desc, "+s", j)
    {
      if 0 <= j && j + 2 <= |desc| {
        assert desc[j..j + 2][0] == desc[j] != '+';
      }
    }
  }

  lemma KeySoundOfEntry(schema: seq<Entry>, i: nat, text: string)
    requires i < |schema| && '+' !in schema[i].desc && KeySoundDistance(text, schema[i].desc, ENGINE) == At(0)
    ensures KeySoundIndex(schema, i, text, ENGINE) == At(0)
  {
    NoPlusS(schema[i].desc);
    LeastOfOne(schema[i].desc, w => KeySoundDistance(text, w, ENGINE));
  }

  lemma KeySoundOfPlace(i: nat)
    requires i < 5
    ensures KeySoundIndex(Schema(), i, Word(FIRST_LETTERS[i], 't'), ENGINE) == At(0)
  {
    FirstLetters();
    SchemaAt(i);
    WordDistance(FIRST_LETTERS[i], 't', FIRST_LETTERS[i], 'd');
    KeySoundOfEntry(Schema(), i, Word(FIRST_LETTERS[i], 't'));
  }

  lemma TwoKeySounds()
    ensures KeySoundCount(Schema(), BAT, ENGINE) >= 2
  {
    FuzzyBats();
    FirstLetters();
    KeySounds(1);
    KeySounds(2);
    var texts := [Word('v', 't'), Word('g', 't'), Word('h', 't'), Word('n', 't')];
    var groups := Map(texts, t => KeySoundHits(Schema(), t, BAT, ENGINE));
    assert |groups[0]| > 0 && |groups[1]| > 0;
    assert |Flatten(groups)| == |groups[0]| + |Flatten(groups[1..])|;
    assert |Flatten(groups[1..])| == |groups[1]| + |Flatten(groups[1..][1..])|;
  }

  /** A search for at most two entries that returns three. */
  lemma SearchForBatExceedsLimit()
    ensures Sorts(ENGINE)
    ensures Search(Schema(), BAT, ENGINE).Ok? && |Search(Schema(), BAT, ENGINE).value| == 3
  {
    EngineSorts();
    NothingMatchesBat();
    OneSoundsAlike();
    TwoKeySounds();
    FuzzyBats();
    SearchFailsIff(Schema(), BAT, ENGINE);
    AlmostDoubledIff(Schema(), BAT, ENGINE);
  }
}
