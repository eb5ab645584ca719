/** In which order the schema search of translations/TranslationServer.js lists what it finds,
    and what it takes for sounding alike. */
module SchemaSearchOrder {
  import opened Lein
  import opened Lists
  import opened SchemaSearch
  import opened SchemaSearchLimits
  import opened Text
  import opened Wrappers

  // ----- Finding a text -----

  /** The same letter, but for upper and lower case. */
  predicate SameLetter(a: char, b: char) {
    a == b || ('A' <= a <= 'Z' && b as int == a as int + 32) || ('A' <= b <= 'Z' && a as int == b as int + 32)
  }

  /** The part stands here, but for upper and lower case. */
  predicate StandsAt(text: string, part: string, j: nat) {
    j + |part| <= |text| && forall k :: 0 <= k < |part| ==> SameLetter(text[j + k], part[k])
  }

  predicate StandsFirst(text: string, part: string, j: nat) {
    StandsAt(text, part, j) && forall i: nat :: i < j ==> !StandsAt(text, part, i)
  }

  lemma SameLetterIff(a: char, b: char)
    ensures SameLetter(a, b) <==> LowerChar(a) == LowerChar(b)
  {
  }

  lemma StandsIff(text: string, part: string, j: nat)
    ensures StandsAt(text, part, j) <==> OccursAt(Lower(text), Lower(part), j)
  {
    if j + |part| <= |text| {
      var piece := Lower(text)[j..j + |part|];
      forall k | 0 <= k < |part|
        ensures SameLetter(text[j + k], part[k]) <==> piece[k] == Lower(part)[k]
      {
        SameLetterIff(text[j + k], part[k]);
      }
    }
  }

  lemma StandsFirstIff(text: string, part: string, j: nat)
    ensures StandsFirst(text, part, j) <==> IndexOf(Lower(text), Lower(part)) == j
    ensures Has(text, part) <==> exists i :: StandsAt(text, part, i)
  {
    forall i: nat
      ensures StandsAt(text, part, i) <==> OccursAt(Lower(text), Lower(part), i)
    {
      StandsIff(text, part, i);
    }
    var first := IndexOf(Lower(text), Lower(part));
    if first != -1 {
      assert StandsAt(text, part, first);
    }
  }

  // ----- Direct hits -----

  /** The number that is left of a code without the text. */
  ghost predicate CodeRest(code: string, text: string, e: Engine, idx: Index) {
    exists j: nat :: StandsFirst(code, text, j) && idx == e.number(Lower(code[..j] + code[j + |text|..]))
  }

  lemma LowerWithout(code: string, j: nat, k: nat)
    requires j <= k <= |code|
    ensures Lower(code[..j] + code[k..]) == Lower(code)[..j] + "" + Lower(code)[k..]
  {
  }

  lemma CodeRestIff(code: string, text: string, e: Engine, idx: Index)
    requires Has(code, text)
    ensures CodeRest(code, text, e, idx) <==> idx == e.number(ReplaceFirst(Lower(code), Lower(text), ""))
  {
    var j := IndexOf(Lower(code), Lower(text));
    StandsFirstIff(code, text, j);
    LowerWithout(code, j, j + |text|);
    assert StandsFirst(code, text, j);
    forall i: nat | StandsFirst(code, text, i)
      ensures i == j
    {
      OneStandsFirst(code, text, i, j);
    }
  }

  lemma OneStandsFirst(text: string, part: string, i: nat, j: nat)
    requires StandsFirst(text, part, i) && StandsFirst(text, part, j)
    ensures i == j
  {
  }

  function Codes(schema: seq<Entry>, o: Options, e: Engine): seq<Hit> {
    CodeHits(schema, Matches(schema, o.geom, o.text), o.text, e)
  }

  lemma CodesAre(schema: seq<Entry>, o: Options, e: Engine)
    requires Sorts(e)
    ensures AllNumbers(Codes(schema, o, e)) ==> Ascending(Codes(schema, o, e))
    ensures forall h :: h in Codes(schema, o, e) <==>
              IsMatch(schema, o, h.at) && InCode(schema, h.at, o.text) && h.idx == CodeIndex(schema, h.at, o.text, e)
  {
    var f := (i: nat) => Hit(i, CodeIndex(schema, i, o.text, e));
    PlacesSplit(schema, o);
    MapApart(CodePlaces(schema, o), f);
    SortKeeps(e, Map(CodePlaces(schema, o), f));
    assert forall h :: h in Map(CodePlaces(schema, o), f) <==> h in Codes(schema, o, e);
  }

  /** A direct hit is a match, with the number that is left of its code, or with the place of
      the text in its description. */
  lemma DirectHitIs(schema: seq<Entry>, o: Options, e: Engine, h: Hit)
    requires Sorts(e) && h in Direct(schema, o, e)
    ensures IsMatch(schema, o, h.at)
    ensures Has(schema[h.at].fcode, o.text) ==> CodeRest(schema[h.at].fcode, o.text, e, h.idx)
    ensures !Has(schema[h.at].fcode, o.text) ==> exists j: nat :: StandsFirst(schema[h.at].desc, o.text, j) && h.idx == At(j)
  {
    CodesAre(schema, o, e);
    CodeHitsAre(schema, o, e);
    DescHitsAre(schema, o, e);
    if Has(schema[h.at].fcode, o.text) {
      CodeRestIff(schema[h.at].fcode, o.text, e, h.idx);
    } else {
      var j := IndexOf(Lower(schema[h.at].desc), Lower(o.text));
      StandsFirstIff(schema[h.at].desc, o.text, j);
    }
  }

  function Descs(schema: seq<Entry>, o: Options, e: Engine): seq<Hit> {
    DescHits(schema, Matches(schema, o.geom, o.text), o.text, e)
  }

  /** How many codes there is room for. */
  function CodeRoom(schema: seq<Entry>, o: Options, e: Engine): nat {
    Min(|Codes(schema, o, e)|, o.limit)
  }

  lemma DirectAt(schema: seq<Entry>, o: Options, e: Engine, p: nat)
    requires Sorts(e) && p < |Direct(schema, o, e)|
    ensures var n := CodeRoom(schema, o, e);
            if p < n then Direct(schema, o, e)[p] == Codes(schema, o, e)[p] && InCode(schema, Direct(schema, o, e)[p].at, o.text)
            else p - n < |Descs(schema, o, e)| && Direct(schema, o, e)[p] == Descs(schema, o, e)[p - n]
                 && !InCode(schema, Direct(schema, o, e)[p].at, o.text) && Direct(schema, o, e)[p].idx.At?
  {
    var codes, descs := Codes(schema, o, e), Descs(schema, o, e);
    DirectIs(schema, o, e);
    BothLists(codes, descs, o.limit, p);
    if p < CodeRoom(schema, o, e) {
      CodeAt(schema, o, e, p);
    } else {
      DescAt(schema, o, e, p - CodeRoom(schema, o, e));
    }
  }

  lemma DirectIs(schema: seq<Entry>, o: Options, e: Engine)
    ensures Direct(schema, o, e) == CodesThen(Codes(schema, o, e), Descs(schema, o, e), o.limit)
  {
  }

  lemma CodeAt(schema: seq<Entry>, o: Options, e: Engine, p: nat)
    requires Sorts(e) && p < |Codes(schema, o, e)|
    ensures InCode(schema, Codes(schema, o, e)[p].at, o.text)
  {
    CodesAre(schema, o, e);
    var h := Codes(schema, o, e)[p];
    assert h in Codes(schema, o, e);
  }

  lemma DescAt(schema: seq<Entry>, o: Options, e: Engine, p: nat)
    requires Sorts(e) && p < |Descs(schema, o, e)|
    ensures !InCode(schema, Descs(schema, o, e)[p].at, o.text) && Descs(schema, o, e)[p].idx.At?
  {
    DescHitsAre(schema, o, e);
    var h := Descs(schema, o, e)[p];
    assert h in Descs(schema, o, e);
  }

  function CodesThen(codes: seq<Hit>, descs: seq<Hit>, limit: nat): seq<Hit> {
    var some := First(codes, limit);
    if |some| < limit then some + First(descs, limit - |some|) else some
  }

  lemma BothLists(codes: seq<Hit>, descs: seq<Hit>, limit: nat, p: nat)
    requires p < |CodesThen(codes, descs, limit)|
    ensures var n := Min(|codes|, limit);
            if p < n then CodesThen(codes, descs, limit)[p] == codes[p]
            else p - n < |descs| && CodesThen(codes, descs, limit)[p] == descs[p - n]
  {
    FirstIs(codes, limit);
    if p >= |First(codes, limit)| {
      FirstIs(descs, limit - |First(codes, limit)|);
    }
  }

  /** Codes come before descriptions, the lowest first when they are numbers; descriptions come
      in the order in which the text stands in them. */
  lemma DirectOrder(schema: seq<Entry>, o: Options, e: Engine, p: nat, q: nat)
    requires Sorts(e) && p < q < |Direct(schema, o, e)|
    ensures var g, h := Direct(schema, o, e)[p], Direct(schema, o, e)[q];
            && (InCode(schema, h.at, o.text) ==> InCode(schema, g.at, o.text))
            && (InCode(schema, h.at, o.text) && AllNumbers(Codes(schema, o, e)) ==> NotAfter(g, h))
            && (!InCode(schema, g.at, o.text) ==> NotAfter(g, h))
  {
    DirectAt(schema, o, e, p);
    DirectAt(schema, o, e, q);
    CodesAre(schema, o, e);
    DescHitsAre(schema, o, e);
    var n := CodeRoom(schema, o, e);
    if q < n {
      assert Codes(schema, o, e)[p] in Codes(schema, o, e) && Codes(schema, o, e)[q] in Codes(schema, o, e);
    }
  }

  predicate NotAfter(g: Hit, h: Hit) {
    g.idx.At? && h.idx.At? && g.idx.n <= h.idx.n
  }

  /** When the codes are numbers, no entry is left out whose code has less left than that of
      another one. */
  lemma LowestCodesFirst(schema: seq<Entry>, o: Options, e: Engine, h: Hit, left: Hit)
    requires Sorts(e) && AllNumbers(Codes(schema, o, e))
    requires h in Direct(schema, o, e) && InCode(schema, h.at, o.text)
    requires left in Codes(schema, o, e) && left !in Direct(schema, o, e)
    ensures h.idx.At? && left.idx.At? && h.idx.n <= left.idx.n
    ensures forall g <- Direct(schema, o, e) :: InCode(schema, g.at, o.text)
  {
    CodesAre(schema, o, e);
    DescHitsAre(schema, o, e);
    var codes := Codes(schema, o, e);
    FirstIs(codes, o.limit);
    LeftOutIsLater(codes, o.limit, h, left);
  }

  // ----- What sounds alike -----

  predicate SameInitial(a: string, b: string) {
    a != "" && b != "" && a[0] == b[0]
  }

  /** The codes begin alike, and the numbers behind are this far apart. */
  predicate ApartBy(a: string, b: string, e: Engine, n: int) {
    && SameInitial(a, b) && e.number(a[1..]).At? && e.number(b[1..]).At?
    && (e.number(a[1..]).n == e.number(b[1..]).n + n || e.number(b[1..]).n == e.number(a[1..]).n + n) && n >= 0
  }

  /** The codes begin alike, and what is behind is no number. */
  predicate Unreadable(a: string, b: string, e: Engine) {
    SameInitial(a, b) && !(e.number(a[1..]).At? && e.number(b[1..]).At?)
  }

  lemma DistanceIs(a: string, b: string, e: Engine, n: int)
    ensures ApartBy(a, b, e, n) <==> CodeDistance(a, b, e) == Index.At(n)
    ensures Unreadable(a, b, e) <==> CodeDistance(a, b, e) == NotANumber
  {
  }

  lemma {:induction false} LeastIff(ds: seq<Index>, n: int)
    ensures Least(ds) == Index.At(n) <==>
              Index.At(n) in ds && NotANumber !in ds && forall m :: Index.At(m) in ds ==> n <= m
    ensures Least(ds) == NotANumber <==> NotANumber in ds
    ensures Least(ds) == Infinite <==> NotANumber !in ds && forall m :: Index.At(m) !in ds
  {
    if |ds| > 0 {
      var rest := ds[1..];
      assert forall d :: d in ds <==> d == ds[0] || d in rest;
      match Least(rest) {
        case At(m) => LeastIff(rest, m);
        case _ => LeastIff(rest, n);
      }
      LeastIff(rest, n);
    }
  }

  /** One of the words has a code this far from this one, no word a nearer one, and none an
      unreadable one. */
  ghost predicate Nearest(words: seq<string>, own: string, codeOf: string -> string, e: Engine, n: int) {
    && (exists w :: w in words && ApartBy(own, codeOf(w), e, n))
    && (forall w <- words :: !Unreadable(own, codeOf(w), e))
    && (forall w, m | w in words && ApartBy(own, codeOf(w), e, m) :: n <= m)
  }

  lemma {:induction false} InMap(words: seq<string>, distance: string -> Index, d: Index)
    ensures d in Map(words, distance) <==> exists w :: w in words && distance(w) == d
  {
    if w :| w in words && distance(w) == d {
      var i :| 0 <= i < |words| && words[i] == w;
      assert Map(words, distance)[i] == d;
    }
  }

  lemma NearestIff(words: seq<string>, own: string, codeOf: string -> string, distance: string -> Index, e: Engine, n: int)
    requires forall w :: distance(w) == CodeDistance(own, codeOf(w), e)
    ensures Least(Map(words, distance)) == Index.At(n) <==> Nearest(words, own, codeOf, e, n)
  {
    var ds := Map(words, distance);
    LeastIff(ds, n);
    forall w, m
      ensures ApartBy(own, codeOf(w), e, m) <==> distance(w) == Index.At(m)
      ensures Unreadable(own, codeOf(w), e) <==> distance(w) == NotANumber
    {
      DistanceIs(own, codeOf(w), e, m);
    }
    InMap(words, distance, NotANumber);
    forall m
      ensures Index.At(m) in ds <==> exists w :: w in words && distance(w) == Index.At(m)
    {
      InMap(words, distance, Index.At(m));
    }
  }

  lemma PlacesOf(schema: seq<Entry>, geom: string, keep: nat -> bool)
    ensures forall i: nat :: i in Filter<nat>(OfGeometry(schema, geom), keep) <==> i < |schema| && Has(schema[i].geom, geom) && keep(i)
    ensures Rising(Filter(OfGeometry(schema, geom), keep))
  {
    var places := Places(|schema|);
    var ofGeometry := (i: nat) => i < |schema| && Has(schema[i].geom, geom);
    FilterIs<nat>(places, ofGeometry);
    FilterRises(places, ofGeometry);
    FilterIs<nat>(OfGeometry(schema, geom), keep);
    FilterRises(OfGeometry(schema, geom), keep);
    forall i: nat | i < |schema|
      ensures i in places
    {
      assert places[i] == i;
    }
  }

  /** A stage without a bound: the entries of the geometry that it keeps, sorted. */
  lemma StageIs(schema: seq<Entry>, geom: string, keep: nat -> bool, f: nat -> Hit, e: Engine, h: Hit)
    requires Sorts(e) && forall i :: f(i).at == i
    ensures h in Map(Filter(OfGeometry(schema, geom), keep), f) <==>
              h.at < |schema| && Has(schema[h.at].geom, geom) && keep(h.at) && h == f(h.at)
    ensures h in e.sort(Map(Filter(OfGeometry(schema, geom), keep), f)) <==> h in Map(Filter(OfGeometry(schema, geom), keep), f)
    ensures AllNumbers(Map(Filter(OfGeometry(schema, geom), keep), f)) ==> Ascending(e.sort(Map(Filter(OfGeometry(schema, geom), keep), f)))
  {
    PlacesOf(schema, geom, keep);
    MapApart(Filter(OfGeometry(schema, geom), keep), f);
    SortKeeps(e, Map(Filter(OfGeometry(schema, geom), keep), f));
  }

  /** A stage with a bound on the distance. */
  lemma NearStageIs(schema: seq<Entry>, o: Options, keep: nat -> bool, f: nat -> Hit, e: Engine, h: Hit)
    requires Sorts(e) && forall i :: f(i).at == i
    ensures var near := Filter(Map(Filter(OfGeometry(schema, o.geom), keep), f), h => Near(h, o));
            && (h in e.sort(near) <==>
                  h.at < |schema| && Has(schema[h.at].geom, o.geom) && keep(h.at) && h == f(h.at) && Near(h, o))
            && Ascending(e.sort(near))
  {
    var hits := Map(Filter(OfGeometry(schema, o.geom), keep), f);
    StageIs(schema, o.geom, keep, f, e, h);
    FilterIs(hits, h => Near(h, o));
    SortKeeps(e, Filter(hits, h => Near(h, o)));
  }

  function LowerCode(word: string): string {
    Lower(GetLein(word))
  }

  /** Which entries count as sounding alike, and how far they are away: neither code nor
      description holds the text, and some word of the description is near enough. They are
      listed from the nearest on. */
  lemma SoundHitIff(schema: seq<Entry>, o: Options, e: Engine, h: Hit)
    requires Sorts(e)
    ensures h in SoundHits(schema, o, e) <==>
              && h.at < |schema| && Has(schema[h.at].geom, o.geom)
              && !Has(schema[h.at].fcode, o.text) && !Has(schema[h.at].desc, o.text)
              && h.idx.At? && h.idx.n <= o.maxDistance
              && Nearest(e.words(Lower(schema[h.at].desc)), LowerCode(o.text), LowerCode, e, h.idx.n)
    ensures Ascending(SoundHits(schema, o, e))
  {
    var keep := (i: nat) => !InCode(schema, i, o.text) && !InDesc(schema, i, o.text);
    var f := (i: nat) => Hit(i, SoundIndex(schema, i, o.text, e));
    NearStageIs(schema, o, keep, f, e, h);
    if h.at < |schema| && h.idx.At? {
      NearestIff(e.words(Lower(schema[h.at].desc)), LowerCode(o.text), LowerCode, w => SoundDistance(o.text, w, e), e, h.idx.n);
    }
  }

  /** Which entries hold a text with another first letter, listed by where it stands. */
  lemma KeyHitIff(schema: seq<Entry>, text: string, o: Options, e: Engine, h: Hit)
    requires Sorts(e)
    ensures h in KeyHits(schema, text, o, e) <==>
              h.at < |schema| && Has(schema[h.at].geom, o.geom) && h.idx.At? && h.idx.n >= 0
              && StandsFirst(schema[h.at].desc, text, h.idx.n)
    ensures Ascending(KeyHits(schema, text, o, e))
  {
    var keep := (i: nat) => InDesc(schema, i, text);
    var f := (i: nat) => Hit(i, DescIndex(schema, i, text));
    StageIs(schema, o.geom, keep, f, e, h);
    forall g: Hit | g in Map(Filter(OfGeometry(schema, o.geom), keep), f)
      ensures g.idx.At?
    {
      StageIs(schema, o.geom, keep, f, e, g);
    }
    if h.at < |schema| {
      StandsFirstIff(schema[h.at].desc, text, if h.idx.At? && h.idx.n >= 0 then h.idx.n else 0);
    }
  }

  /** Which entries sound like a text with another first letter; the first five are taken. */
  lemma KeySoundHitIff(schema: seq<Entry>, text: string, o: Options, e: Engine, h: Hit) returns (all: seq<Hit>)
    requires Sorts(e)
    ensures KeySoundHits(schema, text, o, e) == First(all, 5) && Ascending(all)
    ensures h in all <==>
              && h.at < |schema| && Has(schema[h.at].geom, o.geom) && !Has(schema[h.at].desc, text)
              && h.idx.At? && h.idx.n <= o.maxDistance
              && Nearest(Split(schema[h.at].desc, "+s"), GetLein(text), GetLein, e, h.idx.n)
  {
    var keep := (i: nat) => !InDesc(schema, i, text);
    var f := (i: nat) => Hit(i, KeySoundIndex(schema, i, text, e));
    all := e.sort(Filter(Map(Filter(OfGeometry(schema, o.geom), keep), f), h => Near(h, o)));
    NearStageIs(schema, o, keep, f, e, h);
    if h.at < |schema| && h.idx.At? {
      NearestIff(Split(schema[h.at].desc, "+s"), GetLein(text), GetLein, w => KeySoundDistance(text, w, e), e, h.idx.n);
    }
  }

  /** One text for each key. */
  lemma ByKeys(schema: seq<Entry>, o: Options, e: Engine, keys: string, tail: string)
    ensures var texts := Map(keys, k => [k] + tail);
            && AllKeyHits(schema, texts, o, e) == Flatten(Map(keys, k => KeyHits(schema, [k] + tail, o, e)))
            && AllKeySoundHits(schema, texts, o, e) == Flatten(Map(keys, k => KeySoundHits(schema, [k] + tail, o, e)))
  {
    var texts := Map(keys, k => [k] + tail);
    assert Map(texts, t => KeyHits(schema, t, o, e)) == Map(keys, k => KeyHits(schema, [k] + tail, o, e));
    assert Map(texts, t => KeySoundHits(schema, t, o, e)) == Map(keys, k => KeySoundHits(schema, [k] + tail, o, e));
  }

  /** The further stages in a row: what sounds alike, then for each neighbouring key in turn
      what holds the text with that key, and then for each what sounds like it. */
  lemma FurtherStages(schema: seq<Entry>, o: Options, e: Engine) returns (held: seq<Hit>, alike: seq<Hit>)
    requires o.text != "" && Fallback(schema, o, e).Ok?
    ensures Fallback(schema, o, e).value == First(SoundHits(schema, o, e), o.limit) + held + alike
    ensures (held != [] || alike != []) ==> |SoundHits(schema, o, e)| < o.limit && IntendedKeys(o.text[0]).Some?
    ensures IntendedKeys(o.text[0]).Some? ==>
              held <= Flatten(Map(IntendedKeys(o.text[0]).value, k => KeyHits(schema, [k] + o.text[1..], o, e)))
              && alike <= Flatten(Map(IntendedKeys(o.text[0]).value, k => KeySoundHits(schema, [k] + o.text[1..], o, e)))
  {
    var sounds := First(SoundHits(schema, o, e), o.limit);
    held, alike := [], [];
    if |sounds| < o.limit {
      var texts := FuzzyStrings(o.text).value;
      ByKeys(schema, o, e, IntendedKeys(o.text[0]).value, o.text[1..]);
      LastStages(schema, o, e, texts);
      held := Held(schema, o, e, texts);
      alike := Alike(schema, o, e, texts, held);
    } else {
      assert sounds + [] + [] == sounds;
    }
  }

  function Held(schema: seq<Entry>, o: Options, e: Engine, texts: seq<string>): seq<Hit>
    requires |First(SoundHits(schema, o, e), o.limit)| < o.limit
  {
    First(AllKeyHits(schema, texts, o, e), o.limit - |First(SoundHits(schema, o, e), o.limit)|)
  }

  function Alike(schema: seq<Entry>, o: Options, e: Engine, texts: seq<string>, held: seq<Hit>): seq<Hit> {
    if |held| >= o.limit then [] else First(AllKeySoundHits(schema, texts, o, e), o.limit - |held|)
  }

  lemma LastStages(schema: seq<Entry>, o: Options, e: Engine, texts: seq<string>)
    requires |First(SoundHits(schema, o, e), o.limit)| < o.limit
    ensures var held := Held(schema, o, e, texts);
            FallbackWith(schema, o, e, Some(texts)) == Ok(First(SoundHits(schema, o, e), o.limit) + held + Alike(schema, o, e, texts, held))
  {
    var sounds, held := First(SoundHits(schema, o, e), o.limit), Held(schema, o, e, texts);
    assert sounds + held + [] == sounds + held;
  }

  /** What a request without limit, distance or geometry of its own comes down to. */
  lemma Defaults(geomType: string, searchStr: string, limit: nat, maxDistance: int)
    ensures var o := OptionsOf(geomType, searchStr, limit, maxDistance);
            && o.text == searchStr && o.limit == (if limit == 0 then 20 else limit)
            && o.maxDistance == (if maxDistance == 0 then 200 else maxDistance)
            && (if |geomType| == 6 && StandsAt(geomType, "vertex", 0) then o.geom == "point" else o.geom == geomType)
  {
    StandsIff(geomType, "vertex", 0);
    assert Lower("vertex") == "vertex";
    if |geomType| == 6 {
      assert Lower(geomType)[0..6] == Lower(geomType);
    }
  }
}
