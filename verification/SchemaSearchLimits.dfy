/** How many entries the schema search of translations/TranslationServer.js finds, and which. */
module SchemaSearchLimits {
  import opened Lists
  import opened SchemaSearch
  import opened Wrappers

  /** The engine sorts: nothing is lost or made up, and numbers come out ascending. */
  ghost predicate Sorts(e: Engine) {
    forall s :: Reordered(s, e.sort(s)) && (AllNumbers(s) ==> Ascending(e.sort(s)))
  }

  ghost predicate Reordered(s: seq<Hit>, t: seq<Hit>) {
    multiset(s) == multiset(t)
  }

  predicate AllNumbers(s: seq<Hit>) {
    forall h <- s :: h.idx.At?
  }

  predicate Ascending(s: seq<Hit>) {
    forall i, j :: 0 <= i < j < |s| && s[i].idx.At? && s[j].idx.At? ==> s[i].idx.n <= s[j].idx.n
  }

  // ----- Lists -----

  /** What passes and what does not pass are everything. */
  lemma {:induction false} FilterSplits<T(!new)>(s: seq<T>, keep: T -> bool, other: T -> bool)
    requires forall x <- s :: keep(x) != other(x)
    ensures |Filter(s, keep)| + |Filter(s, other)| == |s|
  {
    if |s| > 0 {
      assert s[0] in s && forall x <- s[1..] :: x in s;
      FilterSplits(s[1..], keep, other);
    }
  }

  predicate Rising(s: seq<nat>) {
    forall i, j :: 0 <= i < j < |s| ==> s[i] < s[j]
  }

  lemma {:induction false} FilterRises(s: seq<nat>, keep: nat -> bool)
    requires Rising(s)
    ensures Rising(Filter(s, keep))
  {
    if |s| > 0 {
      FilterRises(s[1..], keep);
      FilterIs(s[1..], keep);
      var rest := Filter(s[1..], keep);
      assert forall i :: 0 <= i < |rest| ==> rest[i] in rest;
      forall x | x in rest
        ensures s[0] < x
      {
        var i :| 0 <= i < |s| - 1 && s[1..][i] == x;
        assert s[i + 1] == x;
      }
    }
  }

  /** Hits at different places. */
  predicate Apart(s: seq<Hit>) {
    forall i, j :: 0 <= i < j < |s| ==> s[i].at != s[j].at
  }

  function PlaceSet(s: seq<Hit>): set<nat> {
    set h <- s :: h.at
  }

  /** Hits are apart if and only if they have as many places as they are. */
  lemma {:induction false} ApartIff(s: seq<Hit>)
    ensures |PlaceSet(s)| <= |s|
    ensures Apart(s) <==> |PlaceSet(s)| == |s|
  {
    if |s| > 0 {
      var rest := s[1..];
      ApartIff(rest);
      assert forall h :: h in s <==> h == s[0] || h in rest;
      assert PlaceSet(s) == {s[0].at} + PlaceSet(rest);
      ApartStep(s);
    } else {
      assert PlaceSet(s) == {};
    }
  }

  lemma ApartStep(s: seq<Hit>)
    requires |s| > 0
    ensures Apart(s) <==> s[0].at !in PlaceSet(s[1..]) && Apart(s[1..])
  {
  }

  /** Sorting keeps the number of hits, the hits, and their places apart. */
  lemma SortKeeps(e: Engine, s: seq<Hit>)
    requires Sorts(e)
    ensures |e.sort(s)| == |s|
    ensures forall h :: h in s <==> h in e.sort(s)
    ensures Apart(s) <==> Apart(e.sort(s))
    ensures AllNumbers(s) ==> Ascending(e.sort(s))
  {
    var t := e.sort(s);
    assert Reordered(s, t);
    assert |multiset(s)| == |multiset(t)|;
    forall h
      ensures h in s <==> h in t
    {
      assert h in s <==> multiset(s)[h] > 0;
      assert h in t <==> multiset(t)[h] > 0;
    }
    ApartIff(s);
    ApartIff(t);
    assert PlaceSet(s) == PlaceSet(t);
  }

  // ----- Direct hits -----

  function CodePlaces(schema: seq<Entry>, o: Options): seq<nat> {
    Filter(Matches(schema, o.geom, o.text), i => InCode(schema, i, o.text))
  }

  function DescPlaces(schema: seq<Entry>, o: Options): seq<nat> {
    Filter(Matches(schema, o.geom, o.text), i => InDesc(schema, i, o.text) && !InCode(schema, i, o.text))
  }

  /** The entry has the geometry, and the text in its code or its description. */
  predicate IsMatch(schema: seq<Entry>, o: Options, i: nat) {
    i < |schema| && Has(schema[i].geom, o.geom) && (Has(schema[i].fcode, o.text) || Has(schema[i].desc, o.text))
  }

  lemma MatchesAre(schema: seq<Entry>, o: Options)
    ensures forall i :: i in Matches(schema, o.geom, o.text) <==> IsMatch(schema, o, i)
    ensures Rising(Matches(schema, o.geom, o.text))
  {
    var places := Places(|schema|);
    var ofGeometry := (i: nat) => i < |schema| && Has(schema[i].geom, o.geom);
    var found := (i: nat) => InDesc(schema, i, o.text) || InCode(schema, i, o.text);
    FilterIs<nat>(places, ofGeometry);
    FilterRises(places, ofGeometry);
    FilterIs<nat>(OfGeometry(schema, o.geom), found);
    FilterRises(OfGeometry(schema, o.geom), found);
    forall i: nat | i < |schema|
      ensures i in places
    {
      assert places[i] == i;
    }
  }

  lemma PlacesSplit(schema: seq<Entry>, o: Options)
    ensures |CodePlaces(schema, o)| + |DescPlaces(schema, o)| == |Matches(schema, o.geom, o.text)|
    ensures Rising(CodePlaces(schema, o)) && Rising(DescPlaces(schema, o))
    ensures forall i :: i in CodePlaces(schema, o) <==> IsMatch(schema, o, i) && InCode(schema, i, o.text)
    ensures forall i :: i in DescPlaces(schema, o) <==> IsMatch(schema, o, i) && !InCode(schema, i, o.text)
  {
    var matches := Matches(schema, o.geom, o.text);
    var codes := (i: nat) => InCode(schema, i, o.text);
    var descs := (i: nat) => InDesc(schema, i, o.text) && !InCode(schema, i, o.text);
    MatchesAre(schema, o);
    FilterSplits<nat>(matches, codes, descs);
    FilterRises(matches, codes);
    FilterRises(matches, descs);
    FilterIs<nat>(matches, codes);
    FilterIs<nat>(matches, descs);
  }

  lemma MapApart(places: seq<nat>, f: nat -> Hit)
    requires Rising(places) && forall i :: f(i).at == i
    ensures Apart(Map(places, f))
    ensures forall h: Hit :: h in Map(places, f) <==> h.at in places && h == f(h.at)
  {
    forall h: Hit | h.at in places && h == f(h.at)
      ensures h in Map(places, f)
    {
      var i :| 0 <= i < |places| && places[i] == h.at;
      assert Map(places, f)[i] == h;
    }
  }

  lemma CodeHitsAre(schema: seq<Entry>, o: Options, e: Engine)
    requires Sorts(e)
    ensures var hits := CodeHits(schema, Matches(schema, o.geom, o.text), o.text, e);
            && |hits| == |CodePlaces(schema, o)| && Apart(hits)
            && forall h <- hits :: IsMatch(schema, o, h.at) && InCode(schema, h.at, o.text)
  {
    var f := (i: nat) => Hit(i, CodeIndex(schema, i, o.text, e));
    PlacesSplit(schema, o);
    MapApart(CodePlaces(schema, o), f);
    SortKeeps(e, Map(CodePlaces(schema, o), f));
  }

  lemma DescHitsAre(schema: seq<Entry>, o: Options, e: Engine)
    requires Sorts(e)
    ensures var hits := DescHits(schema, Matches(schema, o.geom, o.text), o.text, e);
            && |hits| == |DescPlaces(schema, o)| && Apart(hits)
            && (forall h <- hits :: IsMatch(schema, o, h.at) && !InCode(schema, h.at, o.text)
                                    && h.idx == DescIndex(schema, h.at, o.text))
            && (forall i :: IsMatch(schema, o, i) && !InCode(schema, i, o.text) ==> Hit(i, DescIndex(schema, i, o.text)) in hits)
            && Ascending(hits)
  {
    var f := (i: nat) => Hit(i, DescIndex(schema, i, o.text));
    PlacesSplit(schema, o);
    MapApart(DescPlaces(schema, o), f);
    SortKeeps(e, Map(DescPlaces(schema, o), f));
  }

  function Min(a: nat, b: nat): nat {
    if a < b then a else b
  }

  lemma FirstIs<T>(s: seq<T>, n: nat)
    ensures |First(s, n)| == Min(|s|, n) && forall i :: 0 <= i < |First(s, n)| ==> First(s, n)[i] == s[i]
  {
  }

  /** The direct hits are as many different matching entries as there are, up to the limit. */
  lemma DirectHits(schema: seq<Entry>, o: Options, e: Engine)
    requires Sorts(e)
    ensures |Direct(schema, o, e)| == Min(o.limit, |Matches(schema, o.geom, o.text)|)
    ensures Apart(Direct(schema, o, e))
    ensures forall h <- Direct(schema, o, e) :: IsMatch(schema, o, h.at)
  {
    var matches := Matches(schema, o.geom, o.text);
    var codes, descs := CodeHits(schema, matches, o.text, e), DescHits(schema, matches, o.text, e);
    PlacesSplit(schema, o);
    CodeHitsAre(schema, o, e);
    DescHitsAre(schema, o, e);
    FirstIs(codes, o.limit);
    var some := First(codes, o.limit);
    if |some| < o.limit {
      FirstIs(descs, o.limit - |some|);
      var more := First(descs, o.limit - |some|);
      forall i, j | 0 <= i < |some| && 0 <= j < |more|
        ensures some[i].at != more[j].at
      {
        assert some[i] in codes && more[j] in descs;
      }
    }
  }

  /** No entry whose description matches is left out for one in which the text stands later. */
  lemma EarliestDescriptionsFirst(schema: seq<Entry>, o: Options, e: Engine, h: Hit, i: nat)
    requires Sorts(e) && h in Direct(schema, o, e) && !InCode(schema, h.at, o.text)
    requires IsMatch(schema, o, i) && !InCode(schema, i, o.text)
    requires forall g <- Direct(schema, o, e) :: g.at != i
    ensures h.idx == DescIndex(schema, h.at, o.text) && h.idx.At? && DescIndex(schema, i, o.text).At?
    ensures h.idx.n <= DescIndex(schema, i, o.text).n
  {
    var matches := Matches(schema, o.geom, o.text);
    var codes, descs := CodeHits(schema, matches, o.text, e), DescHits(schema, matches, o.text, e);
    CodeHitsAre(schema, o, e);
    DescHitsAre(schema, o, e);
    FirstIs(codes, o.limit);
    var some := First(codes, o.limit);
    FirstIs(descs, o.limit - |some|);
    assert h !in some;
    LeftOutIsLater(descs, o.limit - |some|, h, Hit(i, DescIndex(schema, i, o.text)));
  }

  lemma LeftOutIsLater(hits: seq<Hit>, n: nat, h: Hit, left: Hit)
    requires Ascending(hits) && h in First(hits, n) && left in hits && left !in First(hits, n)
    requires h.idx.At? && left.idx.At?
    ensures h.idx.n <= left.idx.n
  {
  }

  /** With direct matches the search finds exactly as many different entries as it may. */
  lemma SearchFindsDirectHits(schema: seq<Entry>, o: Options, e: Engine, i: nat)
    requires Sorts(e) && o.text != "" && o.limit > 0 && IsMatch(schema, o, i)
    ensures Search(schema, o, e) == Ok(Direct(schema, o, e))
    ensures |Direct(schema, o, e)| == Min(o.limit, |Matches(schema, o.geom, o.text)|) > 0
  {
    MatchesAre(schema, o);
    DirectHits(schema, o, e);
  }

  // ----- Without direct hits -----

  lemma EmptyOrNot<T>(s: seq<T>)
    ensures s == [] || exists x :: x in s
  {
    assert |s| > 0 ==> s[0] in s;
  }

  lemma NoDirectHits(schema: seq<Entry>, o: Options, e: Engine)
    requires Sorts(e) && forall i :: !IsMatch(schema, o, i)
    ensures Direct(schema, o, e) == []
  {
    MatchesAre(schema, o);
    DirectHits(schema, o, e);
    EmptyOrNot(Matches(schema, o.geom, o.text));
  }

  lemma FallbackFailsIff(schema: seq<Entry>, o: Options, e: Engine)
    requires o.text != ""
    ensures Fallback(schema, o, e).Thrown? <==> |SoundHits(schema, o, e)| < o.limit && IntendedKeys(o.text[0]).None?
  {
  }

  /** The search fails if and only if nothing matches directly, what sounds alike leaves room,
      and the first character is on none of the keys that are known. */
  lemma SearchFailsIff(schema: seq<Entry>, o: Options, e: Engine)
    requires Sorts(e) && o.text != "" && o.limit > 0
    ensures Search(schema, o, e).Thrown? <==>
            (forall i :: !IsMatch(schema, o, i)) && |SoundHits(schema, o, e)| < o.limit && IntendedKeys(o.text[0]).None?
  {
    if i :| IsMatch(schema, o, i) {
      SearchFindsDirectHits(schema, o, e, i);
    } else {
      NoDirectHits(schema, o, e);
      FallbackFailsIff(schema, o, e);
    }
  }

  /** The hits of the last two stages. */
  function KeyCount(schema: seq<Entry>, o: Options, e: Engine): nat
    requires o.text != ""
  {
    match FuzzyStrings(o.text) case None => 0 case Some(texts) => |AllKeyHits(schema, texts, o, e)|
  }

  function KeySoundCount(schema: seq<Entry>, o: Options, e: Engine): nat
    requires o.text != ""
  {
    match FuzzyStrings(o.text) case None => 0 case Some(texts) => |AllKeySoundHits(schema, texts, o, e)|
  }

  /** How many there are of each, and how many the three stages find together. */
  function Found(limit: nat, sounds: nat, keys: nat, keySounds: nat): nat {
    if sounds >= limit then limit
    else var k := Min(limit - sounds, keys); sounds + k + Min(limit - k, keySounds)
  }

  /** How many hits there are without direct matches. The last stage counts the room from the
      limit less the hits of the stage before it, forgetting those that sound alike. */
  lemma FallbackCount(schema: seq<Entry>, o: Options, e: Engine)
    requires o.text != "" && IntendedKeys(o.text[0]).Some?
    ensures Fallback(schema, o, e).Ok?
    ensures |Fallback(schema, o, e).value|
            == Found(o.limit, |SoundHits(schema, o, e)|, KeyCount(schema, o, e), KeySoundCount(schema, o, e))
  {
    var texts := FuzzyStrings(o.text).value;
    FirstIs(SoundHits(schema, o, e), o.limit);
    var sounds := |First(SoundHits(schema, o, e), o.limit)|;
    if sounds < o.limit {
      FirstIs(AllKeyHits(schema, texts, o, e), o.limit - sounds);
      var keys := |First(AllKeyHits(schema, texts, o, e), o.limit - sounds)|;
      if keys < o.limit {
        FirstIs(AllKeySoundHits(schema, texts, o, e), o.limit - keys);
      }
    }
  }

  lemma SearchFallsBack(schema: seq<Entry>, o: Options, e: Engine)
    requires Sorts(e) && o.text != "" && o.limit > 0
    requires Search(schema, o, e).Ok? && forall i :: !IsMatch(schema, o, i)
    ensures |Search(schema, o, e).value|
            == Found(o.limit, |SoundHits(schema, o, e)|, KeyCount(schema, o, e), KeySoundCount(schema, o, e))
  {
    SearchFailsIff(schema, o, e);
    NoDirectHits(schema, o, e);
    if |SoundHits(schema, o, e)| < o.limit {
      FallbackCount(schema, o, e);
    }
  }

  /** The limit is exceeded if and only if something, but too little, sounds alike, and the
      last two stages have more than what is missing. It is never doubled. */
  lemma LimitExceededIff(schema: seq<Entry>, o: Options, e: Engine)
    requires Sorts(e) && o.text != "" && o.limit > 0
    requires Search(schema, o, e).Ok?
    ensures |Search(schema, o, e).value| < 2 * o.limit
    ensures |Search(schema, o, e).value| > o.limit <==>
            && (forall i :: !IsMatch(schema, o, i))
            && 0 < |SoundHits(schema, o, e)| < o.limit
            && Min(o.limit - |SoundHits(schema, o, e)|, KeyCount(schema, o, e)) + KeySoundCount(schema, o, e)
               > o.limit - |SoundHits(schema, o, e)|
  {
    if i :| IsMatch(schema, o, i) {
      SearchFindsDirectHits(schema, o, e, i);
    } else {
      SearchFallsBack(schema, o, e);
    }
  }

  /** One less than twice the limit does happen. */
  lemma AlmostDoubledIff(schema: seq<Entry>, o: Options, e: Engine)
    requires Sorts(e) && o.text != "" && o.limit > 1
    requires Search(schema, o, e).Ok? && forall i :: !IsMatch(schema, o, i)
    ensures |Search(schema, o, e).value| == 2 * o.limit - 1 <==>
            && |SoundHits(schema, o, e)| == o.limit - 1
            && KeySoundCount(schema, o, e) >= o.limit - Min(1, KeyCount(schema, o, e))
  {
    SearchFallsBack(schema, o, e);
  }

  /** Without a text the search lists entries of the geometry as they stand in the schema. */
  lemma EmptyTextLists(schema: seq<Entry>, o: Options, e: Engine)
    requires o.text == ""
    ensures Search(schema, o, e).Ok?
    ensures |Search(schema, o, e).value| == Min(o.limit, |OfGeometry(schema, o.geom)|)
    ensures forall i, j :: 0 <= i < j < |Search(schema, o, e).value| ==>
              Search(schema, o, e).value[i].at < Search(schema, o, e).value[j].at
  {
    var ofGeometry := (i: nat) => i < |schema| && Has(schema[i].geom, o.geom);
    FilterRises(Places(|schema|), ofGeometry);
    var all := OfGeometry(schema, o.geom);
    var first := First(all, o.limit);
    FirstIs(all, o.limit);
    assert Rising(all);
    forall i, j | 0 <= i < j < |first|
      ensures Map(first, Unsorted)[i].at < Map(first, Unsorted)[j].at
    {
      assert first[i] == all[i] && first[j] == all[j];
      assert Map(first, Unsorted)[i] == Unsorted(first[i]) && Map(first, Unsorted)[j] == Unsorted(first[j]);
    }
  }
}
