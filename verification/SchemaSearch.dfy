/** The schema search of translations/TranslationServer.js: codes first, then descriptions,
    and when there is neither, what sounds or is typed alike.  How an engine sorts, reads
    numbers and splits text into words are parameters. */
module SchemaSearch {
  import opened Lein
  import opened Lists
  import opened Text
  import opened Wrappers

  datatype Entry = Entry(name: string, fcode: string, desc: string, geom: string)

  /** What hits are sorted by. */
  datatype Index = NotANumber | Infinite | At(n: int)

  /** A hit is known by its place in the schema. */
  datatype Hit = Hit(at: nat, idx: Index)

  datatype Engine = Engine(sort: seq<Hit> -> seq<Hit>, number: string -> Index, words: string -> seq<string>)

  datatype Options = Options(geom: string, text: string, limit: nat, maxDistance: int)

  // What a limit or a distance of zero, or none, stands for.
  const DEFAULT_LIMIT := 20
  const DEFAULT_DISTANCE := 200

  /** The options that a request comes down to. */
  function OptionsOf(geomType: string, searchStr: string, limit: nat, maxDistance: int): Options {
    Options(Geometry(geomType), searchStr, if limit == 0 then DEFAULT_LIMIT else limit,
            if maxDistance == 0 then DEFAULT_DISTANCE else maxDistance)
  }

  // ----- Text -----

  function LowerChar(c: char): char {
    if 'A' <= c <= 'Z' then (c as int + 32) as char else c
  }

  function Lower(s: string): string {
    seq(|s|, i requires 0 <= i < |s| => LowerChar(s[i]))
  }

  predicate Has(text: string, part: string) {
    Contains(Lower(text), Lower(part))
  }

  /** Vertices are looked up as points. */
  function Geometry(geom: string): string {
    if Lower(geom) == "vertex" then "point" else geom
  }

  // ----- Lists -----

  function Places(n: nat): seq<nat> {
    seq(n, i => i)
  }

  function Map<A, B>(s: seq<A>, f: A -> B): seq<B> {
    seq(|s|, i requires 0 <= i < |s| => f(s[i]))
  }

  // ----- The stages -----

  /** All places in the schema with this geometry. */
  function OfGeometry(schema: seq<Entry>, geom: string): seq<nat> {
    Filter(Places(|schema|), (i: nat) => i < |schema| && Has(schema[i].geom, geom))
  }

  predicate InCode(schema: seq<Entry>, i: nat, text: string) {
    i < |schema| && Has(schema[i].fcode, text)
  }

  predicate InDesc(schema: seq<Entry>, i: nat, text: string) {
    i < |schema| && Has(schema[i].desc, text)
  }

  function Matches(schema: seq<Entry>, geom: string, text: string): seq<nat> {
    Filter(OfGeometry(schema, geom), i => InDesc(schema, i, text) || InCode(schema, i, text))
  }

  /** Codes are sorted by what is left of them. */
  function CodeIndex(schema: seq<Entry>, i: nat, text: string, e: Engine): Index {
    if i < |schema| then e.number(ReplaceFirst(Lower(schema[i].fcode), Lower(text), "")) else NotANumber
  }

  function CodeHits(schema: seq<Entry>, matches: seq<nat>, text: string, e: Engine): seq<Hit> {
    e.sort(Map(Filter(matches, i => InCode(schema, i, text)), i => Hit(i, CodeIndex(schema, i, text, e))))
  }

  /** Descriptions are sorted by where the text stands in them. */
  function DescIndex(schema: seq<Entry>, i: nat, text: string): Index {
    if i < |schema| then At(IndexOf(Lower(schema[i].desc), Lower(text))) else NotANumber
  }

  function DescHits(schema: seq<Entry>, matches: seq<nat>, text: string, e: Engine): seq<Hit> {
    e.sort(Map(Filter(matches, i => InDesc(schema, i, text) && !InCode(schema, i, text)),
               i => Hit(i, DescIndex(schema, i, text))))
  }

  /** The direct hits: codes, and descriptions as long as there is room. */
  function Direct(schema: seq<Entry>, o: Options, e: Engine): seq<Hit> {
    var matches := Matches(schema, o.geom, o.text);
    var codes := First(CodeHits(schema, matches, o.text, e), o.limit);
    if |codes| < o.limit then codes + First(DescHits(schema, matches, o.text, e), o.limit - |codes|) else codes
  }

  /** How far two phonetic codes are apart. */
  function CodeDistance(a: string, b: string, e: Engine): Index {
    if a == "" || b == "" || a[0] != b[0] then Infinite
    else
      match (e.number(a[1..]), e.number(b[1..]))
      case (At(m), At(n)) => At(if m < n then n - m else m - n)
      case _ => NotANumber
  }

  /** The least of several distances; nothing that is not a number is less. */
  function Least(distances: seq<Index>): Index {
    if |distances| == 0 then Infinite
    else
      match (distances[0], Least(distances[1..]))
      case (NotANumber, _) => NotANumber
      case (_, NotANumber) => NotANumber
      case (Infinite, rest) => rest
      case (d, Infinite) => d
      case (At(m), At(n)) => At(if m < n then m else n)
  }

  predicate Near(h: Hit, o: Options) {
    h.idx.At? && h.idx.n <= o.maxDistance
  }

  /** How differently two words sound; upper and lower case make no difference. */
  function SoundDistance(text: string, word: string, e: Engine): Index {
    CodeDistance(Lower(GetLein(text)), Lower(GetLein(word)), e)
  }

  function SoundIndex(schema: seq<Entry>, i: nat, text: string, e: Engine): Index {
    if i < |schema|
    then Least(Map(e.words(Lower(schema[i].desc)), w => SoundDistance(text, w, e)))
    else NotANumber
  }

  function SoundHits(schema: seq<Entry>, o: Options, e: Engine): seq<Hit> {
    var others := Filter(OfGeometry(schema, o.geom), i => !InCode(schema, i, o.text) && !InDesc(schema, i, o.text));
    e.sort(Filter(Map(others, i => Hit(i, SoundIndex(schema, i, o.text, e))), h => Near(h, o)))
  }

  /** The keys around a key; some keys, such as K and the digits, have no entry. */
  function IntendedKeys(key: char): Option<string> {
    match LowerChar(key)
    case 'q' => Some("aw") case 'w' => Some("qe") case 'e' => Some("wr") case 'r' => Some("et") case 't' => Some("rt")
    case 'y' => Some("tu") case 'u' => Some("yi") case 'i' => Some("uo") case 'o' => Some("ip") case 'p' => Some("ol")
    case '[' => Some("p") case '{' => Some("p")
    case 'a' => Some("sz") case 's' => Some("ad") case 'd' => Some("sf") case 'f' => Some("dg") case 'g' => Some("fh")
    case 'h' => Some("gj") case 'j' => Some("hk") case 'l' => Some("ko") case ';' => Some("pl") case ':' => Some("pl")
    case 'z' => Some("axs") case 'x' => Some("zcsd") case 'c' => Some("xdfv") case 'v' => Some("cfgb")
    case 'b' => Some("vghn") case 'n' => Some("bhjm") case 'm' => Some("kn")
    case ',' => Some("mkl") case '<' => Some("mkl") case '.' => Some("l") case '>' => Some("l")
    case _ => None
  }

  function FuzzyStrings(text: string): Option<seq<string>>
    requires text != ""
  {
    var keys := IntendedKeys(text[0]);
    if keys.None? then None else Some(Map(keys.value, k => [k] + text[1..]))
  }

  /** Entries whose description holds a text with another first letter. */
  function KeyHits(schema: seq<Entry>, text: string, o: Options, e: Engine): seq<Hit> {
    e.sort(Map(Filter(OfGeometry(schema, o.geom), i => InDesc(schema, i, text)), i => Hit(i, DescIndex(schema, i, text))))
  }

  function KeySoundDistance(text: string, word: string, e: Engine): Index {
    CodeDistance(GetLein(text), GetLein(word), e)
  }

  /** The description is cut at plus signs before an s here, not at white space. */
  function KeySoundIndex(schema: seq<Entry>, i: nat, text: string, e: Engine): Index {
    if i < |schema| then Least(Map(Split(schema[i].desc, "+s"), w => KeySoundDistance(text, w, e))) else NotANumber
  }

  /** Whether the code holds the text makes no difference here. */
  function KeySoundHits(schema: seq<Entry>, text: string, o: Options, e: Engine): seq<Hit> {
    var others := Filter(OfGeometry(schema, o.geom), i => !InDesc(schema, i, text));
    First(e.sort(Filter(Map(others, i => Hit(i, KeySoundIndex(schema, i, text, e))), h => Near(h, o))), 5)
  }

  function AllKeyHits(schema: seq<Entry>, texts: seq<string>, o: Options, e: Engine): seq<Hit> {
    Flatten(Map(texts, t => KeyHits(schema, t, o, e)))
  }

  /** The groups compare as equal whatever they hold, so they keep their order. */
  function AllKeySoundHits(schema: seq<Entry>, texts: seq<string>, o: Options, e: Engine): seq<Hit> {
    Flatten(Map(texts, t => KeySoundHits(schema, t, o, e)))
  }

  /** When nothing matches directly. */
  function Fallback(schema: seq<Entry>, o: Options, e: Engine): Result<seq<Hit>>
    requires o.text != ""
  {
    FallbackWith(schema, o, e, FuzzyStrings(o.text))
  }

  function FallbackWith(schema: seq<Entry>, o: Options, e: Engine, searchStrings: Option<seq<string>>): Result<seq<Hit>> {
    var sounds := First(SoundHits(schema, o, e), o.limit);
    if |sounds| == o.limit then Ok(sounds)
    else
      match searchStrings
      case None => Thrown(TypeError)
      case Some(texts) =>
        var keys := First(AllKeyHits(schema, texts, o, e), o.limit - |sounds|);
        if |keys| == o.limit then Ok(sounds + keys)
        else Ok(sounds + keys + First(AllKeySoundHits(schema, texts, o, e), o.limit - |keys|))
  }

  function Unsorted(at: nat): Hit {
    Hit(at, NotANumber)
  }

  function Search(schema: seq<Entry>, o: Options, e: Engine): Result<seq<Hit>> {
    if o.text == "" then Ok(Map(First(OfGeometry(schema, o.geom), o.limit), Unsorted))
    else if Direct(schema, o, e) != [] || o.limit == 0 then Ok(Direct(schema, o, e))
    else Fallback(schema, o, e)
  }

  lemma FuzzyStringsIff(text: string)
    requires text != ""
    ensures FuzzyStrings(text).None? <==> IntendedKeys(text[0]).None?
  {
  }

  /** When the further stages throw; otherwise they give fewer than twice the limit, and begin
      with what sounds alike. */
  lemma FallbackForm(schema: seq<Entry>, o: Options, e: Engine)
    requires o.text != ""
    ensures Fallback(schema, o, e).Thrown? <==> |SoundHits(schema, o, e)| < o.limit && IntendedKeys(o.text[0]).None?
    ensures Fallback(schema, o, e).Ok? ==> First(SoundHits(schema, o, e), o.limit) <= Fallback(schema, o, e).value
    ensures Fallback(schema, o, e).Ok? && o.limit > 0 ==> |Fallback(schema, o, e).value| < 2 * o.limit
  {
    FuzzyStringsIff(o.text);
  }

  /** The stages for what matches in neither way. */
  method SearchFurther(schema: seq<Entry>, o: Options, e: Engine) returns (r: Result<seq<Hit>>)
    requires o.text != ""
    ensures r == Fallback(schema, o, e)
    ensures r.Thrown? <==> |SoundHits(schema, o, e)| < o.limit && IntendedKeys(o.text[0]).None?
    ensures r.Ok? ==> First(SoundHits(schema, o, e), o.limit) <= r.value
    ensures r.Ok? && o.limit > 0 ==> |r.value| < 2 * o.limit
  {
    FallbackForm(schema, o, e);
    var result := First(SoundHits(schema, o, e), o.limit);
    if |result| < o.limit {
      var searchStrings := FuzzyStrings(o.text);
      if searchStrings.None? {
        return Thrown(TypeError);
      }
      result := SearchByKeys(schema, searchStrings.value, o, e, result);
    }
    r := Ok(result);
  }

  /** The last two stages, the second of which forgets what the first stage of all has found. */
  method SearchByKeys(schema: seq<Entry>, searchStrings: seq<string>, o: Options, e: Engine, sounds: seq<Hit>)
    returns (result: seq<Hit>)
    requires |sounds| < o.limit
    ensures var keys := First(AllKeyHits(schema, searchStrings, o, e), o.limit - |sounds|);
            result == if |keys| == o.limit then sounds + keys
                      else sounds + keys + First(AllKeySoundHits(schema, searchStrings, o, e), o.limit - |keys|)
  {
    var limitLeft := o.limit - |sounds|;
    var keyDescMatches := First(AllKeyHits(schema, searchStrings, o, e), limitLeft);
    result := sounds + keyDescMatches;
    limitLeft := o.limit - |keyDescMatches|;
    if limitLeft > 0 {
      var fuzzyKeyMatches := First(AllKeySoundHits(schema, searchStrings, o, e), limitLeft);
      result := result + fuzzyKeyMatches;
    }
  }

  method SearchSchema(schema: seq<Entry>, geomType: string, searchStr: string, limit: nat, maxDistance: int, e: Engine)
    returns (r: Result<seq<Hit>>)
    ensures r == Search(schema, OptionsOf(geomType, searchStr, limit, maxDistance), e)
  {
    var limitResult := if limit == 0 then DEFAULT_LIMIT else limit;
    var maxLeinDistance := if maxDistance == 0 then DEFAULT_DISTANCE else maxDistance;
    var o := Options(Geometry(geomType), searchStr, limitResult, maxLeinDistance);
    if searchStr == "" {
      return Ok(Map(First(OfGeometry(schema, o.geom), limitResult), Unsorted));
    }
    var matches := Matches(schema, o.geom, searchStr);
    var result := First(CodeHits(schema, matches, searchStr, e), limitResult);
    var limitLeft := limitResult - |result|;
    if limitLeft > 0 {
      result := result + First(DescHits(schema, matches, searchStr, e), limitLeft);
      if |result| == 0 {
        r := SearchFurther(schema, o, e);
        return;
      }
    }
    r := Ok(result);
  }
}
