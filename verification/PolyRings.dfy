/** Polygon parameters of node-export-server/server.js: splitting a coordinate list into
    rings, and the bounding box of a polygon.  Reading one coordinate pair and the test for
    self-intersection are parameters. */
module PolyRings {
  import opened Lists
  import opened Text
  import opened Wrappers

  datatype Coord = Coord(lon: real, lat: real)

  type Ring = seq<Coord>

  // ----- What a ring is -----

  /** Starts and ends at the same point, which it does not pass in between. */
  predicate IsRing(ring: Ring) {
    |ring| >= 2 && ring[|ring| - 1] == ring[0] && forall i :: 1 <= i < |ring| - 1 ==> ring[i] != ring[0]
  }

  ghost predicate Divides(rings: seq<Ring>, coords: seq<Coord>) {
    (forall i :: 0 <= i < |rings| ==> IsRing(rings[i])) && Flatten(rings) == coords
  }

  predicate InRange(ring: Ring) {
    forall i :: 0 <= i < |ring| ==> -180.0 <= ring[i].lon <= 180.0 && -90.0 <= ring[i].lat <= 90.0
  }

  // ----- Splitting -----

  /** Where the first point comes back, or -1. */
  function FirstReturn(coords: seq<Coord>): (i: int)
    requires |coords| > 0
    ensures i != -1 ==> 1 <= i < |coords| && coords[i] == coords[0]
    ensures forall j :: 1 <= j < |coords| && (i == -1 || j < i) ==> coords[j] != coords[0]
  {
    ReturnFrom(coords, 1)
  }

  function ReturnFrom(coords: seq<Coord>, from: nat): (i: int)
    requires 1 <= from <= |coords|
    ensures i != -1 ==> from <= i < |coords| && coords[i] == coords[0]
    ensures forall j :: from <= j < |coords| && (i == -1 || j < i) ==> coords[j] != coords[0]
    decreases |coords| - from
  {
    if from == |coords| then -1
    else if coords[from] == coords[0] then from
    else ReturnFrom(coords, from + 1)
  }

  function RingsOf(coords: seq<Coord>): Option<seq<Ring>>
    decreases |coords|
  {
    if |coords| == 0 then Some([])
    else
      var i := FirstReturn(coords);
      if i == -1 then None
      else
        match RingsOf(coords[i + 1..])
        case None => None
        case Some(rest) => Some([coords[..i + 1]] + rest)
  }

  /** The split is found whenever there is one. */
  lemma {:induction false} RingsOfFinds(coords: seq<Coord>, rings: seq<Ring>)
    requires Divides(rings, coords)
    ensures RingsOf(coords) == Some(rings)
    decreases |rings|
  {
    if |rings| > 0 {
      var ring, rest := rings[0], rings[1..];
      assert coords == ring + Flatten(rest);
      assert IsRing(ring);
      assert coords[|ring| - 1] == coords[0];
      assert forall j :: 1 <= j < |ring| - 1 ==> coords[j] == ring[j];
      assert FirstReturn(coords) == |ring| - 1;
      assert coords[..|ring|] == ring && coords[|ring|..] == Flatten(rest);
      RingsOfFinds(Flatten(rest), rest);
      assert [ring] + rest == rings;
    }
  }

  lemma {:induction false} RingsOfDivides(coords: seq<Coord>)
    requires RingsOf(coords).Some?
    ensures Divides(RingsOf(coords).value, coords)
    decreases |coords|
  {
    if |coords| > 0 {
      var i := FirstReturn(coords);
      var ring, rest := coords[..i + 1], RingsOf(coords[i + 1..]).value;
      RingsOfDivides(coords[i + 1..]);
      FirstRing(coords);
      DividesStep(ring, rest, coords[i + 1..]);
      assert coords == ring + coords[i + 1..];
    }
  }

  lemma FirstRing(coords: seq<Coord>)
    requires |coords| > 0 && FirstReturn(coords) != -1
    ensures IsRing(coords[..FirstReturn(coords) + 1])
  {
  }

  lemma DividesStep(ring: Ring, rings: seq<Ring>, coords: seq<Coord>)
    requires IsRing(ring) && Divides(rings, coords)
    ensures Divides([ring] + rings, ring + coords)
  {
    assert ([ring] + rings)[1..] == rings;
  }

  /** There is at most one way to divide a list into rings, and the loop finds it exactly
      when there is one. */
  lemma RingsOfIff(coords: seq<Coord>, rings: seq<Ring>)
    ensures RingsOf(coords) == Some(rings) <==> Divides(rings, coords)
  {
    if RingsOf(coords) == Some(rings) {
      RingsOfDivides(coords);
    }
    if Divides(rings, coords) {
      RingsOfFinds(coords, rings);
    }
  }

  // ----- validatePoly -----

  function ParseAll(pieces: seq<string>, parse: string -> Option<Coord>): Option<seq<Coord>> {
    if |pieces| == 0 then Some([])
    else
      match parse(pieces[0])
      case None => None
      case Some(c) =>
        match ParseAll(pieces[1..], parse)
        case None => None
        case Some(rest) => Some([c] + rest)
  }

  predicate AllSound(rings: seq<Ring>, simple: Ring -> bool) {
    forall i :: 0 <= i < |rings| ==> InRange(rings[i]) && simple(rings[i])
  }

  /** The rings of a polygon parameter, or `None` where the code returns null. */
  function Validated(poly: string, parse: string -> Option<Coord>, simple: Ring -> bool): Option<seq<Ring>> {
    var pieces := Split(poly, ";");
    if poly == "" || |pieces| <= 1 then None
    else
      match ParseAll(pieces, parse)
      case None => None
      case Some(coords) =>
        match RingsOf(coords)
        case None => None
        case Some(rings) => if AllSound(rings, simple) then Some(rings) else None
  }

  function Prefixed(rings: seq<Ring>, rest: Option<seq<Ring>>): Option<seq<Ring>> {
    if rest.None? then None else Some(rings + rest.value)
  }

  lemma RingsOfStep(coords: seq<Coord>, i: nat)
    requires |coords| > 0 && FirstReturn(coords) == i
    ensures RingsOf(coords) == Prefixed([coords[..i + 1]], RingsOf(coords[i + 1..]))
  {
  }

  lemma FirstReturnIs(ring: Ring, c: Coord, rest: seq<Coord>)
    requires |ring| > 0 && ring[0] == c && forall i :: 1 <= i < |ring| ==> ring[i] != ring[0]
    ensures FirstReturn(ring + ([c] + rest)) == |ring|
  {
    var coords := ring + ([c] + rest);
    assert coords[|ring|] == c && coords[0] == c;
    assert forall j :: 1 <= j < |ring| ==> coords[j] == ring[j];
  }

  lemma AroundPoint<T>(a: seq<T>, c: T, b: seq<T>)
    ensures (a + ([c] + b))[..|a| + 1] == a + [c] && (a + ([c] + b))[|a| + 1..] == b
  {
  }

  /** One turn of the ring loop: the point either closes the open ring or joins it. */
  lemma RingStep(ring: Ring, c: Coord, rest: seq<Coord>)
    requires forall i :: 1 <= i < |ring| ==> ring[i] != ring[0]
    ensures |ring| > 0 && ring[0] == c ==>
              RingsOf(ring + ([c] + rest)) == Prefixed([ring + [c]], RingsOf(rest))
  {
    if |ring| > 0 && ring[0] == c {
      var coords := ring + ([c] + rest);
      FirstReturnIs(ring, c, rest);
      RingsOfStep(coords, |ring|);
      AroundPoint(ring, c, rest);
    }
  }

  /** The string split and parsed, for the loop over its pieces. */
  function RingsFrom(ring: Ring, pieces: seq<string>, parse: string -> Option<Coord>): Option<seq<Ring>> {
    match ParseAll(pieces, parse)
    case None => None
    case Some(coords) => RingsOf(ring + coords)
  }

  /** The loop that reads the points and closes the rings. */
  method ReadRings(pieces: seq<string>, parse: string -> Option<Coord>) returns (r: Option<seq<Ring>>)
    ensures r == RingsFrom([], pieces, parse)
  {
    var rings: seq<Ring>, ring: Ring := [], [];
    assert pieces[0..] == pieces;
    PrefixedByNothing(RingsFrom([], pieces, parse));
    for m := 0 to |pieces|
      invariant forall i :: 1 <= i < |ring| ==> ring[i] != ring[0]
      invariant RingsFrom([], pieces, parse) == Prefixed(rings, RingsFrom(ring, pieces[m..], parse))
    {
      assert pieces[m..][0] == pieces[m] && pieces[m..][1..] == pieces[m + 1..];
      var coordinate := parse(pieces[m]);
      if coordinate.None? {
        return None;
      }
      PieceStep(rings, ring, pieces, m, parse);
      ring := ring + [coordinate.value];
      if |ring| > 1 && ring[0] == coordinate.value {
        rings := rings + [ring];
        ring := [];
      }
    }
    LoopEnd(ring);
    assert pieces[|pieces|..] == [];
    if |ring| > 0 {
      return None;
    }
    assert rings + [] == rings;
    r := Some(rings);
  }

  method CheckRings(rings: seq<Ring>, simple: Ring -> bool) returns (sound: bool)
    ensures sound == AllSound(rings, simple)
  {
    for n := 0 to |rings|
      invariant forall i :: 0 <= i < n ==> InRange(rings[i]) && simple(rings[i])
    {
      var valid := ValidCoordinates(rings[n]);
      if !valid || !simple(rings[n]) {
        return false;
      }
    }
    sound := true;
  }

  method ValidatePoly(poly: string, parse: string -> Option<Coord>, simple: Ring -> bool)
    returns (r: Option<seq<Ring>>)
    ensures r == Validated(poly, parse, simple)
  {
    if poly == "" {
      return None;
    }
    var pieces := Split(poly, ";");
    if |pieces| <= 1 {
      return None;
    }
    var rings := ReadRings(pieces, parse);
    FromNothing(pieces, parse);
    if rings.None? {
      return None;
    }
    var sound := CheckRings(rings.value, simple);
    r := if sound then rings else None;
  }

  lemma FromNothing(pieces: seq<string>, parse: string -> Option<Coord>)
    ensures RingsFrom([], pieces, parse)
            == match ParseAll(pieces, parse) case None => None case Some(coords) => RingsOf(coords)
  {
    assert ParseAll(pieces, parse).Some? ==> [] + ParseAll(pieces, parse).value == ParseAll(pieces, parse).value;
  }

  lemma ParseStep(ring: Ring, pieces: seq<string>, m: nat, parse: string -> Option<Coord>)
    requires m < |pieces| && parse(pieces[m]).Some?
    ensures var rest := ParseAll(pieces[m + 1..], parse);
            RingsFrom(ring, pieces[m..], parse)
            == if rest.None? then None else RingsOf(ring + ([parse(pieces[m]).value] + rest.value))
  {
  }

  /** What one turn of the loop over the pieces keeps. */
  lemma PieceStep(rings: seq<Ring>, ring: Ring, pieces: seq<string>, m: nat, parse: string -> Option<Coord>)
    requires m < |pieces| && parse(pieces[m]).Some?
    requires forall i :: 1 <= i < |ring| ==> ring[i] != ring[0]
    ensures var c := parse(pieces[m]).value;
            Prefixed(rings, RingsFrom(ring, pieces[m..], parse)) ==
            if |ring| > 0 && ring[0] == c then Prefixed(rings + [ring + [c]], RingsFrom([], pieces[m + 1..], parse))
            else Prefixed(rings, RingsFrom(ring + [c], pieces[m + 1..], parse))
  {
    var c := parse(pieces[m]).value;
    var rest := ParseAll(pieces[m + 1..], parse);
    ParseStep(ring, pieces, m, parse);
    if rest.Some? {
      if |ring| > 0 && ring[0] == c {
        RingStep(ring, c, rest.value);
        assert [] + rest.value == rest.value;
        PrefixedTwice(rings, ring + [c], RingsOf(rest.value));
      } else {
        assert ring + ([c] + rest.value) == (ring + [c]) + rest.value;
      }
    }
  }

  lemma PrefixedTwice(rings: seq<Ring>, ring: Ring, rest: Option<seq<Ring>>)
    ensures Prefixed(rings, Prefixed([ring], rest)) == Prefixed(rings + [ring], rest)
  {
    if rest.Some? {
      assert rings + ([ring] + rest.value) == rings + [ring] + rest.value;
    }
  }

  lemma PrefixedByNothing(rest: Option<seq<Ring>>)
    ensures Prefixed([], rest) == rest
  {
    if rest.Some? {
      assert [] + rest.value == rest.value;
    }
  }

  lemma LoopEnd(ring: Ring)
    requires forall i :: 1 <= i < |ring| ==> ring[i] != ring[0]
    ensures RingsOf(ring + []) == if |ring| == 0 then Some([]) else None
  {
  }

  method ValidCoordinates(coordinates: Ring) returns (valid: bool)
    ensures valid == InRange(coordinates)
  {
    for n := 0 to |coordinates|
      invariant forall i :: 0 <= i < n ==>
                  -180.0 <= coordinates[i].lon <= 180.0 && -90.0 <= coordinates[i].lat <= 90.0
    {
      var c := coordinates[n];
      if c.lon < -180.0 || c.lon > 180.0 || c.lat < -90.0 || c.lat > 90.0 {
        return false;
      }
    }
    valid := true;
  }

  /** A parameter is accepted, with these rings, if and only if its points can be read and
      divide into them, each within bounds and without self-intersection. */
  lemma ValidatedIff(poly: string, parse: string -> Option<Coord>, simple: Ring -> bool, rings: seq<Ring>)
    ensures Validated(poly, parse, simple) == Some(rings) <==>
              ParseAll(Split(poly, ";"), parse).Some?
              && Divides(rings, ParseAll(Split(poly, ";"), parse).value) && AllSound(rings, simple)
  {
    var pieces := Split(poly, ";");
    var parsed := ParseAll(pieces, parse);
    if parsed.Some? {
      RingsOfIff(parsed.value, rings);
      ParseAllLength(pieces, parse);
      if Divides(rings, parsed.value) {
        assert |rings| > 0;
        assert IsRing(rings[0]) && |parsed.value| == |rings[0]| + |Flatten(rings[1..])|;
      }
    }
  }

  lemma {:induction false} ParseAllLength(pieces: seq<string>, parse: string -> Option<Coord>)
    requires ParseAll(pieces, parse).Some?
    ensures |ParseAll(pieces, parse).value| == |pieces|
  {
    if |pieces| > 0 {
      ParseAllLength(pieces[1..], parse);
    }
  }

  // ----- Writing a ring out again -----

  function Printed(ring: Ring, print_: Coord -> string): seq<string> {
    if |ring| == 0 then [] else [print_(ring[0])] + Printed(ring[1..], print_)
  }

  /** The points of a ring can be read back from what is printed for them. */
  predicate Readable(ring: Ring, parse: string -> Option<Coord>, print_: Coord -> string) {
    forall i :: 0 <= i < |ring| ==> parse(print_(ring[i])) == Some(ring[i]) && ';' !in print_(ring[i])
  }

  /** Every ring of an accepted multipolygon, written out for its own command, is accepted
      again as that one ring. */
  lemma RingRoundTrip(poly: string, parse: string -> Option<Coord>, print_: Coord -> string, simple: Ring -> bool, n: nat)
    requires Validated(poly, parse, simple).Some? && n < |Validated(poly, parse, simple).value|
    requires Readable(Validated(poly, parse, simple).value[n], parse, print_)
    ensures var ring := Validated(poly, parse, simple).value[n];
            Validated(Join(Printed(ring, print_), ";"), parse, simple) == Some([ring])
  {
    var rings := Validated(poly, parse, simple).value;
    var ring := rings[n];
    ValidatedIff(poly, parse, simple, rings);
    assert IsRing(ring);
    PrintedParses(ring, parse, print_);
    SplitJoin(Printed(ring, print_), ";");
    assert Flatten([ring]) == ring + Flatten([]);
    ValidatedIff(Join(Printed(ring, print_), ";"), parse, simple, [ring]);
  }

  lemma {:induction false} PrintedParses(ring: Ring, parse: string -> Option<Coord>, print_: Coord -> string)
    requires Readable(ring, parse, print_)
    ensures ParseAll(Printed(ring, print_), parse) == Some(ring)
    ensures |Printed(ring, print_)| == |ring|
    ensures forall p <- Printed(ring, print_) :: EndsAtFirst(p, ";")
  {
    if |ring| > 0 {
      PrintedParses(ring[1..], parse, print_);
      CharEndsAtFirst(print_(ring[0]), ';');
      assert Printed(ring, print_)[1..] == Printed(ring[1..], print_);
      assert ring == [ring[0]] + ring[1..];
    }
  }

  // ----- Bounding box -----

  datatype Box = Box(minLon: real, minLat: real, maxLon: real, maxLat: real)

  predicate Sorted(s: seq<real>) {
    forall i, j :: 0 <= i < j < |s| ==> s[i] <= s[j]
  }

  /** `sort` after one more number was pushed onto a sorted list. */
  function Resorted(s: seq<real>, x: real): (r: seq<real>)
    requires Sorted(s)
    ensures Sorted(r) && |r| == |s| + 1
    ensures SameNumbers(r, s + [x])
  {
    if |s| == 0 || s[|s| - 1] <= x then s + [x]
    else
      var last := s[|s| - 1];
      var front := Resorted(s[..|s| - 1], x);
      ResortedStep(s, x, front);
      front + [last]
  }

  lemma ResortedStep(s: seq<real>, x: real, front: seq<real>)
    requires Sorted(s) && |s| > 0 && x < s[|s| - 1]
    requires Sorted(front) && SameNumbers(front, s[..|s| - 1] + [x])
    ensures Sorted(front + [s[|s| - 1]]) && SameNumbers(front + [s[|s| - 1]], s + [x])
  {
    var last, start := s[|s| - 1], s[..|s| - 1];
    assert s == start + [last];
    forall i | 0 <= i < |front|
      ensures front[i] <= last
    {
      assert front[i] in front;
      assert front[i] in start || front[i] == x;
    }
  }

  ghost predicate SameNumbers(a: seq<real>, b: seq<real>) {
    (forall x :: x in a ==> x in b) && (forall x :: x in b ==> x in a)
  }

  ghost predicate InOrder(list: seq<real>, numbers: seq<real>) {
    Sorted(list) && SameNumbers(list, numbers)
  }

  function Lons(coords: seq<Coord>): seq<real> {
    if |coords| == 0 then [] else Lons(coords[..|coords| - 1]) + [coords[|coords| - 1].lon]
  }

  function Lats(coords: seq<Coord>): seq<real> {
    if |coords| == 0 then [] else Lats(coords[..|coords| - 1]) + [coords[|coords| - 1].lat]
  }

  lemma {:induction false} LonsAndLatsAt(coords: seq<Coord>)
    ensures |Lons(coords)| == |coords| == |Lats(coords)|
    ensures forall i :: 0 <= i < |coords| ==> Lons(coords)[i] == coords[i].lon && Lats(coords)[i] == coords[i].lat
  {
    if |coords| > 0 {
      LonsAndLatsAt(coords[..|coords| - 1]);
    }
  }

  /** `low` and `high` are the least and the greatest of the numbers. */
  ghost predicate Extremes(low: real, high: real, numbers: seq<real>) {
    low in numbers && high in numbers && forall x :: x in numbers ==> low <= x <= high
  }

  ghost predicate Bounds(box: Box, coords: seq<Coord>) {
    Extremes(box.minLon, box.maxLon, Lons(coords)) && Extremes(box.minLat, box.maxLat, Lats(coords))
  }

  /** Push a number that is not there yet, and sort again. */
  method Push(list: seq<real>, x: real) returns (r: seq<real>)
    requires Sorted(list)
    ensures Sorted(r) && SameNumbers(r, list + [x])
  {
    r := if x in list then list else Resorted(list, x);
  }

  lemma EndsAreExtremes(list: seq<real>, numbers: seq<real>)
    requires Sorted(list) && SameNumbers(list, numbers) && |list| > 0
    ensures Extremes(list[0], list[|list| - 1], numbers)
  {
  }

  /** The text of a box, with a given way of printing numbers. */
  function BoxText(box: Box, show: real -> string): string {
    show(box.minLon) + "," + show(box.minLat) + "," + show(box.maxLon) + "," + show(box.maxLat)
  }

  lemma {:induction false} ParsedSoFar(pieces: seq<string>, parse: string -> Option<Coord>, n: nat)
    requires n < |pieces| && ParseAll(pieces[..n], parse).Some?
    ensures parse(pieces[n]).None? ==> ParseAll(pieces, parse).None?
    ensures parse(pieces[n]).Some? ==>
              ParseAll(pieces[..n + 1], parse) == Some(ParseAll(pieces[..n], parse).value + [parse(pieces[n]).value])
    decreases n
  {
    if n > 0 {
      var rest := pieces[1..];
      assert pieces[..n][1..] == rest[..n - 1] && pieces[..n + 1][1..] == rest[..n];
      ParsedSoFar(rest, parse, n - 1);
      if parse(pieces[n]).Some? {
        Associative([parse(pieces[0]).value], ParseAll(rest[..n - 1], parse).value, [parse(pieces[n]).value]);
      }
    } else {
      assert pieces[..1] == [pieces[0]] && [pieces[0]][1..] == [];
      assert ParseAll([], parse) == Some([]);
      assert parse(pieces[0]).Some? ==> [parse(pieces[0]).value] + [] == [] + [parse(pieces[0]).value];
    }
  }

  /** The longitudes and latitudes, each once and sorted. A point that cannot be read has no
      captures to take apart. */
  method LonsAndLats(pieces: seq<string>, parse: string -> Option<Coord>) returns (r: Result<(seq<real>, seq<real>)>)
    ensures var coords := ParseAll(pieces, parse);
            && (coords.None? ==> r == Thrown(TypeError))
            && (coords.Some? ==> r.Ok? && InOrder(r.value.0, Lons(coords.value)) && InOrder(r.value.1, Lats(coords.value)))
  {
    var lon: seq<real>, lat: seq<real> := [], [];
    ghost var coords: seq<Coord> := [];
    for n := 0 to |pieces|
      invariant ParseAll(pieces[..n], parse) == Some(coords)
      invariant InOrder(lon, Lons(coords)) && InOrder(lat, Lats(coords))
    {
      ParsedSoFar(pieces, parse, n);
      var pair := parse(pieces[n]);
      if pair.None? {
        return Thrown(TypeError);
      }
      assert (coords + [pair.value])[..|coords|] == coords;
      coords := coords + [pair.value];
      lon := Push(lon, pair.value.lon);
      lat := Push(lat, pair.value.lat);
    }
    assert pieces[..|pieces|] == pieces;
    r := Ok((lon, lat));
  }

  lemma EndsAreBounds(lon: seq<real>, lat: seq<real>, coords: seq<Coord>)
    requires |coords| > 0 && InOrder(lon, Lons(coords)) && InOrder(lat, Lats(coords))
    ensures |lon| > 0 && |lat| > 0 && Bounds(Box(lon[0], lat[0], lon[|lon| - 1], lat[|lat| - 1]), coords)
  {
    LonsAndLatsAt(coords);
    assert Lons(coords)[0] in lon && Lats(coords)[0] in lat;
    EndsAreExtremes(lon, Lons(coords));
    EndsAreExtremes(lat, Lats(coords));
  }

  /** The box is made of the two ends of each list. */
  method PolyToBbox(polyString: string, parse: string -> Option<Coord>, show: real -> string) returns (r: Result<string>)
    ensures var coords := ParseAll(Split(polyString, ";"), parse);
            && (coords.None? ==> r == Thrown(TypeError))
            && (coords.Some? ==> exists box :: Bounds(box, coords.value) && r == Ok(BoxText(box, show)))
  {
    var pieces := Split(polyString, ";");
    var lists := LonsAndLats(pieces, parse);
    if lists.Thrown? {
      return Thrown(TypeError);
    }
    var (lon, lat) := lists.value;
    ghost var coords := ParseAll(pieces, parse).value;
    ParseAllLength(pieces, parse);
    EndsAreBounds(lon, lat, coords);
    ghost var box := Box(lon[0], lat[0], lon[|lon| - 1], lat[|lat| - 1]);
    assert Bounds(box, coords);
    r := Ok(show(lon[0]) + "," + show(lat[0]) + "," + show(lon[|lon| - 1]) + "," + show(lat[|lat| - 1]));
  }

  predicate ValidBbox(box: Box) {
    && box.minLon < box.maxLon && box.minLat < box.maxLat
    && box.minLon >= -180.0 && box.minLat >= -90.0 && box.maxLon <= 180.0 && box.maxLat <= 90.0
  }

  /** The box of an accepted ring passes `validateBbox` unless the ring is a line along a
      meridian or a parallel, which `validatePoly` does not exclude. */
  lemma BboxIsValidIff(ring: Ring, box: Box)
    requires |ring| > 0 && InRange(ring) && Bounds(box, ring)
    ensures ValidBbox(box) <==>
              (exists i :: 0 <= i < |ring| && ring[i].lon != ring[0].lon)
              && (exists i :: 0 <= i < |ring| && ring[i].lat != ring[0].lat)
  {
    LonsAndLatsAt(ring);
    StrictIff(box.minLon, box.maxLon, Lons(ring));
    StrictIff(box.minLat, box.maxLat, Lats(ring));
    assert forall i :: 0 <= i < |ring| ==> Lons(ring)[i] == ring[i].lon && Lats(ring)[i] == ring[i].lat;
    ExtremesInRange(ring, box);
  }

  /** `validateBbox`: four numbers have to be found in the text, in order and in range. */
  function ValidateBbox(bbox: string, read: string -> Option<Box>): Option<string> {
    match read(bbox)
    case None => None
    case Some(box) => if ValidBbox(box) then Some(bbox) else None
  }

  /** Reading finds the numbers that were printed. */
  predicate BoxReadable(box: Box, show: real -> string, read: string -> Option<Box>) {
    read(BoxText(box, show)) == Some(box)
  }

  /** The printed box of an accepted ring, if it can be read at all, is accepted if and only
      if the ring is not a line along a meridian or a parallel. */
  lemma BoxTextIsValidIff(ring: Ring, box: Box, show: real -> string, read: string -> Option<Box>)
    requires |ring| > 0 && InRange(ring) && Bounds(box, ring) && BoxReadable(box, show, read)
    ensures ValidateBbox(BoxText(box, show), read) == Some(BoxText(box, show)) <==>
              (exists i :: 0 <= i < |ring| && ring[i].lon != ring[0].lon)
              && (exists i :: 0 <= i < |ring| && ring[i].lat != ring[0].lat)
  {
    BboxIsValidIff(ring, box);
  }

  lemma ExtremesInRange(ring: Ring, box: Box)
    requires |ring| > 0 && InRange(ring) && Bounds(box, ring)
    ensures -180.0 <= box.minLon && box.maxLon <= 180.0 && -90.0 <= box.minLat && box.maxLat <= 90.0
  {
    LonsAndLatsAt(ring);
    forall x | x in Lons(ring)
      ensures -180.0 <= x <= 180.0
    {
      var i :| 0 <= i < |ring| && Lons(ring)[i] == x;
    }
    forall x | x in Lats(ring)
      ensures -90.0 <= x <= 90.0
    {
      var i :| 0 <= i < |ring| && Lats(ring)[i] == x;
    }
  }

  lemma StrictIff(low: real, high: real, numbers: seq<real>)
    requires |numbers| > 0 && Extremes(low, high, numbers)
    ensures low < high <==> exists i :: 0 <= i < |numbers| && numbers[i] != numbers[0]
  {
    var a :| 0 <= a < |numbers| && numbers[a] == low;
    var b :| 0 <= b < |numbers| && numbers[b] == high;
    assert numbers[0] in numbers;
    if i :| 0 <= i < |numbers| && numbers[i] != numbers[0] {
      assert numbers[i] in numbers;
    }
  }
}
