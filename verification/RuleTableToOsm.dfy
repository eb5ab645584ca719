/** The table to OSM of translations/SchemaTools.js, and the way there and back. */
module RuleTableToOsm {
  import opened RuleTable
  import opened RuleTableBest
  import opened RuleTableKinds
  import opened Wrappers

  // ----- The table to OSM -----

  type OsmTable = map<string, map<string, (string, string)>>

  const INCONSISTENT := "Inconsistent implicit toOsm KVP in row"
  const NO_KVP := "No OSM KVP is specified"
  const CLASH := "Export Table Clash"

  /** The tag a cell implies; patterns imply none. */
  function Implied(cell: Cell): string {
    if cell.Scored? && !cell.rule.Wildcard? then cell.rule.name else ""
  }

  /** The tag implied by the cells, given the one found so far. */
  function ImpliedFrom(cells: seq<Cell>, so: string): Result<string> {
    if |cells| == 0 then Ok(so)
    else if cells[0] == Missing then Thrown(TypeError)
    else if Implied(cells[0]) == "" then ImpliedFrom(cells[1..], so)
    else if so == "" then ImpliedFrom(cells[1..], Implied(cells[0]))
    else if so != Implied(cells[0]) then Thrown(Error(INCONSISTENT))
    else ImpliedFrom(cells[1..], so)
  }

  function ToOsmKvp(row: Row): Result<string> {
    if |row.cells| > 0 && row.cells[0].Name? then Ok(row.cells[0].text)
    else
      var found := ImpliedFrom(row.cells, "");
      if found.Ok? && found.value == "" then Thrown(Error(NO_KVP)) else found
  }

  method GetToOsmKvp(row: Row) returns (r: Result<string>)
    ensures r == ToOsmKvp(row)
  {
    if |row.cells| > 0 && row.cells[0].Name? {
      return Ok(row.cells[0].text);
    }
    var result := "";
    for i := 0 to |row.cells|
      invariant ImpliedFrom(row.cells, "") == ImpliedFrom(row.cells[i..], result)
    {
      assert row.cells[i..][1..] == row.cells[i + 1..];
      if row.cells[i] == Missing {
        return Thrown(TypeError);
      }
      if Implied(row.cells[i]) != "" {
        if result == "" {
          result := Implied(row.cells[i]);
        } else if result != Implied(row.cells[i]) {
          return Thrown(Error(INCONSISTENT));
        }
      }
    }
    if result == "" {
      return Thrown(Error(NO_KVP));
    }
    r := Ok(result);
  }

  lemma {:induction false} ImpliedFromIff(cells: seq<Cell>, so: string, kvp: string)
    requires kvp != "" && (so == "" || so == kvp)
    ensures ImpliedFrom(cells, so) == Ok(kvp) <==>
            && (forall cell <- cells :: cell != Missing && (Implied(cell) == "" || Implied(cell) == kvp))
            && (so == kvp || exists cell :: cell in cells && Implied(cell) == kvp)
  {
    if |cells| > 0 {
      assert forall cell :: cell in cells <==> cell == cells[0] || cell in cells[1..];
      assert cells[0] in cells;
      if cells[0] != Missing {
        if Implied(cells[0]) == "" {
          ImpliedFromIff(cells[1..], so, kvp);
        } else if Implied(cells[0]) == kvp {
          ImpliedFromIff(cells[1..], kvp, kvp);
        } else {
          NeverLeaves(cells[1..], Implied(cells[0]));
        }
      }
    }
  }

  lemma {:induction false} NeverLeaves(cells: seq<Cell>, so: string)
    requires so != ""
    ensures ImpliedFrom(cells, so).Ok? ==> ImpliedFrom(cells, so) == Ok(so)
  {
    if |cells| > 0 {
      NeverLeaves(cells[1..], so);
    }
  }

  /** A row without a name of its own stands for a tag if and only if all its rules that imply
      one imply this one, and at least one does. */
  lemma ImplicitKvpIff(row: Row, kvp: string)
    requires kvp != "" && (|row.cells| > 0 ==> !row.cells[0].Name?)
    ensures ToOsmKvp(row) == Ok(kvp) <==>
            && (forall cell <- row.cells :: cell != Missing && (Implied(cell) == "" || Implied(cell) == kvp))
            && exists cell :: cell in row.cells && Implied(cell) == kvp
  {
    ImpliedFromIff(row.cells, "", kvp);
  }

  function LookupOsm(table: OsmTable, attr: string, value: string): Option<(string, string)> {
    if attr in table && value in table[attr] then Some(table[attr][value]) else None
  }

  function PutOsm(table: OsmTable, attr: string, value: string, kvp: string): OsmTable {
    table[attr := (if attr in table then table[attr] else map[])[value := SplitKvp(kvp)]]
  }

  function ToOsmFrom(rows: seq<Row>, table: OsmTable): Result<OsmTable>
    decreases |rows|
  {
    if |rows| == 0 then Ok(table)
    else if !Used(rows[0]) then ToOsmFrom(rows[1..], table)
    else
      var kvp := ToOsmKvp(rows[0]);
      if kvp.Thrown? then Thrown(kvp.error)
      else if LookupOsm(table, rows[0].attr, rows[0].value).Some? then Thrown(Error(CLASH))
      else ToOsmFrom(rows[1..], PutOsm(table, rows[0].attr, rows[0].value, kvp.value))
  }

  method GenerateToOsmTable(rules: seq<Row>) returns (r: Result<OsmTable>)
    ensures r == ToOsmFrom(rules, map[])
  {
    var lookup: OsmTable := map[];
    for n := 0 to |rules|
      invariant ToOsmFrom(rules, map[]) == ToOsmFrom(rules[n..], lookup)
    {
      var row := rules[n];
      assert rules[n..][1..] == rules[n + 1..];
      if Used(row) {
        var toOsmKvp := GetToOsmKvp(row);
        if toOsmKvp.Thrown? {
          return Thrown(toOsmKvp.error);
        }
        if row.attr in lookup && row.value in lookup[row.attr] {
          return Thrown(Error(CLASH));
        }
        var under := if row.attr in lookup then lookup[row.attr] else map[];
        lookup := lookup[row.attr := under[row.value := SplitKvp(toOsmKvp.value)]];
      }
    }
    r := Ok(lookup);
  }

  predicate SameTarget(a: Row, b: Row) {
    a.attr == b.attr && a.value == b.value
  }

  lemma PutOsmLookup(table: OsmTable, row: Row, kvp: string, a: string, v: string)
    ensures LookupOsm(PutOsm(table, row.attr, row.value, kvp), a, v)
            == if a == row.attr && v == row.value then Some(SplitKvp(kvp)) else LookupOsm(table, a, v)
  {
  }

  lemma {:induction false} ToOsmKeeps(rows: seq<Row>, table: OsmTable, a: string, v: string)
    requires ToOsmFrom(rows, table).Ok? && LookupOsm(table, a, v).Some?
    ensures LookupOsm(ToOsmFrom(rows, table).value, a, v) == LookupOsm(table, a, v)
    decreases |rows|
  {
    if |rows| > 0 {
      if Used(rows[0]) {
        PutOsmLookup(table, rows[0], ToOsmKvp(rows[0]).value, a, v);
        ToOsmKeeps(rows[1..], PutOsm(table, rows[0].attr, rows[0].value, ToOsmKvp(rows[0]).value), a, v);
      } else {
        ToOsmKeeps(rows[1..], table, a, v);
      }
    }
  }

  /** The table holds the tag of every used row. */
  lemma {:induction false} ToOsmHolds(rows: seq<Row>, table: OsmTable, i: nat)
    requires ToOsmFrom(rows, table).Ok? && i < |rows| && Used(rows[i])
    ensures ToOsmKvp(rows[i]).Ok?
    ensures LookupOsm(ToOsmFrom(rows, table).value, rows[i].attr, rows[i].value) == Some(SplitKvp(ToOsmKvp(rows[i]).value))
    decreases |rows|
  {
    var next := if Used(rows[0]) then PutOsm(table, rows[0].attr, rows[0].value, ToOsmKvp(rows[0]).value) else table;
    if i == 0 {
      PutOsmLookup(table, rows[0], ToOsmKvp(rows[0]).value, rows[0].attr, rows[0].value);
      ToOsmKeeps(rows[1..], next, rows[0].attr, rows[0].value);
    } else {
      ToOsmHolds(rows[1..], next, i - 1);
    }
  }

  /** Every used row stands for one tag, and for one target that is not in the table yet. */
  ghost predicate Fresh(rows: seq<Row>, table: OsmTable) {
    forall row <- rows :: Used(row) ==> ToOsmKvp(row).Ok? && LookupOsm(table, row.attr, row.value).None?
  }

  predicate TargetsDiffer(rows: seq<Row>) {
    if |rows| == 0 then true
    else (Used(rows[0]) ==> forall row <- rows[1..] :: Used(row) ==> !SameTarget(rows[0], row)) && TargetsDiffer(rows[1..])
  }

  lemma FreshStep(rows: seq<Row>, table: OsmTable)
    requires |rows| > 0 && Used(rows[0]) && ToOsmKvp(rows[0]).Ok? && LookupOsm(table, rows[0].attr, rows[0].value).None?
    ensures Fresh(rows[1..], PutOsm(table, rows[0].attr, rows[0].value, ToOsmKvp(rows[0]).value)) <==>
            Fresh(rows, table) && forall row <- rows[1..] :: Used(row) ==> !SameTarget(rows[0], row)
  {
  }

  lemma {:induction false} ToOsmFromIff(rows: seq<Row>, table: OsmTable)
    ensures ToOsmFrom(rows, table).Ok? <==> Fresh(rows, table) && TargetsDiffer(rows)
    decreases |rows|
  {
    if |rows| > 0 {
      assert forall r :: r in rows <==> r == rows[0] || r in rows[1..];
      if !Used(rows[0]) {
        ToOsmFromIff(rows[1..], table);
      } else if ToOsmKvp(rows[0]).Ok? && LookupOsm(table, rows[0].attr, rows[0].value).None? {
        FreshStep(rows, table);
        ToOsmFromIff(rows[1..], PutOsm(table, rows[0].attr, rows[0].value, ToOsmKvp(rows[0]).value));
      }
    }
  }

  /** The table exists if and only if every used row stands for one tag, and no two of them
      have the same target. */
  lemma ToOsmIff(rows: seq<Row>)
    ensures ToOsmFrom(rows, map[]).Ok? <==> (forall row <- rows :: Used(row) ==> ToOsmKvp(row).Ok?) && TargetsDiffer(rows)
  {
    ToOsmFromIff(rows, map[]);
  }

  // ----- There and back -----

  /** The vertex of a name carries the key and the value of that name. */
  ghost predicate NamesTags(schema: Schema) {
    forall n | schema.vertex(n).Some? ::
      schema.vertex(n).value.key == SplitKvp(n).0 && schema.vertex(n).value.value == SplitKvp(n).1
  }

  predicate Hits(e: Entry, row: Row) {
    e.attr == row.attr && e.value == row.value
  }

  /** The target of a row, translated to OSM and looked up again, is found. */
  ghost predicate ComesBack(schema: Schema, rows: seq<Row>, row: Row)
    requires ToOsmFrom(rows, map[]).Ok? && ToOgr(schema, rows).Ok?
  {
    var there := LookupOsm(ToOsmFrom(rows, map[]).value, row.attr, row.value);
    && there.Some?
    && var back := Lookup(ToOgr(schema, rows).value, there.value.0, there.value.1);
       back.Some? && Hits(back.value, row)
  }

  /** The first best of all candidates for the tag that a row stands for is one of its own. */
  ghost predicate BestIsOwn(schema: Schema, rows: seq<Row>, row: Row)
    requires Candidates(schema, rows).Ok? && ToOsmKvp(row).Ok?
  {
    var cs, kv := Candidates(schema, rows).value, SplitKvp(ToOsmKvp(row).value);
    exists i :: FirstBest(cs, kv.0, kv.1, i) && Hits(cs[i].entry, row)
  }

  /** Whatever the rules and their scores: a target comes back if and only if the first best
      candidate for its tag is its own. */
  lemma ThereAndBackIff(schema: Schema, rows: seq<Row>, row: Row)
    requires ToOsmFrom(rows, map[]).Ok? && ToOgr(schema, rows).Ok?
    requires row in rows && Used(row)
    ensures ToOsmKvp(row).Ok?
    ensures LookupOsm(ToOsmFrom(rows, map[]).value, row.attr, row.value) == Some(SplitKvp(ToOsmKvp(row).value))
    ensures ComesBack(schema, rows, row) <==> BestIsOwn(schema, rows, row)
  {
    var n :| 0 <= n < |rows| && rows[n] == row;
    ToOsmHolds(rows, map[], n);
    var cs, kv := Candidates(schema, rows).value, SplitKvp(ToOsmKvp(row).value);
    var i := TableIsFirstBest(cs, kv.0, kv.1);
    if j :| FirstBest(cs, kv.0, kv.1, j) && Hits(cs[j].entry, row) {
      FirstBestIsOne(cs, kv.0, kv.1, i, j);
    }
  }

  /** It is enough that one of its own candidates has a higher score than those of any other
      target. */
  lemma HigherComesBack(schema: Schema, rows: seq<Row>, row: Row, c: Candidate)
    requires ToOsmFrom(rows, map[]).Ok? && ToOgr(schema, rows).Ok?
    requires row in rows && Used(row) && ToOsmKvp(row).Ok?
    requires var kv := SplitKvp(ToOsmKvp(row).value);
             && c in Candidates(schema, rows).value && For(c, kv.0, kv.1) && Hits(c.entry, row)
             && forall d <- Candidates(schema, rows).value :: For(d, kv.0, kv.1) && !Hits(d.entry, row) ==>
                  Beats(c.entry.score, d.entry.score)
    ensures ComesBack(schema, rows, row)
  {
    var cs, kv := Candidates(schema, rows).value, SplitKvp(ToOsmKvp(row).value);
    ThereAndBackIff(schema, rows, row);
    var n :| 0 <= n < |cs| && cs[n] == c;
    var i := TableIsFirstBest(cs, kv.0, kv.1);
    assert cs[i] in cs;
    assert Hits(cs[i].entry, row);
  }

  /** No other target is given to the tag of this row by name, not even by an alias. */
  ghost predicate NameIsOwn(schema: Schema, rows: seq<Row>, row: Row)
    requires ToOsmKvp(row).Ok?
  {
    forall other, rule: Rule, t |
      rule.Simple? && Generates(schema, rows, other, rule, t) && (t.key, t.value) == SplitKvp(ToOsmKvp(row).value) ::
      SameTarget(row, other)
  }

  lemma NamedTag(schema: Schema, name: string, points: real) returns (t: Tag)
    requires NamesTags(schema) && schema.vertex(name).Some?
    ensures RuleTags(schema, Simple(name, points)).Ok? && t in RuleTags(schema, Simple(name, points)).value
    ensures (t.key, t.value) == SplitKvp(name)
  {
    var v := schema.vertex(name).value;
    var bare := v.(aliases := []);
    assert Expand([v]) == Copies(v, v.aliases) + [bare] + Expand([]);
    assert bare in Expand([v]);
    WithScoresIs(schema, Simple(name, points), Expand([v]));
    t := bare.(score := Num(points));
    assert ScoreFor(schema, Simple(name, points), bare) == Some(Num(points));
  }

  /** With the usual scores, a target whose row names its tag by a rule, as the only one to do
      so, comes back. */
  lemma ThereAndBack(schema: Schema, rows: seq<Row>, row: Row)
    requires Plausible(schema) && NamesTags(schema) && UsualRows(rows)
    requires ToOsmFrom(rows, map[]).Ok? && ToOgr(schema, rows).Ok?
    requires row in rows && Used(row) && ToOsmKvp(row).Ok? && NameIsOwn(schema, rows, row)
    requires Scored(Simple(ToOsmKvp(row).value, 2.0)) in row.cells
    ensures ComesBack(schema, rows, row)
  {
    var name := ToOsmKvp(row).value;
    ThereAndBackIff(schema, rows, row);
    RowRulesOk(schema, rows, row, Simple(name, 2.0));
    var t := NamedTag(schema, name, 2.0);
    assert Generates(schema, rows, row, Simple(name, 2.0), t);
    var winner, winning, s := HighestRankWins(schema, rows, row, Simple(name, 2.0), t);
    assert winning.Simple?;
    assert SameTarget(row, winner);
  }

  /** With the usual scores, a target does not come back if its tag is given to another one by
      name, and not to itself. */
  lemma NamedElsewhereIsLost(schema: Schema, rows: seq<Row>, row: Row, other: Row, rule: Rule, t: Tag)
    requires Plausible(schema) && UsualRows(rows)
    requires ToOsmFrom(rows, map[]).Ok? && ToOgr(schema, rows).Ok?
    requires row in rows && Used(row) && ToOsmKvp(row).Ok?
    requires rule.Simple? && Generates(schema, rows, other, rule, t) && (t.key, t.value) == SplitKvp(ToOsmKvp(row).value)
    requires forall same, r: Rule, u | SameTarget(row, same) && Generates(schema, rows, same, r, u) :: !r.Simple?
    ensures !ComesBack(schema, rows, row)
  {
    ThereAndBackIff(schema, rows, row);
    var winner, winning, s := HighestRankWins(schema, rows, other, rule, t);
    assert winning.Simple?;
    assert !SameTarget(row, winner);
  }

  lemma RowRulesOk(schema: Schema, rows: seq<Row>, row: Row, rule: Rule)
    requires ToOgr(schema, rows).Ok? && row in rows && Used(row) && Scored(rule) in row.cells
    ensures RuleTags(schema, rule).Ok?
  {
    CandidatesOfRows(schema, rows);
    CellsTagsIs(schema, row.cells);
    assert CellTags(schema, Scored(rule)).Ok?;
  }

  // ----- Two rows of the demo table -----

  const TYP_50 := Row("TYP", "50", [Name("highway=road"), Scored(Wildcard("highway=.*_link", 1.0))])
  const TYP_1 := Row("TYP", "1", [Scored(Simple("highway=road", 2.0)), Scored(IsA("highway=road", 0.001))])
  const DEMO := [TYP_50, TYP_1]

  lemma RoadIsSplit()
    ensures SplitKvp("highway=road") == ("highway", "road")
  {
    assert "highway" + "=" + "road" == "highway=road";
    assert forall i :: 0 <= i < 7 ==> "highway"[i] != '=';
    KvpRoundTripIff("highway", "road");
  }

  lemma DemoKvps()
    ensures ToOsmKvp(TYP_50) == Ok("highway=road") == ToOsmKvp(TYP_1)
    ensures Used(TYP_50) && Used(TYP_1)
  {
    var first, second := TYP_1.cells[0], TYP_1.cells[1];
    assert TYP_1.cells == [first, second];
    assert Implied(first) == "highway=road" && Implied(second) == "highway=road" && "highway=road" != "";
    assert first in TYP_1.cells && forall cell <- TYP_1.cells :: cell == first || cell == second;
    ImplicitKvpIff(TYP_1, "highway=road");
  }

  lemma TwoTargets(rows: seq<Row>, a: Row, b: Row)
    requires rows == [a, b] && !SameTarget(a, b) && ToOsmKvp(a).Ok? && ToOsmKvp(b).Ok?
    ensures ToOsmFrom(rows, map[]).Ok?
  {
    assert rows[1..] == [b] && [b][1..] == [];
    assert TargetsDiffer([b]) && TargetsDiffer(rows);
    ToOsmIff(rows);
  }

  /** Of two rows that stand for one tag, the one that gives it by name comes back. */
  lemma OneOfTwoComesBack(schema: Schema, rows: seq<Row>, lost: Row, found: Row, name: string)
    requires Plausible(schema) && NamesTags(schema) && UsualRows(rows) && ToOgr(schema, rows).Ok?
    requires rows == [lost, found] && !SameTarget(lost, found) && Used(lost) && Used(found)
    requires ToOsmKvp(lost) == Ok(name) == ToOsmKvp(found)
    requires Scored(Simple(name, 2.0)) in found.cells
    requires forall r: Rule :: Scored(r) in lost.cells ==> !r.Simple?
    ensures ToOsmFrom(rows, map[]).Ok?
    ensures LookupOsm(ToOsmFrom(rows, map[]).value, lost.attr, lost.value) == Some(SplitKvp(name))
    ensures var back := Lookup(ToOgr(schema, rows).value, SplitKvp(name).0, SplitKvp(name).1); back.Some? && Hits(back.value, found)
    ensures !ComesBack(schema, rows, lost) && ComesBack(schema, rows, found)
  {
    TwoTargets(rows, lost, found);
    assert forall row <- rows :: row == lost || row == found;
    ThereAndBackIff(schema, rows, lost);
    ThereAndBackIff(schema, rows, found);
    ThereAndBack(schema, rows, found);
  }

  /** Type 50 becomes a road and comes back as type 1, and type 1 as itself. */
  lemma TypeFiftyIsLost(schema: Schema)
    requires Plausible(schema) && NamesTags(schema) && ToOgr(schema, DEMO).Ok?
    ensures ToOsmFrom(DEMO, map[]).Ok?
    ensures LookupOsm(ToOsmFrom(DEMO, map[]).value, "TYP", "50") == Some(("highway", "road"))
    ensures var back := Lookup(ToOgr(schema, DEMO).value, "highway", "road"); back.Some? && Hits(back.value, TYP_1)
    ensures !ComesBack(schema, DEMO, TYP_50) && ComesBack(schema, DEMO, TYP_1)
  {
    RoadIsSplit();
    DemoKvps();
    DemoIsUsual();
    OneOfTwoComesBack(schema, DEMO, TYP_50, TYP_1, "highway=road");
  }

  lemma DemoIsUsual()
    ensures UsualRows(DEMO) && !SameTarget(TYP_50, TYP_1)
    ensures Scored(Simple("highway=road", 2.0)) in TYP_1.cells
    ensures forall r: Rule :: Scored(r) in TYP_50.cells ==> !r.Simple?
  {
    assert "50"[0] != "1"[0];
    assert TYP_1.cells[0] == Scored(Simple("highway=road", 2.0));
  }

  lemma NonEmptyRow(schema: Schema, row: Row, rule: Rule, t: Tag)
    requires Used(row) && Scored(rule) in row.cells && RuleTags(schema, rule).Ok? && t in RuleTags(schema, rule).value
    requires CellsTags(schema, row.cells).Ok?
    ensures RowCandidates(schema, row).Ok?
  {
    CellsTagsIs(schema, row.cells);
    assert t in CellTags(schema, Scored(rule)).value;
    assert t in CellsTags(schema, row.cells).value;
  }

  lemma TwoCells(schema: Schema, a: Cell, b: Cell)
    requires CellTags(schema, a).Ok? && CellTags(schema, b).Ok?
    ensures CellsTags(schema, [a, b]).Ok?
  {
    assert [a, b][1..] == [b] && [b][1..] == [];
    assert CellsTags(schema, [b]).Ok?;
  }

  lemma PatternRow(schema: Schema, row: Row, name: string, pattern: string, link: Tag)
    requires row.cells == [Name(name), Scored(Wildcard(pattern, 1.0))] && Used(row)
    requires schema.all == [link] && link.aliases == []
    requires ScoreFor(schema, Wildcard(pattern, 1.0), link) == Some(Num(1.0))
    ensures RowCandidates(schema, row).Ok?
  {
    var links := Wildcard(pattern, 1.0);
    assert Expand([link]) == Copies(link, []) + [link] + Expand([]);
    assert link in Expand(schema.all);
    WithScoresIs(schema, links, Expand(schema.all));
    TwoCells(schema, Name(name), Scored(links));
    assert row.cells[1] in row.cells;
    NonEmptyRow(schema, row, links, link.(score := Num(1.0)));
  }

  lemma NamedRow(schema: Schema, row: Row, name: string)
    requires row.cells == [Scored(Simple(name, 2.0)), Scored(IsA(name, 0.001))] && Used(row)
    requires NamesTags(schema) && schema.vertex(name).Some?
    ensures RowCandidates(schema, row).Ok?
  {
    var road := NamedTag(schema, name, 2.0);
    TwoCells(schema, Scored(Simple(name, 2.0)), Scored(IsA(name, 0.001)));
    assert row.cells[0] in row.cells;
    NonEmptyRow(schema, row, Simple(name, 2.0), road);
  }

  /** A schema of one named tag and one more. */
  function TwoTags(name: string, other: Tag): Schema {
    Schema((n, threshold) => [], n => [],
           n => if n == name then Some(Tag(n, SplitKvp(n).0, SplitKvp(n).1, [], NoNumber)) else None,
           [other], (a, b) => 0.0, (text, pattern) => text == other.key || text == other.value)
  }

  lemma TwoTagsAre(name: string, other: Tag, pattern: string)
    ensures var schema := TwoTags(name, other);
            && schema.all == [other] && schema.vertex(name).Some? && Plausible(schema) && NamesTags(schema)
            && schema.matches(other.key, SplitKvp(pattern).0) && schema.matches(other.value, SplitKvp(pattern).1)
  {
  }

  lemma TwoRowsFit(schema: Schema, rows: seq<Row>, a: Row, b: Row, name: string, pattern: string, other: Tag)
    requires rows == [a, b] && Used(a) && Used(b) && other.aliases == []
    requires a.cells == [Name(name), Scored(Wildcard(pattern, 1.0))]
    requires b.cells == [Scored(Simple(name, 2.0)), Scored(IsA(name, 0.001))]
    requires schema.all == [other] && schema.vertex(name).Some? && NamesTags(schema)
    requires schema.matches(other.key, SplitKvp(pattern).0) && schema.matches(other.value, SplitKvp(pattern).1)
    ensures ToOgr(schema, rows).Ok?
  {
    PatternRow(schema, a, name, pattern, other);
    NamedRow(schema, b, name);
    RowsOk(schema, rows);
  }

  const LINK := Tag("highway=motorway_link", "highway", "motorway_link", [], NoNumber)

  /** A schema of a road and a link is enough for these two rows. */
  lemma RoadSchemaFits()
    ensures var schema := TwoTags("highway=road", LINK);
            Plausible(schema) && NamesTags(schema) && ToOgr(schema, DEMO).Ok?
  {
    DemoKvps();
    TwoTagsAre("highway=road", LINK, "highway=.*_link");
    TwoRowsFit(TwoTags("highway=road", LINK), DEMO, TYP_50, TYP_1, "highway=road", "highway=.*_link", LINK);
  }
}
