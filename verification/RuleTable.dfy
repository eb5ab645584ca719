/** The rule compiler of translations/SchemaTools.js: scored rules become a table that holds,
    for each tag, the target of the best rule.  The schema database and the matching of
    regular expressions are parameters. */
module RuleTable {
  import opened Lists
  import opened Text
  import opened Wrappers

  /** A score that was never set, or came out as 0/0, compares with nothing. */
  datatype Score = NoNumber | Num(value: real)

  datatype Tag = Tag(name: string, key: string, value: string, aliases: seq<string>, score: Score)

  datatype Rule =
    | Similar(name: string, threshold: real, minScore: real, maxScore: real)
    | IsA(name: string, points: real)
    | Simple(name: string, points: real)
    | Wildcard(name: string, points: real)

  datatype Cell = Name(text: string) | Scored(rule: Rule) | Missing

  /** A row: its target, and the cells from the third on. */
  datatype Row = Row(attr: string, value: string, cells: seq<Cell>)

  datatype Schema = Schema(similar: (string, real) -> seq<Tag>, children: string -> seq<Tag>, vertex: string -> Option<Tag>,
                           all: seq<Tag>, scoreOneWay: (string, string) -> real, matches: (string, string) -> bool)

  /** A similarity is at most 1. */
  ghost predicate Plausible(schema: Schema) {
    forall a, b :: schema.scoreOneWay(a, b) <= 1.0
  }

  // ----- Tags and aliases -----

  function SplitKvp(kvp: string): (string, string) {
    var i := IndexOf(kvp, "=");
    if i == -1 then ("", kvp) else (kvp[..i], kvp[i + 1..])
  }

  /** A key and a value survive being written with an equals sign if and only if the key has none. */
  lemma KvpRoundTripIff(key: string, value: string)
    ensures SplitKvp(key + "=" + value) == (key, value) <==> '=' !in key
  {
    var kvp := key + "=" + value;
    assert kvp[|key|..|key| + 1] == "=";
    assert OccursAt(kvp, "=", |key|);
    if '=' !in key {
      forall j | 0 <= j < |key|
        ensures !OccursAt(kvp, "=", j)
      {
        assert kvp[j..j + 1] == [key[j]];
      }
      IndexOfIs(kvp, "=", |key|);
      assert kvp[..|key|] == key && kvp[|key| + 1..] == value;
    } else {
      var j :| 0 <= j < |key| && key[j] == '=';
      assert kvp[j..j + 1] == "=";
      assert OccursAt(kvp, "=", j);
    }
  }

  function Renamed(t: Tag, alias: string): Tag {
    Tag(alias, SplitKvp(alias).0, SplitKvp(alias).1, [], t.score)
  }

  function Copies(t: Tag, aliases: seq<string>): seq<Tag> {
    if |aliases| == 0 then [] else [Renamed(t, aliases[0])] + Copies(t, aliases[1..])
  }

  function Expand(tags: seq<Tag>): seq<Tag> {
    if |tags| == 0 then [] else Copies(tags[0], tags[0].aliases) + [tags[0].(aliases := [])] + Expand(tags[1..])
  }

  method CopyAliases(t: Tag) returns (result: seq<Tag>)
    ensures result == Copies(t, t.aliases)
  {
    result := [];
    for j := 0 to |t.aliases|
      invariant Copies(t, t.aliases) == result + Copies(t, t.aliases[j..])
    {
      assert t.aliases[j..][1..] == t.aliases[j + 1..];
      Associative(result, [Renamed(t, t.aliases[j])], Copies(t, t.aliases[j + 1..]));
      result := result + [Renamed(t, t.aliases[j])];
    }
  }

  method ExpandAliases(tags: seq<Tag>) returns (result: seq<Tag>)
    ensures result == Expand(tags)
  {
    result := [];
    for i := 0 to |tags|
      invariant Expand(tags) == result + Expand(tags[i..])
    {
      assert tags[i..][1..] == tags[i + 1..];
      var copies := CopyAliases(tags[i]);
      Associative(result, copies + [tags[i].(aliases := [])], Expand(tags[i + 1..]));
      result := result + (copies + [tags[i].(aliases := [])]);
    }
  }

  // ----- The tags of one rule -----

  /** The threshold is scaled to `minScore`, and 1 to `maxScore`. */
  function Scaled(rule: Rule, similarity: real): Score
    requires rule.Similar?
  {
    if rule.threshold == 1.0 then NoNumber
    else Num((rule.maxScore - rule.minScore) * ((similarity - rule.threshold) / (1.0 - rule.threshold)) + rule.minScore)
  }

  /** The score a rule gives to a tag, if it takes it. */
  function ScoreFor(schema: Schema, rule: Rule, t: Tag): Option<Score> {
    match rule
    case Similar(name, threshold, _, _) =>
      if t.value == "" || t.value == "*" || schema.scoreOneWay(t.name, name) < threshold then None
      else Some(Scaled(rule, schema.scoreOneWay(t.name, name)))
    case IsA(_, points) => if t.value == "" || t.value == "*" then None else Some(Num(points))
    case Simple(_, points) => Some(Num(points))
    case Wildcard(name, points) =>
      if !schema.matches(t.key, SplitKvp(name).0) || !schema.matches(t.value, SplitKvp(name).1) then None
      else Some(if points == 0.0 then t.score else Num(points))
  }

  function WithScores(schema: Schema, rule: Rule, tags: seq<Tag>): seq<Tag> {
    if |tags| == 0 then []
    else
      var score := ScoreFor(schema, rule, tags[0]);
      (if score.Some? then [tags[0].(score := score.value)] else []) + WithScores(schema, rule, tags[1..])
  }

  /** The tags a rule looks at; a name the schema does not know has no vertex to look at. */
  function Considered(schema: Schema, rule: Rule): Result<seq<Tag>> {
    match rule
    case Similar(name, threshold, _, _) => Ok(schema.similar(name, threshold))
    case IsA(name, _) =>
      if schema.vertex(name).None? then Thrown(TypeError) else Ok(schema.children(name) + [schema.vertex(name).value])
    case Simple(name, _) => if schema.vertex(name).None? then Thrown(TypeError) else Ok([schema.vertex(name).value])
    case Wildcard(_, _) => Ok(schema.all)
  }

  function RuleTags(schema: Schema, rule: Rule): Result<seq<Tag>> {
    match Considered(schema, rule)
    case Thrown(e) => Thrown(e)
    case Ok(tags) => Ok(WithScores(schema, rule, Expand(tags)))
  }

  lemma ScoresStep(schema: Schema, rule: Rule, tags: seq<Tag>, i: nat, before: seq<Tag>)
    requires i < |tags|
    ensures var score := ScoreFor(schema, rule, tags[i]);
            before + WithScores(schema, rule, tags[i..])
            == (if score.Some? then before + [tags[i].(score := score.value)] else before) + WithScores(schema, rule, tags[i + 1..])
  {
    assert tags[i..][1..] == tags[i + 1..];
    var score, later := ScoreFor(schema, rule, tags[i]), WithScores(schema, rule, tags[i + 1..]);
    if score.Some? {
      Associative(before, [tags[i].(score := score.value)], later);
    } else {
      assert [] + later == later;
    }
  }

  method GenerateRuleTags(schema: Schema, rule: Rule) returns (r: Result<seq<Tag>>)
    ensures r == RuleTags(schema, rule)
  {
    var found := Considered(schema, rule);
    if found.Thrown? {
      return Thrown(found.error);
    }
    var tags := ExpandAliases(found.value);
    var result := [];
    for i := 0 to |tags|
      invariant WithScores(schema, rule, tags) == result + WithScores(schema, rule, tags[i..])
    {
      ScoresStep(schema, rule, tags, i, result);
      var score := ScoreFor(schema, rule, tags[i]);
      if score.Some? {
        result := result + [tags[i].(score := score.value)];
      }
    }
    assert tags[|tags|..] == [];
    assert result + [] == result;
    r := Ok(result);
  }

  // ----- The candidates of a table -----

  datatype Entry = Entry(attr: string, value: string, score: Score)

  datatype Candidate = Candidate(key: string, value: string, entry: Entry)

  predicate Used(row: Row) {
    |row.cells| > 0 && row.cells[0] != Missing && row.cells[0] != Name("")
  }

  function CellTags(schema: Schema, cell: Cell): Result<seq<Tag>> {
    match cell
    case Name(_) => Ok([])
    case Missing => Thrown(TypeError)
    case Scored(rule) => RuleTags(schema, rule)
  }

  function Append<T>(a: Result<seq<T>>, b: Result<seq<T>>): Result<seq<T>> {
    if a.Thrown? then a else if b.Thrown? then b else Ok(a.value + b.value)
  }

  lemma AppendAppend<T>(a: seq<T>, b: seq<T>, r: Result<seq<T>>)
    ensures Append(Ok(a), Append(Ok(b), r)) == Append(Ok(a + b), r)
    ensures Append(Ok([]), r) == r
    ensures Append(Ok(a), Ok([])) == Ok(a)
  {
    if r.Ok? {
      Associative(a, b, r.value);
      assert [] + r.value == r.value;
    }
    assert a + [] == a;
  }

  function CellsTags(schema: Schema, cells: seq<Cell>): Result<seq<Tag>> {
    if |cells| == 0 then Ok([]) else Append(CellTags(schema, cells[0]), CellsTags(schema, cells[1..]))
  }

  function Aimed(row: Row, t: Tag): Candidate {
    Candidate(t.key, t.value, Entry(row.attr, row.value, t.score))
  }

  function AllAimed(row: Row, tags: seq<Tag>): seq<Candidate> {
    seq(|tags|, i requires 0 <= i < |tags| => Aimed(row, tags[i]))
  }

  const NO_RULES := "Unable to create any rules from a row"

  function RowCandidates(schema: Schema, row: Row): Result<seq<Candidate>> {
    if !Used(row) then Ok([])
    else
      match CellsTags(schema, row.cells)
      case Thrown(e) => Thrown(e)
      case Ok(tags) => if |tags| == 0 then Thrown(Error(NO_RULES)) else Ok(AllAimed(row, tags))
  }

  function Candidates(schema: Schema, rows: seq<Row>): Result<seq<Candidate>> {
    if |rows| == 0 then Ok([]) else Append(RowCandidates(schema, rows[0]), Candidates(schema, rows[1..]))
  }

  // ----- The table -----

  type Table = map<string, map<string, Entry>>

  function Lookup(table: Table, key: string, value: string): Option<Entry> {
    if key in table && value in table[key] then Some(table[key][value]) else None
  }

  predicate Beats(a: Score, b: Score) {
    a.Num? && b.Num? && a.value > b.value
  }

  function Put(table: Table, c: Candidate): Table {
    var under := if c.key in table then table else table[c.key := map[]];
    if c.value !in under[c.key] || Beats(c.entry.score, under[c.key][c.value].score)
    then under[c.key := under[c.key][c.value := c.entry]] else under
  }

  function Fill(cs: seq<Candidate>): Table {
    if |cs| == 0 then map[] else Put(Fill(cs[..|cs| - 1]), cs[|cs| - 1])
  }

  function ToOgr(schema: Schema, rows: seq<Row>): Result<Table> {
    match Candidates(schema, rows)
    case Thrown(e) => Thrown(e)
    case Ok(cs) => Ok(Fill(cs))
  }

  lemma FillAimed(done: seq<Candidate>, row: Row, tags: seq<Tag>, i: nat)
    requires i < |tags|
    ensures Fill(done + AllAimed(row, tags[..i + 1])) == Put(Fill(done + AllAimed(row, tags[..i])), Aimed(row, tags[i]))
  {
    var cs := done + AllAimed(row, tags[..i]);
    assert tags[..i + 1] == tags[..i] + [tags[i]];
    assert done + AllAimed(row, tags[..i + 1]) == cs + [Aimed(row, tags[i])];
    assert (cs + [Aimed(row, tags[i])])[..|cs|] == cs;
  }

  method RuleValues(schema: Schema, row: Row) returns (r: Result<seq<Tag>>)
    ensures r == CellsTags(schema, row.cells)
  {
    var osmValues := [];
    AppendAppend([], [], CellsTags(schema, row.cells));
    for i := 0 to |row.cells|
      invariant CellsTags(schema, row.cells) == Append(Ok(osmValues), CellsTags(schema, row.cells[i..]))
    {
      assert row.cells[i..][1..] == row.cells[i + 1..];
      ghost var rest := CellsTags(schema, row.cells[i + 1..]);
      match row.cells[i] {
        case Name(_) => AppendAppend(osmValues, [], rest);
        case Missing => return Thrown(TypeError);
        case Scored(rule) =>
          var tags := GenerateRuleTags(schema, rule);
          if tags.Thrown? {
            return Thrown(tags.error);
          }
          AppendAppend(osmValues, tags.value, rest);
          osmValues := osmValues + tags.value;
      }
    }
    AppendAppend(osmValues, [], CellsTags(schema, []));
    r := Ok(osmValues);
  }

  method PutAll(given: Table, row: Row, tags: seq<Tag>, ghost done: seq<Candidate>) returns (lookup: Table)
    requires given == Fill(done)
    ensures lookup == Fill(done + AllAimed(row, tags))
  {
    lookup := given;
    assert done + AllAimed(row, tags[..0]) == done;
    for i := 0 to |tags|
      invariant lookup == Fill(done + AllAimed(row, tags[..i]))
    {
      var tag := tags[i];
      FillAimed(done, row, tags, i);
      if tag.key !in lookup {
        lookup := lookup[tag.key := map[]];
      }
      if tag.value !in lookup[tag.key] || Beats(tag.score, lookup[tag.key][tag.value].score) {
        lookup := lookup[tag.key := lookup[tag.key][tag.value := Entry(row.attr, row.value, tag.score)]];
      }
    }
    assert tags[..|tags|] == tags;
  }

  method GenerateToOgrTable(schema: Schema, rules: seq<Row>) returns (r: Result<Table>)
    ensures r == ToOgr(schema, rules)
  {
    var lookup: Table := map[];
    ghost var done: seq<Candidate> := [];
    AppendAppend([], [], Candidates(schema, rules));
    for n := 0 to |rules|
      invariant lookup == Fill(done)
      invariant Candidates(schema, rules) == Append(Ok(done), Candidates(schema, rules[n..]))
    {
      var row := rules[n];
      assert rules[n..][1..] == rules[n + 1..];
      ghost var rest := Candidates(schema, rules[n + 1..]);
      if Used(row) {
        var osmValues := RuleValues(schema, row);
        if osmValues.Thrown? {
          return Thrown(osmValues.error);
        }
        if |osmValues.value| == 0 {
          return Thrown(Error(NO_RULES));
        }
        AppendAppend(done, AllAimed(row, osmValues.value), rest);
        lookup := PutAll(lookup, row, osmValues.value, done);
        done := done + AllAimed(row, osmValues.value);
      } else {
        AppendAppend(done, [], rest);
      }
    }
    AppendAppend(done, [], Candidates(schema, []));
    r := Ok(lookup);
  }
}
