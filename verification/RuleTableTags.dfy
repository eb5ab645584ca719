/** Which tags a rule of translations/SchemaTools.js yields, and which target the table holds
    for them, told from the schema database and the rows alone. */
module RuleTableTags {
  import opened Lists
  import opened RuleTable
  import opened RuleTableBest
  import opened RuleTableKinds
  import opened RuleTableToOsm
  import opened Text
  import opened Wrappers

  // ----- Tags under their own names and under their aliases -----

  /** The key and the value in a name: what is in front of the first equals sign, and behind
      it; without one, the name is the value. */
  predicate KvpOf(name: string, key: string, value: string) {
    if '=' in name then name == key + "=" + value && '=' !in key else key == "" && value == name
  }

  lemma KvpIff(name: string, key: string, value: string)
    ensures KvpOf(name, key, value) <==> SplitKvp(name) == (key, value)
  {
    var i := IndexOf(name, "=");
    if i == -1 {
      forall j | 0 <= j < |name|
        ensures name[j] != '='
      {
        assert !OccursAt(name, "=", j) && name[j..j + 1] == [name[j]];
      }
    } else {
      assert name[i..i + 1] == "=" && name[i] == '=';
      assert name == name[..i] + "=" + name[i + 1..];
      forall j | 0 <= j < i
        ensures name[j] != '='
      {
        assert !OccursAt(name, "=", j) && name[j..j + 1] == [name[j]];
      }
      if KvpOf(name, key, value) {
        KvpRoundTripIff(key, value);
      }
    }
  }

  /** The tag goes by this name, its own one or an alias. */
  predicate GoesBy(t: Tag, name: string, key: string, value: string) {
    (name, key, value) == (t.name, t.key, t.value) || (name in t.aliases && KvpOf(name, key, value))
  }

  /** The same tag under one of its names, without aliases. */
  predicate Copied(s: Tag, t: Tag) {
    GoesBy(t, s.name, s.key, s.value) && s.aliases == [] && s.score == t.score
  }

  lemma {:induction false} CopiesIff(t: Tag, aliases: seq<string>, s: Tag)
    ensures s in Copies(t, aliases) <==> s.name in aliases && KvpOf(s.name, s.key, s.value) && s.aliases == [] && s.score == t.score
  {
    if |aliases| > 0 {
      CopiesIff(t, aliases[1..], s);
      KvpIff(s.name, s.key, s.value);
      assert s.name in aliases <==> s.name == aliases[0] || s.name in aliases[1..];
    }
  }

  lemma {:induction false} ExpandIff(tags: seq<Tag>, s: Tag)
    ensures s in Expand(tags) <==> exists t :: t in tags && Copied(s, t)
  {
    if |tags| > 0 {
      ExpandIff(tags[1..], s);
      CopiesIff(tags[0], tags[0].aliases, s);
      assert Copied(s, tags[0]) <==> s in Copies(tags[0], tags[0].aliases) || s == tags[0].(aliases := []);
      assert forall t :: t in tags <==> t == tags[0] || t in tags[1..];
    }
  }

  // ----- What a rule yields -----

  /** The rule yields this key and value, with this score. */
  ghost predicate Yields(schema: Schema, rule: Rule, key: string, value: string, score: Score) {
    RuleTags(schema, rule).Ok? && exists s :: s in RuleTags(schema, rule).value && (s.key, s.value, s.score) == (key, value, score)
  }

  predicate Valued(value: string) {
    value != "" && value != "*"
  }

  /** The rule takes the tag under this name, and gives it this score. */
  ghost predicate Gives(schema: Schema, rule: Rule, found: seq<Tag>, key: string, value: string, score: Score) {
    exists t, n :: t in found && GoesBy(t, n, key, value) && ScoreFor(schema, rule, Tag(n, key, value, [], t.score)) == Some(score)
  }

  lemma YieldsGives(schema: Schema, rule: Rule, s: Tag)
    requires RuleTags(schema, rule).Ok? && s in RuleTags(schema, rule).value
    ensures Gives(schema, rule, Considered(schema, rule).value, s.key, s.value, s.score)
  {
    var found := Considered(schema, rule).value;
    WithScoresIs(schema, rule, Expand(found));
    var c :| c in Expand(found) && ScoreFor(schema, rule, c).Some? && s == c.(score := ScoreFor(schema, rule, c).value);
    ExpandIff(found, c);
    var t :| t in found && Copied(c, t);
    assert c == Tag(c.name, s.key, s.value, [], t.score);
  }

  lemma GivesYields(schema: Schema, rule: Rule, t: Tag, n: string, key: string, value: string)
    requires Considered(schema, rule).Ok? && t in Considered(schema, rule).value && GoesBy(t, n, key, value)
    requires ScoreFor(schema, rule, Tag(n, key, value, [], t.score)).Some?
    ensures Yields(schema, rule, key, value, ScoreFor(schema, rule, Tag(n, key, value, [], t.score)).value)
  {
    var c, found := Tag(n, key, value, [], t.score), Considered(schema, rule).value;
    var score := ScoreFor(schema, rule, c).value;
    assert Copied(c, t);
    ExpandIff(found, c);
    WithScoresIs(schema, rule, Expand(found));
    assert c.(score := score) in RuleTags(schema, rule).value;
  }

  lemma YieldsIff(schema: Schema, rule: Rule, key: string, value: string, score: Score)
    requires Considered(schema, rule).Ok?
    ensures Yields(schema, rule, key, value, score) <==> Gives(schema, rule, Considered(schema, rule).value, key, value, score)
  {
    if Yields(schema, rule, key, value, score) {
      var s :| s in RuleTags(schema, rule).value && (s.key, s.value, s.score) == (key, value, score);
      YieldsGives(schema, rule, s);
    }
    if Gives(schema, rule, Considered(schema, rule).value, key, value, score) {
      var t, n :| t in Considered(schema, rule).value && GoesBy(t, n, key, value)
                  && ScoreFor(schema, rule, Tag(n, key, value, [], t.score)) == Some(score);
      GivesYields(schema, rule, t, n, key, value);
    }
  }

  /** A pattern: every tag of the schema, under any of its names, of which the key matches the
      one half and the value the other. A score of 0 leaves the tag's own one. */
  lemma WildcardYieldsIff(schema: Schema, name: string, points: real, keys: string, values: string,
                          key: string, value: string, score: Score)
    requires KvpOf(name, keys, values)
    ensures Yields(schema, Wildcard(name, points), key, value, score) <==>
              schema.matches(key, keys) && schema.matches(value, values)
              && exists t, n :: t in schema.all && GoesBy(t, n, key, value) && score == if points == 0.0 then t.score else Num(points)
  {
    var rule := Wildcard(name, points);
    KvpIff(name, keys, values);
    YieldsIff(schema, rule, key, value, score);
  }

  /** The score rises from the least for a similarity at the threshold to the greatest for 1;
      with a threshold of 1 it is no number. */
  predicate OnScale(rule: Rule, similarity: real, score: Score)
    requires rule.Similar?
  {
    if rule.threshold == 1.0 then score == NoNumber
    else score.Num? && (score.value - rule.minScore) * (1.0 - rule.threshold)
                       == (rule.maxScore - rule.minScore) * (similarity - rule.threshold)
  }

  predicate SimilarBy(schema: Schema, rule: Rule, t: Tag, n: string, key: string, value: string, score: Score)
    requires rule.Similar?
  {
    && GoesBy(t, n, key, value) && schema.scoreOneWay(n, rule.name) >= rule.threshold
    && OnScale(rule, schema.scoreOneWay(n, rule.name), score)
  }

  /** Similarity: every tag that the database finds similar, under any of its names that is
      similar enough itself, unless it has no value or any. */
  lemma SimilarYieldsIff(schema: Schema, rule: Rule, key: string, value: string, score: Score)
    requires rule.Similar?
    ensures Yields(schema, rule, key, value, score) <==>
              Valued(value) && exists t, n :: t in schema.similar(rule.name, rule.threshold) && SimilarBy(schema, rule, t, n, key, value, score)
  {
    var found := schema.similar(rule.name, rule.threshold);
    YieldsIff(schema, rule, key, value, score);
    forall t: Tag, n
      ensures GoesBy(t, n, key, value) && ScoreFor(schema, rule, Tag(n, key, value, [], t.score)) == Some(score)
              <==> Valued(value) && SimilarBy(schema, rule, t, n, key, value, score)
    {
      OnScaleIff(rule, schema.scoreOneWay(n, rule.name), score);
    }
    if Valued(value) && exists t, n :: t in found && SimilarBy(schema, rule, t, n, key, value, score) {
      var t, n :| t in found && SimilarBy(schema, rule, t, n, key, value, score);
      assert ScoreFor(schema, rule, Tag(n, key, value, [], t.score)) == Some(score);
    }
  }

  lemma OnScaleIff(rule: Rule, similarity: real, score: Score)
    requires rule.Similar?
    ensures OnScale(rule, similarity, score) <==> score == Scaled(rule, similarity)
  {
    if rule.threshold != 1.0 && score.Num? {
      var d, x := 1.0 - rule.threshold, similarity - rule.threshold;
      Divided(score.value - rule.minScore, rule.maxScore - rule.minScore, x, d);
    }
  }

  lemma Divided(p: real, width: real, x: real, d: real)
    requires d != 0.0
    ensures p * d == width * x <==> p == width * (x / d)
  {
    var q := x / d;
    assert q * d == x;
    assert width * x == width * q * d;
    assert (p - width * q) * d == p * d - width * q * d;
  }

  /** Descent: the tag itself and all that descend from it, under any of their names, unless
      it has no value or any; a name that the schema does not know throws. */
  lemma IsAYieldsIff(schema: Schema, name: string, points: real, key: string, value: string, score: Score)
    ensures schema.vertex(name).None? ==> RuleTags(schema, IsA(name, points)) == Thrown(TypeError)
    ensures schema.vertex(name).Some? ==>
              (Yields(schema, IsA(name, points), key, value, score) <==>
                 score == Num(points) && Valued(value)
                 && exists t, n :: (t in schema.children(name) || t == schema.vertex(name).value) && GoesBy(t, n, key, value))
  {
    if schema.vertex(name).Some? {
      YieldsIff(schema, IsA(name, points), key, value, score);
    }
  }

  /** A name: that tag under any of its names, also without a value. */
  lemma SimpleYieldsIff(schema: Schema, name: string, points: real, key: string, value: string, score: Score)
    ensures schema.vertex(name).None? ==> RuleTags(schema, Simple(name, points)) == Thrown(TypeError)
    ensures schema.vertex(name).Some? ==>
              (Yields(schema, Simple(name, points), key, value, score) <==>
                 score == Num(points) && exists n :: GoesBy(schema.vertex(name).value, n, key, value))
  {
    if schema.vertex(name).Some? {
      YieldsIff(schema, Simple(name, points), key, value, score);
    }
  }

  // ----- What the table holds -----

  /** A rule in a used row yields this. */
  ghost predicate RowYields(schema: Schema, row: Row, key: string, value: string, score: Score) {
    Used(row) && exists rule :: Scored(rule) in row.cells && Yields(schema, rule, key, value, score)
  }

  lemma YieldInCells(schema: Schema, cells: seq<Cell>, rule: Rule, s: Tag)
    requires CellsTags(schema, cells).Ok? && Scored(rule) in cells
    requires RuleTags(schema, rule).Ok? && s in RuleTags(schema, rule).value
    ensures s in CellsTags(schema, cells).value
  {
    CellsTagsIs(schema, cells);
    assert CellTags(schema, Scored(rule)).value == RuleTags(schema, rule).value;
  }

  lemma YieldIsCandidate(schema: Schema, row: Row, rule: Rule, s: Tag)
    requires RowCandidates(schema, row).Ok? && Used(row) && Scored(rule) in row.cells
    requires RuleTags(schema, rule).Ok? && s in RuleTags(schema, rule).value
    ensures Aimed(row, s) in RowCandidates(schema, row).value
  {
    var tags := CellsTags(schema, row.cells).value;
    YieldInCells(schema, row.cells, rule, s);
    var i :| 0 <= i < |tags| && tags[i] == s;
    assert AllAimed(row, tags)[i] == Aimed(row, s);
  }

  lemma RowYieldsIff(schema: Schema, row: Row, key: string, value: string, score: Score)
    requires RowCandidates(schema, row).Ok?
    ensures RowYields(schema, row, key, value, score) <==>
              Candidate(key, value, Entry(row.attr, row.value, score)) in RowCandidates(schema, row).value
  {
    var c := Candidate(key, value, Entry(row.attr, row.value, score));
    if RowYields(schema, row, key, value, score) {
      var rule :| Scored(rule) in row.cells && Yields(schema, rule, key, value, score);
      var s :| s in RuleTags(schema, rule).value && (s.key, s.value, s.score) == (key, value, score);
      YieldIsCandidate(schema, row, rule, s);
    }
    if c in RowCandidates(schema, row).value {
      CandidateOfRow(schema, [row], row, c);
      var rule, s :| Generates(schema, [row], row, rule, s) && c == Aimed(row, s);
      assert Yields(schema, rule, key, value, score);
    }
  }

  lemma AimedAtTarget(schema: Schema, row: Row, c: Candidate)
    requires RowCandidates(schema, row).Ok? && c in RowCandidates(schema, row).value
    ensures c.entry.attr == row.attr && c.entry.value == row.value
  {
  }

  lemma {:induction false} CandidatesConcat(schema: Schema, a: seq<Row>, b: seq<Row>)
    requires Candidates(schema, a + b).Ok?
    ensures Candidates(schema, a).Ok? && Candidates(schema, b).Ok?
    ensures Candidates(schema, a + b).value == Candidates(schema, a).value + Candidates(schema, b).value
  {
    if |a| == 0 {
      assert a + b == b;
    } else {
      assert (a + b)[1..] == a[1..] + b;
      CandidatesConcat(schema, a[1..], b);
      Associative(RowCandidates(schema, a[0]).value, Candidates(schema, a[1..]).value, Candidates(schema, b).value);
    }
  }

  /** The row of a candidate. */
  lemma {:induction false} RowAt(schema: Schema, rows: seq<Row>, i: nat) returns (n: nat)
    requires Candidates(schema, rows).Ok? && i < |Candidates(schema, rows).value|
    ensures n < |rows| && Candidates(schema, rows[..n]).Ok? && |Candidates(schema, rows[..n]).value| <= i
    ensures RowCandidates(schema, rows[n]).Ok? && Candidates(schema, rows).value[i] in RowCandidates(schema, rows[n]).value
  {
    var first := RowCandidates(schema, rows[0]).value;
    if i < |first| {
      n := 0;
    } else {
      var m := RowAt(schema, rows[1..], i - |first|);
      n := m + 1;
      assert rows[..n][1..] == rows[1..][..m] && rows[..n][0] == rows[0];
    }
  }

  /** The row yields this with the score of the entry, no row yields a higher one, and no
      earlier row one that is not lower; a score that is no number has no row in front. */
  ghost predicate Wins(schema: Schema, rows: seq<Row>, n: nat, key: string, value: string, e: Entry) {
    && n < |rows| && e.attr == rows[n].attr && e.value == rows[n].value && RowYields(schema, rows[n], key, value, e.score)
    && (forall row, score | row in rows && RowYields(schema, row, key, value, score) :: !Beats(score, e.score))
    && (forall m: nat, score | m < n && RowYields(schema, rows[m], key, value, score) :: e.score.Num? && Outdone(score, e.score))
  }

  lemma CandidateIsBehind(schema: Schema, rows: seq<Row>, n: nat, m: nat, key: string, value: string, score: Score) returns (j: nat)
    requires Candidates(schema, rows).Ok? && m < n <= |rows| && RowYields(schema, rows[m], key, value, score)
    ensures Candidates(schema, rows[..n]).Ok? && j < |Candidates(schema, rows[..n]).value| <= |Candidates(schema, rows).value|
    ensures Candidates(schema, rows).value[j] == Candidate(key, value, Entry(rows[m].attr, rows[m].value, score))
  {
    var before, c := rows[..n], Candidate(key, value, Entry(rows[m].attr, rows[m].value, score));
    assert rows == before + rows[n..] && before[m] == rows[m];
    CandidatesConcat(schema, before, rows[n..]);
    CandidatesOfRows(schema, before);
    RowYieldsIff(schema, rows[m], key, value, score);
    assert c in Candidates(schema, before).value;
    j :| 0 <= j < |Candidates(schema, before).value| && Candidates(schema, before).value[j] == c;
  }

  /** For every key and value: the table holds nothing if no rule yields them, and otherwise the
      target of the first row that yields them with the highest score. */
  lemma EntryIff(schema: Schema, rows: seq<Row>, key: string, value: string)
    requires ToOgr(schema, rows).Ok?
    ensures var entry := Lookup(ToOgr(schema, rows).value, key, value);
            && (entry.None? <==> forall row, score | row in rows :: !RowYields(schema, row, key, value, score))
            && (entry.Some? ==> exists n :: Wins(schema, rows, n, key, value, entry.value))
  {
    var cs := Candidates(schema, rows).value;
    var entry := Lookup(ToOgr(schema, rows).value, key, value);
    var i := TableIsFirstBest(cs, key, value);
    forall m: nat, score | m < |rows| && RowYields(schema, rows[m], key, value, score)
      ensures exists j :: 0 <= j < |cs| && For(cs[j], key, value)
    {
      var j := CandidateIsBehind(schema, rows, |rows|, m, key, value, score);
      assert For(cs[j], key, value);
    }
    if entry.Some? {
      WinnerIs(schema, rows, key, value, i);
    }
  }

  lemma WinnerIs(schema: Schema, rows: seq<Row>, key: string, value: string, i: nat)
    requires Candidates(schema, rows).Ok? && FirstBest(Candidates(schema, rows).value, key, value, i)
    ensures exists n :: Wins(schema, rows, n, key, value, Candidates(schema, rows).value[i].entry)
  {
    var cs := Candidates(schema, rows).value;
    var e := cs[i].entry;
    var n := RowAt(schema, rows, i);
    AimedAtTarget(schema, rows[n], cs[i]);
    RowYieldsIff(schema, rows[n], key, value, e.score);
    forall row, score | row in rows && RowYields(schema, row, key, value, score)
      ensures !Beats(score, e.score)
    {
      var m :| 0 <= m < |rows| && rows[m] == row;
      var j := CandidateIsBehind(schema, rows, |rows|, m, key, value, score);
      assert For(cs[j], key, value);
    }
    forall m: nat, score | m < n && RowYields(schema, rows[m], key, value, score)
      ensures e.score.Num? && Outdone(score, e.score)
    {
      var j := CandidateIsBehind(schema, rows, n, m, key, value, score);
      assert For(cs[j], key, value) && j < i;
    }
    assert Wins(schema, rows, n, key, value, e);
  }

  // ----- When there is a table -----

  /** No cell is missing, the schema knows every name that is looked up in it, and some rule
      yields something. */
  ghost predicate Makes(schema: Schema, row: Row) {
    && Missing !in row.cells
    && (forall rule: Rule :: Scored(rule) in row.cells ==> Known(schema, rule))
    && exists key, value, score :: RowYields(schema, row, key, value, score)
  }

  lemma {:induction false} CellsOkIff(schema: Schema, cells: seq<Cell>)
    ensures CellsTags(schema, cells).Ok? <==> forall cell <- cells :: CellTags(schema, cell).Ok?
  {
    if |cells| > 0 {
      CellsOkIff(schema, cells[1..]);
      assert forall cell :: cell in cells <==> cell == cells[0] || cell in cells[1..];
    }
  }

  /** The schema knows the name where it is looked up. */
  predicate Known(schema: Schema, rule: Rule) {
    rule.IsA? || rule.Simple? ==> schema.vertex(rule.name).Some?
  }

  lemma KnownIff(schema: Schema, rule: Rule)
    ensures RuleTags(schema, rule).Ok? <==> Known(schema, rule)
  {
  }

  lemma CellsKnownIff(schema: Schema, cells: seq<Cell>)
    ensures CellsTags(schema, cells).Ok?
            <==> Missing !in cells && forall rule: Rule :: Scored(rule) in cells ==> Known(schema, rule)
  {
    CellsOkIff(schema, cells);
    forall cell | cell in cells
      ensures CellTags(schema, cell).Ok? <==> cell != Missing && (cell.Scored? ==> Known(schema, cell.rule))
    {
      if cell.Scored? {
        KnownIff(schema, cell.rule);
      }
    }
  }

  lemma OkRowMakes(schema: Schema, row: Row)
    requires Used(row) && RowCandidates(schema, row).Ok?
    ensures Makes(schema, row)
  {
    CellsKnownIff(schema, row.cells);
    var c := RowCandidates(schema, row).value[0];
    AimedAtTarget(schema, row, c);
    RowYieldsIff(schema, row, c.key, c.value, c.entry.score);
    assert RowYields(schema, row, c.key, c.value, c.entry.score);
  }

  lemma MadeRowIsOk(schema: Schema, row: Row)
    requires Used(row) && Makes(schema, row)
    ensures RowCandidates(schema, row).Ok?
  {
    CellsKnownIff(schema, row.cells);
    assert CellsTags(schema, row.cells).Ok?;
    var rule, s := SomeYield(schema, row);
    YieldInCells(schema, row.cells, rule, s);
  }

  lemma SomeYield(schema: Schema, row: Row) returns (rule: Rule, s: Tag)
    requires Makes(schema, row)
    ensures Scored(rule) in row.cells && RuleTags(schema, rule).Ok? && s in RuleTags(schema, rule).value
  {
    var key, value, score :| RowYields(schema, row, key, value, score);
    rule :| Scored(rule) in row.cells && Yields(schema, rule, key, value, score);
    s :| s in RuleTags(schema, rule).value && (s.key, s.value, s.score) == (key, value, score);
  }

  /** The table is made if and only if every used row makes something. */
  lemma TableExistsIff(schema: Schema, rows: seq<Row>)
    ensures ToOgr(schema, rows).Ok? <==> forall row <- rows :: Used(row) ==> Makes(schema, row)
  {
    forall row | row in rows && Used(row)
      ensures RowCandidates(schema, row).Ok? <==> Makes(schema, row)
    {
      if RowCandidates(schema, row).Ok? {
        OkRowMakes(schema, row);
      }
      if Makes(schema, row) {
        MadeRowIsOk(schema, row);
      }
    }
    if ToOgr(schema, rows).Ok? {
      CandidatesOfRows(schema, rows);
    }
    if forall row <- rows :: Used(row) ==> Makes(schema, row) {
      RowsOk(schema, rows);
    }
  }

  // ----- The table to OSM -----

  /** The name of a rule, when it is one of the kinds that imply a tag. */
  predicate Implies(rule: Rule, kvp: string) {
    (rule.Similar? || rule.IsA? || rule.Simple?) && rule.name == kvp && kvp != ""
  }

  /** A row stands for the text that comes first in it, or else for the one tag that all its
      rules imply, as far as they imply any. */
  ghost predicate StandsFor(row: Row, kvp: string) {
    if |row.cells| > 0 && row.cells[0].Name? then kvp == row.cells[0].text
    else
      && Missing !in row.cells
      && (exists rule :: Scored(rule) in row.cells && Implies(rule, kvp))
      && (forall rule, other | Scored(rule) in row.cells && Implies(rule, other) :: other == kvp)
  }

  lemma StandsForIff(row: Row, kvp: string)
    ensures StandsFor(row, kvp) <==> ToOsmKvp(row) == Ok(kvp)
  {
    if !(|row.cells| > 0 && row.cells[0].Name?) {
      if kvp != "" {
        ImplicitKvpIff(row, kvp);
        forall cell | cell in row.cells
          ensures Implied(cell) == "" || Implied(cell) == kvp <==>
                  forall other :: cell.Scored? && Implies(cell.rule, other) ==> other == kvp
        {
          if Implied(cell) != "" {
            assert Implies(cell.rule, Implied(cell));
          }
        }
        if cell :| cell in row.cells && Implied(cell) == kvp {
          assert Scored(cell.rule) in row.cells && Implies(cell.rule, kvp);
        }
      }
    }
  }

  lemma {:induction false} OsmEntryIsOfRow(rows: seq<Row>, table: OsmTable, a: string, v: string) returns (n: nat)
    requires ToOsmFrom(rows, table).Ok? && LookupOsm(table, a, v).None?
    requires LookupOsm(ToOsmFrom(rows, table).value, a, v).Some?
    ensures n < |rows| && Used(rows[n]) && rows[n].attr == a && rows[n].value == v
    decreases |rows|
  {
    if Used(rows[0]) && rows[0].attr == a && rows[0].value == v {
      n := 0;
    } else {
      var next := if Used(rows[0]) then PutOsm(table, rows[0].attr, rows[0].value, ToOsmKvp(rows[0]).value) else table;
      if Used(rows[0]) {
        PutOsmLookup(table, rows[0], ToOsmKvp(rows[0]).value, a, v);
      }
      var m := OsmEntryIsOfRow(rows[1..], next, a, v);
      n := m + 1;
    }
  }

  /** The table to OSM holds, for exactly the targets of the used rows, the key and the value
      of what the row stands for. */
  lemma OsmEntryIff(rows: seq<Row>, a: string, v: string, key: string, value: string)
    requires ToOsmFrom(rows, map[]).Ok?
    ensures LookupOsm(ToOsmFrom(rows, map[]).value, a, v) == Some((key, value)) <==>
              exists row, kvp :: row in rows && Used(row) && row.attr == a && row.value == v
                && StandsFor(row, kvp) && KvpOf(kvp, key, value)
  {
    var entry := LookupOsm(ToOsmFrom(rows, map[]).value, a, v);
    if entry == Some((key, value)) {
      var n := OsmEntryIsOfRow(rows, map[], a, v);
      OsmEntryOf(rows, n);
      var kvp := ToOsmKvp(rows[n]).value;
      KvpIff(kvp, key, value);
    }
    forall row, kvp | row in rows && Used(row) && row.attr == a && row.value == v && StandsFor(row, kvp) && KvpOf(kvp, key, value)
      ensures entry == Some((key, value))
    {
      var n :| 0 <= n < |rows| && rows[n] == row;
      OsmEntryOf(rows, n);
      StandsForIff(row, kvp);
      KvpIff(kvp, key, value);
    }
  }

  lemma OsmEntryOf(rows: seq<Row>, n: nat)
    requires ToOsmFrom(rows, map[]).Ok? && n < |rows| && Used(rows[n])
    ensures ToOsmKvp(rows[n]).Ok? && StandsFor(rows[n], ToOsmKvp(rows[n]).value)
    ensures LookupOsm(ToOsmFrom(rows, map[]).value, rows[n].attr, rows[n].value) == Some(SplitKvp(ToOsmKvp(rows[n]).value))
  {
    ToOsmHolds(rows, map[], n);
    StandsForIff(rows[n], ToOsmKvp(rows[n]).value);
  }
}
