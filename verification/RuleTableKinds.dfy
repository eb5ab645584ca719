/** How the kinds of rules of translations/SchemaTools.js rank against each other. */
module RuleTableKinds {
  import opened RuleTable
  import opened RuleTableBest
  import opened Wrappers

  // ----- Scores -----

  /** A rule whose scores are numbers: similarity needs room above its threshold, and a
      wildcard rule must not ask for zero. */
  predicate GivesNumbers(rule: Rule) {
    && (rule.Similar? ==> rule.threshold != 1.0)
    && (rule.Wildcard? ==> rule.points != 0.0)
  }

  lemma NegativeProduct(p: real, d: real)
    requires d > 0.0
    ensures p < 0.0 ==> p * d < 0.0
  {
  }

  lemma TwoQuotients(x: real, y: real, d: real, p: real, q: real)
    requires d > 0.0 && p * d == x && q * d == y
    ensures x <= y ==> p <= q
  {
    NegativeProduct(q - p, d);
    assert (q - p) * d == y - x;
  }

  /** Quotients by the same number are in the order of what is divided. */
  lemma QuotientsInOrder(x: real, y: real, d: real, p: real, q: real)
    requires 0.0 <= x <= y <= d && d > 0.0 && p * d == x && q * d == y
    ensures 0.0 <= p <= q <= 1.0
    ensures x == y ==> p == q
    ensures y == d ==> q == 1.0
    ensures x == 0.0 ==> p == 0.0
  {
    TwoQuotients(0.0, x, d, 0.0, p);
    TwoQuotients(x, 0.0, d, p, 0.0);
    TwoQuotients(x, y, d, p, q);
    TwoQuotients(y, x, d, q, p);
    TwoQuotients(y, d, d, q, 1.0);
    TwoQuotients(d, y, d, 1.0, q);
  }

  lemma Quotient(x: real, d: real)
    requires d > 0.0
    ensures (x / d) * d == x
  {
  }

  /** More similar is never worth less, and every score lies between the two ends. */
  lemma ScaledBetween(rule: Rule, a: real, b: real)
    requires rule.Similar? && rule.threshold < 1.0 && rule.minScore <= rule.maxScore
    requires rule.threshold <= a <= b <= 1.0
    ensures Scaled(rule, a).Num? && Scaled(rule, b).Num?
    ensures rule.minScore <= Scaled(rule, a).value <= Scaled(rule, b).value <= rule.maxScore
  {
    var d, width := 1.0 - rule.threshold, rule.maxScore - rule.minScore;
    var p, q := (a - rule.threshold) / d, (b - rule.threshold) / d;
    Quotient(a - rule.threshold, d);
    Quotient(b - rule.threshold, d);
    QuotientsInOrder(a - rule.threshold, b - rule.threshold, d, p, q);
    Scale(width, p, q);
    ScaledIs(rule, a, p);
    ScaledIs(rule, b, q);
  }

  lemma ScaledIs(rule: Rule, similarity: real, p: real)
    requires rule.Similar? && rule.threshold < 1.0 && p == (similarity - rule.threshold) / (1.0 - rule.threshold)
    ensures Scaled(rule, similarity) == Num((rule.maxScore - rule.minScore) * p + rule.minScore)
  {
  }

  lemma ScaledEnds(rule: Rule)
    requires rule.Similar? && rule.threshold < 1.0
    ensures Scaled(rule, rule.threshold) == Num(rule.minScore) && Scaled(rule, 1.0) == Num(rule.maxScore)
  {
    var d := 1.0 - rule.threshold;
    Quotient(0.0, d);
    Quotient(d, d);
    QuotientsInOrder(0.0, d, d, 0.0 / d, d / d);
  }

  lemma Scale(width: real, x: real, y: real)
    requires 0.0 <= width && 0.0 <= x <= y <= 1.0
    ensures 0.0 <= width * x <= width * y <= width
  {
    assert width * (y - x) >= 0.0 && width * (1.0 - y) >= 0.0;
  }

  /** 0: by descent, 1: by similarity, 2: by pattern, 3: by name. */
  function Rank(rule: Rule): nat {
    match rule
    case IsA(_, _) => 0
    case Similar(_, _, _, _) => 1
    case Wildcard(_, _) => 2
    case Simple(_, _) => 3
  }

  /** Scores as the demo translation gives them: similarity lies strictly between what
      descent and what a pattern is worth. */
  predicate UsualScores(rule: Rule) {
    match rule
    case IsA(_, points) => points == 0.001
    case Similar(_, threshold, minScore, maxScore) => threshold < 1.0 && 0.001 < minScore <= maxScore < 1.0
    case Wildcard(_, points) => points == 1.0
    case Simple(_, points) => points == 2.0
  }

  function RankOfScore(score: real): nat {
    if score <= 0.001 then 0 else if score < 1.0 then 1 else if score < 2.0 then 2 else 3
  }

  lemma UsualScoreFor(schema: Schema, rule: Rule, t: Tag)
    requires Plausible(schema) && UsualScores(rule) && ScoreFor(schema, rule, t).Some?
    ensures ScoreFor(schema, rule, t).value.Num? && RankOfScore(ScoreFor(schema, rule, t).value.value) == Rank(rule)
  {
    if rule.Similar? {
      var a := schema.scoreOneWay(t.name, rule.name);
      ScaledBetween(rule, a, a);
    }
  }

  lemma {:induction false} WithScoresIs(schema: Schema, rule: Rule, tags: seq<Tag>)
    ensures forall s :: s in WithScores(schema, rule, tags) <==>
              exists t :: t in tags && ScoreFor(schema, rule, t).Some? && s == t.(score := ScoreFor(schema, rule, t).value)
  {
    if |tags| > 0 {
      WithScoresIs(schema, rule, tags[1..]);
      assert forall t :: t in tags <==> t == tags[0] || t in tags[1..];
    }
  }

  /** The score of a tag tells the kind of rule it comes from. */
  lemma ScoreTellsRank(schema: Schema, rule: Rule, s: Tag)
    requires Plausible(schema) && UsualScores(rule) && RuleTags(schema, rule).Ok? && s in RuleTags(schema, rule).value
    ensures s.score.Num? && RankOfScore(s.score.value) == Rank(rule)
  {
    WithScoresIs(schema, rule, Expand(Considered(schema, rule).value));
    var t :| t in Expand(Considered(schema, rule).value) && ScoreFor(schema, rule, t).Some?
      && s == t.(score := ScoreFor(schema, rule, t).value);
    UsualScoreFor(schema, rule, t);
  }

  // ----- Which rule is behind an entry -----

  predicate UsualRows(rows: seq<Row>) {
    forall row <- rows :: forall cell <- row.cells :: cell.Scored? ==> UsualScores(cell.rule)
  }

  /** The rule stands in a row that is used, and yields this tag. */
  ghost predicate Generates(schema: Schema, rows: seq<Row>, row: Row, rule: Rule, t: Tag) {
    row in rows && Used(row) && Scored(rule) in row.cells && RuleTags(schema, rule).Ok? && t in RuleTags(schema, rule).value
  }

  lemma {:induction false} CellsTagsIs(schema: Schema, cells: seq<Cell>)
    requires CellsTags(schema, cells).Ok?
    ensures forall cell <- cells :: CellTags(schema, cell).Ok?
    ensures forall t :: t in CellsTags(schema, cells).value <==>
              exists cell :: cell in cells && t in CellTags(schema, cell).value
  {
    if |cells| > 0 {
      CellsTagsIs(schema, cells[1..]);
      assert forall cell :: cell in cells <==> cell == cells[0] || cell in cells[1..];
    }
  }

  lemma CandidateOfRow(schema: Schema, rows: seq<Row>, row: Row, c: Candidate)
    requires row in rows && RowCandidates(schema, row).Ok? && c in RowCandidates(schema, row).value
    ensures exists rule, t :: Generates(schema, rows, row, rule, t) && c == Aimed(row, t)
  {
    var tags := CellsTags(schema, row.cells).value;
    CellsTagsIs(schema, row.cells);
    var i :| 0 <= i < |tags| && AllAimed(row, tags)[i] == c;
    assert tags[i] in tags;
    var cell :| cell in row.cells && tags[i] in CellTags(schema, cell).value;
    assert Generates(schema, rows, row, cell.rule, tags[i]);
  }

  lemma ScoreIsNumber(schema: Schema, rule: Rule, s: Tag)
    requires GivesNumbers(rule) && RuleTags(schema, rule).Ok? && s in RuleTags(schema, rule).value
    ensures s.score.Num?
  {
    var tags := Expand(Considered(schema, rule).value);
    WithScoresIs(schema, rule, tags);
    var t :| t in tags && ScoreFor(schema, rule, t).Some? && s == t.(score := ScoreFor(schema, rule, t).value);
  }

  /** Thresholds other than 1 and wildcard scores other than 0 give numbers only. */
  lemma ScoresAreNumbers(schema: Schema, rows: seq<Row>)
    requires Candidates(schema, rows).Ok?
    requires forall row <- rows :: forall cell <- row.cells :: cell.Scored? ==> GivesNumbers(cell.rule)
    ensures AllNumbers(Candidates(schema, rows).value)
  {
    CandidatesOfRows(schema, rows);
    forall c | c in Candidates(schema, rows).value
      ensures c.entry.score.Num?
    {
      var row :| row in rows && c in RowCandidates(schema, row).value;
      CandidateOfRow(schema, rows, row, c);
      var rule, t :| Generates(schema, rows, row, rule, t) && c == Aimed(row, t);
      ScoreIsNumber(schema, rule, t);
    }
  }

  lemma GeneratedIsCandidate(schema: Schema, rows: seq<Row>, row: Row, rule: Rule, t: Tag)
    requires Candidates(schema, rows).Ok? && Generates(schema, rows, row, rule, t)
    ensures Aimed(row, t) in Candidates(schema, rows).value
  {
    CandidatesOfRows(schema, rows);
    var tags := CellsTags(schema, row.cells).value;
    CellsTagsIs(schema, row.cells);
    assert CellTags(schema, Scored(rule)).value == RuleTags(schema, rule).value;
    assert t in tags;
    var i :| 0 <= i < |tags| && tags[i] == t;
    assert AllAimed(row, tags)[i] == Aimed(row, t);
    assert Aimed(row, t) in RowCandidates(schema, row).value;
  }

  lemma UsualCandidate(schema: Schema, rows: seq<Row>, c: Candidate) returns (row: Row, rule: Rule, t: Tag)
    requires Plausible(schema) && UsualRows(rows) && Candidates(schema, rows).Ok? && c in Candidates(schema, rows).value
    ensures Generates(schema, rows, row, rule, t) && c == Aimed(row, t)
    ensures c.entry.score.Num? && RankOfScore(c.entry.score.value) == Rank(rule)
  {
    CandidatesOfRows(schema, rows);
    row :| row in rows && c in RowCandidates(schema, row).value;
    CandidateOfRow(schema, rows, row, c);
    rule, t :| Generates(schema, rows, row, rule, t) && c == Aimed(row, t);
    ScoreTellsRank(schema, rule, t);
  }

  /** Whatever the order of the rows, what the table holds for a tag comes from a rule of the
      highest rank among those that yield it: names before patterns, before similarity,
      before descent. */
  lemma HighestRankWins(schema: Schema, rows: seq<Row>, row: Row, rule: Rule, t: Tag)
    returns (winner: Row, winning: Rule, s: Tag)
    requires Plausible(schema) && UsualRows(rows) && ToOgr(schema, rows).Ok?
    requires Generates(schema, rows, row, rule, t)
    ensures Generates(schema, rows, winner, winning, s) && s.key == t.key && s.value == t.value
    ensures Rank(rule) <= Rank(winning)
    ensures Lookup(ToOgr(schema, rows).value, t.key, t.value) == Some(Entry(winner.attr, winner.value, s.score))
  {
    var cs := Candidates(schema, rows).value;
    GeneratedIsCandidate(schema, rows, row, rule, t);
    var mine := Aimed(row, t);
    var j :| 0 <= j < |cs| && cs[j] == mine;
    assert For(cs[j], t.key, t.value);
    var i := TableIsFirstBest(cs, t.key, t.value);
    assert cs[i] in cs;
    winner, winning, s := UsualCandidate(schema, rows, cs[i]);
    ScoreTellsRank(schema, rule, t);
    assert !Beats(mine.entry.score, cs[i].entry.score);
  }
}
