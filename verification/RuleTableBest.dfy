/** What the compiled rule table of translations/SchemaTools.js holds, without reference to
    how it was filled: the best rule for each tag, and when the order of the rows matters. */
module RuleTableBest {
  import opened RuleTable
  import opened Wrappers

  predicate For(c: Candidate, key: string, value: string) {
    c.key == key && c.value == value
  }

  // ----- The first of the best -----

  ghost predicate First(cs: seq<Candidate>, key: string, value: string, i: int) {
    0 <= i < |cs| && For(cs[i], key, value) && forall j :: 0 <= j < i ==> !For(cs[j], key, value)
  }

  ghost predicate StartsWithNumber(cs: seq<Candidate>, key: string, value: string) {
    forall f :: First(cs, key, value, f) ==> cs[f].entry.score.Num?
  }

  /** A score that neither beats the other nor equals it. */
  predicate Outdone(a: Score, b: Score) {
    !Beats(a, b) && (a.Num? ==> Beats(b, a))
  }

  /** Candidate `i` is the first with the highest score for the tag; a score that is no
      number wins when it comes first, and only then. */
  ghost predicate FirstBest(cs: seq<Candidate>, key: string, value: string, i: int) {
    && 0 <= i < |cs| && For(cs[i], key, value)
    && (if cs[i].entry.score.NoNumber? then First(cs, key, value, i)
        else
          && StartsWithNumber(cs, key, value)
          && (forall j :: i <= j < |cs| && For(cs[j], key, value) ==> !Beats(cs[j].entry.score, cs[i].entry.score))
          && (forall j :: 0 <= j < i && For(cs[j], key, value) ==> Outdone(cs[j].entry.score, cs[i].entry.score)))
  }

  /** There is at most one. */
  lemma FirstBestIsOne(cs: seq<Candidate>, key: string, value: string, i: int, j: int)
    requires FirstBest(cs, key, value, i) && FirstBest(cs, key, value, j)
    ensures i == j
  {
  }

  lemma FillSnoc(cs: seq<Candidate>, key: string, value: string)
    requires |cs| > 0
    ensures var c, before := cs[|cs| - 1], Lookup(Fill(cs[..|cs| - 1]), key, value);
            Lookup(Fill(cs), key, value)
            == if For(c, key, value) && (before.None? || Beats(c.entry.score, before.value.score)) then Some(c.entry) else before
  {
  }

  lemma FirstInPrefix(cs: seq<Candidate>, n: nat, key: string, value: string)
    requires n <= |cs|
    ensures forall f :: First(cs[..n], key, value, f) ==> First(cs, key, value, f)
    ensures forall f :: First(cs, key, value, f) && f < n ==> First(cs[..n], key, value, f)
  {
  }

  lemma StillBest(cs: seq<Candidate>, key: string, value: string, i: int)
    requires |cs| > 0 && FirstBest(cs[..|cs| - 1], key, value, i)
    requires For(cs[|cs| - 1], key, value) ==> !Beats(cs[|cs| - 1].entry.score, cs[i].entry.score)
    ensures FirstBest(cs, key, value, i)
  {
    var n := |cs| - 1;
    assert forall j :: 0 <= j < n ==> cs[..n][j] == cs[j];
    FirstInPrefix(cs, n, key, value);
  }

  lemma NowBest(cs: seq<Candidate>, key: string, value: string, i: int)
    requires |cs| > 0 && FirstBest(cs[..|cs| - 1], key, value, i)
    requires For(cs[|cs| - 1], key, value) && Beats(cs[|cs| - 1].entry.score, cs[i].entry.score)
    ensures FirstBest(cs, key, value, |cs| - 1)
  {
  }

  lemma {:induction false} FoundIff(cs: seq<Candidate>, key: string, value: string)
    ensures Lookup(Fill(cs), key, value).None? <==> forall j :: 0 <= j < |cs| ==> !For(cs[j], key, value)
  {
    if |cs| > 0 {
      var n := |cs| - 1;
      FillSnoc(cs, key, value);
      FoundIff(cs[..n], key, value);
      assert forall j :: 0 <= j < n ==> cs[..n][j] == cs[j];
    }
  }

  /** For every tag the table holds the target of its first best candidate, and nothing if
      there is none. */
  lemma {:induction false} TableIsFirstBest(cs: seq<Candidate>, key: string, value: string) returns (i: int)
    ensures Lookup(Fill(cs), key, value).None? <==> forall j :: 0 <= j < |cs| ==> !For(cs[j], key, value)
    ensures Lookup(Fill(cs), key, value).Some? ==>
              FirstBest(cs, key, value, i) && Lookup(Fill(cs), key, value) == Some(cs[i].entry)
  {
    i := 0;
    FoundIff(cs, key, value);
    if |cs| > 0 {
      var n := |cs| - 1;
      FillSnoc(cs, key, value);
      i := TableIsFirstBest(cs[..n], key, value);
      assert forall j :: 0 <= j < n ==> cs[..n][j] == cs[j];
      var before := Lookup(Fill(cs[..n]), key, value);
      if before.None? {
        i := n;
      } else if For(cs[n], key, value) && Beats(cs[n].entry.score, before.value.score) {
        NowBest(cs, key, value, i);
        i := n;
      } else {
        StillBest(cs, key, value, i);
      }
    }
  }

  // ----- The order of the rows -----

  ghost predicate AllNumbers(cs: seq<Candidate>) {
    forall c <- cs :: c.entry.score.Num?
  }

  /** No candidate for the same tag beats it. */
  ghost predicate Top(cs: seq<Candidate>, c: Candidate) {
    c in cs && forall d <- cs :: For(d, c.key, c.value) ==> !Beats(d.entry.score, c.entry.score)
  }

  /** The best candidates for a tag all have the same target. */
  ghost predicate OneTarget(cs: seq<Candidate>) {
    forall c, d :: Top(cs, c) && Top(cs, d) && For(d, c.key, c.value) ==> c.entry == d.entry
  }

  /** The same lookups succeed, with the same results. */
  ghost predicate SameTable(a: Table, b: Table) {
    forall key, value :: Lookup(a, key, value) == Lookup(b, key, value)
  }

  lemma FirstBestIsTop(cs: seq<Candidate>, key: string, value: string, i: int)
    requires AllNumbers(cs) && FirstBest(cs, key, value, i)
    ensures Top(cs, cs[i])
  {
  }

  lemma SameCandidatesSameTable(cs: seq<Candidate>, ds: seq<Candidate>)
    requires AllNumbers(cs) && OneTarget(cs)
    requires forall c :: c in cs <==> c in ds
    ensures SameTable(Fill(cs), Fill(ds))
  {
    forall key, value
      ensures Lookup(Fill(cs), key, value) == Lookup(Fill(ds), key, value)
    {
      var i := TableIsFirstBest(cs, key, value);
      var j := TableIsFirstBest(ds, key, value);
      if Lookup(Fill(cs), key, value).Some? {
        assert cs[i] in ds;
        FirstBestIsTop(cs, key, value, i);
        FirstBestIsTop(ds, key, value, j);
        assert Top(cs, ds[j]);
      } else {
        assert forall d <- ds :: !For(d, key, value);
      }
    }
  }

  lemma {:induction false} CandidatesOfRows(schema: Schema, rows: seq<Row>)
    requires Candidates(schema, rows).Ok?
    ensures forall r <- rows :: RowCandidates(schema, r).Ok?
    ensures forall c :: c in Candidates(schema, rows).value <==> exists r :: r in rows && c in RowCandidates(schema, r).value
  {
    if |rows| > 0 {
      CandidatesOfRows(schema, rows[1..]);
      assert forall r :: r in rows <==> r == rows[0] || r in rows[1..];
    }
  }

  lemma {:induction false} RowsOk(schema: Schema, rows: seq<Row>)
    requires forall r <- rows :: RowCandidates(schema, r).Ok?
    ensures Candidates(schema, rows).Ok?
  {
    if |rows| > 0 {
      assert rows[0] in rows && forall r <- rows[1..] :: r in rows;
      assert RowCandidates(schema, rows[0]).Ok?;
      RowsOk(schema, rows[1..]);
    }
  }

  /** Putting the same rows in another order gives the same candidates. */
  lemma SameRowsSameCandidates(schema: Schema, rows: seq<Row>, others: seq<Row>)
    requires Candidates(schema, rows).Ok? && forall r :: r in rows <==> r in others
    ensures Candidates(schema, others).Ok?
    ensures forall c :: c in Candidates(schema, rows).value <==> c in Candidates(schema, others).value
  {
    CandidatesOfRows(schema, rows);
    RowsOk(schema, others);
    CandidatesOfRows(schema, others);
  }

  ghost predicate Reordered(rows: seq<Row>, others: seq<Row>) {
    multiset(rows) == multiset(others)
  }

  lemma ReorderedSameRows(rows: seq<Row>, others: seq<Row>)
    requires Reordered(rows, others)
    ensures forall r :: r in rows <==> r in others
  {
    forall r
      ensures r in rows <==> r in others
    {
      assert r in rows <==> multiset(rows)[r] > 0;
      assert r in others <==> multiset(others)[r] > 0;
    }
  }

  /** Every way of ordering the rows gives the same lookups. */
  ghost predicate OrderIrrelevant(schema: Schema, rows: seq<Row>)
    requires ToOgr(schema, rows).Ok?
  {
    forall others | Reordered(rows, others) ::
      ToOgr(schema, others).Ok? && SameTable(ToOgr(schema, rows).value, ToOgr(schema, others).value)
  }

  function ToFront(rows: seq<Row>, i: nat): seq<Row>
    requires i < |rows|
  {
    [rows[i]] + rows[..i] + rows[i + 1..]
  }

  lemma ToFrontReorders(rows: seq<Row>, i: nat)
    requires i < |rows|
    ensures Reordered(rows, ToFront(rows, i))
  {
    assert rows == rows[..i] + [rows[i]] + rows[i + 1..];
  }

  /** When the row with one of the best candidates comes first, that is the one in the table. */
  lemma FrontRowWins(schema: Schema, rows: seq<Row>, d: Candidate)
    requires Candidates(schema, rows).Ok? && AllNumbers(Candidates(schema, rows).value)
    requires Top(Candidates(schema, rows).value, d)
    requires |rows| > 0 && d in RowCandidates(schema, rows[0]).value
    ensures Lookup(ToOgr(schema, rows).value, d.key, d.value) == Some(d.entry)
  {
    var cs := Candidates(schema, rows).value;
    var front := RowCandidates(schema, rows[0]).value;
    var i := TableIsFirstBest(cs, d.key, d.value);
    var p :| 0 <= p < |front| && front[p] == d;
    assert forall j :: 0 <= j < |front| ==> cs[j] == front[j];
    assert cs[i] in cs;
    assert i <= p;
    SameTarget(schema, rows[0], i, p);
  }

  lemma SameTarget(schema: Schema, row: Row, i: int, p: int)
    requires RowCandidates(schema, row).Ok?
    requires 0 <= i < |RowCandidates(schema, row).value| && 0 <= p < |RowCandidates(schema, row).value|
    ensures RowCandidates(schema, row).value[i].entry.attr == RowCandidates(schema, row).value[p].entry.attr
    ensures RowCandidates(schema, row).value[i].entry.value == RowCandidates(schema, row).value[p].entry.value
  {
  }

  /** With numbers for scores, the order of the rows makes no difference if and only if the
      best score for each tag comes from one target. */
  lemma OrderIrrelevantIff(schema: Schema, rows: seq<Row>)
    requires Candidates(schema, rows).Ok? && AllNumbers(Candidates(schema, rows).value)
    ensures OrderIrrelevant(schema, rows) <==> OneTarget(Candidates(schema, rows).value)
  {
    var cs := Candidates(schema, rows).value;
    if OneTarget(cs) {
      forall others | Reordered(rows, others)
        ensures ToOgr(schema, others).Ok? && SameTable(ToOgr(schema, rows).value, ToOgr(schema, others).value)
      {
        ReorderedSameRows(rows, others);
        SameRowsSameCandidates(schema, rows, others);
        SameCandidatesSameTable(cs, Candidates(schema, others).value);
      }
    }
    if OrderIrrelevant(schema, rows) {
      forall c, d | Top(cs, c) && Top(cs, d) && For(d, c.key, c.value)
        ensures c.entry == d.entry
      {
        TopIsInTable(schema, rows, c);
        TopIsInTable(schema, rows, d);
      }
    }
  }

  lemma TopIsInTable(schema: Schema, rows: seq<Row>, c: Candidate)
    requires Candidates(schema, rows).Ok? && AllNumbers(Candidates(schema, rows).value)
    requires OrderIrrelevant(schema, rows) && Top(Candidates(schema, rows).value, c)
    ensures Lookup(ToOgr(schema, rows).value, c.key, c.value) == Some(c.entry)
  {
    CandidatesOfRows(schema, rows);
    var r :| r in rows && c in RowCandidates(schema, r).value;
    var i :| 0 <= i < |rows| && rows[i] == r;
    var others := ToFront(rows, i);
    ToFrontReorders(rows, i);
    ReorderedSameRows(rows, others);
    SameRowsSameCandidates(schema, rows, others);
    assert Top(Candidates(schema, others).value, c);
    FrontRowWins(schema, others, c);
    assert SameTable(ToOgr(schema, rows).value, ToOgr(schema, others).value);
  }
}
