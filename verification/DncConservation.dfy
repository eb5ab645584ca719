/** What the undo log of translations/dnc_core.js is for: after the passes and `validateAttrs`
    every original tag is either among the unused tags or behind an attribute that was kept. */
module DncConservation {
  import opened DncUndoLog
  import opened DncValidate
  import opened Objects
  import opened Wrappers

  predicate DistinctColumns(columns: seq<Column>) {
    forall i, j :: 0 <= i < j < |columns| ==> columns[i].name != columns[j].name
  }

  /** The attributes after the first loop of `validateAttrs`. */
  function Fitted(attrs: Attrs, layer: Layer, rules: Rules): Attrs {
    map a | a in attrs && HasColumn(layer, a) ::
      if a in rules.txtLength then CutAttr(attrs[a], rules.txtLength[a]) else attrs[a]
  }

  /** What a column is reset to in the second loop, if it is. */
  function ResetOf(c: Column, attrs: Attrs, rules: Rules, code: string): Option<Attr> {
    Reset(c, At(attrs, c.name), DefaultFor(rules, code, c.name))
  }

  /** The names of the columns that are reset. */
  function ResetNames(columns: seq<Column>, attrs: Attrs, rules: Rules, code: string): set<string> {
    set i | 0 <= i < |columns| && ResetOf(columns[i], attrs, rules, code).Some? :: columns[i].name
  }

  function Dropped(attrs: Attrs, layer: Layer): set<string> {
    set a | a in attrs && !HasColumn(layer, a)
  }

  /** The attributes that are dropped or reset. */
  function Lost(attrs: Attrs, layer: Layer, rules: Rules, geometry: string): set<string> {
    var fitted := Fitted(attrs, layer, rules);
    Dropped(attrs, layer) + ResetNames(layer.columns, fitted, rules, GeometryCode(fitted, geometry))
  }

  // ----- Giving tags back -----

  lemma GiveBackConserves(original: Tags, notUsed: Tags, log: Log, a: string)
    requires Conserved(original, notUsed, log) && a in log
    ensures Conserved(original, notUsed[log[a].tag := log[a].original], log - {a})
  {
    var next, rest := notUsed[log[a].tag := log[a].original], log - {a};
    forall k | k in original
      ensures k in next || Behind(rest, k)
    {
      if k !in next {
        assert Behind(log, k);
        var b :| b in log && log[b].tag == k;
        assert b in rest && rest[b].tag == k;
      }
    }
  }

  /** Whatever was lost has been given back. */
  ghost predicate GivenBack(notUsed: Tags, log: Log, lost: set<string>) {
    forall a <- lost :: a in log ==> log[a].tag in notUsed && notUsed[log[a].tag] == log[a].original
  }

  ghost predicate Balanced(original: Tags, notUsed: Tags, log: Log, lost: set<string>) {
    Conserved(original, notUsed, log - lost) && GivenBack(notUsed, log, lost)
  }

  lemma GiveBackBalances(original: Tags, notUsed: Tags, log: Log, lost: set<string>, a: string)
    requires Balanced(original, notUsed, log, lost)
    requires TagsDiffer(log)
    ensures Balanced(original, GiveBack(notUsed, log, a), log, lost + {a})
  {
    if a in log && a !in lost {
      GiveBackConserves(original, notUsed, log - lost, a);
      assert log - lost - {a} == log - (lost + {a});
    } else {
      assert log - (lost + {a}) == log - lost;
      if a in log {
        assert notUsed[log[a].tag := log[a].original] == notUsed;
      }
    }
  }

  ghost predicate TagsDiffer(log: Log) {
    forall x, y :: x in log && y in log && x != y ==> log[x].tag != log[y].tag
  }

  // ----- The first loop -----

  /** The attributes among `order` that the loop drops. */
  function DroppedIn(attrs: Attrs, order: seq<string>, layer: Layer): set<string> {
    if |order| == 0 then {}
    else (if order[0] in attrs && !HasColumn(layer, order[0]) then {order[0]} else {}) + DroppedIn(attrs, order[1..], layer)
  }

  lemma {:induction false} DropLoopBalances(original: Tags, v: Checked, log: Log, lost: set<string>, order: seq<string>,
                                            layer: Layer, rules: Rules, attrs: Attrs)
    requires Balanced(original, v.notUsed, log, lost) && TagsDiffer(log)
    requires forall i, j :: 0 <= i < j < |order| ==> order[i] != order[j]
    requires forall i :: 0 <= i < |order| ==> (order[i] in v.attrs <==> order[i] in attrs)
    ensures Balanced(original, DropLoop(v, log, order, layer, rules).notUsed, log, lost + DroppedIn(attrs, order, layer))
    decreases |order|
  {
    if |order| == 0 {
      assert lost + {} == lost;
    } else {
      var val, rest := order[0], order[1..];
      var next := DropOrCut(v, log, val, layer, rules);
      var here := if val in attrs && !HasColumn(layer, val) then {val} else {};
      assert forall i :: 0 <= i < |rest| ==> rest[i] == order[i + 1] != val;
      if here == {val} {
        GiveBackBalances(original, v.notUsed, log, lost, val);
      } else {
        assert lost + here == lost;
      }
      DropLoopBalances(original, next, log, lost + here, rest, layer, rules, attrs);
      assert lost + here + DroppedIn(attrs, rest, layer) == lost + DroppedIn(attrs, order, layer);
    }
  }

  lemma {:induction false} DroppedInIs(attrs: Attrs, order: seq<string>, layer: Layer)
    ensures forall a :: a in DroppedIn(attrs, order, layer) <==> a in order && a in attrs && !HasColumn(layer, a)
  {
    if |order| > 0 {
      DroppedInIs(attrs, order[1..], layer);
      assert forall a :: a in order <==> a == order[0] || a in order[1..];
    }
  }

  /** The attribute after the first loop. */
  function FittedAt(attrs: Attrs, layer: Layer, rules: Rules, a: string): Option<Attr> {
    if a !in attrs || !HasColumn(layer, a) then None
    else Some(if a in rules.txtLength then CutAttr(attrs[a], rules.txtLength[a]) else attrs[a])
  }

  lemma {:induction false} DropLoopAttrs(v: Checked, log: Log, order: seq<string>, layer: Layer, rules: Rules, a: string)
    requires forall i, j :: 0 <= i < j < |order| ==> order[i] != order[j]
    ensures At(DropLoop(v, log, order, layer, rules).attrs, a)
            == if a in order then FittedAt(v.attrs, layer, rules, a) else At(v.attrs, a)
    decreases |order|
  {
    if |order| > 0 {
      assert a in order <==> a == order[0] || a in order[1..];
      DropLoopAttrs(DropOrCut(v, log, order[0], layer, rules), log, order[1..], layer, rules, a);
    }
  }

  /** The first loop, with the keys visited in any order. */
  lemma DropLoopForm(v: Checked, log: Log, order: seq<string>, layer: Layer, rules: Rules)
    requires Enumerates(order, v.attrs)
    ensures DropLoop(v, log, order, layer, rules).attrs == Fitted(v.attrs, layer, rules)
  {
    var r := DropLoop(v, log, order, layer, rules);
    forall a
      ensures At(r.attrs, a) == At(Fitted(v.attrs, layer, rules), a)
    {
      DropLoopAttrs(v, log, order, layer, rules, a);
    }
    SameMap(r.attrs, Fitted(v.attrs, layer, rules));
  }

  lemma DropLoopGivesBack(original: Tags, v: Checked, log: Log, order: seq<string>, layer: Layer, rules: Rules)
    requires Conserved(original, v.notUsed, log) && Enumerates(order, v.attrs)
    ensures Balanced(original, DropLoop(v, log, order, layer, rules).notUsed, log, Dropped(v.attrs, layer))
  {
    assert log - {} == log;
    DropLoopBalances(original, v, log, {}, order, layer, rules, v.attrs);
    DroppedInIs(v.attrs, order, layer);
    assert {} + DroppedIn(v.attrs, order, layer) == Dropped(v.attrs, layer);
  }

  lemma SameMap(x: Attrs, y: Attrs)
    requires forall a :: At(x, a) == At(y, a)
    ensures x == y
  {
    forall a
      ensures a in x <==> a in y
      ensures a in x ==> x[a] == y[a]
    {
      assert At(x, a) == At(y, a);
    }
  }

  // ----- The second loop -----

  /** An attribute after the second loop: columns are looked at independently. */
  lemma {:induction false} ColumnLoopAttrs(v: Checked, log: Log, columns: seq<Column>, rules: Rules, code: string)
    requires DistinctColumns(columns)
    ensures var r := ColumnLoop(v, log, columns, rules, code);
            && (forall i :: 0 <= i < |columns| && ResetOf(columns[i], v.attrs, rules, code).Some? ==>
                  At(r.attrs, columns[i].name) == ResetOf(columns[i], v.attrs, rules, code))
            && (forall a :: a !in ResetNames(columns, v.attrs, rules, code) ==> At(r.attrs, a) == At(v.attrs, a))
    decreases |columns|
  {
    if |columns| > 0 {
      var rest := columns[1..];
      var next := CheckColumn(v, log, columns[0], rules, code);
      LaterColumns(v, log, columns, rules, code);
      ColumnLoopAttrs(next, log, rest, rules, code);
      ResetNamesStep(columns, v.attrs, next.attrs, rules, code);
    }
  }

  lemma LaterColumns(v: Checked, log: Log, columns: seq<Column>, rules: Rules, code: string)
    requires |columns| > 0 && DistinctColumns(columns)
    ensures DistinctColumns(columns[1..])
    ensures forall i :: 0 <= i < |columns| - 1 ==> columns[1..][i] == columns[i + 1]
    ensures forall i :: 1 <= i < |columns| ==>
              At(CheckColumn(v, log, columns[0], rules, code).attrs, columns[i].name) == At(v.attrs, columns[i].name)
  {
  }

  lemma {:induction false} ColumnLoopBalances(original: Tags, v: Checked, log: Log, lost: set<string>, columns: seq<Column>,
                                              rules: Rules, code: string)
    requires Balanced(original, v.notUsed, log, lost)
    requires TagsDiffer(log) && DistinctColumns(columns)
    ensures Balanced(original, ColumnLoop(v, log, columns, rules, code).notUsed, log,
                     lost + ResetNames(columns, v.attrs, rules, code))
    decreases |columns|
  {
    if |columns| == 0 {
      assert lost + ResetNames(columns, v.attrs, rules, code) == lost;
    } else {
      var c, rest := columns[0], columns[1..];
      var next := CheckColumn(v, log, c, rules, code);
      var here := if ResetOf(c, v.attrs, rules, code).Some? then {c.name} else {};
      if here == {c.name} {
        GiveBackBalances(original, v.notUsed, log, lost, c.name);
      } else {
        assert lost + here == lost;
      }
      LaterColumns(v, log, columns, rules, code);
      ColumnLoopBalances(original, next, log, lost + here, rest, rules, code);
      ResetNamesStep(columns, v.attrs, next.attrs, rules, code);
      assert lost + here + ResetNames(rest, next.attrs, rules, code) == lost + ResetNames(columns, v.attrs, rules, code);
    }
  }

  lemma ResetNamesStep(columns: seq<Column>, attrs: Attrs, next: Attrs, rules: Rules, code: string)
    requires |columns| > 0
    requires forall i :: 1 <= i < |columns| ==> At(next, columns[i].name) == At(attrs, columns[i].name)
    ensures ResetNames(columns, attrs, rules, code)
            == (if ResetOf(columns[0], attrs, rules, code).Some? then {columns[0].name} else {})
               + ResetNames(columns[1..], next, rules, code)
  {
  }

  // ----- What is given back, whatever was lost before -----

  /** Whatever was lost has been given back, and, strictly, nothing else has. */
  ghost predicate Returned(notUsed: Tags, log: Log, lost: set<string>, strict: bool) {
    GivenBack(notUsed, log, lost) && (strict ==> forall a <- log :: a !in lost ==> log[a].tag !in notUsed)
  }

  /** No tag is both unused and behind an attribute. */
  ghost predicate Separate(notUsed: Tags, log: Log) {
    forall a <- log :: log[a].tag !in notUsed
  }

  lemma GiveBackReturns(notUsed: Tags, log: Log, lost: set<string>, a: string, strict: bool)
    requires Returned(notUsed, log, lost, strict) && TagsDiffer(log)
    ensures Returned(GiveBack(notUsed, log, a), log, lost + {a}, strict)
  {
  }

  lemma {:induction false} DropLoopReturns(v: Checked, log: Log, lost: set<string>, strict: bool, order: seq<string>,
                                           layer: Layer, rules: Rules, attrs: Attrs)
    requires Returned(v.notUsed, log, lost, strict) && TagsDiffer(log)
    requires forall i, j :: 0 <= i < j < |order| ==> order[i] != order[j]
    requires forall i :: 0 <= i < |order| ==> (order[i] in v.attrs <==> order[i] in attrs)
    ensures Returned(DropLoop(v, log, order, layer, rules).notUsed, log, lost + DroppedIn(attrs, order, layer), strict)
    decreases |order|
  {
    if |order| == 0 {
      assert lost + {} == lost;
    } else {
      var val, rest := order[0], order[1..];
      var next := DropOrCut(v, log, val, layer, rules);
      var here := if val in attrs && !HasColumn(layer, val) then {val} else {};
      assert forall i :: 0 <= i < |rest| ==> rest[i] == order[i + 1] != val;
      if here == {val} {
        GiveBackReturns(v.notUsed, log, lost, val, strict);
      } else {
        assert lost + here == lost;
      }
      DropLoopReturns(next, log, lost + here, strict, rest, layer, rules, attrs);
      assert lost + here + DroppedIn(attrs, rest, layer) == lost + DroppedIn(attrs, order, layer);
    }
  }

  lemma {:induction false} ColumnLoopReturns(v: Checked, log: Log, lost: set<string>, strict: bool,
                                             columns: seq<Column>, rules: Rules, code: string)
    requires Returned(v.notUsed, log, lost, strict) && TagsDiffer(log) && DistinctColumns(columns)
    ensures Returned(ColumnLoop(v, log, columns, rules, code).notUsed, log, lost + ResetNames(columns, v.attrs, rules, code), strict)
    decreases |columns|
  {
    if |columns| == 0 {
      assert lost + ResetNames(columns, v.attrs, rules, code) == lost;
    } else {
      var c, rest := columns[0], columns[1..];
      var next := CheckColumn(v, log, c, rules, code);
      var here := if ResetOf(c, v.attrs, rules, code).Some? then {c.name} else {};
      if here == {c.name} {
        GiveBackReturns(v.notUsed, log, lost, c.name, strict);
      } else {
        assert lost + here == lost;
      }
      LaterColumns(v, log, columns, rules, code);
      ColumnLoopReturns(next, log, lost + here, strict, rest, rules, code);
      ResetNamesStep(columns, v.attrs, next.attrs, rules, code);
      assert lost + here + ResetNames(rest, next.attrs, rules, code) == lost + ResetNames(columns, v.attrs, rules, code);
    }
  }

  /** As long as no two entries of the log name one tag, the tag behind every attribute that
      was dropped or reset is among the unused tags, with its value; and no other tag of the
      log is, if none was before. */
  lemma ValidateReturns(v: Checked, log: Log, order: seq<string>, layer: Layer, rules: Rules, geometry: string)
    requires TagsDiffer(log) && Enumerates(order, v.attrs) && DistinctColumns(layer.columns)
    ensures Returned(Validate(v, log, order, Some(layer), rules, geometry).notUsed, log,
                     Lost(v.attrs, layer, rules, geometry), Separate(v.notUsed, log))
  {
    var fitted := DropLoop(v, log, order, layer, rules);
    var strict := Separate(v.notUsed, log);
    DropLoopForm(v, log, order, layer, rules);
    DropLoopReturns(v, log, {}, strict, order, layer, rules, v.attrs);
    DroppedInIs(v.attrs, order, layer);
    assert {} + DroppedIn(v.attrs, order, layer) == Dropped(v.attrs, layer);
    ColumnLoopReturns(fitted, log, Dropped(v.attrs, layer), strict, layer.columns, rules, GeometryCode(fitted.attrs, geometry));
  }

  /** The log of the passes is like that. */
  lemma PassesLogDiffers(attrs: Attrs, tags: Tags, order: seq<string>, t: Tables)
    requires Enumerates(order, TxtPass(NumPass(State(attrs, tags, map[]), t.numRules, t.numbers), t.txtRules).tags)
    ensures TagsDiffer(Passes(State(attrs, tags, map[]), order, t).log)
  {
    var start := State(attrs, tags, map[]);
    var s := Passes(start, order, t);
    PassesEffect(start, order, t);
    forall a | a in s.log
      ensures Aim(t, s.log[a].tag, s.log[a].original) == Some(a) && s.log[a].original == tags[s.log[a].tag]
    {
      assert MovedHere(start, Aims(t), s, a);
    }
  }

  // ----- The whole validation -----

  /** `validateAttrs` keeps the books balanced: a tag whose attribute was dropped or reset is
      among the unused tags again, and no other tag is. */
  lemma ValidateConserves(original: Tags, v: Checked, log: Log, order: seq<string>, layer: Layer, rules: Rules, geometry: string)
    requires Conserved(original, v.notUsed, log)
    requires Enumerates(order, v.attrs) && DistinctColumns(layer.columns)
    ensures Balanced(original, Validate(v, log, order, Some(layer), rules, geometry).notUsed, log,
                     Lost(v.attrs, layer, rules, geometry))
  {
    var fitted := DropLoop(v, log, order, layer, rules);
    DropLoopForm(v, log, order, layer, rules);
    DropLoopGivesBack(original, v, log, order, layer, rules);
    ColumnLoopBalances(original, fitted, log, Dropped(v.attrs, layer), layer.columns, rules,
                       GeometryCode(fitted.attrs, geometry));
  }

  lemma {:induction false} DropLoopSources(v: Checked, log: Log, order: seq<string>, layer: Layer, rules: Rules)
    ensures forall k <- DropLoop(v, log, order, layer, rules).notUsed :: k in v.notUsed || Behind(log, k)
    decreases |order|
  {
    if |order| > 0 {
      DropLoopSources(DropOrCut(v, log, order[0], layer, rules), log, order[1..], layer, rules);
    }
  }

  lemma {:induction false} ColumnLoopSources(v: Checked, log: Log, columns: seq<Column>, rules: Rules, code: string)
    ensures forall k <- ColumnLoop(v, log, columns, rules, code).notUsed :: k in v.notUsed || Behind(log, k)
    decreases |columns|
  {
    if |columns| > 0 {
      ColumnLoopSources(CheckColumn(v, log, columns[0], rules, code), log, columns[1..], rules, code);
    }
  }

  /** A tag that is neither left nor in the log is not brought back by the validation. */
  lemma StaysLost(tags: Tags, given: Checked, log: Log, visit: seq<string>, layer: Layer, rules: Rules, geometry: string, x: string)
    requires x in tags && x !in given.notUsed && !Behind(log, x)
    ensures !Conserved(tags, Validate(given, log, visit, Some(layer), rules, geometry).notUsed,
                       log - Lost(given.attrs, layer, rules, geometry))
  {
    var v := Validate(given, log, visit, Some(layer), rules, geometry);
    var fitted := DropLoop(given, log, visit, layer, rules);
    DropLoopSources(given, log, visit, layer, rules);
    ColumnLoopSources(fitted, log, layer.columns, rules, GeometryCode(fitted.attrs, geometry));
    assert x !in v.notUsed;
    assert !Behind(log - Lost(given.attrs, layer, rules, geometry), x);
  }

  /** The passes and the validation together lose no tag if and only if no two tags were
      aimed at the same attribute: the unused tags and the tags behind the attributes that
      were neither dropped nor reset are then the original ones. */
  lemma TranslationConservesIff(attrs: Attrs, tags: Tags, order: seq<string>, t: Tables,
                                visit: seq<string>, layer: Layer, rules: Rules, geometry: string)
    requires Enumerates(order, TxtPass(NumPass(State(attrs, tags, map[]), t.numRules, t.numbers), t.txtRules).tags)
    requires Enumerates(visit, Passes(State(attrs, tags, map[]), order, t).attrs)
    requires DistinctColumns(layer.columns)
    ensures var s := Passes(State(attrs, tags, map[]), order, t);
            var v := Validate(Checked(s.attrs, s.tags), s.log, visit, Some(layer), rules, geometry);
            Conserved(tags, v.notUsed, s.log - Lost(s.attrs, layer, rules, geometry)) <==> AimsDiffer(tags, t)
  {
    var s := Passes(State(attrs, tags, map[]), order, t);
    var given := Checked(s.attrs, s.tags);
    ConservedIff(attrs, tags, order, t);
    if AimsDiffer(tags, t) {
      ValidateConserves(tags, given, s.log, visit, layer, rules, geometry);
    } else {
      LosersStayLost(attrs, tags, order, t);
      var k :| k in tags && k !in s.tags && !Behind(s.log, k);
      StaysLost(tags, given, s.log, visit, layer, rules, geometry, k);
    }
  }

  /** Of two tags with the same aim, one is neither left nor logged. */
  lemma LosersStayLost(attrs: Attrs, tags: Tags, order: seq<string>, t: Tables)
    requires Enumerates(order, TxtPass(NumPass(State(attrs, tags, map[]), t.numRules, t.numbers), t.txtRules).tags)
    requires !AimsDiffer(tags, t)
    ensures var s := Passes(State(attrs, tags, map[]), order, t);
            exists k :: k in tags && k !in s.tags && !Behind(s.log, k)
  {
    var start := State(attrs, tags, map[]);
    var s := Passes(start, order, t);
    PassesEffect(start, order, t);
    var a, b :| a in tags && b in tags && a != b && Aim(t, a, tags[a]).Some? && Aim(t, a, tags[a]) == Aim(t, b, tags[b]);
    forall x | x in s.log
      ensures Aim(t, s.log[x].tag, tags[s.log[x].tag]) == Some(x)
    {
      assert MovedHere(start, Aims(t), s, x);
    }
    var aim := Aim(t, a, tags[a]).value;
    var k := if s.log[aim].tag == a then b else a;
    assert !Behind(s.log, k);
  }
}
