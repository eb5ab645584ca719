/** What `validateAttrs` of translations/dnc_core.js leaves behind: attributes the layer
    allows, which a second run would not change again. */
module DncValidated {
  import opened DncConservation
  import opened DncUndoLog
  import opened DncValidate
  import opened Objects
  import opened Wrappers

  /** The code under which the defaults are looked up, after the first loop. */
  function CodeOf(attrs: Attrs, layer: Layer, rules: Rules, geometry: string): string {
    GeometryCode(Fitted(attrs, layer, rules), geometry)
  }

  /** What happens to a column over the whole of the validation. */
  function ResetIn(c: Column, attrs: Attrs, layer: Layer, rules: Rules, geometry: string): Option<Attr> {
    ResetOf(c, Fitted(attrs, layer, rules), rules, CodeOf(attrs, layer, rules, geometry))
  }

  function Outcome(c: Column, attrs: Attrs, layer: Layer, rules: Rules, geometry: string): Option<Attr> {
    var reset := ResetIn(c, attrs, layer, rules, geometry);
    if reset.Some? then reset else FittedAt(attrs, layer, rules, c.name)
  }

  predicate Runs(v: Checked, order: seq<string>, layer: Layer) {
    Enumerates(order, v.attrs) && DistinctColumns(layer.columns)
  }

  lemma NotReset(columns: seq<Column>, i: nat, attrs: Attrs, rules: Rules, code: string)
    requires i < |columns| && DistinctColumns(columns) && ResetOf(columns[i], attrs, rules, code).None?
    ensures columns[i].name !in ResetNames(columns, attrs, rules, code)
  {
  }

  /** The value of each column afterwards, and of anything else. */
  lemma ColumnOutcomes(v: Checked, log: Log, order: seq<string>, layer: Layer, rules: Rules, geometry: string)
    requires Runs(v, order, layer)
    ensures var r := Validate(v, log, order, Some(layer), rules, geometry).attrs;
            && (forall i :: 0 <= i < |layer.columns| ==>
                  At(r, layer.columns[i].name) == Outcome(layer.columns[i], v.attrs, layer, rules, geometry))
            && (forall a :: !HasColumn(layer, a) ==> a !in r)
  {
    var r := Validate(v, log, order, Some(layer), rules, geometry).attrs;
    var fitted := Fitted(v.attrs, layer, rules);
    var code := GeometryCode(fitted, geometry);
    var mid := DropLoop(v, log, order, layer, rules);
    DropLoopForm(v, log, order, layer, rules);
    ColumnLoopAttrs(mid, log, layer.columns, rules, code);
    forall i | 0 <= i < |layer.columns|
      ensures At(r, layer.columns[i].name) == Outcome(layer.columns[i], v.attrs, layer, rules, geometry)
    {
      if ResetOf(layer.columns[i], fitted, rules, code).None? {
        NotReset(layer.columns, i, fitted, rules, code);
      }
    }
    forall a | !HasColumn(layer, a)
      ensures a !in r
    {
      OnlyColumnsReset(layer, fitted, rules, code, a);
      assert At(r, a) == At(fitted, a);
    }
  }

  lemma OnlyColumnsReset(layer: Layer, attrs: Attrs, rules: Rules, code: string, a: string)
    requires !HasColumn(layer, a)
    ensures a !in ResetNames(layer.columns, attrs, rules, code)
  {
  }

  /** Every attribute is a column of the layer. A column with a default for the feature code
      holds that; an enumerated one holds a listed value, or its own default value; and
      a column that kept its value has no more text than it may. */
  lemma ValidatedAttributes(v: Checked, log: Log, order: seq<string>, layer: Layer, rules: Rules, geometry: string,
                            c: Column)
    requires Runs(v, order, layer) && c in layer.columns
    ensures var r := Validate(v, log, order, Some(layer), rules, geometry).attrs;
            var default := DefaultFor(rules, CodeOf(v.attrs, layer, rules, geometry), c.name);
            && (forall a <- r :: HasColumn(layer, a))
            && (default.Some? ==> At(r, c.name) == Some(Text(default.value)))
            && (default.None? && c.enumerated ==>
                  c.name in r && r[c.name].Text? && (r[c.name].text in c.values || r[c.name].text == c.defValue))
            && (c.name in r && c.name in rules.txtLength && ResetIn(c, v.attrs, layer, rules, geometry).None? ==>
                  Within(r[c.name], rules.txtLength[c.name]))
  {
    ColumnOutcomes(v, log, order, layer, rules, geometry);
    var i :| 0 <= i < |layer.columns| && layer.columns[i] == c;
    if c.name in v.attrs && c.name in rules.txtLength {
      CutAttrFits(v.attrs[c.name], rules.txtLength[c.name]);
    }
  }

  /** Text of this length at most; a whole number has no length. */
  predicate Within(value: Attr, length: nat) {
    value.Text? ==> |value.text| <= length
  }

  lemma CutAttrFits(value: Attr, length: nat)
    ensures Within(CutAttr(value, length), length)
    ensures Within(value, length) ==> CutAttr(value, length) == value
  {
    if value.Text? {
      CutFits(value.text, length);
    }
  }

  // ----- A second run -----

  function CutFor(c: Column, value: Attr, rules: Rules): Attr {
    if c.name in rules.txtLength then CutAttr(value, rules.txtLength[c.name]) else value
  }

  /** A value that validation under this code leaves alone. */
  predicate Settled(c: Column, value: Option<Attr>, rules: Rules, code: string) {
    var default := DefaultFor(rules, code, c.name);
    if default.Some? then value == Some(Text(default.value))
    else if value.None? then !c.enumerated
    else
      var cut := CutFor(c, value.value, rules);
      if !c.enumerated || Listed(c, Some(cut)) then cut == value.value
      else if "999" in c.values then value.value == Text("999")
      else value.value == Text(c.defValue)
  }

  function ColumnNamed(columns: seq<Column>, name: string): Option<Column> {
    if |columns| == 0 then None else if columns[0].name == name then Some(columns[0]) else ColumnNamed(columns[1..], name)
  }

  lemma {:induction false} ColumnNamedIs(columns: seq<Column>, name: string)
    ensures var c := ColumnNamed(columns, name);
            if c.Some? then c.value in columns && c.value.name == name else forall d <- columns :: d.name != name
  {
    if |columns| > 0 {
      ColumnNamedIs(columns[1..], name);
    }
  }

  /** What a second run finds as the feature code, after its first loop. */
  function CodeValueAfter(attrs: Attrs, layer: Layer, rules: Rules, geometry: string): Option<Attr> {
    match ColumnNamed(layer.columns, "F_CODE")
    case None => None
    case Some(c) =>
      match Outcome(c, attrs, layer, rules, geometry)
      case None => None
      case Some(value) => Some(CutFor(c, value, rules))
  }

  /** The code under which a second run looks the defaults up. */
  function CodeAfter(attrs: Attrs, layer: Layer, rules: Rules, geometry: string): string {
    match CodeValueAfter(attrs, layer, rules, geometry)
    case None => GeometryCode(map[], geometry)
    case Some(value) => GeometryCode(map["F_CODE" := value], geometry)
  }

  lemma OutcomeIs(v: Checked, log: Log, order: seq<string>, layer: Layer, rules: Rules, geometry: string, c: Column)
    requires Runs(v, order, layer) && c in layer.columns
    ensures HasColumn(layer, c.name)
    ensures At(Validate(v, log, order, Some(layer), rules, geometry).attrs, c.name) == Outcome(c, v.attrs, layer, rules, geometry)
  {
    ColumnOutcomes(v, log, order, layer, rules, geometry);
    var i :| 0 <= i < |layer.columns| && layer.columns[i] == c;
  }

  lemma FittedAtIs(attrs: Attrs, layer: Layer, rules: Rules, a: string)
    ensures At(Fitted(attrs, layer, rules), a) == FittedAt(attrs, layer, rules, a)
  {
  }

  lemma SameGeometryCode(x: Attrs, value: Option<Attr>, geometry: string)
    requires At(x, "F_CODE") == value
    ensures GeometryCode(x, geometry)
            == match value case None => GeometryCode(map[], geometry) case Some(a) => GeometryCode(map["F_CODE" := a], geometry)
  {
  }

  lemma CodeAfterIs(v: Checked, log: Log, order: seq<string>, layer: Layer, rules: Rules, geometry: string)
    requires Runs(v, order, layer)
    ensures CodeOf(Validate(v, log, order, Some(layer), rules, geometry).attrs, layer, rules, geometry)
            == CodeAfter(v.attrs, layer, rules, geometry)
  {
    var r := Validate(v, log, order, Some(layer), rules, geometry).attrs;
    ColumnNamedIs(layer.columns, "F_CODE");
    var c := ColumnNamed(layer.columns, "F_CODE");
    if c.Some? {
      OutcomeIs(v, log, order, layer, rules, geometry, c.value);
    }
    FittedAtIs(r, layer, rules, "F_CODE");
    SameGeometryCode(Fitted(r, layer, rules), CodeValueAfter(v.attrs, layer, rules, geometry), geometry);
  }

  lemma OutcomeAgain(c: Column, r: Attrs, layer: Layer, rules: Rules, geometry: string)
    requires c in layer.columns
    ensures Outcome(c, r, layer, rules, geometry) == At(r, c.name)
            <==> Settled(c, At(r, c.name), rules, CodeOf(r, layer, rules, geometry))
  {
    assert HasColumn(layer, c.name);
    assert At(Fitted(r, layer, rules), c.name) == FittedAt(r, layer, rules, c.name);
  }

  /** Whatever the feature code has become, a second run leaves the attributes alone if and
      only if the value of every column is settled under the code that it has now. */
  lemma SecondRunKeepsAttrsIff(v: Checked, log: Log, order: seq<string>, again: seq<string>,
                               layer: Layer, rules: Rules, geometry: string)
    requires Runs(v, order, layer) && Enumerates(again, Validate(v, log, order, Some(layer), rules, geometry).attrs)
    ensures var r := Validate(v, log, order, Some(layer), rules, geometry);
            Validate(r, log, again, Some(layer), rules, geometry).attrs == r.attrs <==>
              forall c <- layer.columns ::
                Settled(c, Outcome(c, v.attrs, layer, rules, geometry), rules, CodeAfter(v.attrs, layer, rules, geometry))
  {
    var r := Validate(v, log, order, Some(layer), rules, geometry);
    var second := Validate(r, log, again, Some(layer), rules, geometry).attrs;
    CodeAfterIs(v, log, order, layer, rules, geometry);
    ColumnOutcomes(v, log, order, layer, rules, geometry);
    ColumnOutcomes(r, log, again, layer, rules, geometry);
    forall c | c in layer.columns
      ensures At(r.attrs, c.name) == Outcome(c, v.attrs, layer, rules, geometry)
      ensures At(second, c.name) == At(r.attrs, c.name)
              <==> Settled(c, At(r.attrs, c.name), rules, CodeOf(r.attrs, layer, rules, geometry))
    {
      var i :| 0 <= i < |layer.columns| && layer.columns[i] == c;
      OutcomeAgain(c, r.attrs, layer, rules, geometry);
    }
    SameColumns(second, r.attrs, layer);
  }

  lemma SameColumns(x: Attrs, y: Attrs, layer: Layer)
    requires forall a :: !HasColumn(layer, a) ==> a !in x && a !in y
    ensures x == y <==> forall c <- layer.columns :: At(x, c.name) == At(y, c.name)
  {
    if forall c <- layer.columns :: At(x, c.name) == At(y, c.name) {
      forall a
        ensures At(x, a) == At(y, a)
      {
        if HasColumn(layer, a) {
          var c :| c in layer.columns && c.name == a;
        }
      }
      SameMap(x, y);
    }
  }

  /** Under an unchanged code only a reset without a default for the code can be changed
      again: when the value it was reset to does not fit, or is taken for an unlisted one. */
  predicate Resettles(c: Column, attrs: Attrs, layer: Layer, rules: Rules, geometry: string) {
    var reset := ResetIn(c, attrs, layer, rules, geometry);
    reset.Some? && DefaultFor(rules, CodeOf(attrs, layer, rules, geometry), c.name).None? ==>
      var cut := CutFor(c, reset.value, rules);
      if Listed(c, Some(cut)) then cut == reset.value else "999" !in c.values || reset.value == Text("999")
  }

  lemma SettledIff(c: Column, attrs: Attrs, layer: Layer, rules: Rules, geometry: string)
    requires c in layer.columns
    ensures Settled(c, Outcome(c, attrs, layer, rules, geometry), rules, CodeOf(attrs, layer, rules, geometry))
            <==> Resettles(c, attrs, layer, rules, geometry)
  {
    assert HasColumn(layer, c.name);
    assert At(Fitted(attrs, layer, rules), c.name) == FittedAt(attrs, layer, rules, c.name);
    if c.name in attrs && c.name in rules.txtLength {
      CutAttrFits(attrs[c.name], rules.txtLength[c.name]);
      CutAttrFits(CutFor(c, attrs[c.name], rules), rules.txtLength[c.name]);
    }
  }

  /** Under an unchanged code a column that the second run resets was reset by the first. */
  lemma ResetBefore(c: Column, attrs: Attrs, layer: Layer, rules: Rules, geometry: string)
    requires c in layer.columns && CodeAfter(attrs, layer, rules, geometry) == CodeOf(attrs, layer, rules, geometry)
    ensures ResetAgain(c, attrs, layer, rules, geometry) ==> ResetIn(c, attrs, layer, rules, geometry).Some?
  {
    assert HasColumn(layer, c.name);
    assert At(Fitted(attrs, layer, rules), c.name) == FittedAt(attrs, layer, rules, c.name);
    if c.name in attrs && c.name in rules.txtLength {
      CutAttrFits(attrs[c.name], rules.txtLength[c.name]);
      CutAttrFits(CutFor(c, attrs[c.name], rules), rules.txtLength[c.name]);
    }
  }

  lemma {:induction false} DropLoopKeepsUnused(v: Checked, log: Log, order: seq<string>, layer: Layer, rules: Rules)
    requires forall a <- v.attrs :: HasColumn(layer, a)
    ensures DropLoop(v, log, order, layer, rules).notUsed == v.notUsed
    decreases |order|
  {
    if |order| > 0 {
      DropLoopKeepsUnused(DropOrCut(v, log, order[0], layer, rules), log, order[1..], layer, rules);
    }
  }

  lemma {:induction false} ColumnLoopKeepsUnused(v: Checked, log: Log, columns: seq<Column>, rules: Rules, code: string)
    requires DistinctColumns(columns)
    requires forall a <- ResetNames(columns, v.attrs, rules, code) :: GiveBack(v.notUsed, log, a) == v.notUsed
    ensures ColumnLoop(v, log, columns, rules, code).notUsed == v.notUsed
    decreases |columns|
  {
    if |columns| > 0 {
      var next := CheckColumn(v, log, columns[0], rules, code);
      LaterColumns(v, log, columns, rules, code);
      ResetNamesStep(columns, v.attrs, next.attrs, rules, code);
      ColumnLoopKeepsUnused(next, log, columns[1..], rules, code);
    }
  }

  lemma AlreadyGiven(notUsed: Tags, log: Log, lost: set<string>, a: string)
    requires GivenBack(notUsed, log, lost) && (a in lost || a !in log)
    ensures GiveBack(notUsed, log, a) == notUsed
  {
  }

  /** Whether a second run resets a column. */
  predicate ResetAgain(c: Column, attrs: Attrs, layer: Layer, rules: Rules, geometry: string) {
    var value := Outcome(c, attrs, layer, rules, geometry);
    var cut := if value.None? then None else Some(CutFor(c, value.value, rules));
    Reset(c, cut, DefaultFor(rules, CodeAfter(attrs, layer, rules, geometry), c.name)).Some?
  }

  lemma ResetAgainIs(v: Checked, log: Log, order: seq<string>, layer: Layer, rules: Rules, geometry: string, c: Column)
    requires Runs(v, order, layer) && c in layer.columns
    ensures var r := Validate(v, log, order, Some(layer), rules, geometry).attrs;
            ResetIn(c, r, layer, rules, geometry).Some? <==> ResetAgain(c, v.attrs, layer, rules, geometry)
  {
    var r := Validate(v, log, order, Some(layer), rules, geometry).attrs;
    OutcomeIs(v, log, order, layer, rules, geometry, c);
    CodeAfterIs(v, log, order, layer, rules, geometry);
    FittedAtIs(r, layer, rules, c.name);
  }

  /** The names of the columns that a second run resets. */
  lemma NamesResetAgain(v: Checked, log: Log, order: seq<string>, again: seq<string>, layer: Layer, rules: Rules, geometry: string)
    requires Runs(v, order, layer) && Enumerates(again, Validate(v, log, order, Some(layer), rules, geometry).attrs)
    ensures var r := Validate(v, log, order, Some(layer), rules, geometry);
            var fitted := DropLoop(r, log, again, layer, rules);
            && fitted.notUsed == r.notUsed && fitted.attrs == Fitted(r.attrs, layer, rules)
            && forall a :: a in ResetNames(layer.columns, fitted.attrs, rules, CodeAfter(v.attrs, layer, rules, geometry)) <==>
                 exists c :: c in layer.columns && c.name == a && ResetAgain(c, v.attrs, layer, rules, geometry)
  {
    var r := Validate(v, log, order, Some(layer), rules, geometry);
    ColumnOutcomes(v, log, order, layer, rules, geometry);
    CodeAfterIs(v, log, order, layer, rules, geometry);
    DropLoopForm(r, log, again, layer, rules);
    DropLoopKeepsUnused(r, log, again, layer, rules);
    forall i | 0 <= i < |layer.columns|
      ensures ResetIn(layer.columns[i], r.attrs, layer, rules, geometry).Some?
              <==> ResetAgain(layer.columns[i], v.attrs, layer, rules, geometry)
    {
      ResetAgainIs(v, log, order, layer, rules, geometry, layer.columns[i]);
    }
    forall c | c in layer.columns && ResetAgain(c, v.attrs, layer, rules, geometry)
      ensures c.name in ResetNames(layer.columns, Fitted(r.attrs, layer, rules), rules, CodeAfter(v.attrs, layer, rules, geometry))
    {
      var i :| 0 <= i < |layer.columns| && layer.columns[i] == c;
    }
  }

  /** A column that is not reset is not lost. */
  lemma KeptColumn(attrs: Attrs, layer: Layer, rules: Rules, geometry: string, c: Column)
    requires DistinctColumns(layer.columns) && c in layer.columns && ResetIn(c, attrs, layer, rules, geometry).None?
    ensures c.name !in Lost(attrs, layer, rules, geometry)
  {
    var i :| 0 <= i < |layer.columns| && layer.columns[i] == c;
    NotReset(layer.columns, i, Fitted(attrs, layer, rules), rules, CodeOf(attrs, layer, rules, geometry));
  }

  lemma LostColumn(attrs: Attrs, layer: Layer, rules: Rules, geometry: string, c: Column)
    requires c in layer.columns && ResetIn(c, attrs, layer, rules, geometry).Some?
    ensures c.name in Lost(attrs, layer, rules, geometry)
  {
    var i :| 0 <= i < |layer.columns| && layer.columns[i] == c;
  }

  /** Every column that a second run resets, and that has a tag behind it, was reset before. */
  predicate NothingNewReset(attrs: Attrs, log: Log, layer: Layer, rules: Rules, geometry: string) {
    forall c <- layer.columns :: c.name in log && ResetAgain(c, attrs, layer, rules, geometry) ==>
      ResetIn(c, attrs, layer, rules, geometry).Some?
  }

  lemma UnusedKept(v: Checked, log: Log, order: seq<string>, again: seq<string>, layer: Layer, rules: Rules, geometry: string)
    requires Runs(v, order, layer) && Enumerates(again, Validate(v, log, order, Some(layer), rules, geometry).attrs)
    requires TagsDiffer(log) && NothingNewReset(v.attrs, log, layer, rules, geometry)
    ensures var r := Validate(v, log, order, Some(layer), rules, geometry);
            Validate(r, log, again, Some(layer), rules, geometry).notUsed == r.notUsed
  {
    var r := Validate(v, log, order, Some(layer), rules, geometry);
    var fitted, code := DropLoop(r, log, again, layer, rules), CodeAfter(v.attrs, layer, rules, geometry);
    ValidateReturns(v, log, order, layer, rules, geometry);
    NamesResetAgain(v, log, order, again, layer, rules, geometry);
    CodeAfterIs(v, log, order, layer, rules, geometry);
    forall a | a in ResetNames(layer.columns, fitted.attrs, rules, code)
      ensures GiveBack(r.notUsed, log, a) == r.notUsed
    {
      var c :| c in layer.columns && c.name == a && ResetAgain(c, v.attrs, layer, rules, geometry);
      if a in log {
        LostColumn(v.attrs, layer, rules, geometry, c);
      }
      AlreadyGiven(r.notUsed, log, Lost(v.attrs, layer, rules, geometry), a);
    }
    ColumnLoopKeepsUnused(fitted, log, layer.columns, rules, code);
  }

  lemma UnusedGrow(v: Checked, log: Log, order: seq<string>, again: seq<string>, layer: Layer, rules: Rules, geometry: string,
                   c: Column)
    requires Runs(v, order, layer) && Enumerates(again, Validate(v, log, order, Some(layer), rules, geometry).attrs)
    requires TagsDiffer(log) && Separate(v.notUsed, log)
    requires c in layer.columns && c.name in log && ResetAgain(c, v.attrs, layer, rules, geometry)
    requires ResetIn(c, v.attrs, layer, rules, geometry).None?
    ensures var r := Validate(v, log, order, Some(layer), rules, geometry);
            var second := Validate(r, log, again, Some(layer), rules, geometry);
            log[c.name].tag !in r.notUsed && log[c.name].tag in second.notUsed
  {
    var r := Validate(v, log, order, Some(layer), rules, geometry);
    ValidateReturns(v, log, order, layer, rules, geometry);
    KeptColumn(v.attrs, layer, rules, geometry, c);
    ValidateReturns(r, log, again, layer, rules, geometry);
    ResetAgainIs(v, log, order, layer, rules, geometry, c);
    LostColumn(r.attrs, layer, rules, geometry, c);
  }

  /** Whatever the feature code has become, a second run changes nothing at all if and only
      if the value of every column is settled under it, and nothing with a tag behind it is
      newly reset. */
  lemma SecondRunChangesNothingIff(v: Checked, log: Log, order: seq<string>, again: seq<string>,
                                   layer: Layer, rules: Rules, geometry: string)
    requires Runs(v, order, layer) && Enumerates(again, Validate(v, log, order, Some(layer), rules, geometry).attrs)
    requires TagsDiffer(log) && Separate(v.notUsed, log)
    ensures var r := Validate(v, log, order, Some(layer), rules, geometry);
            Validate(r, log, again, Some(layer), rules, geometry) == r <==>
              && (forall c <- layer.columns ::
                    Settled(c, Outcome(c, v.attrs, layer, rules, geometry), rules, CodeAfter(v.attrs, layer, rules, geometry)))
              && NothingNewReset(v.attrs, log, layer, rules, geometry)
  {
    SecondRunKeepsAttrsIff(v, log, order, again, layer, rules, geometry);
    if NothingNewReset(v.attrs, log, layer, rules, geometry) {
      UnusedKept(v, log, order, again, layer, rules, geometry);
    } else {
      var c :| c in layer.columns && c.name in log && ResetAgain(c, v.attrs, layer, rules, geometry)
               && ResetIn(c, v.attrs, layer, rules, geometry).None?;
      UnusedGrow(v, log, order, again, layer, rules, geometry, c);
    }
  }

  /** Under an unchanged code a second run gives nothing back that was not given back before. */
  lemma SecondRunKeepsUnused(v: Checked, log: Log, order: seq<string>, again: seq<string>,
                             layer: Layer, rules: Rules, geometry: string)
    requires Runs(v, order, layer) && Enumerates(again, Validate(v, log, order, Some(layer), rules, geometry).attrs)
    requires CodeAfter(v.attrs, layer, rules, geometry) == CodeOf(v.attrs, layer, rules, geometry)
    requires TagsDiffer(log)
    ensures var r := Validate(v, log, order, Some(layer), rules, geometry);
            Validate(r, log, again, Some(layer), rules, geometry).notUsed == r.notUsed
  {
    forall c | c in layer.columns && ResetAgain(c, v.attrs, layer, rules, geometry)
      ensures ResetIn(c, v.attrs, layer, rules, geometry).Some?
    {
      ResetBefore(c, v.attrs, layer, rules, geometry);
    }
    UnusedKept(v, log, order, again, layer, rules, geometry);
  }

  /** With the feature code unchanged, a second run changes nothing at all if and only if
      every column resettles, whatever the two visiting orders. */
  lemma SecondRunUnderSameCodeIff(v: Checked, log: Log, order: seq<string>, again: seq<string>,
                                  layer: Layer, rules: Rules, geometry: string)
    requires Runs(v, order, layer) && Enumerates(again, Validate(v, log, order, Some(layer), rules, geometry).attrs)
    requires CodeAfter(v.attrs, layer, rules, geometry) == CodeOf(v.attrs, layer, rules, geometry)
    requires TagsDiffer(log)
    ensures var r := Validate(v, log, order, Some(layer), rules, geometry);
            Validate(r, log, again, Some(layer), rules, geometry) == r <==>
              forall c <- layer.columns :: Resettles(c, v.attrs, layer, rules, geometry)
  {
    SecondRunKeepsAttrsIff(v, log, order, again, layer, rules, geometry);
    SecondRunKeepsUnused(v, log, order, again, layer, rules, geometry);
    forall c | c in layer.columns
      ensures Settled(c, Outcome(c, v.attrs, layer, rules, geometry), rules, CodeOf(v.attrs, layer, rules, geometry))
              <==> Resettles(c, v.attrs, layer, rules, geometry)
    {
      SettledIff(c, v.attrs, layer, rules, geometry);
    }
  }

  /** What the tables can say about a column so that it resettles for every feature: its
      default value, and the word 999, fit, and an unlisted default does not meet a 999. */
  predicate Settles(c: Column, rules: Rules, code: string) {
    DefaultFor(rules, code, c.name).None? && c.enumerated ==>
      && (c.name in rules.txtLength ==> |c.defValue| <= rules.txtLength[c.name] && 3 <= rules.txtLength[c.name])
      && (c.defValue in c.values || "999" !in c.values)
  }

  lemma SettlesForAll(c: Column, attrs: Attrs, layer: Layer, rules: Rules, geometry: string)
    requires Settles(c, rules, CodeOf(attrs, layer, rules, geometry))
    ensures Resettles(c, attrs, layer, rules, geometry)
  {
    if c.name in rules.txtLength {
      CutAttrFits(Text(c.defValue), rules.txtLength[c.name]);
      CutAttrFits(Text("999"), rules.txtLength[c.name]);
    }
  }

  /** The feature code is not reset to another one. */
  predicate KeepsCode(attrs: Attrs, layer: Layer, rules: Rules, geometry: string) {
    forall c <- layer.columns :: c.name == "F_CODE" ==>
      Outcome(c, attrs, layer, rules, geometry) == FittedAt(attrs, layer, rules, "F_CODE")
  }

  /** Then the second run looks the defaults up under the same code. */
  lemma SameCode(attrs: Attrs, layer: Layer, rules: Rules, geometry: string)
    requires KeepsCode(attrs, layer, rules, geometry)
    ensures CodeAfter(attrs, layer, rules, geometry) == CodeOf(attrs, layer, rules, geometry)
  {
    ColumnNamedIs(layer.columns, "F_CODE");
    var c := ColumnNamed(layer.columns, "F_CODE");
    if c.Some? && "F_CODE" in attrs && "F_CODE" in rules.txtLength {
      CutAttrFits(attrs["F_CODE"], rules.txtLength["F_CODE"]);
      CutAttrFits(CutFor(c.value, attrs["F_CODE"], rules), rules.txtLength["F_CODE"]);
    }
    assert At(Fitted(attrs, layer, rules), "F_CODE") == FittedAt(attrs, layer, rules, "F_CODE");
    assert CodeValueAfter(attrs, layer, rules, geometry) == FittedAt(attrs, layer, rules, "F_CODE");
  }

  /** A default value that is not listed, where "999" is, does not settle: a missing attribute
      is set to the default by the first run, and to "999" by the second. */
  lemma UnlistedDefaultDrifts(v: Checked, log: Log, order: seq<string>, again: seq<string>,
                              layer: Layer, rules: Rules, geometry: string, c: Column)
    requires Runs(v, order, layer) && Enumerates(again, Validate(v, log, order, Some(layer), rules, geometry).attrs)
    requires CodeAfter(v.attrs, layer, rules, geometry) == CodeOf(v.attrs, layer, rules, geometry)
    requires c in layer.columns && c.enumerated && c.name !in v.attrs && c.name !in rules.txtLength
    requires DefaultFor(rules, CodeOf(v.attrs, layer, rules, geometry), c.name).None?
    requires c.defValue !in c.values && "999" in c.values
    ensures var r := Validate(v, log, order, Some(layer), rules, geometry);
            && At(r.attrs, c.name) == Some(Text(c.defValue))
            && At(Validate(r, log, again, Some(layer), rules, geometry).attrs, c.name) == Some(Text("999"))
  {
    var r := Validate(v, log, order, Some(layer), rules, geometry);
    var i :| 0 <= i < |layer.columns| && layer.columns[i] == c;
    CodeAfterIs(v, log, order, layer, rules, geometry);
    ColumnOutcomes(v, log, order, layer, rules, geometry);
    ColumnOutcomes(r, log, again, layer, rules, geometry);
  }
}
