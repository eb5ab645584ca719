/** What `validateAttrs` of translations/dnc_core.js makes of every column, told from the
    attributes and the tables alone. */
module DncDefaults {
  import opened DncConservation
  import opened DncUndoLog
  import opened DncValidate
  import opened DncValidated
  import opened Objects
  import opened Text
  import opened Wrappers

  // ----- The layer -----

  predicate FirstNamed(schema: seq<Layer>, name: string, n: nat) {
    n < |schema| && schema[n].name == name && forall i :: 0 <= i < n ==> schema[i].name != name
  }

  /** The first layer of the name is the one that is looked at. */
  lemma {:induction false} LayerIs(schema: seq<Layer>, name: string, n: nat)
    ensures FirstNamed(schema, name, n) ==> FindLayer(schema, name) == Some(schema[n])
    ensures (forall i :: 0 <= i < |schema| ==> schema[i].name != name) ==> FindLayer(schema, name) == None
    decreases |schema|
  {
    if |schema| > 0 {
      if n > 0 {
        LayerIs(schema[1..], name, n - 1);
      } else {
        LayerIs(schema[1..], name, 0);
      }
    }
  }

  // ----- Text that is too long -----

  /** As many characters as fit, and none behind the first semicolon. */
  predicate CutTo(value: string, length: nat, text: string) {
    if |value| <= length then text == value
    else text <= value && ';' !in text && |text| <= length && (|text| == length || value[|text|] == ';')
  }

  lemma FirstPieceIs(value: string)
    ensures var first := Split(value, ";")[0];
            first <= value && ';' !in first && (first == value || value[|first|] == ';')
  {
    var i := IndexOf(value, ";");
    if i == -1 {
      forall j | 0 <= j < |value|
        ensures value[j] != ';'
      {
        assert !OccursAt(value, ";", j) && value[j..j + 1] == [value[j]];
      }
    } else {
      assert value[i..i + 1] == ";";
      forall j | 0 <= j < i
        ensures value[j] != ';'
      {
        assert !OccursAt(value, ";", j) && value[j..j + 1] == [value[j]];
      }
    }
  }

  lemma CutIff(value: string, length: nat, text: string)
    ensures CutTo(value, length, text) <==> text == Cut(value, length)
  {
    FirstPieceIs(value);
    var cut := Cut(value, length);
    assert CutTo(value, length, cut);
    if CutTo(value, length, text) && |value| > length {
      NoLonger(value, length, text, cut);
      NoLonger(value, length, cut, text);
      assert text == value[..|text|] && cut == value[..|cut|];
    }
  }

  lemma NoLonger(value: string, length: nat, a: string, b: string)
    requires |value| > length && CutTo(value, length, a) && b <= value && |b| <= length && ';' !in b
    ensures |b| <= |a|
  {
    assert forall i :: 0 <= i < |b| ==> value[i] == b[i] != ';';
  }

  // ----- After the first loop -----

  /** What is left of an attribute: nothing without a column; text that fits. */
  ghost predicate Fits(attrs: Attrs, layer: Layer, rules: Rules, name: string, value: Option<Attr>) {
    if name !in attrs || (forall c <- layer.columns :: c.name != name) then value == None
    else if name in rules.txtLength && attrs[name].Text?
    then value.Some? && value.value.Text? && CutTo(attrs[name].text, rules.txtLength[name], value.value.text)
    else value == Some(attrs[name])
  }

  lemma FitsIff(attrs: Attrs, layer: Layer, rules: Rules, name: string, value: Option<Attr>)
    ensures Fits(attrs, layer, rules, name, value) <==> At(Fitted(attrs, layer, rules), name) == value
  {
    FittedAtIs(attrs, layer, rules, name);
    if name in attrs && name in rules.txtLength && attrs[name].Text? {
      var length := rules.txtLength[name];
      CutIff(attrs[name].text, length, Cut(attrs[name].text, length));
      if value.Some? && value.value.Text? {
        CutIff(attrs[name].text, length, value.value.text);
      }
    }
  }

  /** The feature code that is left, or the word for a missing one, and the initial of the
      geometry behind it. */
  ghost predicate CodeIs(attrs: Attrs, layer: Layer, rules: Rules, geometry: string, code: string) {
    exists value, f, g: string ::
      && Fits(attrs, layer, rules, "F_CODE", value) && code == f + g
      && f == (match value case None => "undefined" case Some(Text(text)) => text case Some(Whole(digits)) => digits)
      && (if geometry == "" then g == "" else g == [geometry[0]])
  }

  lemma CodeIff(attrs: Attrs, layer: Layer, rules: Rules, geometry: string, code: string)
    ensures CodeIs(attrs, layer, rules, geometry, code) <==> code == CodeOf(attrs, layer, rules, geometry)
  {
    var fitted := Fitted(attrs, layer, rules);
    var value := At(fitted, "F_CODE");
    FitsIff(attrs, layer, rules, "F_CODE", value);
    var f := match value case None => "undefined" case Some(Text(text)) => text case Some(Whole(digits)) => digits;
    var g := if geometry == "" then "" else [geometry[0]];
    assert CodeOf(attrs, layer, rules, geometry) == f + g;
    forall other | Fits(attrs, layer, rules, "F_CODE", other)
      ensures other == value
    {
      FitsIff(attrs, layer, rules, "F_CODE", other);
    }
  }

  // ----- After the second loop -----

  /** The default of the table for this code and column, if there is one that is not empty. */
  predicate HasDefault(rules: Rules, code: string, name: string) {
    code in rules.defaults && name in rules.defaults[code] && rules.defaults[code][name] != ""
  }

  predicate Unlisted(c: Column, value: Option<Attr>) {
    c.enumerated && forall text <- c.values :: value != Some(Text(text))
  }

  /** A column without a default: if its value is not among the listed ones, 999 where that is
      listed and something was there, and else its own default value; or what was left. */
  ghost predicate HoldsOwn(c: Column, attrs: Attrs, layer: Layer, rules: Rules, value: Option<Attr>) {
    exists fitted :: Fits(attrs, layer, rules, c.name, fitted)
      && value == if Unlisted(c, fitted) then Some(Text(if fitted.Some? && "999" in c.values then "999" else c.defValue)) else fitted
  }

  ghost predicate Holds(code: string, c: Column, attrs: Attrs, layer: Layer, rules: Rules, value: Option<Attr>) {
    if HasDefault(rules, code, c.name) then value == Some(Text(rules.defaults[code][c.name]))
    else HoldsOwn(c, attrs, layer, rules, value)
  }

  lemma HoldsIff(c: Column, attrs: Attrs, layer: Layer, rules: Rules, geometry: string, value: Option<Attr>)
    requires c in layer.columns
    ensures Holds(CodeOf(attrs, layer, rules, geometry), c, attrs, layer, rules, value)
            <==> Outcome(c, attrs, layer, rules, geometry) == value
  {
    var fitted := At(Fitted(attrs, layer, rules), c.name);
    FitsIff(attrs, layer, rules, c.name, fitted);
    FittedAtIs(attrs, layer, rules, c.name);
    forall other | Fits(attrs, layer, rules, c.name, other)
      ensures other == fitted
    {
      FitsIff(attrs, layer, rules, c.name, other);
    }
    assert Unlisted(c, fitted) <==> c.enumerated && !Listed(c, fitted);
  }

  /** The defaults are those of this code, in every column that has one, and no others. */
  ghost predicate DefaultsOf(code: string, attrs: Attrs, r: Attrs, layer: Layer, rules: Rules) {
    forall c <- layer.columns :: Holds(code, c, attrs, layer, rules, At(r, c.name))
  }

  /** Every column holds this after the validation, and nothing but columns is left. */
  lemma EveryColumnHolds(v: Checked, log: Log, order: seq<string>, schema: seq<Layer>, name: string, n: nat, rules: Rules,
                         geometry: string, code: string)
    requires FirstNamed(schema, name, n) && Runs(v, order, schema[n]) && CodeIs(v.attrs, schema[n], rules, geometry, code)
    ensures var r := Validate(v, log, order, FindLayer(schema, name), rules, geometry).attrs;
            && DefaultsOf(code, v.attrs, r, schema[n], rules)
            && (forall a <- r :: exists c :: c in schema[n].columns && c.name == a)
  {
    LayerIs(schema, name, n);
    var layer, r := schema[n], Validate(v, log, order, Some(schema[n]), rules, geometry).attrs;
    ColumnOutcomes(v, log, order, layer, rules, geometry);
    CodeIff(v.attrs, layer, rules, geometry, code);
    forall c | c in layer.columns
      ensures Holds(code, c, v.attrs, layer, rules, At(r, c.name))
    {
      OutcomeIs(v, log, order, layer, rules, geometry, c);
      HoldsIff(c, v.attrs, layer, rules, geometry, At(r, c.name));
    }
    forall a | a in r
      ensures exists c :: c in layer.columns && c.name == a
    {
      assert HasColumn(layer, a);
    }
  }

  /** A name that no layer has changes nothing. */
  lemma UnknownLayer(v: Checked, log: Log, order: seq<string>, schema: seq<Layer>, name: string, rules: Rules, geometry: string)
    requires forall i :: 0 <= i < |schema| ==> schema[i].name != name
    ensures Validate(v, log, order, FindLayer(schema, name), rules, geometry) == v
  {
    LayerIs(schema, name, 0);
  }

  /** A feature code that fits its column, and a geometry: the defaults are those of the code
      with the initial of the geometry behind it. */
  lemma DefaultsApply(v: Checked, log: Log, order: seq<string>, schema: seq<Layer>, name: string, n: nat, rules: Rules,
                      geometry: string, f: string)
    requires FirstNamed(schema, name, n) && Runs(v, order, schema[n]) && geometry != ""
    requires "F_CODE" in v.attrs && v.attrs["F_CODE"] == Text(f) && exists c <- schema[n].columns :: c.name == "F_CODE"
    requires "F_CODE" in rules.txtLength ==> |f| <= rules.txtLength["F_CODE"]
    ensures DefaultsOf(f + [geometry[0]], v.attrs, Validate(v, log, order, FindLayer(schema, name), rules, geometry).attrs,
                       schema[n], rules)
  {
    assert Fits(v.attrs, schema[n], rules, "F_CODE", Some(Text(f)));
    EveryColumnHolds(v, log, order, schema, name, n, rules, geometry, f + [geometry[0]]);
  }

  /** Without a feature code, or without a column for it, a word stands for it. */
  lemma DefaultsWithoutCode(v: Checked, log: Log, order: seq<string>, schema: seq<Layer>, name: string, n: nat, rules: Rules,
                            geometry: string)
    requires FirstNamed(schema, name, n) && Runs(v, order, schema[n]) && geometry != ""
    requires "F_CODE" !in v.attrs || forall c <- schema[n].columns :: c.name != "F_CODE"
    ensures DefaultsOf("undefined" + [geometry[0]], v.attrs,
                       Validate(v, log, order, FindLayer(schema, name), rules, geometry).attrs, schema[n], rules)
  {
    assert Fits(v.attrs, schema[n], rules, "F_CODE", None);
    EveryColumnHolds(v, log, order, schema, name, n, rules, geometry, "undefined" + [geometry[0]]);
  }

  // ----- The tags that are handed back -----

  /** The attribute has no column, or its column was set to something else. */
  ghost predicate LostTo(a: string, attrs: Attrs, layer: Layer, rules: Rules, geometry: string) {
    || (a in attrs && forall c <- layer.columns :: c.name != a)
    || (exists c, code, fitted :: c in layer.columns && c.name == a && CodeIs(attrs, layer, rules, geometry, code)
          && Fits(attrs, layer, rules, a, fitted) && (HasDefault(rules, code, a) || Unlisted(c, fitted)))
  }

  lemma LostIff(a: string, attrs: Attrs, layer: Layer, rules: Rules, geometry: string)
    ensures a in Lost(attrs, layer, rules, geometry) <==> LostTo(a, attrs, layer, rules, geometry)
  {
    var code, fitted := CodeOf(attrs, layer, rules, geometry), At(Fitted(attrs, layer, rules), a);
    CodeIff(attrs, layer, rules, geometry, code);
    FitsIff(attrs, layer, rules, a, fitted);
    forall other | CodeIs(attrs, layer, rules, geometry, other)
      ensures other == code
    {
      CodeIff(attrs, layer, rules, geometry, other);
    }
    forall other | Fits(attrs, layer, rules, a, other)
      ensures other == fitted
    {
      FitsIff(attrs, layer, rules, a, other);
    }
    forall c | c in layer.columns && c.name == a
      ensures ResetIn(c, attrs, layer, rules, geometry).Some? <==> HasDefault(rules, code, a) || Unlisted(c, fitted)
    {
      assert Unlisted(c, fitted) <==> c.enumerated && !Listed(c, fitted);
    }
    ResetNameIff(a, attrs, layer, rules, geometry);
  }

  lemma ResetNameIff(a: string, attrs: Attrs, layer: Layer, rules: Rules, geometry: string)
    ensures a in ResetNames(layer.columns, Fitted(attrs, layer, rules), rules, CodeOf(attrs, layer, rules, geometry))
            <==> exists c :: c in layer.columns && c.name == a && ResetIn(c, attrs, layer, rules, geometry).Some?
  {
    if c :| c in layer.columns && c.name == a && ResetIn(c, attrs, layer, rules, geometry).Some? {
      var i :| 0 <= i < |layer.columns| && layer.columns[i] == c;
    }
  }

  /** Of the logged tags exactly those behind such an attribute are unused afterwards, with
      their values, as long as none was before and no two entries name one tag. */
  lemma HandedBackIff(v: Checked, log: Log, order: seq<string>, layer: Layer, rules: Rules, geometry: string, a: string)
    requires Runs(v, order, layer) && TagsDiffer(log) && Separate(v.notUsed, log) && a in log
    ensures var notUsed := Validate(v, log, order, Some(layer), rules, geometry).notUsed;
            if LostTo(a, v.attrs, layer, rules, geometry)
            then log[a].tag in notUsed && notUsed[log[a].tag] == log[a].original
            else log[a].tag !in notUsed
  {
    ValidateReturns(v, log, order, layer, rules, geometry);
    LostIff(a, v.attrs, layer, rules, geometry);
  }
}
