/** `validateAttrs` of translations/dnc_core.js: attributes that do not belong to a layer are
    dropped, long text is cut, defaults and enumerations are enforced, and the tags behind
    every attribute that lost its value are handed back. */
module DncValidate {
  import opened DncUndoLog
  import opened Objects
  import opened Text
  import opened Wrappers

  /** A column of a layer; `values` lists the enumeration, if there is one. */
  datatype Column = Column(name: string, enumerated: bool, values: seq<string>, defValue: string)

  datatype Layer = Layer(name: string, columns: seq<Column>)

  datatype Rules = Rules(txtLength: map<string, nat>, defaults: map<string, Tags>)

  /** The attributes and the tags that are not used (so far). */
  datatype Checked = Checked(attrs: Attrs, notUsed: Tags)

  function FindLayer(schema: seq<Layer>, name: string): Option<Layer> {
    if |schema| == 0 then None
    else if schema[0].name == name then Some(schema[0])
    else FindLayer(schema[1..], name)
  }

  predicate HasColumn(layer: Layer, name: string) {
    exists c <- layer.columns :: c.name == name
  }

  function GiveBack(notUsed: Tags, log: Log, attr: string): Tags {
    if attr in log then notUsed[log[attr].tag := log[attr].original] else notUsed
  }

  // ----- Dropping and cutting -----

  /** The first of several values if that fits, otherwise as much of it as fits. */
  function Cut(value: string, length: nat): string {
    if |value| <= length then value
    else
      var first := Split(value, ";")[0];
      if |first| <= length then first else first[..length]
  }

  lemma CutFits(value: string, length: nat)
    ensures |Cut(value, length)| <= length
    ensures |value| <= length ==> Cut(value, length) == value
  {
  }

  /** Only text has a length. */
  function CutAttr(value: Attr, length: nat): Attr {
    match value case Text(text) => Text(Cut(text, length)) case Whole(_) => value
  }

  function DropOrCut(v: Checked, log: Log, val: string, layer: Layer, rules: Rules): Checked {
    if val !in v.attrs then v
    else if !HasColumn(layer, val) then Checked(v.attrs - {val}, GiveBack(v.notUsed, log, val))
    else if val in rules.txtLength then v.(attrs := v.attrs[val := CutAttr(v.attrs[val], rules.txtLength[val])])
    else v
  }

  function DropLoop(v: Checked, log: Log, order: seq<string>, layer: Layer, rules: Rules): Checked
    decreases |order|
  {
    if |order| == 0 then v else DropLoop(DropOrCut(v, log, order[0], layer, rules), log, order[1..], layer, rules)
  }

  // ----- Defaults and enumerations -----

  function Printed(value: Attr): string {
    match value case Text(text) => text case Whole(digits) => digits
  }

  /** The F_CODE with the initial of the geometry; a missing attribute prints as a word. */
  function GeometryCode(attrs: Attrs, geometry: string): string {
    (if "F_CODE" in attrs then Printed(attrs["F_CODE"]) else "undefined") + geometry[..if geometry == "" then 0 else 1]
  }

  function DefaultFor(rules: Rules, code: string, name: string): Option<string> {
    if code in rules.defaults && name in rules.defaults[code] && rules.defaults[code][name] != ""
    then Some(rules.defaults[code][name]) else None
  }

  predicate Listed(c: Column, value: Option<Attr>) {
    value.Some? && value.value.Text? && value.value.text in c.values
  }

  /** The value a column is reset to, if it is. */
  function Reset(c: Column, value: Option<Attr>, default: Option<string>): Option<Attr> {
    if default.Some? then Some(Text(default.value))
    else if !c.enumerated || Listed(c, value) then None
    else if "999" !in c.values || value.None? then Some(Text(c.defValue))
    else Some(Text("999"))
  }

  function CheckColumn(v: Checked, log: Log, c: Column, rules: Rules, code: string): Checked {
    var reset := Reset(c, At(v.attrs, c.name), DefaultFor(rules, code, c.name));
    if reset.None? then v
    else Checked(v.attrs[c.name := reset.value], GiveBack(v.notUsed, log, c.name))
  }

  function ColumnLoop(v: Checked, log: Log, columns: seq<Column>, rules: Rules, code: string): Checked
    decreases |columns|
  {
    if |columns| == 0 then v else ColumnLoop(CheckColumn(v, log, columns[0], rules, code), log, columns[1..], rules, code)
  }

  /** With an unknown layer the code reports an error and returns. */
  function Validate(v: Checked, log: Log, order: seq<string>, layer: Option<Layer>, rules: Rules, geometry: string): Checked {
    if layer.None? then v
    else
      var fitted := DropLoop(v, log, order, layer.value, rules);
      ColumnLoop(fitted, log, layer.value.columns, rules, GeometryCode(fitted.attrs, geometry))
  }

  method SelectFeature(schema: seq<Layer>, layerName: string) returns (feature: Option<Layer>)
    ensures feature == FindLayer(schema, layerName)
  {
    feature := None;
    for i := 0 to |schema|
      invariant feature.None? && FindLayer(schema, layerName) == FindLayer(schema[i..], layerName)
    {
      assert schema[i..][1..] == schema[i + 1..];
      if schema[i].name == layerName {
        return Some(schema[i]);
      }
    }
  }

  method IsColumn(layer: Layer, val: string) returns (known: bool)
    ensures known == HasColumn(layer, val)
  {
    known := false;
    for j := 0 to |layer.columns|
      invariant known <==> exists k :: 0 <= k < j && layer.columns[k].name == val
    {
      known := known || layer.columns[j].name == val;
    }
    assert known ==> exists k :: 0 <= k < |layer.columns| && layer.columns[k].name == val && layer.columns[k] in layer.columns;
  }

  method CutText(value: string, length: nat) returns (text: string)
    ensures |text| <= length && (|value| <= length ==> text == value)
    ensures |value| > length ==>
              var first := Split(value, ";")[0]; text <= first && (text == first || |text| == length)
    ensures text == Cut(value, length)
  {
    text := value;
    if |value| > length {
      var tStr := Split(value, ";");
      text := if |tStr[0]| <= length then tStr[0] else tStr[0][..length];
    }
  }

  /** First: drop what is not valid for the feature, and check the length of the text. */
  method DropInvalid(given: Checked, log: Log, order: seq<string>, layer: Layer, rules: Rules) returns (v: Checked)
    ensures v == DropLoop(given, log, order, layer, rules)
  {
    var attrs, notUsed := given.attrs, given.notUsed;
    for n := 0 to |order|
      invariant DropLoop(given, log, order, layer, rules) == DropLoop(Checked(attrs, notUsed), log, order[n..], layer, rules)
    {
      var val := order[n];
      assert order[n..][1..] == order[n + 1..];
      if val in attrs {
        var known := IsColumn(layer, val);
        if !known {
          if val in log {
            notUsed := notUsed[log[val].tag := log[val].original];
          }
          attrs := attrs - {val};
        } else if val in rules.txtLength {
          match attrs[val] {
            case Text(value) =>
              var text := CutText(value, rules.txtLength[val]);
              attrs := attrs[val := Text(text)];
            case Whole(_) =>
              assert attrs[val := attrs[val]] == attrs;
          }
        }
      }
    }
    v := Checked(attrs, notUsed);
  }

  /** Second: go through the columns, and look at defaults and enumerations. */
  method CheckValues(given: Checked, log: Log, columns: seq<Column>, rules: Rules, gFcode: string) returns (v: Checked)
    ensures v == ColumnLoop(given, log, columns, rules, gFcode)
  {
    var attrs, notUsed := given.attrs, given.notUsed;
    for i := 0 to |columns|
      invariant ColumnLoop(given, log, columns, rules, gFcode)
                == ColumnLoop(Checked(attrs, notUsed), log, columns[i..], rules, gFcode)
    {
      var c := columns[i];
      assert columns[i..][1..] == columns[i + 1..];
      if gFcode in rules.defaults && c.name in rules.defaults[gFcode] && rules.defaults[gFcode][c.name] != "" {
        attrs := attrs[c.name := Text(rules.defaults[gFcode][c.name])];
        if c.name in log {
          notUsed := notUsed[log[c.name].tag := log[c.name].original];
        }
      } else if c.enumerated {
        if c.name !in attrs || attrs[c.name].Whole? || attrs[c.name].text !in c.values {
          if "999" !in c.values || c.name !in attrs {
            attrs := attrs[c.name := Text(c.defValue)];
          } else {
            attrs := attrs[c.name := Text("999")];
          }
          if c.name in log {
            notUsed := notUsed[log[c.name].tag := log[c.name].original];
          }
        }
      }
    }
    v := Checked(attrs, notUsed);
  }

  method ValidateAttrs(given: Checked, log: Log, order: seq<string>, schema: seq<Layer>, layerName: string, rules: Rules,
                       geometry: string)
    returns (v: Checked)
    requires Enumerates(order, given.attrs)
    ensures v == Validate(given, log, order, FindLayer(schema, layerName), rules, geometry)
  {
    var feature := SelectFeature(schema, layerName);
    if feature.None? {
      return given;
    }
    v := DropInvalid(given, log, order, feature.value, rules);
    v := CheckValues(v, log, feature.value.columns, rules, GeometryCode(v.attrs, geometry));
  }
}
