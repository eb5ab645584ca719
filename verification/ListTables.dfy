/** The lookup tables of translations/translate.js for lists, one for each direction, made
    from the same rules. */
module ListTables {
  import opened ListAttributes
  import opened ListThereAndBack
  import opened Wrappers

  datatype Rule = Rule(attr: string, code: string, tag: string, value: string)

  function LookUp(lookup: Lookup, name: string, value: string): Option<(string, string)> {
    if name in lookup && value in lookup[name] then Some(lookup[name][value]) else None
  }

  /** The first entry stays. */
  function Enter(lookup: Lookup, name: string, value: string, row: (string, string)): Lookup {
    if LookUp(lookup, name, value).Some? then lookup
    else lookup[name := (if name in lookup then lookup[name] else map[])[value := row]]
  }

  lemma Entered(lookup: Lookup, name: string, value: string, row: (string, string), n: string, v: string)
    ensures LookUp(Enter(lookup, name, value, row), n, v)
            == if n == name && v == value && LookUp(lookup, n, v).None? then Some(row) else LookUp(lookup, n, v)
  {
  }

  function Forward(rules: seq<Rule>, lookup: Lookup): Lookup
    decreases |rules|
  {
    if |rules| == 0 then lookup
    else Forward(rules[1..], Enter(lookup, rules[0].attr, rules[0].code, (rules[0].tag, rules[0].value)))
  }

  function Backward(rules: seq<Rule>, lookup: Lookup): Lookup
    decreases |rules|
  {
    if |rules| == 0 then lookup
    else if rules[0].tag == "" then Backward(rules[1..], lookup)
    else Backward(rules[1..], Enter(lookup, rules[0].tag, rules[0].value, (rules[0].attr, rules[0].code)))
  }

  method CreateLookup(one2one: seq<Rule>) returns (lookup: Lookup)
    ensures lookup == Forward(one2one, map[])
  {
    lookup := map[];
    for i := 0 to |one2one|
      invariant Forward(one2one, map[]) == Forward(one2one[i..], lookup)
    {
      var item := one2one[i];
      assert one2one[i..][1..] == one2one[i + 1..];
      ghost var before := lookup;
      if item.attr !in lookup {
        lookup := lookup[item.attr := map[]];
      }
      if item.code !in lookup[item.attr] {
        lookup := lookup[item.attr := lookup[item.attr][item.code := (item.tag, item.value)]];
      }
      assert lookup == Enter(before, item.attr, item.code, (item.tag, item.value));
    }
  }

  method CreateBackwardsLookup(one2one: seq<Rule>) returns (lookup: Lookup)
    ensures lookup == Backward(one2one, map[])
  {
    lookup := map[];
    for i := 0 to |one2one|
      invariant Backward(one2one, map[]) == Backward(one2one[i..], lookup)
    {
      var item := one2one[i];
      assert one2one[i..][1..] == one2one[i + 1..];
      if item.tag != "" {
        ghost var before := lookup;
        if item.tag !in lookup {
          lookup := lookup[item.tag := map[]];
        }
        if item.value !in lookup[item.tag] {
          lookup := lookup[item.tag := lookup[item.tag][item.value := (item.attr, item.code)]];
        }
        assert lookup == Enter(before, item.tag, item.value, (item.attr, item.code));
      }
    }
  }

  /** The first rule for a code of an attribute, and the first for a value of a tag. */
  function FirstForCode(rules: seq<Rule>, attr: string, code: string): Option<Rule> {
    if |rules| == 0 then None
    else if rules[0].attr == attr && rules[0].code == code then Some(rules[0])
    else FirstForCode(rules[1..], attr, code)
  }

  function FirstForValue(rules: seq<Rule>, tag: string, value: string): Option<Rule> {
    if |rules| == 0 then None
    else if rules[0].tag == tag && rules[0].value == value then Some(rules[0])
    else FirstForValue(rules[1..], tag, value)
  }

  lemma {:induction false} ForwardIsFirst(rules: seq<Rule>, lookup: Lookup, attr: string, code: string)
    ensures LookUp(Forward(rules, lookup), attr, code) ==
            if LookUp(lookup, attr, code).Some? then LookUp(lookup, attr, code)
            else match FirstForCode(rules, attr, code) case None => None case Some(r) => Some((r.tag, r.value))
    decreases |rules|
  {
    if |rules| > 0 {
      var r := rules[0];
      Entered(lookup, r.attr, r.code, (r.tag, r.value), attr, code);
      ForwardIsFirst(rules[1..], Enter(lookup, r.attr, r.code, (r.tag, r.value)), attr, code);
    }
  }

  lemma {:induction false} BackwardIsFirst(rules: seq<Rule>, lookup: Lookup, tag: string, value: string)
    requires tag != ""
    ensures LookUp(Backward(rules, lookup), tag, value) ==
            if LookUp(lookup, tag, value).Some? then LookUp(lookup, tag, value)
            else match FirstForValue(rules, tag, value) case None => None case Some(r) => Some((r.attr, r.code))
    decreases |rules|
  {
    if |rules| > 0 {
      var r := rules[0];
      if r.tag == "" {
        BackwardIsFirst(rules[1..], lookup, tag, value);
      } else {
        Entered(lookup, r.tag, r.value, (r.attr, r.code), tag, value);
        BackwardIsFirst(rules[1..], Enter(lookup, r.tag, r.value, (r.attr, r.code)), tag, value);
      }
    }
  }

  lemma {:induction false} FirstForCodeIs(rules: seq<Rule>, attr: string, code: string)
    ensures var f := FirstForCode(rules, attr, code);
            && (f.Some? ==> f.value in rules && f.value.attr == attr && f.value.code == code)
            && (f.None? ==> forall r <- rules :: !(r.attr == attr && r.code == code))
  {
    if |rules| > 0 {
      FirstForCodeIs(rules[1..], attr, code);
    }
  }

  lemma {:induction false} FirstForValueIs(rules: seq<Rule>, tag: string, value: string)
    ensures var f := FirstForValue(rules, tag, value);
            && (f.Some? ==> f.value in rules && f.value.tag == tag && f.value.value == value)
            && (f.None? ==> forall r <- rules :: !(r.tag == tag && r.value == value))
  {
    if |rules| > 0 {
      FirstForValueIs(rules[1..], tag, value);
    }
  }

  /** Rules that can be used for lists. */
  predicate ForLists(rules: seq<Rule>) {
    forall r <- rules :: r.code != "" && r.tag != "" && r.value != "" && ';' !in r.value
  }

  /** A code has one rule. */
  ghost predicate CodesAreOwn(rules: seq<Rule>) {
    forall r, s :: r in rules && s in rules && r.attr == s.attr && r.code == s.code ==> r == s
  }

  /** A value of a tag stands for one code of one attribute. */
  ghost predicate ValuesAreOwn(rules: seq<Rule>) {
    forall r, s :: r in rules && s in rules && r.tag == s.tag && r.value == s.value ==> r.attr == s.attr && r.code == s.code
  }

  /** The two tables undo each other if and only if no value of a tag has two meanings. */
  lemma OneToOneIff(rules: seq<Rule>)
    requires ForLists(rules) && CodesAreOwn(rules)
    ensures OneToOne(Forward(rules, map[]), Backward(rules, map[])) <==> ValuesAreOwn(rules)
  {
    var fwd, back := Forward(rules, map[]), Backward(rules, map[]);
    forall r | r in rules
      ensures LookUp(fwd, r.attr, r.code) == Some((r.tag, r.value))
      ensures exists s :: s in rules && s.tag == r.tag && s.value == r.value
                          && LookUp(back, r.tag, r.value) == Some((s.attr, s.code))
    {
      RuleLookedUp(rules, r);
    }
    if ValuesAreOwn(rules) {
      forall attr, code | Known(fwd, attr, code)
        ensures UndoneBy(fwd, back, attr, code)
      {
        ForwardIsFirst(rules, map[], attr, code);
        FirstForCodeIs(rules, attr, code);
        var r := FirstForCode(rules, attr, code).value;
        assert r in rules;
      }
    }
    if OneToOne(fwd, back) {
      forall r, s | r in rules && s in rules && r.tag == s.tag && r.value == s.value
        ensures r.attr == s.attr && r.code == s.code
      {
        assert UndoneBy(fwd, back, r.attr, r.code) && UndoneBy(fwd, back, s.attr, s.code);
      }
    }
  }

  lemma RuleLookedUp(rules: seq<Rule>, r: Rule)
    requires ForLists(rules) && CodesAreOwn(rules) && r in rules
    ensures LookUp(Forward(rules, map[]), r.attr, r.code) == Some((r.tag, r.value))
    ensures exists s :: s in rules && s.tag == r.tag && s.value == r.value
                        && LookUp(Backward(rules, map[]), r.tag, r.value) == Some((s.attr, s.code))
  {
    ForwardIsFirst(rules, map[], r.attr, r.code);
    FirstForCodeIs(rules, r.attr, r.code);
    BackwardIsFirst(rules, map[], r.tag, r.value);
    FirstForValueIs(rules, r.tag, r.value);
    var s := FirstForValue(rules, r.tag, r.value).value;
    assert s in rules && s.tag == r.tag && s.value == r.value;
  }
}
