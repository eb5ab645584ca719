/** Which value the passes of an export put into which attribute, told from the rules and the
    lookup tables. */
module DncColumns {
  import opened DncExport
  import opened DncUndoLog
  import opened Objects
  import opened OneToOnePass
  import opened Turns
  import opened Wrappers

  // ----- One rule at a time -----

  /** Where the first rule for a tag stands, or the length of the list. */
  function FirstAt(rules: seq<Rule>, tag: string): (i: nat)
    ensures i <= |rules| && (i < |rules| ==> rules[i].tag == tag) && forall j :: 0 <= j < i ==> rules[j].tag != tag
  {
    if |rules| == 0 || rules[0].tag == tag then 0 else 1 + FirstAt(rules[1..], tag)
  }

  /** What the rules put somewhere, if they take the value. */
  function RulePuts<X>(rules: seq<Rule>, takes: string -> bool, turn: nat, made: (string, string, string) -> X)
    : (string, string) -> Option<Put<X>>
  {
    (k, v) =>
      var i := FirstAt(rules, k);
      if takes(v) && i < |rules| then Some(Put(rules[i].attr, made(rules[i].attr, k, v), turn + i)) else None
  }

  lemma RuleFires<X>(tags: Tags, m: map<string, X>, rules: seq<Rule>, takes: string -> bool, turn: nat,
                     made: (string, string, string) -> X, m': map<string, X>)
    requires |rules| > 0 && rules[0].tag in tags && takes(tags[rules[0].tag])
    requires var r := rules[0];
             Filled(tags - {r.tag}, m[r.attr := made(r.attr, r.tag, tags[r.tag])],
                    RulePuts(rules[1..], takes, turn + 1, made), m')
    ensures Filled(tags, m, RulePuts(rules, takes, turn, made), m')
  {
    var r, rest := rules[0], rules[1..];
    assert FirstAt(rules, r.tag) == 0;
    forall k | k in tags && k != r.tag
      ensures RulePuts(rules, takes, turn, made)(k, tags[k]) == RulePuts(rest, takes, turn + 1, made)(k, tags[k])
      ensures var put := RulePuts(rest, takes, turn + 1, made)(k, tags[k]); put.Some? ==> turn < put.value.turn
    {
      assert FirstAt(rules, k) == 1 + FirstAt(rest, k);
    }
    FirstThen(tags, m, r.tag, Put(r.attr, made(r.attr, r.tag, tags[r.tag]), turn), RulePuts(rest, takes, turn + 1, made), m',
              RulePuts(rules, takes, turn, made));
  }

  lemma RuleRests<X>(tags: Tags, m: map<string, X>, rules: seq<Rule>, takes: string -> bool, turn: nat,
                     made: (string, string, string) -> X, m': map<string, X>)
    requires |rules| > 0 && (rules[0].tag in tags ==> !takes(tags[rules[0].tag]))
    requires Filled(tags, m, RulePuts(rules[1..], takes, turn + 1, made), m')
    ensures Filled(tags, m, RulePuts(rules, takes, turn, made), m')
  {
    var rest := rules[1..];
    forall k | k in tags
      ensures RulePuts(rules, takes, turn, made)(k, tags[k]) == RulePuts(rest, takes, turn + 1, made)(k, tags[k])
    {
      if k != rules[0].tag {
        assert FirstAt(rules, k) == 1 + FirstAt(rest, k);
      }
    }
    FilledBySame(tags, m, RulePuts(rest, takes, turn + 1, made), RulePuts(rules, takes, turn, made), m');
  }

  lemma NoRules<X>(tags: Tags, m: map<string, X>, rules: seq<Rule>, takes: string -> bool, turn: nat,
                   made: (string, string, string) -> X)
    requires |rules| == 0
    ensures Filled(tags, m, RulePuts(rules, takes, turn, made), m)
  {
    var puts := RulePuts(rules, takes, turn, made);
    forall k | k in tags
      ensures puts(k, tags[k]).None?
    {
      assert FirstAt(rules, k) == 0;
    }
    NothingFilled(tags, m, puts);
  }

  // ----- The passes for numbers and text -----

  function TakesNumbers(n: Numbers): string -> bool {
    v => Numeric(n, v)
  }

  function TakesAll(): string -> bool {
    v => true
  }

  function NumberMade(n: Numbers): (string, string, string) -> Attr {
    (attr, tag, value) => NumberFor(n, attr, value)
  }

  function TextMade(): (string, string, string) -> Attr {
    (attr, tag, value) => Text(value)
  }

  function EntryMade(): (string, string, string) -> Logged {
    (attr, tag, value) => Logged("", tag, value)
  }

  lemma {:induction false} NumPassFills(s: State, rules: seq<Rule>, n: Numbers, turn: nat)
    ensures var s' := NumPass(s, rules, n);
            && Filled(s.tags, s.attrs, RulePuts(rules, TakesNumbers(n), turn, NumberMade(n)), s'.attrs)
            && Filled(s.tags, s.log, RulePuts(rules, TakesNumbers(n), turn, EntryMade()), s'.log)
    decreases |rules|
  {
    var takes, s' := TakesNumbers(n), NumPass(s, rules, n);
    if |rules| == 0 {
      NoRules(s.tags, s.attrs, rules, takes, turn, NumberMade(n));
      NoRules(s.tags, s.log, rules, takes, turn, EntryMade());
    } else if rules[0].tag in s.tags && Numeric(n, s.tags[rules[0].tag]) {
      var r := rules[0];
      NumPassFills(Move(s, r.attr, NumberFor(n, r.attr, s.tags[r.tag]), "", r.tag), rules[1..], n, turn + 1);
      RuleFires(s.tags, s.attrs, rules, takes, turn, NumberMade(n), s'.attrs);
      RuleFires(s.tags, s.log, rules, takes, turn, EntryMade(), s'.log);
    } else {
      NumPassFills(s, rules[1..], n, turn + 1);
      RuleRests(s.tags, s.attrs, rules, takes, turn, NumberMade(n), s'.attrs);
      RuleRests(s.tags, s.log, rules, takes, turn, EntryMade(), s'.log);
    }
  }

  lemma {:induction false} TxtPassFills(s: State, rules: seq<Rule>, turn: nat)
    ensures var s' := TxtPass(s, rules);
            && Filled(s.tags, s.attrs, RulePuts(rules, TakesAll(), turn, TextMade()), s'.attrs)
            && Filled(s.tags, s.log, RulePuts(rules, TakesAll(), turn, EntryMade()), s'.log)
    decreases |rules|
  {
    var s' := TxtPass(s, rules);
    if |rules| == 0 {
      NoRules(s.tags, s.attrs, rules, TakesAll(), turn, TextMade());
      NoRules(s.tags, s.log, rules, TakesAll(), turn, EntryMade());
    } else if rules[0].tag in s.tags {
      var r := rules[0];
      TxtPassFills(Move(s, r.attr, Text(s.tags[r.tag]), "", r.tag), rules[1..], turn + 1);
      RuleFires(s.tags, s.attrs, rules, TakesAll(), turn, TextMade(), s'.attrs);
      RuleFires(s.tags, s.log, rules, TakesAll(), turn, EntryMade(), s'.log);
    } else {
      TxtPassFills(s, rules[1..], turn + 1);
      RuleRests(s.tags, s.attrs, rules, TakesAll(), turn, TextMade(), s'.attrs);
      RuleRests(s.tags, s.log, rules, TakesAll(), turn, EntryMade(), s'.log);
    }
  }

  // ----- The lookup pass -----

  function PlaceIn(order: seq<string>, tag: string): (i: nat)
    ensures i <= |order| && (i < |order| ==> order[i] == tag) && (i == |order| <==> tag !in order)
  {
    if |order| == 0 || order[0] == tag then 0 else 1 + PlaceIn(order[1..], tag)
  }

  /** What a row makes the pass put somewhere. */
  function RowPuts<X>(fates: Fates, order: seq<string>, turn: nat, logged: bool, made: (Fate, string) -> X)
    : (string, string) -> Option<Put<X>>
  {
    (k, v) =>
      if k in order && fates(k, v).Goes?
      then Some(Put(if logged then fates(k, v).attr else fates(k, v).column, made(fates(k, v), v), turn + PlaceIn(order, k)))
      else None
  }

  /** Behind its first tag, the order puts the same, one turn later. */
  lemma LaterPuts<X>(fates: Fates, order: seq<string>, turn: nat, logged: bool, made: (Fate, string) -> X, k: string, v: string)
    requires |order| > 0 && k != order[0]
    ensures var rest := RowPuts(fates, order[1..], turn + 1, logged, made)(k, v);
            RowPuts(fates, order, turn, logged, made)(k, v) == rest && (rest.Some? ==> turn < rest.value.turn)
  {
    assert k in order <==> k in order[1..];
    assert PlaceIn(order, k) == 1 + PlaceIn(order[1..], k);
  }

  lemma VisitMoves<X>(tags: Tags, m: map<string, X>, fates: Fates, order: seq<string>, turn: nat, logged: bool,
                      made: (Fate, string) -> X, m': map<string, X>)
    requires |order| > 0 && order[0] in tags && fates(order[0], tags[order[0]]).Goes?
    requires var fate := fates(order[0], tags[order[0]]);
             Filled(tags - {order[0]}, m[if logged then fate.attr else fate.column := made(fate, tags[order[0]])],
                    RowPuts(fates, order[1..], turn + 1, logged, made), m')
    ensures Filled(tags, m, RowPuts(fates, order, turn, logged, made), m')
  {
    var puts, later := RowPuts(fates, order, turn, logged, made), RowPuts(fates, order[1..], turn + 1, logged, made);
    var fate := fates(order[0], tags[order[0]]);
    var put := Put(if logged then fate.attr else fate.column, made(fate, tags[order[0]]), turn);
    assert PlaceIn(order, order[0]) == 0;
    forall k | k in tags && k != order[0]
      ensures puts(k, tags[k]) == later(k, tags[k]) && (later(k, tags[k]).Some? ==> put.turn < later(k, tags[k]).value.turn)
    {
      LaterPuts(fates, order, turn, logged, made, k, tags[k]);
    }
    FirstThen(tags, m, order[0], put, later, m', puts);
  }

  lemma VisitRests<X>(tags: Tags, m: map<string, X>, fates: Fates, order: seq<string>, turn: nat, logged: bool,
                      made: (Fate, string) -> X, left: Tags, m': map<string, X>)
    requires |order| > 0 && order[0] !in order[1..]
    requires order[0] in tags ==> !fates(order[0], tags[order[0]]).Goes?
    requires left == tags || left == tags - {order[0]}
    requires Filled(left, m, RowPuts(fates, order[1..], turn + 1, logged, made), m')
    ensures Filled(tags, m, RowPuts(fates, order, turn, logged, made), m')
  {
    var puts, later := RowPuts(fates, order, turn, logged, made), RowPuts(fates, order[1..], turn + 1, logged, made);
    forall k | k in tags
      ensures puts(k, tags[k]) == later(k, tags[k])
    {
      if k != order[0] {
        LaterPuts(fates, order, turn, logged, made, k, tags[k]);
      }
    }
    FilledInLess(tags, m, left, later, m', puts);
  }

  function Stored(): (Fate, string) -> Attr {
    (fate: Fate, v: string) => if fate.Goes? then Text(fate.value) else Text("")
  }

  function Entered(): (Fate, string) -> Logged {
    (fate: Fate, v: string) => if fate.Goes? then Logged(fate.value, fate.lookedUp, v) else Logged("", "", v)
  }

  lemma {:induction false} PassFills(s: State, order: seq<string>, fates: Fates, turn: nat)
    requires forall i, j :: 0 <= i < j < |order| ==> order[i] != order[j]
    ensures var s' := Pass(s, order, fates);
            && Filled(s.tags, s.attrs, RowPuts(fates, order, turn, false, Stored()), s'.attrs)
            && Filled(s.tags, s.log, RowPuts(fates, order, turn, true, Entered()), s'.log)
    decreases |order|
  {
    if |order| == 0 {
      NothingFilled(s.tags, s.attrs, RowPuts(fates, order, turn, false, Stored()));
      NothingFilled(s.tags, s.log, RowPuts(fates, order, turn, true, Entered()));
    } else {
      var s', next := Pass(s, order, fates), Step(s, order[0], fates);
      assert forall i :: 0 <= i < |order[1..]| ==> order[1..][i] == order[i + 1];
      PassFills(next, order[1..], fates, turn + 1);
      if order[0] in s.tags && fates(order[0], s.tags[order[0]]).Goes? {
        VisitMoves(s.tags, s.attrs, fates, order, turn, false, Stored(), s'.attrs);
        VisitMoves(s.tags, s.log, fates, order, turn, true, Entered(), s'.log);
      } else {
        VisitRests(s.tags, s.attrs, fates, order, turn, false, Stored(), next.tags, s'.attrs);
        VisitRests(s.tags, s.log, fates, order, turn, true, Entered(), next.tags, s'.log);
      }
    }
  }

  // ----- The three passes -----

  lemma RuleTurns<X>(rules: seq<Rule>, takes: string -> bool, turn: nat, made: (string, string, string) -> X)
    ensures From(RulePuts(rules, takes, turn, made), turn) && Below(RulePuts(rules, takes, turn, made), turn + |rules|)
    ensures forall k, v :: RulePuts(rules, takes, turn, made)(k, v).Some? <==> takes(v) && FirstRule(rules, k).Some?
  {
    var puts := RulePuts(rules, takes, turn, made);
    forall k, v
      ensures puts(k, v).Some? <==> takes(v) && FirstRule(rules, k).Some?
      ensures puts(k, v).Some? ==> turn <= puts(k, v).value.turn < turn + |rules|
    {
      FirstRuleAt(rules, k);
    }
  }

  lemma EffectTakes<X>(s: State, aims: (string, string) -> Option<string>, s': State, puts: (string, string) -> Option<Put<X>>)
    requires Effect(s, aims, s') && forall k, v :: puts(k, v).Some? <==> aims(k, v).Some?
    ensures Takes(s.tags, puts, s'.tags)
  {
  }

  lemma {:induction false} FirstRuleAt(rules: seq<Rule>, tag: string)
    ensures FirstRule(rules, tag) == if FirstAt(rules, tag) < |rules| then Some(rules[FirstAt(rules, tag)].attr) else None
  {
    if |rules| > 0 && rules[0].tag != tag {
      FirstRuleAt(rules[1..], tag);
    }
  }

  /** What the three passes put somewhere. */
  function ExportPuts<X>(t: Tables, fCodes: FeatureCodes, order: seq<string>, logged: bool,
                         number: (string, string, string) -> X, text: (string, string, string) -> X, row: (Fate, string) -> X)
    : (string, string) -> Option<Put<X>>
  {
    Either(Either(RulePuts(t.numRules, TakesNumbers(t.numbers), 0, number),
                  RulePuts(t.txtRules, TakesAll(), |t.numRules|, text)),
           RowPuts(FatesOf(t.lookup, fCodes), order, |t.numRules| + |t.txtRules|, logged, row))
  }

  /** The tags that the pass for numbers leaves. */
  function AfterNumbers(attrs: Attrs, tags: Tags, t: Tables): State {
    NumPass(State(attrs, tags, map[]), t.numRules, t.numbers)
  }

  lemma RulesTake<X>(attrs: Attrs, tags: Tags, t: Tables, number: (string, string, string) -> X, text: (string, string, string) -> X)
    ensures Takes(tags, RulePuts(t.numRules, TakesNumbers(t.numbers), 0, number), AfterNumbers(attrs, tags, t).tags)
    ensures Takes(AfterNumbers(attrs, tags, t).tags, RulePuts(t.txtRules, TakesAll(), |t.numRules|, text), Early(attrs, tags, t).tags)
  {
    var start, mid := State(attrs, tags, map[]), AfterNumbers(attrs, tags, t);
    NumPassEffect(start, t.numRules, t.numbers);
    TxtPassEffect(mid, t.txtRules);
    RuleTurns(t.numRules, TakesNumbers(t.numbers), 0, number);
    RuleTurns(t.txtRules, TakesAll(), |t.numRules|, text);
    EffectTakes(start, NumAims(t.numRules, t.numbers), mid, RulePuts(t.numRules, TakesNumbers(t.numbers), 0, number));
    EffectTakes(mid, TxtAims(t.txtRules), Early(attrs, tags, t), RulePuts(t.txtRules, TakesAll(), |t.numRules|, text));
  }

  lemma RowTurns<X>(fates: Fates, order: seq<string>, turn: nat, logged: bool, made: (Fate, string) -> X)
    ensures From(RowPuts(fates, order, turn, logged, made), turn)
  {
    var puts := RowPuts(fates, order, turn, logged, made);
    forall k, v
      ensures puts(k, v).Some? ==> turn <= puts(k, v).value.turn
    {
      assert PlaceIn(order, k) >= 0;
    }
  }

  lemma ExportPutsAre<X>(t: Tables, fCodes: FeatureCodes, order: seq<string>, logged: bool,
                         number: (string, string, string) -> X, text: (string, string, string) -> X, row: (Fate, string) -> X,
                         tags: Tags, m: map<string, X>, m1: map<string, X>, mid: Tags, m2: map<string, X>, late: Tags,
                         m3: map<string, X>)
    requires var nums, txts := RulePuts(t.numRules, TakesNumbers(t.numbers), 0, number),
                               RulePuts(t.txtRules, TakesAll(), |t.numRules|, text);
             && Takes(tags, nums, mid) && Takes(mid, txts, late) && Filled(tags, m, nums, m1) && Filled(mid, m1, txts, m2)
    requires Filled(late, m2, RowPuts(FatesOf(t.lookup, fCodes), order, |t.numRules| + |t.txtRules|, logged, row), m3)
    ensures Filled(tags, m, ExportPuts(t, fCodes, order, logged, number, text, row), m3)
  {
    var nums := RulePuts(t.numRules, TakesNumbers(t.numbers), 0, number);
    var txts := RulePuts(t.txtRules, TakesAll(), |t.numRules|, text);
    var rows := RowPuts(FatesOf(t.lookup, fCodes), order, |t.numRules| + |t.txtRules|, logged, row);
    RuleTurns(t.numRules, TakesNumbers(t.numbers), 0, number);
    RuleTurns(t.txtRules, TakesAll(), |t.numRules|, text);
    RowTurns(FatesOf(t.lookup, fCodes), order, |t.numRules| + |t.txtRules|, logged, row);
    ThreeRuns(tags, m, nums, m1, mid, txts, m2, late, rows, m3, |t.numRules|, |t.txtRules|);
    assert ExportPuts(t, fCodes, order, logged, number, text, row) == Either(Either(nums, txts), rows);
  }

  lemma NumbersFill(attrs: Attrs, tags: Tags, t: Tables)
    ensures Filled(tags, attrs, RulePuts(t.numRules, TakesNumbers(t.numbers), 0, NumberMade(t.numbers)), AfterNumbers(attrs, tags, t).attrs)
    ensures Filled(tags, map[], RulePuts(t.numRules, TakesNumbers(t.numbers), 0, EntryMade()), AfterNumbers(attrs, tags, t).log)
  {
    NumPassFills(State(attrs, tags, map[]), t.numRules, t.numbers, 0);
  }

  lemma TextsFill(attrs: Attrs, tags: Tags, t: Tables)
    ensures var mid, late := AfterNumbers(attrs, tags, t), Early(attrs, tags, t);
            && Filled(mid.tags, mid.attrs, RulePuts(t.txtRules, TakesAll(), |t.numRules|, TextMade()), late.attrs)
            && Filled(mid.tags, mid.log, RulePuts(t.txtRules, TakesAll(), |t.numRules|, EntryMade()), late.log)
  {
    TxtPassFills(AfterNumbers(attrs, tags, t), t.txtRules, |t.numRules|);
  }

  lemma RowsFill(attrs: Attrs, tags: Tags, order: seq<string>, t: Tables, fCodes: FeatureCodes)
    requires Enumerates(order, Early(attrs, tags, t).tags)
    ensures var late, s := Early(attrs, tags, t), Exported(attrs, tags, order, t, fCodes);
            var fates, turn := FatesOf(t.lookup, fCodes), |t.numRules| + |t.txtRules|;
            && Filled(late.tags, late.attrs, RowPuts(fates, order, turn, false, Stored()), s.attrs)
            && Filled(late.tags, late.log, RowPuts(fates, order, turn, true, Entered()), s.log)
  {
    PassFills(Early(attrs, tags, t), order, FatesOf(t.lookup, fCodes), |t.numRules| + |t.txtRules|);
  }

  lemma AttrsFilled(attrs: Attrs, tags: Tags, order: seq<string>, t: Tables, fCodes: FeatureCodes)
    requires Enumerates(order, Early(attrs, tags, t).tags)
    ensures Filled(tags, attrs, ExportPuts(t, fCodes, order, false, NumberMade(t.numbers), TextMade(), Stored()),
                   Exported(attrs, tags, order, t, fCodes).attrs)
  {
    var mid, late := AfterNumbers(attrs, tags, t), Early(attrs, tags, t);
    NumbersFill(attrs, tags, t);
    TextsFill(attrs, tags, t);
    RowsFill(attrs, tags, order, t, fCodes);
    RulesTake(attrs, tags, t, NumberMade(t.numbers), TextMade());
    ExportPutsAre(t, fCodes, order, false, NumberMade(t.numbers), TextMade(), Stored(), tags, attrs, mid.attrs, mid.tags,
                  late.attrs, late.tags, Exported(attrs, tags, order, t, fCodes).attrs);
  }

  lemma LogFilled(attrs: Attrs, tags: Tags, order: seq<string>, t: Tables, fCodes: FeatureCodes)
    requires Enumerates(order, Early(attrs, tags, t).tags)
    ensures Filled(tags, map[], ExportPuts(t, fCodes, order, true, EntryMade(), EntryMade(), Entered()),
                   Exported(attrs, tags, order, t, fCodes).log)
  {
    var mid, late := AfterNumbers(attrs, tags, t), Early(attrs, tags, t);
    NumbersFill(attrs, tags, t);
    TextsFill(attrs, tags, t);
    RowsFill(attrs, tags, order, t, fCodes);
    RulesTake(attrs, tags, t, EntryMade(), EntryMade());
    ExportPutsAre(t, fCodes, order, true, EntryMade(), EntryMade(), Entered(), tags, map[], mid.log, mid.tags,
                  late.log, late.tags, Exported(attrs, tags, order, t, fCodes).log);
  }

  // ----- What a tag sends where, told from the rules and the lookup -----

  /** A value for a column, and an entry of the log. */
  datatype Sent = Sent(column: string, put: Attr, attr: string, entry: Logged, turn: nat)

  predicate FirstFor(rules: seq<Rule>, i: nat, tag: string) {
    i < |rules| && rules[i].tag == tag && forall j :: 0 <= j < i ==> rules[j].tag != tag
  }

  /** The stripped number, or the whole number for an attribute that is listed for one. */
  ghost predicate SendsNumber(t: Tables, tag: string, value: string, w: Sent) {
    && t.numbers.isNumber(t.numbers.strip(value)) && FirstFor(t.numRules, w.turn, tag)
    && w.column == w.attr == t.numRules[w.turn].attr && w.entry == Logged("", tag, value)
    && w.put == if w.attr in t.numbers.integers then Whole(t.numbers.whole(t.numbers.strip(value))) else Text(t.numbers.strip(value))
  }

  /** The value itself. */
  ghost predicate SendsText(t: Tables, tag: string, value: string, w: Sent) {
    && w.turn >= |t.numRules| && FirstFor(t.txtRules, w.turn - |t.numRules|, tag)
    && w.column == w.attr == t.txtRules[w.turn - |t.numRules|].attr && w.entry == Logged("", tag, value)
    && w.put == Text(value)
  }

  /** The value of the row for this tag and value. */
  ghost predicate SendsRow(t: Tables, tag: string, value: string, w: Sent) {
    && tag in t.lookup && value in t.lookup[tag] && t.lookup[tag][value].attr == Some(w.attr) && w.column == w.attr
    && w.put == Text(t.lookup[tag][value].value) && w.entry == Logged(t.lookup[tag][value].value, tag, value)
  }

  /** The value of the row for the tag without its last character, which goes behind the name
      of the column. */
  ghost predicate SendsNumbered(t: Tables, fCodes: FeatureCodes, tag: string, value: string, w: Sent) {
    && tag !in t.lookup && !(tag in fCodes && value in fCodes[tag]) && |tag| > 0
    && var bare := tag[..|tag| - 1];
       && bare in t.lookup && value in t.lookup[bare] && t.lookup[bare][value].attr == Some(w.attr)
       && w.column == w.attr + tag[|tag| - 1..]
       && w.put == Text(t.lookup[bare][value].value) && w.entry == Logged(t.lookup[bare][value].value, bare, value)
  }

  ghost predicate RuledNumber(t: Tables, tag: string, value: string) {
    t.numbers.isNumber(t.numbers.strip(value)) && exists r <- t.numRules :: r.tag == tag
  }

  ghost predicate RuledText(t: Tables, tag: string) {
    exists r <- t.txtRules :: r.tag == tag
  }

  /** Number rules come first, then text rules, and then the lookup in its order. */
  ghost predicate Sends(t: Tables, fCodes: FeatureCodes, order: seq<string>, tag: string, value: string, w: Sent) {
    if RuledNumber(t, tag, value) then SendsNumber(t, tag, value, w)
    else if RuledText(t, tag) then SendsText(t, tag, value, w)
    else
      && (SendsRow(t, tag, value, w) || SendsNumbered(t, fCodes, tag, value, w))
      && |t.numRules| + |t.txtRules| <= w.turn < |t.numRules| + |t.txtRules| + |order|
      && order[w.turn - |t.numRules| - |t.txtRules|] == tag
  }

  function AttrPuts(t: Tables, fCodes: FeatureCodes, order: seq<string>): (string, string) -> Option<Put<Attr>> {
    ExportPuts(t, fCodes, order, false, NumberMade(t.numbers), TextMade(), Stored())
  }

  function LogPuts(t: Tables, fCodes: FeatureCodes, order: seq<string>): (string, string) -> Option<Put<Logged>> {
    ExportPuts(t, fCodes, order, true, EntryMade(), EntryMade(), Entered())
  }

  ghost predicate Is<X>(put: Option<Put<X>>, at: string, value: X, turn: nat) {
    put.Some? && put.value == Put(at, value, turn)
  }

  lemma FirstAtIs(rules: seq<Rule>, i: nat, tag: string)
    ensures FirstFor(rules, i, tag) <==> i == FirstAt(rules, tag) && i < |rules|
  {
  }

  lemma HasRule(rules: seq<Rule>, tag: string)
    ensures (exists r <- rules :: r.tag == tag) <==> FirstAt(rules, tag) < |rules|
  {
    if r :| r in rules && r.tag == tag {
      var i :| 0 <= i < |rules| && rules[i] == r;
    }
  }

  lemma FateIs(t: Tables, fCodes: FeatureCodes, tag: string, value: string, column: string, attr: string, put: string, name: string)
    ensures FatesOf(t.lookup, fCodes)(tag, value) == Goes(column, attr, put, name) <==>
              exists w: Sent :: (SendsRow(t, tag, value, w) || SendsNumbered(t, fCodes, tag, value, w))
                && w.column == column && w.attr == attr && w.put == Text(put) && w.entry == Logged(put, name, value)
  {
    var w := Sent(column, Text(put), attr, Logged(put, name, value), 0);
    if FatesOf(t.lookup, fCodes)(tag, value) == Goes(column, attr, put, name) {
      assert SendsRow(t, tag, value, w) || SendsNumbered(t, fCodes, tag, value, w);
    }
  }

  lemma PlaceIs(order: seq<string>, tag: string, i: nat)
    requires forall i, j :: 0 <= i < j < |order| ==> order[i] != order[j]
    ensures i < |order| && order[i] == tag <==> tag in order && i == PlaceIn(order, tag)
  {
  }

  lemma NumbersSend(t: Tables, tag: string, value: string, w: Sent)
    requires RuledNumber(t, tag, value)
    ensures SendsNumber(t, tag, value, w) <==>
              Is(RulePuts(t.numRules, TakesNumbers(t.numbers), 0, NumberMade(t.numbers))(tag, value), w.column, w.put, w.turn)
              && Is(RulePuts(t.numRules, TakesNumbers(t.numbers), 0, EntryMade())(tag, value), w.attr, w.entry, w.turn)
  {
    HasRule(t.numRules, tag);
    FirstAtIs(t.numRules, w.turn, tag);
  }

  lemma TextsSend(t: Tables, tag: string, value: string, w: Sent)
    requires RuledText(t, tag)
    ensures SendsText(t, tag, value, w) <==>
              Is(RulePuts(t.txtRules, TakesAll(), |t.numRules|, TextMade())(tag, value), w.column, w.put, w.turn)
              && Is(RulePuts(t.txtRules, TakesAll(), |t.numRules|, EntryMade())(tag, value), w.attr, w.entry, w.turn)
  {
    HasRule(t.txtRules, tag);
    if w.turn >= |t.numRules| {
      FirstAtIs(t.txtRules, w.turn - |t.numRules|, tag);
    }
  }

  lemma RowsSend(t: Tables, fCodes: FeatureCodes, order: seq<string>, base: nat, tag: string, value: string, w: Sent)
    requires forall i, j :: 0 <= i < j < |order| ==> order[i] != order[j]
    ensures (SendsRow(t, tag, value, w) || SendsNumbered(t, fCodes, tag, value, w))
            && base <= w.turn < base + |order| && order[w.turn - base] == tag
            <==>
              Is(RowPuts(FatesOf(t.lookup, fCodes), order, base, false, Stored())(tag, value), w.column, w.put, w.turn)
              && Is(RowPuts(FatesOf(t.lookup, fCodes), order, base, true, Entered())(tag, value), w.attr, w.entry, w.turn)
  {
    if w.turn >= base {
      PlaceIs(order, tag, w.turn - base);
    }
    var fate := FatesOf(t.lookup, fCodes)(tag, value);
    if fate.Goes? {
      FateIs(t, fCodes, tag, value, fate.column, fate.attr, fate.value, fate.lookedUp);
    }
    if w.put.Text? {
      FateIs(t, fCodes, tag, value, w.column, w.attr, w.put.text, w.entry.tag);
    }
  }

  lemma PutsChosen<X>(t: Tables, fCodes: FeatureCodes, order: seq<string>, logged: bool, number: (string, string, string) -> X,
                      text: (string, string, string) -> X, row: (Fate, string) -> X, tag: string, value: string)
    ensures ExportPuts(t, fCodes, order, logged, number, text, row)(tag, value)
            == if RuledNumber(t, tag, value) then RulePuts(t.numRules, TakesNumbers(t.numbers), 0, number)(tag, value)
               else if RuledText(t, tag) then RulePuts(t.txtRules, TakesAll(), |t.numRules|, text)(tag, value)
               else RowPuts(FatesOf(t.lookup, fCodes), order, |t.numRules| + |t.txtRules|, logged, row)(tag, value)
  {
    HasRule(t.numRules, tag);
    HasRule(t.txtRules, tag);
  }

  lemma SendsIff(t: Tables, fCodes: FeatureCodes, order: seq<string>, tag: string, value: string, w: Sent)
    requires forall i, j :: 0 <= i < j < |order| ==> order[i] != order[j]
    ensures Sends(t, fCodes, order, tag, value, w) <==>
              Is(AttrPuts(t, fCodes, order)(tag, value), w.column, w.put, w.turn)
              && Is(LogPuts(t, fCodes, order)(tag, value), w.attr, w.entry, w.turn)
  {
    PutsChosen(t, fCodes, order, false, NumberMade(t.numbers), TextMade(), Stored(), tag, value);
    PutsChosen(t, fCodes, order, true, EntryMade(), EntryMade(), Entered(), tag, value);
    if RuledNumber(t, tag, value) {
      NumbersSend(t, tag, value, w);
    } else if RuledText(t, tag) {
      TextsSend(t, tag, value, w);
    } else {
      RowsSend(t, fCodes, order, |t.numRules| + |t.txtRules|, tag, value, w);
    }
  }

  /** A tag puts something into a column when it puts something into the log. */
  lemma BothPut(t: Tables, fCodes: FeatureCodes, order: seq<string>, tag: string, value: string)
    ensures AttrPuts(t, fCodes, order)(tag, value).Some? <==> LogPuts(t, fCodes, order)(tag, value).Some?
    ensures AttrPuts(t, fCodes, order)(tag, value).Some? ==>
              AttrPuts(t, fCodes, order)(tag, value).value.turn == LogPuts(t, fCodes, order)(tag, value).value.turn
  {
    PutsChosen(t, fCodes, order, false, NumberMade(t.numbers), TextMade(), Stored(), tag, value);
    PutsChosen(t, fCodes, order, true, EntryMade(), EntryMade(), Entered(), tag, value);
  }

  lemma SentOf(t: Tables, fCodes: FeatureCodes, order: seq<string>, tag: string, value: string) returns (w: Sent)
    requires forall i, j :: 0 <= i < j < |order| ==> order[i] != order[j]
    requires AttrPuts(t, fCodes, order)(tag, value).Some? || LogPuts(t, fCodes, order)(tag, value).Some?
    ensures Sends(t, fCodes, order, tag, value, w)
    ensures Is(AttrPuts(t, fCodes, order)(tag, value), w.column, w.put, w.turn)
    ensures Is(LogPuts(t, fCodes, order)(tag, value), w.attr, w.entry, w.turn)
  {
    BothPut(t, fCodes, order, tag, value);
    var put, entry := AttrPuts(t, fCodes, order)(tag, value).value, LogPuts(t, fCodes, order)(tag, value).value;
    w := Sent(put.at, put.value, entry.at, entry.value, put.turn);
    SendsIff(t, fCodes, order, tag, value, w);
  }

  // ----- The columns and the log after the three passes -----

  /** The tag sends this, and nothing is sent to the column later. */
  ghost predicate LastInColumn(tags: Tags, order: seq<string>, t: Tables, fCodes: FeatureCodes, tag: string, w: Sent) {
    && tag in tags && Sends(t, fCodes, order, tag, tags[tag], w)
    && forall j, u | j in tags && Sends(t, fCodes, order, j, tags[j], u) && u.column == w.column :: u.turn <= w.turn
  }

  ghost predicate LastInLog(tags: Tags, order: seq<string>, t: Tables, fCodes: FeatureCodes, tag: string, w: Sent) {
    && tag in tags && Sends(t, fCodes, order, tag, tags[tag], w)
    && forall j, u | j in tags && Sends(t, fCodes, order, j, tags[j], u) && u.attr == w.attr :: u.turn <= w.turn
  }

  lemma LastIs(tags: Tags, order: seq<string>, t: Tables, fCodes: FeatureCodes, tag: string, w: Sent)
    requires forall i, j :: 0 <= i < j < |order| ==> order[i] != order[j]
    requires tag in tags && Sends(t, fCodes, order, tag, tags[tag], w)
    ensures Last(tags, AttrPuts(t, fCodes, order), tag, w.column) ==> LastInColumn(tags, order, t, fCodes, tag, w)
    ensures Last(tags, LogPuts(t, fCodes, order), tag, w.attr) ==> LastInLog(tags, order, t, fCodes, tag, w)
  {
    SendsIff(t, fCodes, order, tag, tags[tag], w);
    forall j, u | j in tags && Sends(t, fCodes, order, j, tags[j], u)
      ensures Is(AttrPuts(t, fCodes, order)(j, tags[j]), u.column, u.put, u.turn)
      ensures Is(LogPuts(t, fCodes, order)(j, tags[j]), u.attr, u.entry, u.turn)
    {
      SendsIff(t, fCodes, order, j, tags[j], u);
    }
  }

  /** Every column holds what was sent there last, and what it held before if nothing was. */
  lemma ColumnHolds(attrs: Attrs, tags: Tags, order: seq<string>, t: Tables, fCodes: FeatureCodes, column: string)
    requires Enumerates(order, Early(attrs, tags, t).tags)
    ensures var held := At(Exported(attrs, tags, order, t, fCodes).attrs, column);
            || (exists k, w :: LastInColumn(tags, order, t, fCodes, k, w) && w.column == column && held == Some(w.put))
            || (held == At(attrs, column)
                && forall k, w | k in tags && Sends(t, fCodes, order, k, tags[k], w) :: w.column != column)
  {
    AttrsFilled(attrs, tags, order, t, fCodes);
    var puts, held := AttrPuts(t, fCodes, order), At(Exported(attrs, tags, order, t, fCodes).attrs, column);
    assert FilledAt(tags, attrs, puts, Exported(attrs, tags, order, t, fCodes).attrs, column);
    if k :| Last(tags, puts, k, column) && held == Some(puts(k, tags[k]).value.value) {
      var w := SentOf(t, fCodes, order, k, tags[k]);
      LastIs(tags, order, t, fCodes, k, w);
      assert LastInColumn(tags, order, t, fCodes, k, w);
    } else {
      assert Untouched(tags, puts, column);
      forall k, w | k in tags && Sends(t, fCodes, order, k, tags[k], w)
        ensures w.column != column
      {
        SendsIff(t, fCodes, order, k, tags[k], w);
        assert !PutsAt(puts, k, tags[k], column);
      }
    }
  }

  /** The log holds the entry of what was sent last, and nothing else. */
  lemma LogHolds(attrs: Attrs, tags: Tags, order: seq<string>, t: Tables, fCodes: FeatureCodes, attr: string)
    requires Enumerates(order, Early(attrs, tags, t).tags)
    ensures var held := At(Exported(attrs, tags, order, t, fCodes).log, attr);
            || (exists k, w :: LastInLog(tags, order, t, fCodes, k, w) && w.attr == attr && held == Some(w.entry))
            || (held == None && forall k, w | k in tags && Sends(t, fCodes, order, k, tags[k], w) :: w.attr != attr)
  {
    LogFilled(attrs, tags, order, t, fCodes);
    var puts, held := LogPuts(t, fCodes, order), At(Exported(attrs, tags, order, t, fCodes).log, attr);
    assert FilledAt(tags, map[], puts, Exported(attrs, tags, order, t, fCodes).log, attr);
    if k :| Last(tags, puts, k, attr) && held == Some(puts(k, tags[k]).value.value) {
      var w := SentOf(t, fCodes, order, k, tags[k]);
      LastIs(tags, order, t, fCodes, k, w);
      assert LastInLog(tags, order, t, fCodes, k, w);
    } else {
      assert Untouched(tags, puts, attr);
      forall k, w | k in tags && Sends(t, fCodes, order, k, tags[k], w)
        ensures w.attr != attr
      {
        SendsIff(t, fCodes, order, k, tags[k], w);
        assert !PutsAt(puts, k, tags[k], attr);
      }
    }
  }

  /** No other tag sends anything to this attribute. */
  ghost predicate Alone(tags: Tags, order: seq<string>, t: Tables, fCodes: FeatureCodes, tag: string, attr: string) {
    forall j, u | j in tags && j != tag && Sends(t, fCodes, order, j, tags[j], u) :: u.column != attr && u.attr != attr
  }

  lemma AloneIsStored(attrs: Attrs, tags: Tags, order: seq<string>, t: Tables, fCodes: FeatureCodes, tag: string, w: Sent)
    requires Enumerates(order, Early(attrs, tags, t).tags)
    requires tag in tags && Sends(t, fCodes, order, tag, tags[tag], w)
    ensures Alone(tags, order, t, fCodes, tag, w.column) ==> At(Exported(attrs, tags, order, t, fCodes).attrs, w.column) == Some(w.put)
    ensures Alone(tags, order, t, fCodes, tag, w.attr) ==> At(Exported(attrs, tags, order, t, fCodes).log, w.attr) == Some(w.entry)
  {
    ColumnHolds(attrs, tags, order, t, fCodes, w.column);
    LogHolds(attrs, tags, order, t, fCodes, w.attr);
    SendsIff(t, fCodes, order, tag, tags[tag], w);
    forall u | Sends(t, fCodes, order, tag, tags[tag], u)
      ensures u == w
    {
      SendsIff(t, fCodes, order, tag, tags[tag], u);
    }
  }

  /** A tag without a rule reaches the lookup pass. */
  lemma VisitedAt(attrs: Attrs, tags: Tags, order: seq<string>, t: Tables, tag: string) returns (turn: nat)
    requires Enumerates(order, Early(attrs, tags, t).tags)
    requires tag in tags && !RuledNumber(t, tag, tags[tag]) && !RuledText(t, tag)
    ensures |t.numRules| + |t.txtRules| <= turn < |t.numRules| + |t.txtRules| + |order|
    ensures order[turn - |t.numRules| - |t.txtRules|] == tag
  {
    HasRule(t.numRules, tag);
    HasRule(t.txtRules, tag);
    FirstRuleAt(t.numRules, tag);
    FirstRuleAt(t.txtRules, tag);
    NumTxtEffect(State(attrs, tags, map[]), t);
    assert tag in Early(attrs, tags, t).tags;
    var i :| 0 <= i < |order| && order[i] == tag;
    turn := |t.numRules| + |t.txtRules| + i;
  }

  /** A tag that has no rule, that a row names, and that alone reaches the attribute of the
      row: the attribute holds the value of the row, and so does the entry behind it. */
  lemma RowValueIsStored(attrs: Attrs, tags: Tags, order: seq<string>, t: Tables, fCodes: FeatureCodes, tag: string, attr: string)
    requires Enumerates(order, Early(attrs, tags, t).tags)
    requires tag in tags && tag in t.lookup && tags[tag] in t.lookup[tag] && t.lookup[tag][tags[tag]].attr == Some(attr)
    requires !RuledNumber(t, tag, tags[tag]) && !RuledText(t, tag) && Alone(tags, order, t, fCodes, tag, attr)
    ensures var s, value := Exported(attrs, tags, order, t, fCodes), t.lookup[tag][tags[tag]].value;
            && At(s.attrs, attr) == Some(Text(value)) && At(s.log, attr) == Some(Logged(value, tag, tags[tag]))
  {
    var value := t.lookup[tag][tags[tag]].value;
    var turn := VisitedAt(attrs, tags, order, t, tag);
    AloneIsStored(attrs, tags, order, t, fCodes, tag, Sent(attr, Text(value), attr, Logged(value, tag, tags[tag]), turn));
  }

  /** The same for a numbered tag, whose column is numbered as well. */
  lemma NumberedValueIsStored(attrs: Attrs, tags: Tags, order: seq<string>, t: Tables, fCodes: FeatureCodes,
                              tag: string, bare: string, end: char, attr: string)
    requires Enumerates(order, Early(attrs, tags, t).tags)
    requires tag in tags && tag == bare + [end] && tag !in t.lookup && !IsCode(fCodes, tag, tags[tag])
    requires bare in t.lookup && tags[tag] in t.lookup[bare] && t.lookup[bare][tags[tag]].attr == Some(attr)
    requires !RuledNumber(t, tag, tags[tag]) && !RuledText(t, tag) && Alone(tags, order, t, fCodes, tag, attr + [end])
    ensures At(Exported(attrs, tags, order, t, fCodes).attrs, attr + [end]) == Some(Text(t.lookup[bare][tags[tag]].value))
  {
    var value := t.lookup[bare][tags[tag]].value;
    var turn := VisitedAt(attrs, tags, order, t, tag);
    assert tag[..|tag| - 1] == bare && tag[|tag| - 1..] == [end];
    AloneIsStored(attrs, tags, order, t, fCodes, tag, Sent(attr + [end], Text(value), attr, Logged(value, bare, tags[tag]), turn));
  }

  /** A number is stored without its unit, or as a whole number where the attribute is listed
      for one. */
  lemma NumberIsStored(attrs: Attrs, tags: Tags, order: seq<string>, t: Tables, fCodes: FeatureCodes, tag: string, i: nat)
    requires Enumerates(order, Early(attrs, tags, t).tags)
    requires tag in tags && FirstFor(t.numRules, i, tag) && t.numbers.isNumber(t.numbers.strip(tags[tag]))
    requires Alone(tags, order, t, fCodes, tag, t.numRules[i].attr)
    ensures var s, attr, number := Exported(attrs, tags, order, t, fCodes), t.numRules[i].attr, t.numbers.strip(tags[tag]);
            && At(s.attrs, attr) == Some(if attr in t.numbers.integers then Whole(t.numbers.whole(number)) else Text(number))
            && At(s.log, attr) == Some(Logged("", tag, tags[tag]))
  {
    var attr, number := t.numRules[i].attr, t.numbers.strip(tags[tag]);
    var put := if attr in t.numbers.integers then Whole(t.numbers.whole(number)) else Text(number);
    assert t.numRules[i] in t.numRules;
    AloneIsStored(attrs, tags, order, t, fCodes, tag, Sent(attr, put, attr, Logged("", tag, tags[tag]), i));
  }

  /** Text is stored as it is, unless a rule for numbers takes it first. */
  lemma TextIsStored(attrs: Attrs, tags: Tags, order: seq<string>, t: Tables, fCodes: FeatureCodes, tag: string, i: nat)
    requires Enumerates(order, Early(attrs, tags, t).tags)
    requires tag in tags && FirstFor(t.txtRules, i, tag) && !RuledNumber(t, tag, tags[tag])
    requires Alone(tags, order, t, fCodes, tag, t.txtRules[i].attr)
    ensures var s, attr := Exported(attrs, tags, order, t, fCodes), t.txtRules[i].attr;
            && At(s.attrs, attr) == Some(Text(tags[tag])) && At(s.log, attr) == Some(Logged("", tag, tags[tag]))
  {
    var attr := t.txtRules[i].attr;
    assert t.txtRules[i] in t.txtRules;
    AloneIsStored(attrs, tags, order, t, fCodes, tag,
                  Sent(attr, Text(tags[tag]), attr, Logged("", tag, tags[tag]), |t.numRules| + i));
  }

  /** The tag has no rule and no row, also not as a numbered one, and no feature code is found
      by it where that matters. */
  ghost predicate Unused(t: Tables, fCodes: FeatureCodes, tag: string, value: string) {
    && !RuledNumber(t, tag, value) && !RuledText(t, tag)
    && if tag in t.lookup then value !in t.lookup[tag] && (value == "" || !IsCode(fCodes, tag, value))
       else !IsCode(fCodes, tag, value) && forall w: Sent :: !SendsNumbered(t, fCodes, tag, value, w)
  }

  lemma UnruledIff(t: Tables, tag: string, value: string)
    ensures NumTxtAims(t)(tag, value).None? <==> !RuledNumber(t, tag, value) && !RuledText(t, tag)
  {
    HasRule(t.numRules, tag);
    HasRule(t.txtRules, tag);
    FirstRuleAt(t.numRules, tag);
    FirstRuleAt(t.txtRules, tag);
  }

  lemma NumberedIff(t: Tables, fCodes: FeatureCodes, tag: string, value: string)
    requires tag !in t.lookup && !IsCode(fCodes, tag, value)
    ensures (exists w: Sent :: SendsNumbered(t, fCodes, tag, value, w)) <==> FateOf(t.lookup, fCodes, tag, value).Goes?
  {
    var fate := FateOf(t.lookup, fCodes, tag, value);
    if fate.Goes? {
      assert SendsNumbered(t, fCodes, tag, value,
                           Sent(fate.column, Text(fate.value), fate.attr, Logged(fate.value, fate.lookedUp, value), 0));
    }
  }

  lemma StaysIff(t: Tables, fCodes: FeatureCodes, tag: string, value: string)
    ensures ExportFates(t, fCodes)(tag, value).Stays? <==> Unused(t, fCodes, tag, value)
  {
    UnruledIff(t, tag, value);
    if tag !in t.lookup && !IsCode(fCodes, tag, value) {
      NumberedIff(t, fCodes, tag, value);
    }
  }

  /** Exactly these tags are left, with their values. */
  lemma LeftIffUnused(attrs: Attrs, tags: Tags, order: seq<string>, t: Tables, fCodes: FeatureCodes, tag: string)
    requires Enumerates(order, Early(attrs, tags, t).tags)
    ensures var left := Exported(attrs, tags, order, t, fCodes).tags;
            At(left, tag) == if tag in tags && Unused(t, fCodes, tag, tags[tag]) then Some(tags[tag]) else None
  {
    ExportRecords(attrs, tags, order, t, fCodes);
    if tag in tags {
      StaysIff(t, fCodes, tag, tags[tag]);
    }
  }
}
