/** The passes of translations/dnc_core.js that move tags into attributes and log every move,
    so that a move can be undone when its attribute turns out to be of no use. */
module DncUndoLog {
  import opened Objects
  import opened Wrappers

  /** An entry of `transMap`: the value set by a lookup row, the tag and its value. */
  datatype Logged = Logged(value: string, tag: string, original: string)

  type Log = map<string, Logged>

  /** A text or number rule: the attribute that takes the value of the tag. */
  datatype Rule = Rule(attr: string, tag: string)

  /** A lookup row; rows without an attribute are ignored. */
  datatype Row = Row(attr: Option<string>, value: string)

  type Lookup = map<string, map<string, Row>>

  /** How numbers are read: stripping units, recognising a number, dropping decimals. */
  datatype Numbers = Numbers(strip: string -> string, isNumber: string -> bool, whole: string -> string, integers: set<string>)

  /** An attribute is text, or a whole number, which is neither cut like text nor found in
      a list of texts. */
  datatype Attr = Text(text: string) | Whole(digits: string)

  type Attrs = map<string, Attr>

  datatype State = State(attrs: Attrs, tags: Tags, log: Log)

  datatype Tables = Tables(numbers: Numbers, numRules: seq<Rule>, txtRules: seq<Rule>, lookup: Lookup)

  // ----- The passes -----

  /** Move a tag into an attribute, and log the move. */
  function Move(s: State, attr: string, value: Attr, logged: string, tag: string): State
    requires tag in s.tags
  {
    State(s.attrs[attr := value], s.tags - {tag}, s.log[attr := Logged(logged, tag, s.tags[tag])])
  }

  function NumberFor(n: Numbers, attr: string, value: string): Attr {
    if attr in n.integers then Whole(n.whole(n.strip(value))) else Text(n.strip(value))
  }

  predicate Numeric(n: Numbers, value: string) {
    n.isNumber(n.strip(value))
  }

  function NumPass(s: State, rules: seq<Rule>, n: Numbers): State
    decreases |rules|
  {
    if |rules| == 0 then s
    else
      var r := rules[0];
      NumPass(if r.tag in s.tags && Numeric(n, s.tags[r.tag])
              then Move(s, r.attr, NumberFor(n, r.attr, s.tags[r.tag]), "", r.tag) else s, rules[1..], n)
  }

  function TxtPass(s: State, rules: seq<Rule>): State
    decreases |rules|
  {
    if |rules| == 0 then s
    else
      var r := rules[0];
      TxtPass(if r.tag in s.tags then Move(s, r.attr, Text(s.tags[r.tag]), "", r.tag) else s, rules[1..])
  }

  /** The row for a tag and its value, if it names an attribute. */
  function RowFor(lookup: Lookup, tag: string, value: string): Option<Row> {
    if tag in lookup && value in lookup[tag] && lookup[tag][value].attr.Some? then Some(lookup[tag][value]) else None
  }

  function OnePass(s: State, order: seq<string>, lookup: Lookup): State
    decreases |order|
  {
    if |order| == 0 then s
    else
      var col := order[0];
      OnePass(if col in s.tags && RowFor(lookup, col, s.tags[col]).Some?
              then var row := RowFor(lookup, col, s.tags[col]).value;
                   Move(s, row.attr.value, Text(row.value), row.value, col)
              else s, order[1..], lookup)
  }

  method ApplyNumToOgr(given: State, rules: seq<Rule>, n: Numbers) returns (s: State)
    ensures s == NumPass(given, rules, n)
  {
    var attrs, tags, transMap := given.attrs, given.tags, given.log;
    for i := 0 to |rules|
      invariant NumPass(given, rules, n) == NumPass(State(attrs, tags, transMap), rules[i..], n)
    {
      var r := rules[i];
      assert rules[i..][1..] == rules[i + 1..];
      if r.tag in tags {
        var tNum := n.strip(tags[r.tag]);
        if n.isNumber(tNum) {
          if r.attr in n.integers {
            attrs := attrs[r.attr := Whole(n.whole(tNum))];
          } else {
            attrs := attrs[r.attr := Text(tNum)];
          }
          transMap := transMap[r.attr := Logged("", r.tag, tags[r.tag])];
          tags := tags - {r.tag};
        }
      }
    }
    s := State(attrs, tags, transMap);
  }

  method ApplyTxtToOgr(given: State, rules: seq<Rule>) returns (s: State)
    ensures s == TxtPass(given, rules)
  {
    var attrs, tags, transMap := given.attrs, given.tags, given.log;
    for i := 0 to |rules|
      invariant TxtPass(given, rules) == TxtPass(State(attrs, tags, transMap), rules[i..])
    {
      var r := rules[i];
      assert rules[i..][1..] == rules[i + 1..];
      if r.tag in tags {
        attrs := attrs[r.attr := Text(tags[r.tag])];
        transMap := transMap[r.attr := Logged("", r.tag, tags[r.tag])];
        tags := tags - {r.tag};
      }
    }
    s := State(attrs, tags, transMap);
  }

  method ApplyOne2OneModified(given: State, order: seq<string>, lookup: Lookup) returns (s: State)
    ensures s == OnePass(given, order, lookup)
  {
    var outList, inList, transMap := given.attrs, given.tags, given.log;
    for i := 0 to |order|
      invariant OnePass(given, order, lookup) == OnePass(State(outList, inList, transMap), order[i..], lookup)
    {
      var col := order[i];
      assert order[i..][1..] == order[i + 1..];
      if col in inList {
        var value := inList[col];
        if col in lookup && value in lookup[col] {
          var row := lookup[col][value];
          if row.attr.Some? {
            outList := outList[row.attr.value := Text(row.value)];
            transMap := transMap[row.attr.value := Logged(row.value, col, value)];
            inList := inList - {col};
          }
        }
      }
    }
    s := State(outList, inList, transMap);
  }

  /** The three passes, in the order in which a feature goes through them. */
  function Passes(s: State, order: seq<string>, t: Tables): State {
    OnePass(TxtPass(NumPass(s, t.numRules, t.numbers), t.txtRules), order, t.lookup)
  }

  // ----- Where a tag goes -----

  /** The attribute of the first rule for this tag. */
  function FirstRule(rules: seq<Rule>, tag: string): Option<string> {
    if |rules| == 0 then None
    else if rules[0].tag == tag then Some(rules[0].attr)
    else FirstRule(rules[1..], tag)
  }

  function NumAim(t: Tables, tag: string, value: string): Option<string> {
    if Numeric(t.numbers, value) then FirstRule(t.numRules, tag) else None
  }

  function RowAim(t: Tables, tag: string, value: string): Option<string> {
    if RowFor(t.lookup, tag, value).Some? then RowFor(t.lookup, tag, value).value.attr else None
  }

  /** The attribute a tag with this value ends up in, whatever other tags there are. */
  function Aim(t: Tables, tag: string, value: string): Option<string> {
    if NumAim(t, tag, value).Some? then NumAim(t, tag, value)
    else if FirstRule(t.txtRules, tag).Some? then FirstRule(t.txtRules, tag)
    else RowAim(t, tag, value)
  }

  /** No two tags are aimed at the same attribute. */
  predicate AimsDiffer(tags: Tags, t: Tables) {
    forall a, b :: a in tags && b in tags && a != b && Aim(t, a, tags[a]).Some? ==>
      Aim(t, a, tags[a]) != Aim(t, b, tags[b])
  }

  // ----- Conservation -----

  /** The tags that are left and the tags in the log are the original ones, each once. */
  ghost predicate Conserved(original: Tags, tags: Tags, log: Log) {
    && (forall k <- tags :: k in original && tags[k] == original[k])
    && (forall a <- log :: log[a].tag in original && log[a].tag !in tags && log[a].original == original[log[a].tag])
    && (forall a, b :: a in log && b in log && a != b ==> log[a].tag != log[b].tag)
    && (forall k <- original :: k in tags || Behind(log, k))
  }

  /** The tag is behind one of the logged attributes. */
  ghost predicate Behind(log: Log, tag: string) {
    exists a :: a in log && log[a].tag == tag
  }

  /** What a pass with these aims does to a state: it moves every tag that has an aim, logs
      each move under that aim, and leaves the rest of the log alone. */
  ghost predicate Effect(s: State, aim: (string, string) -> Option<string>, s': State) {
    && (forall k <- s'.tags :: k in s.tags && s'.tags[k] == s.tags[k] && aim(k, s.tags[k]).None?)
    && (forall k <- s.tags :: k !in s'.tags ==> aim(k, s.tags[k]).Some? && aim(k, s.tags[k]).value in s'.log)
    && (forall a <- s.log :: a in s'.log)
    && (forall a <- s'.log :: (a in s.log && s'.log[a] == s.log[a]) || MovedHere(s, aim, s', a))
  }

  ghost predicate MovedHere(s: State, aim: (string, string) -> Option<string>, s': State, a: string)
    requires a in s'.log
  {
    var l := s'.log[a];
    l.tag in s.tags && l.tag !in s'.tags && l.original == s.tags[l.tag] && aim(l.tag, l.original) == Some(a)
  }

  /** A first move in front of an effect. */
  lemma MoveThenEffect(s: State, attr: string, value: Attr, logged: string, tag: string,
                       rest: (string, string) -> Option<string>, aim: (string, string) -> Option<string>, s': State)
    requires tag in s.tags && aim(tag, s.tags[tag]) == Some(attr)
    requires forall k <- s.tags :: k != tag ==> aim(k, s.tags[k]) == rest(k, s.tags[k])
    requires Effect(Move(s, attr, value, logged, tag), rest, s')
    ensures Effect(s, aim, s')
  {
    var m := Move(s, attr, value, logged, tag);
    forall a | a in s'.log
      ensures (a in s.log && s'.log[a] == s.log[a]) || MovedHere(s, aim, s', a)
    {
      if a in m.log && s'.log[a] == m.log[a] {
        assert a == attr ==> s'.log[a].tag == tag;
      } else {
        assert MovedHere(m, rest, s', a);
      }
    }
    assert attr in m.log;
  }

  lemma SameEffect(s: State, rest: (string, string) -> Option<string>, aim: (string, string) -> Option<string>, s': State)
    requires Effect(s, rest, s')
    requires forall k <- s.tags :: aim(k, s.tags[k]) == rest(k, s.tags[k])
    ensures Effect(s, aim, s')
  {
  }

  function NumAims(rules: seq<Rule>, n: Numbers): (string, string) -> Option<string> {
    (k, v) => if Numeric(n, v) then FirstRule(rules, k) else None
  }

  function TxtAims(rules: seq<Rule>): (string, string) -> Option<string> {
    (k, v) => FirstRule(rules, k)
  }

  /** The aims of the first rule together with those of the others. */
  lemma NumAimsStep(s: State, rules: seq<Rule>, n: Numbers)
    requires |rules| > 0
    ensures forall k <- s.tags :: k != rules[0].tag || !Numeric(n, s.tags[k]) ==>
              NumAims(rules, n)(k, s.tags[k]) == NumAims(rules[1..], n)(k, s.tags[k])
    ensures rules[0].tag in s.tags && Numeric(n, s.tags[rules[0].tag]) ==>
              NumAims(rules, n)(rules[0].tag, s.tags[rules[0].tag]) == Some(rules[0].attr)
  {
    forall k | k in s.tags && (k != rules[0].tag || !Numeric(n, s.tags[k]))
      ensures NumAims(rules, n)(k, s.tags[k]) == NumAims(rules[1..], n)(k, s.tags[k])
    {
      assert k != rules[0].tag ==> FirstRule(rules, k) == FirstRule(rules[1..], k);
    }
  }

  lemma {:induction false} NumPassEffect(s: State, rules: seq<Rule>, n: Numbers)
    ensures Effect(s, NumAims(rules, n), NumPass(s, rules, n))
    decreases |rules|
  {
    if |rules| > 0 {
      var r := rules[0];
      NumAimsStep(s, rules, n);
      if r.tag in s.tags && Numeric(n, s.tags[r.tag]) {
        var value := NumberFor(n, r.attr, s.tags[r.tag]);
        NumPassEffect(Move(s, r.attr, value, "", r.tag), rules[1..], n);
        MoveThenEffect(s, r.attr, value, "", r.tag, NumAims(rules[1..], n), NumAims(rules, n), NumPass(s, rules, n));
      } else {
        NumPassEffect(s, rules[1..], n);
        SameEffect(s, NumAims(rules[1..], n), NumAims(rules, n), NumPass(s, rules, n));
      }
    }
  }

  lemma {:induction false} TxtPassEffect(s: State, rules: seq<Rule>)
    ensures Effect(s, TxtAims(rules), TxtPass(s, rules))
    decreases |rules|
  {
    if |rules| > 0 {
      var r := rules[0];
      var aim, rest := TxtAims(rules), TxtAims(rules[1..]);
      if r.tag in s.tags {
        TxtPassEffect(Move(s, r.attr, Text(s.tags[r.tag]), "", r.tag), rules[1..]);
        MoveThenEffect(s, r.attr, Text(s.tags[r.tag]), "", r.tag, rest, aim, TxtPass(s, rules));
      } else {
        TxtPassEffect(s, rules[1..]);
        SameEffect(s, rest, aim, TxtPass(s, rules));
      }
    }
  }

  /** The aim of a row, as long as its column is still to be visited. */
  function RowAimIn(t: Tables, order: seq<string>): (string, string) -> Option<string> {
    (k, v) => if k in order then RowAim(t, k, v) else None
  }

  lemma {:induction false} OnePassEffect(s: State, order: seq<string>, t: Tables)
    requires forall i, j :: 0 <= i < j < |order| ==> order[i] != order[j]
    ensures Effect(s, RowAimIn(t, order), OnePass(s, order, t.lookup))
    decreases |order|
  {
    if |order| > 0 {
      var col := order[0];
      var rest := order[1..];
      assert forall k :: k in order <==> k == col || k in rest;
      assert col !in rest;
      if col in s.tags && RowFor(t.lookup, col, s.tags[col]).Some? {
        var row := RowFor(t.lookup, col, s.tags[col]).value;
        OnePassEffect(Move(s, row.attr.value, Text(row.value), row.value, col), rest, t);
        MoveThenEffect(s, row.attr.value, Text(row.value), row.value, col, RowAimIn(t, rest), RowAimIn(t, order),
                       OnePass(s, order, t.lookup));
      } else {
        OnePassEffect(s, rest, t);
        SameEffect(s, RowAimIn(t, rest), RowAimIn(t, order), OnePass(s, order, t.lookup));
      }
    }
  }

  /** Two passes in a row have the aims of the first, and then those of the second. */
  lemma EffectsCompose(s: State, first: (string, string) -> Option<string>, mid: State,
                       second: (string, string) -> Option<string>, s': State,
                       aim: (string, string) -> Option<string>)
    requires Effect(s, first, mid) && Effect(mid, second, s')
    requires forall k <- s.tags :: aim(k, s.tags[k]) ==
               if first(k, s.tags[k]).Some? then first(k, s.tags[k]) else second(k, s.tags[k])
    ensures Effect(s, aim, s')
  {
    forall a | a in s'.log
      ensures (a in s.log && s'.log[a] == s.log[a]) || MovedHere(s, aim, s', a)
    {
      if a in mid.log && s'.log[a] == mid.log[a] {
        assert (a in s.log && mid.log[a] == s.log[a]) || MovedHere(s, first, mid, a);
      } else {
        assert MovedHere(mid, second, s', a);
      }
    }
  }

  function RowAims(t: Tables): (string, string) -> Option<string> {
    (k, v) => RowAim(t, k, v)
  }

  function NumTxtAims(t: Tables): (string, string) -> Option<string> {
    (k, v) => if NumAim(t, k, v).Some? then NumAim(t, k, v) else FirstRule(t.txtRules, k)
  }

  function Aims(t: Tables): (string, string) -> Option<string> {
    (k, v) => Aim(t, k, v)
  }

  lemma NumTxtEffect(s: State, t: Tables)
    ensures Effect(s, NumTxtAims(t), TxtPass(NumPass(s, t.numRules, t.numbers), t.txtRules))
  {
    var mid := NumPass(s, t.numRules, t.numbers);
    NumPassEffect(s, t.numRules, t.numbers);
    TxtPassEffect(mid, t.txtRules);
    EffectsCompose(s, NumAims(t.numRules, t.numbers), mid, TxtAims(t.txtRules), TxtPass(mid, t.txtRules), NumTxtAims(t));
  }

  lemma RowEffect(s: State, order: seq<string>, t: Tables)
    requires Enumerates(order, s.tags)
    ensures Effect(s, RowAims(t), OnePass(s, order, t.lookup))
  {
    OnePassEffect(s, order, t);
    SameEffect(s, RowAimIn(t, order), RowAims(t), OnePass(s, order, t.lookup));
  }

  /** The passes move exactly the tags that have an aim, each to its aim. */
  lemma PassesEffect(s: State, order: seq<string>, t: Tables)
    requires Enumerates(order, TxtPass(NumPass(s, t.numRules, t.numbers), t.txtRules).tags)
    ensures Effect(s, Aims(t), Passes(s, order, t))
  {
    var late := TxtPass(NumPass(s, t.numRules, t.numbers), t.txtRules);
    NumTxtEffect(s, t);
    RowEffect(late, order, t);
    EffectsCompose(s, NumTxtAims(t), late, RowAims(t), Passes(s, order, t), Aims(t));
  }

  /** After the passes the original tags can be recovered from what is left and the log, if
      and only if no two of them were aimed at the same attribute. */
  lemma ConservedIff(attrs: Attrs, tags: Tags, order: seq<string>, t: Tables)
    requires Enumerates(order, TxtPass(NumPass(State(attrs, tags, map[]), t.numRules, t.numbers), t.txtRules).tags)
    ensures var s := Passes(State(attrs, tags, map[]), order, t);
            Conserved(tags, s.tags, s.log) <==> AimsDiffer(tags, t)
  {
    var start := State(attrs, tags, map[]);
    var s := Passes(start, order, t);
    PassesEffect(start, order, t);
    forall a | a in s.log
      ensures var l := s.log[a];
              l.tag in tags && l.tag !in s.tags && l.original == tags[l.tag] && Aim(t, l.tag, tags[l.tag]) == Some(a)
    {
      assert MovedHere(start, Aims(t), s, a);
    }
    ConservedFromAims(tags, s, t);
  }

  lemma ConservedFromAims(tags: Tags, s: State, t: Tables)
    requires forall k <- s.tags :: k in tags && s.tags[k] == tags[k] && Aim(t, k, tags[k]).None?
    requires forall k <- tags :: k !in s.tags ==> Aim(t, k, tags[k]).Some? && Aim(t, k, tags[k]).value in s.log
    requires forall a <- s.log :: s.log[a].tag in tags && s.log[a].tag !in s.tags && s.log[a].original == tags[s.log[a].tag]
               && Aim(t, s.log[a].tag, tags[s.log[a].tag]) == Some(a)
    ensures Conserved(tags, s.tags, s.log) <==> AimsDiffer(tags, t)
  {
    if AimsDiffer(tags, t) {
      forall k | k in tags && k !in s.tags
        ensures Behind(s.log, k)
      {
        var a := Aim(t, k, tags[k]).value;
        assert s.log[a].tag == k;
      }
    }
    if Conserved(tags, s.tags, s.log) {
      forall a, b | a in tags && b in tags && a != b && Aim(t, a, tags[a]).Some?
        ensures Aim(t, a, tags[a]) != Aim(t, b, tags[b])
      {
        assert Behind(s.log, a);
        var x :| x in s.log && s.log[x].tag == a;
        assert Aim(t, a, tags[a]) == Some(x);
        if b !in s.tags {
          assert Behind(s.log, b);
          var y :| y in s.log && s.log[y].tag == b;
          assert Aim(t, b, tags[b]) == Some(y);
        }
      }
    }
  }
}
