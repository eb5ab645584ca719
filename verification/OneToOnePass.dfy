/** The pass of translations/translate.js that the exports call: it looks every tag up, also
    without its last character, and logs what it moves. */
module OneToOnePass {
  import opened DncUndoLog
  import opened Objects

  /** The values that stand for a feature code. */
  type FeatureCodes = map<string, set<string>>

  /** What becomes of a tag: it stays; it is used up without a trace; or a value goes into
      a column, logged under an attribute and under the tag that was looked up. */
  datatype Fate = Stays | UsedUp | Goes(column: string, attr: string, value: string, lookedUp: string)

  type Fates = (string, string) -> Fate

  predicate IsCode(fCodes: FeatureCodes, tag: string, value: string) {
    tag in fCodes && value in fCodes[tag]
  }

  function FateOf(lookup: Lookup, fCodes: FeatureCodes, tag: string, value: string): Fate {
    if tag in lookup then
      if value in lookup[tag] then
        var row := lookup[tag][value];
        if row.attr.Some? then Goes(row.attr.value, row.attr.value, row.value, tag) else UsedUp
      else if value != "" && IsCode(fCodes, tag, value) then UsedUp
      else Stays
    else if IsCode(fCodes, tag, value) then UsedUp
    else if tag == "" then Stays
    else
      var bare, end := tag[..|tag| - 1], tag[|tag| - 1];
      var row := RowFor(lookup, bare, value);
      if row.Some? then Goes(row.value.attr.value + [end], row.value.attr.value, row.value.value, bare) else Stays
  }

  function FatesOf(lookup: Lookup, fCodes: FeatureCodes): Fates {
    (tag, value) => FateOf(lookup, fCodes, tag, value)
  }

  function Step(s: State, tag: string, fates: Fates): State {
    if tag !in s.tags then s
    else
      match fates(tag, s.tags[tag])
      case Stays => s
      case UsedUp => s.(tags := s.tags - {tag})
      case Goes(column, attr, value, lookedUp) =>
        State(s.attrs[column := Text(value)], s.tags - {tag}, s.log[attr := Logged(value, lookedUp, s.tags[tag])])
  }

  function Pass(s: State, order: seq<string>, fates: Fates): State
    decreases |order|
  {
    if |order| == 0 then s else Pass(Step(s, order[0], fates), order[1..], fates)
  }

  /** One turn of the loop. */
  method ApplyToKey(given: State, key: string, lookup: Lookup, fCodeList: FeatureCodes) returns (s: State)
    requires key in given.tags
    ensures s == Step(given, key, FatesOf(lookup, fCodeList))
  {
    var outList, inList, transMap := given.attrs, given.tags, given.log;
    var value := inList[key];
    if key in lookup {
      if value in lookup[key] {
        var row := lookup[key][value];
        if row.attr.Some? {
          outList := outList[row.attr.value := Text(row.value)];
          transMap := transMap[row.attr.value := Logged(row.value, key, value)];
        }
        inList := inList - {key};
      } else if value != "" && IsCode(fCodeList, key, value) {
        inList := inList - {key};
      }
    } else if IsCode(fCodeList, key, value) {
      inList := inList - {key};
    } else if key != "" {
      var endChar, tAttrib := key[|key| - 1], key[..|key| - 1];
      if tAttrib in lookup && value in lookup[tAttrib] {
        var row := lookup[tAttrib][value];
        if row.attr.Some? {
          outList := outList[row.attr.value + [endChar] := Text(row.value)];
          transMap := transMap[row.attr.value := Logged(row.value, tAttrib, value)];
          inList := inList - {key};
        }
      }
    }
    s := State(outList, inList, transMap);
  }

  lemma StepKeepsOthers(s: State, key: string, fates: Fates)
    ensures forall k :: k in s.tags && k != key ==> k in Step(s, key, fates).tags
  {
  }

  method ApplyOne2One(given: State, kList: seq<string>, lookup: Lookup, fCodeList: FeatureCodes) returns (s: State)
    requires Enumerates(kList, given.tags)
    ensures s == Pass(given, kList, FatesOf(lookup, fCodeList))
  {
    ghost var fates := FatesOf(lookup, fCodeList);
    s := given;
    for i := 0 to |kList|
      invariant Pass(given, kList, fates) == Pass(s, kList[i..], fates)
      invariant forall j :: i <= j < |kList| ==> kList[j] in s.tags
    {
      assert kList[i..][1..] == kList[i + 1..];
      StepKeepsOthers(s, kList[i], fates);
      s := ApplyToKey(s, kList[i], lookup, fCodeList);
    }
  }

  // ----- What the pass does -----

  /** The entry stems from this tag. */
  predicate Stems(s: State, s': State, a: string, tag: string, fates: Fates)
    requires a in s'.log
  {
    && tag in s.tags && tag !in s'.tags
    && var fate := fates(tag, s.tags[tag]);
       fate.Goes? && fate.attr == a && s'.log[a] == Logged(fate.value, fate.lookedUp, s.tags[tag])
  }

  /** Exactly the tags that do not stay are gone, and every move is logged. */
  ghost predicate Done(s: State, order: seq<string>, s': State, fates: Fates) {
    && (forall k <- s'.tags :: k in s.tags && s'.tags[k] == s.tags[k])
    && (forall k <- s.tags :: k in s'.tags <==> k !in order || fates(k, s.tags[k]).Stays?)
    && (forall k <- s.tags :: k in order && fates(k, s.tags[k]).Goes? ==> fates(k, s.tags[k]).attr in s'.log)
    && (forall a <- s.log :: a in s'.log)
    && (forall a <- s'.log :: (a in s.log && s'.log[a] == s.log[a]) || exists k :: Stems(s, s', a, k, fates))
  }

  lemma EntriesStem(s: State, tag: string, rest: seq<string>, s': State, fates: Fates)
    requires tag !in rest && Done(Step(s, tag, fates), rest, s', fates)
    ensures forall a <- s'.log :: (a in s.log && s'.log[a] == s.log[a]) || exists k :: Stems(s, s', a, k, fates)
  {
    var mid := Step(s, tag, fates);
    forall a | a in s'.log
      ensures (a in s.log && s'.log[a] == s.log[a]) || exists k :: Stems(s, s', a, k, fates)
    {
      if a in mid.log && s'.log[a] == mid.log[a] {
        if !(a in s.log && mid.log[a] == s.log[a]) {
          assert Stems(s, s', a, tag, fates);
        }
      } else {
        var k :| Stems(mid, s', a, k, fates);
        assert Stems(s, s', a, k, fates);
      }
    }
  }

  lemma StepThenDone(s: State, tag: string, rest: seq<string>, s': State, fates: Fates)
    requires tag !in rest && Done(Step(s, tag, fates), rest, s', fates)
    ensures Done(s, [tag] + rest, s', fates)
  {
    assert forall k :: k in [tag] + rest <==> k == tag || k in rest;
    EntriesStem(s, tag, rest, s', fates);
  }

  lemma {:induction false} PassIsDone(s: State, order: seq<string>, fates: Fates)
    requires forall i, j :: 0 <= i < j < |order| ==> order[i] != order[j]
    ensures Done(s, order, Pass(s, order, fates), fates)
    decreases |order|
  {
    if |order| > 0 {
      var rest := order[1..];
      assert forall i :: 0 <= i < |rest| ==> rest[i] == order[i + 1];
      PassIsDone(Step(s, order[0], fates), rest, fates);
      StepThenDone(s, order[0], rest, Pass(s, order, fates), fates);
      assert order == [order[0]] + rest;
    }
  }

  /** Every tag stays or goes under its own name, no two of them to one attribute. */
  ghost predicate Traceable(tags: Tags, fates: Fates) {
    && (forall k <- tags :: fates(k, tags[k]).Stays? || (fates(k, tags[k]).Goes? && fates(k, tags[k]).lookedUp == k))
    && (forall j, k :: j in tags && k in tags && j != k && fates(j, tags[j]).Goes? && fates(k, tags[k]).Goes? ==>
          fates(j, tags[j]).attr != fates(k, tags[k]).attr)
  }

  /** The entry records this tag, under the name by which it was looked up. */
  predicate Records(tags: Tags, s: State, a: string, tag: string, fates: Fates)
    requires a in s.log
  {
    && tag in tags && tag !in s.tags && fates(tag, tags[tag]).Goes? && fates(tag, tags[tag]).attr == a
    && s.log[a].tag == fates(tag, tags[tag]).lookedUp && s.log[a].original == tags[tag]
  }

  /** What is left of these tags, and a log of what is gone. */
  ghost predicate Recorded(tags: Tags, s: State, fates: Fates) {
    && (forall k <- s.tags :: k in tags && s.tags[k] == tags[k])
    && (forall k <- tags :: k in s.tags <==> fates(k, tags[k]).Stays?)
    && (forall k <- tags :: fates(k, tags[k]).Goes? ==> fates(k, tags[k]).attr in s.log)
    && (forall a <- s.log :: exists k :: Records(tags, s, a, k, fates))
  }

  /** A tag that goes under another name is not the name that any other tag goes under. */
  ghost predicate NamesAreFinal(fates: Fates) {
    forall j, v, k, w | j != k && fates(j, v).Goes? && fates(j, v).lookedUp != j && fates(k, w).Goes? ::
      fates(k, w).lookedUp != j
  }

  lemma FatesAreFinal(lookup: Lookup, fCodes: FeatureCodes)
    ensures NamesAreFinal(FatesOf(lookup, fCodes))
  {
  }

  lemma TraceableConserves(tags: Tags, s: State, fates: Fates)
    requires Recorded(tags, s, fates) && Traceable(tags, fates)
    ensures Conserved(tags, s.tags, s.log)
  {
    forall a | a in s.log
      ensures Records(tags, s, a, s.log[a].tag, fates)
    {
      var k :| Records(tags, s, a, k, fates);
    }
    forall k | k in tags && k !in s.tags
      ensures Behind(s.log, k)
    {
      var a := fates(k, tags[k]).attr;
      assert Records(tags, s, a, s.log[a].tag, fates);
      assert s.log[a].tag == k;
    }
  }

  /** The tag that is lost when two go to one attribute: neither left, nor in the log. */
  lemma OneOfTwoIsLost(tags: Tags, s: State, fates: Fates, j: string, k: string)
    requires Recorded(tags, s, fates) && j in tags && k in tags && j != k
    requires forall m <- tags :: fates(m, tags[m]).Goes? ==> fates(m, tags[m]).lookedUp == m
    requires fates(j, tags[j]).Goes? && fates(k, tags[k]).Goes? && fates(j, tags[j]).attr == fates(k, tags[k]).attr
    ensures exists x :: x in tags && x !in s.tags && !Behind(s.log, x)
  {
    var attr := fates(j, tags[j]).attr;
    var x := if s.log[attr].tag == j then k else j;
    forall a | a in s.log
      ensures s.log[a].tag != x
    {
      var m :| Records(tags, s, a, m, fates);
    }
    assert !Behind(s.log, x);
  }

  /** When the tags are not traceable, some tag is neither left nor in the log. */
  lemma UntraceableLoses(tags: Tags, s: State, fates: Fates)
    requires Recorded(tags, s, fates) && NamesAreFinal(fates) && !Traceable(tags, fates)
    ensures exists x :: x in tags && x !in s.tags && !Behind(s.log, x)
  {
    if j :| j in tags && fates(j, tags[j]).Goes? && fates(j, tags[j]).lookedUp != j {
      forall a | a in s.log
        ensures s.log[a].tag != j
      {
        var m :| Records(tags, s, a, m, fates);
      }
      assert !Behind(s.log, j);
    } else if k :| k in tags && fates(k, tags[k]).UsedUp? {
      forall a | a in s.log
        ensures s.log[a].tag != k
      {
        var m :| Records(tags, s, a, m, fates);
      }
      assert !Behind(s.log, k);
    } else {
      var j, k :| j in tags && k in tags && j != k && fates(j, tags[j]).Goes? && fates(k, tags[k]).Goes?
                  && fates(j, tags[j]).attr == fates(k, tags[k]).attr;
      OneOfTwoIsLost(tags, s, fates, j, k);
    }
  }

  /** The original tags can be recovered if and only if they are traceable. */
  lemma RecoverableIff(tags: Tags, s: State, fates: Fates)
    requires Recorded(tags, s, fates) && NamesAreFinal(fates)
    ensures Conserved(tags, s.tags, s.log) <==> Traceable(tags, fates)
  {
    if Traceable(tags, fates) {
      TraceableConserves(tags, s, fates);
    } else {
      UntraceableLoses(tags, s, fates);
    }
  }

  lemma PassRecords(attrs: Attrs, tags: Tags, order: seq<string>, fates: Fates)
    requires Enumerates(order, tags)
    ensures Recorded(tags, Pass(State(attrs, tags, map[]), order, fates), fates)
  {
    var start := State(attrs, tags, map[]);
    var s := Pass(start, order, fates);
    PassIsDone(start, order, fates);
    forall a | a in s.log
      ensures exists k :: Records(tags, s, a, k, fates)
    {
      var k :| Stems(start, s, a, k, fates);
      assert Records(tags, s, a, k, fates);
    }
  }

  /** The original tags can be recovered after the pass if and only if every tag stays or
      goes under its own name, no two to one attribute. A tag that is only used to find the
      feature code, a row without an attribute, and a numbered tag all lose the tag. */
  lemma PassConservesIff(attrs: Attrs, tags: Tags, order: seq<string>, lookup: Lookup, fCodes: FeatureCodes)
    requires Enumerates(order, tags)
    ensures var s := Pass(State(attrs, tags, map[]), order, FatesOf(lookup, fCodes));
            Conserved(tags, s.tags, s.log) <==> Traceable(tags, FatesOf(lookup, fCodes))
  {
    PassRecords(attrs, tags, order, FatesOf(lookup, fCodes));
    FatesAreFinal(lookup, fCodes);
    RecoverableIff(tags, Pass(State(attrs, tags, map[]), order, FatesOf(lookup, fCodes)), FatesOf(lookup, fCodes));
  }

  /** A numbered tag is lost: the log names a tag that was never there. */
  lemma NumberedTagIsLost(lookup: Lookup, fCodes: FeatureCodes, tag: string, value: string)
    requires tag != "" && tag !in lookup && !IsCode(fCodes, tag, value) && RowFor(lookup, tag[..|tag| - 1], value).Some?
    ensures var s := Pass(State(map[], map[tag := value], map[]), [tag], FatesOf(lookup, fCodes));
            var row := RowFor(lookup, tag[..|tag| - 1], value).value;
            && s.tags == map[] && s.attrs == map[row.attr.value + [tag[|tag| - 1]] := Text(row.value)]
            && s.log == map[row.attr.value := Logged(row.value, tag[..|tag| - 1], value)]
            && !Conserved(map[tag := value], s.tags, s.log)
  {
  }
}
