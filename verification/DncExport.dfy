/** The part of `toOgr` in translations/dnc_core.js that keeps the undo log: the passes for
    numbers and text, the lookup pass of translations/translate.js, and the validation. */
module DncExport {
  import opened DncConservation
  import opened DncUndoLog
  import opened DncValidate
  import opened Objects
  import opened OneToOnePass
  import opened Wrappers

  /** The tags that the first two passes leave, and what they have done. */
  function Early(attrs: Attrs, tags: Tags, t: Tables): State {
    TxtPass(NumPass(State(attrs, tags, map[]), t.numRules, t.numbers), t.txtRules)
  }

  function Exported(attrs: Attrs, tags: Tags, order: seq<string>, t: Tables, fCodes: FeatureCodes): State {
    Pass(Early(attrs, tags, t), order, FatesOf(t.lookup, fCodes))
  }

  method Translate(given: Attrs, tags: Tags, order: seq<string>, t: Tables, fCodes: FeatureCodes) returns (s: State)
    requires Enumerates(order, Early(given, tags, t).tags)
    ensures s == Exported(given, tags, order, t, fCodes)
  {
    s := ApplyNumToOgr(State(given, tags, map[]), t.numRules, t.numbers);
    s := ApplyTxtToOgr(s, t.txtRules);
    s := ApplyOne2One(s, order, t.lookup, fCodes);
  }

  /** What becomes of a tag in all three passes. */
  function ExportFates(t: Tables, fCodes: FeatureCodes): Fates {
    (k, v) =>
      if NumTxtAims(t)(k, v).Some? then Goes(NumTxtAims(t)(k, v).value, NumTxtAims(t)(k, v).value, "", k)
      else FateOf(t.lookup, fCodes, k, v)
  }

  lemma ExportFatesAreFinal(t: Tables, fCodes: FeatureCodes)
    ensures NamesAreFinal(ExportFates(t, fCodes))
  {
    FatesAreFinal(t.lookup, fCodes);
    forall j, v, k, w | j != k && ExportFates(t, fCodes)(j, v).Goes? && ExportFates(t, fCodes)(j, v).lookedUp != j
                        && ExportFates(t, fCodes)(k, w).Goes?
      ensures ExportFates(t, fCodes)(k, w).lookedUp != j
    {
      assert FatesOf(t.lookup, fCodes)(j, v) == ExportFates(t, fCodes)(j, v);
      if NumTxtAims(t)(k, w).None? {
        assert FatesOf(t.lookup, fCodes)(k, w) == ExportFates(t, fCodes)(k, w);
      }
    }
  }

  /** Tags with an aim go there under their own names; the others meet their later fates. */
  ghost predicate AimsThen(tags: Tags, aims: (string, string) -> Option<string>, late: Fates, fates: Fates) {
    forall k <- tags ::
      if aims(k, tags[k]).Some?
      then fates(k, tags[k]).Goes? && fates(k, tags[k]).attr == aims(k, tags[k]).value && fates(k, tags[k]).lookedUp == k
      else fates(k, tags[k]) == late(k, tags[k])
  }

  lemma EntriesRecord(start: State, aims: (string, string) -> Option<string>, mid: State, order: seq<string>, late: Fates,
                      s: State, fates: Fates)
    requires start.log == map[] && Effect(start, aims, mid) && Done(mid, order, s, late)
    requires AimsThen(start.tags, aims, late, fates)
    ensures forall a <- s.log :: exists k :: Records(start.tags, s, a, k, fates)
  {
    forall a | a in s.log
      ensures exists k :: Records(start.tags, s, a, k, fates)
    {
      if a in mid.log && s.log[a] == mid.log[a] {
        assert MovedHere(start, aims, mid, a);
        assert Records(start.tags, s, a, s.log[a].tag, fates);
      } else {
        var k :| Stems(mid, s, a, k, late);
        assert Records(start.tags, s, a, k, fates);
      }
    }
  }

  lemma TagsRecord(start: State, aims: (string, string) -> Option<string>, mid: State, order: seq<string>, late: Fates,
                   s: State, fates: Fates)
    requires Effect(start, aims, mid) && Done(mid, order, s, late) && Enumerates(order, mid.tags)
    requires AimsThen(start.tags, aims, late, fates)
    ensures forall k <- s.tags :: k in start.tags && s.tags[k] == start.tags[k]
    ensures forall k <- start.tags :: k in s.tags <==> fates(k, start.tags[k]).Stays?
    ensures forall k <- start.tags :: fates(k, start.tags[k]).Goes? ==> fates(k, start.tags[k]).attr in s.log
  {
    forall k | k in start.tags
      ensures k in s.tags <==> fates(k, start.tags[k]).Stays?
      ensures fates(k, start.tags[k]).Goes? ==> fates(k, start.tags[k]).attr in s.log
    {
      if k in mid.tags {
        assert k in order;
      }
    }
  }

  lemma ExportRecords(attrs: Attrs, tags: Tags, order: seq<string>, t: Tables, fCodes: FeatureCodes)
    requires Enumerates(order, Early(attrs, tags, t).tags)
    ensures Recorded(tags, Exported(attrs, tags, order, t, fCodes), ExportFates(t, fCodes))
  {
    var start, mid := State(attrs, tags, map[]), Early(attrs, tags, t);
    NumTxtEffect(start, t);
    PassIsDone(mid, order, FatesOf(t.lookup, fCodes));
    var s := Exported(attrs, tags, order, t, fCodes);
    EntriesRecord(start, NumTxtAims(t), mid, order, FatesOf(t.lookup, fCodes), s, ExportFates(t, fCodes));
    TagsRecord(start, NumTxtAims(t), mid, order, FatesOf(t.lookup, fCodes), s, ExportFates(t, fCodes));
  }

  /** After the three passes the original tags can be recovered if and only if every tag that
      is not moved as a number or as text stays or goes under its own name, and no two tags
      reach one attribute. */
  lemma ExportConservesIff(attrs: Attrs, tags: Tags, order: seq<string>, t: Tables, fCodes: FeatureCodes)
    requires Enumerates(order, Early(attrs, tags, t).tags)
    ensures var s := Exported(attrs, tags, order, t, fCodes);
            Conserved(tags, s.tags, s.log) <==> Traceable(tags, ExportFates(t, fCodes))
  {
    ExportRecords(attrs, tags, order, t, fCodes);
    ExportFatesAreFinal(t, fCodes);
    RecoverableIff(tags, Exported(attrs, tags, order, t, fCodes), ExportFates(t, fCodes));
  }

  /** The tags that are not used up on purpose, to find the feature code or by a rule without
      an attribute. */
  function Wanted(tags: Tags, fates: Fates): Tags {
    map k | k in tags && !fates(k, tags[k]).UsedUp? :: tags[k]
  }

  lemma WantedRecorded(tags: Tags, s: State, fates: Fates)
    requires Recorded(tags, s, fates)
    ensures Recorded(Wanted(tags, fates), s, fates)
  {
    forall a | a in s.log
      ensures exists k :: Records(Wanted(tags, fates), s, a, k, fates)
    {
      var k :| Records(tags, s, a, k, fates);
      assert Records(Wanted(tags, fates), s, a, k, fates);
    }
  }

  /** Whatever is used up on purpose: all the other tags can be recovered if and only if each
      of them stays or goes under its own name, and no two reach one attribute. */
  lemma ExportConservesWantedIff(attrs: Attrs, tags: Tags, order: seq<string>, t: Tables, fCodes: FeatureCodes)
    requires Enumerates(order, Early(attrs, tags, t).tags)
    ensures var s, wanted := Exported(attrs, tags, order, t, fCodes), Wanted(tags, ExportFates(t, fCodes));
            Conserved(wanted, s.tags, s.log) <==> Traceable(wanted, ExportFates(t, fCodes))
  {
    var s, fates := Exported(attrs, tags, order, t, fCodes), ExportFates(t, fCodes);
    ExportRecords(attrs, tags, order, t, fCodes);
    ExportFatesAreFinal(t, fCodes);
    WantedRecorded(tags, s, fates);
    RecoverableIff(Wanted(tags, fates), s, fates);
  }

  /** Then no two entries of the log name one tag. */
  lemma TraceableLogDiffers(attrs: Attrs, tags: Tags, order: seq<string>, t: Tables, fCodes: FeatureCodes)
    requires Enumerates(order, Early(attrs, tags, t).tags)
    requires Traceable(Wanted(tags, ExportFates(t, fCodes)), ExportFates(t, fCodes))
    ensures TagsDiffer(Exported(attrs, tags, order, t, fCodes).log)
  {
    ExportConservesWantedIff(attrs, tags, order, t, fCodes);
  }

  /** The validation neither loses nor brings back any of the tags that a log records. */
  lemma ValidationConservesIff(tags: Tags, s: State, fates: Fates, visit: seq<string>, layer: Layer, rules: Rules, geometry: string)
    requires Recorded(tags, s, fates) && NamesAreFinal(fates)
    requires Enumerates(visit, s.attrs) && DistinctColumns(layer.columns)
    ensures var v := Validate(Checked(s.attrs, s.tags), s.log, visit, Some(layer), rules, geometry);
            Conserved(tags, v.notUsed, s.log - Lost(s.attrs, layer, rules, geometry)) <==> Traceable(tags, fates)
  {
    var given := Checked(s.attrs, s.tags);
    RecoverableIff(tags, s, fates);
    if Traceable(tags, fates) {
      ValidateConserves(tags, given, s.log, visit, layer, rules, geometry);
    } else {
      UntraceableLoses(tags, s, fates);
      var x :| x in tags && x !in s.tags && !Behind(s.log, x);
      StaysLost(tags, given, s.log, visit, layer, rules, geometry, x);
    }
  }

  /** The passes and the validation together: the unused tags and the tags behind the
      attributes that were neither dropped nor reset are the original ones, if and only if
      the tags were traceable. */
  lemma ValidatedExportConservesIff(attrs: Attrs, tags: Tags, order: seq<string>, t: Tables, fCodes: FeatureCodes,
                                    visit: seq<string>, layer: Layer, rules: Rules, geometry: string)
    requires Enumerates(order, Early(attrs, tags, t).tags)
    requires Enumerates(visit, Exported(attrs, tags, order, t, fCodes).attrs)
    requires DistinctColumns(layer.columns)
    ensures var s := Exported(attrs, tags, order, t, fCodes);
            var v := Validate(Checked(s.attrs, s.tags), s.log, visit, Some(layer), rules, geometry);
            Conserved(tags, v.notUsed, s.log - Lost(s.attrs, layer, rules, geometry))
            <==> Traceable(tags, ExportFates(t, fCodes))
  {
    ExportRecords(attrs, tags, order, t, fCodes);
    ExportFatesAreFinal(t, fCodes);
    ValidationConservesIff(tags, Exported(attrs, tags, order, t, fCodes), ExportFates(t, fCodes), visit, layer, rules, geometry);
  }

  /** The same for the tags that are not used up on purpose, whatever else there is. */
  lemma ValidatedExportConservesWantedIff(attrs: Attrs, tags: Tags, order: seq<string>, t: Tables, fCodes: FeatureCodes,
                                          visit: seq<string>, layer: Layer, rules: Rules, geometry: string)
    requires Enumerates(order, Early(attrs, tags, t).tags)
    requires Enumerates(visit, Exported(attrs, tags, order, t, fCodes).attrs)
    requires DistinctColumns(layer.columns)
    ensures var s, wanted := Exported(attrs, tags, order, t, fCodes), Wanted(tags, ExportFates(t, fCodes));
            var v := Validate(Checked(s.attrs, s.tags), s.log, visit, Some(layer), rules, geometry);
            Conserved(wanted, v.notUsed, s.log - Lost(s.attrs, layer, rules, geometry))
            <==> Traceable(wanted, ExportFates(t, fCodes))
  {
    var s, fates := Exported(attrs, tags, order, t, fCodes), ExportFates(t, fCodes);
    ExportRecords(attrs, tags, order, t, fCodes);
    ExportFatesAreFinal(t, fCodes);
    WantedRecorded(tags, s, fates);
    ValidationConservesIff(Wanted(tags, fates), s, fates, visit, layer, rules, geometry);
  }
}
