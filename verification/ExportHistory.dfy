/** What must have happened before a download on the single path of
    node-export-server/server.js. */
module ExportHistory {
  import opened ExportJobs

  /** The zip of this job was closed in this step. */
  predicate ClosesZip(inputs: seq<Input>, n: int, hash: Hash, id: nat) {
    0 <= n < |inputs| && FiresZip(Run(INITIAL, inputs[..n]), inputs[n], hash, id)
  }

  predicate FiresZip(s: State, input: Input, hash: Hash, id: nat) {
    !s.crashed && input.Fire? && input.handle in s.pending && s.pending[input.handle] == ZipClosed(hash, id)
  }

  ghost predicate WasZipped(inputs: seq<Input>, hash: Hash, id: nat) {
    exists n :: ClosesZip(inputs, n, hash, id)
  }

  /** A job of the single path that is complete. */
  predicate SingleDone(s: State, hash: Hash, id: nat) {
    hash in s.jobs && s.jobs[hash].id == id && s.jobs[hash].status == Complete && !s.jobs[hash].rings
  }

  /** Nothing but its zip completes a job of the single path. */
  lemma OnlyZipCompletes(s: State, input: Input, hash: Hash, id: nat)
    requires Inv(s) && Quiet(s, input) && SingleDone(Step(s, input), hash, id)
    ensures SingleDone(s, hash, id) || FiresZip(s, input, hash, id)
  {
    if input.Fire? && input.handle in s.pending {
      assert Matches(s, input.handle);
    }
  }

  /** A complete job of the single path has been zipped. */
  lemma {:induction false} DoneWasZipped(inputs: seq<Input>, hash: Hash, id: nat)
    requires QuietRun(INITIAL, inputs) && SingleDone(Run(INITIAL, inputs), hash, id)
    ensures WasZipped(inputs, hash, id)
    decreases |inputs|
  {
    if |inputs| > 0 {
      var n := |inputs| - 1;
      var before := inputs[..n];
      assert inputs == before + [inputs[n]];
      RunAppend(INITIAL, before, [inputs[n]]);
      RunOne(Run(INITIAL, before), inputs[n]);
      InitialInv();
      QuietRunsAreSafe(INITIAL, before);
      OnlyZipCompletes(Run(INITIAL, before), inputs[n], hash, id);
      if SingleDone(Run(INITIAL, before), hash, id) {
        DoneWasZipped(before, hash, id);
        var m :| ClosesZip(before, m, hash, id);
        assert before[..m] == inputs[..m];
        assert ClosesZip(inputs, m, hash, id);
      } else {
        assert ClosesZip(inputs, n, hash, id);
      }
    }
  }

  /** Whenever a download is under way on the single path, the zip of its own job was closed
      in an earlier step. */
  lemma DownloadNeedsZip(inputs: seq<Input>, t: nat)
    requires QuietRun(INITIAL, inputs)
    requires var s := Run(INITIAL, inputs);
             t in s.pending && s.pending[t].DownloadDone? && s.pending[t].hash in s.jobs && !s.jobs[s.pending[t].hash].rings
    ensures var c := Run(INITIAL, inputs).pending[t]; WasZipped(inputs, c.hash, c.id)
  {
    var s := Run(INITIAL, inputs);
    InitialInv();
    QuietRunsAreSafe(INITIAL, inputs);
    assert Matches(s, t);
    DoneWasZipped(inputs, s.pending[t].hash, s.pending[t].id);
  }
}
