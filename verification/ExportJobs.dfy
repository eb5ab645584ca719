/** The job table of node-export-server/server.js.  Node runs every callback to its end, so
    a run is a sequence of requests and fired callbacks; which one comes next is up to the
    environment. */
module ExportJobs {
  import opened Wrappers

  datatype Hash = Hash(digest: string)

  datatype Status = Running | Complete | Failed

  /** A table entry.  `rings` tells the ring path of `doExport` from the single one. */
  datatype Job = Job(id: nat, status: Status, timeout: Option<nat>, rings: bool)

  /** A callback that is yet to run.  The code only captures the hash; `id` records for
      which job it was registered. */
  datatype Callback =
    | ExecDone(hash: Hash, id: nat, rings: bool)
    | ZipClosed(hash: Hash, id: nat)
    | DownloadDone(hash: Hash, id: nat)
    | Cleanup(hash: Hash, id: nat)

  datatype Method = GET | POST | HEAD

  datatype Reply = SentHash | SentFile | SentError | NotFound

  /** `next` is the next unused handle.  A callback that dereferences a missing job throws,
      which ends the process. */
  datatype State = State(jobs: map<Hash, Job>, pending: map<nat, Callback>, next: nat, crashed: bool)

  datatype Input =
    | Export(hash: Hash, verb: Method, multi: bool)
    | Query(hash: Hash, verb: Method)
    | Fire(handle: nat, ok: bool)

  const INITIAL := State(map[], map[], 0, false)

  // ----- One step -----

  function Register(s: State, callback: Callback): State {
    s.(pending := s.pending[s.next := callback], next := s.next + 1)
  }

  function SetStatus(s: State, hash: Hash, status: Status): State {
    if hash in s.jobs then s.(jobs := s.jobs[hash := s.jobs[hash].(status := status)])
    else s.(crashed := true)
  }

  function DoExport(s: State, hash: Hash, verb: Method, multi: bool): (State, Reply) {
    if hash !in s.jobs then
      (Register(s.(jobs := s.jobs[hash := Job(s.next, Running, None, multi)]), ExecDone(hash, s.next, multi)), SentHash)
    else
      match s.jobs[hash].status
      case Complete =>
        if verb == POST then (s, SentHash) else (Register(s, DownloadDone(hash, s.jobs[hash].id)), SentFile)
      case Failed => (if verb == GET then s.(jobs := s.jobs - {hash}) else s, SentError)
      case Running => (s, SentHash)
  }

  function GetJob(s: State, hash: Hash, verb: Method): (State, Reply) {
    if hash in s.jobs then DoExport(s, hash, verb, false) else (s, NotFound)
  }

  /** What a callback does, once it has been taken off the pending ones. */
  function Call(s: State, callback: Callback, ok: bool): State {
    match callback
    case ExecDone(hash, id, rings) =>
      if !ok then SetStatus(s, hash, Failed)
      else if rings then
        var t := SetStatus(s, hash, Complete);
        if t.crashed then t else Register(t, ZipClosed(hash, id))
      else Register(s, ZipClosed(hash, id))
    case ZipClosed(hash, _) => SetStatus(s, hash, Complete)
    case DownloadDone(hash, id) =>
      if hash !in s.jobs then s.(crashed := true)
      else
        var job := s.jobs[hash];
        var t := if job.timeout.Some? then s.(pending := s.pending - {job.timeout.value}) else s;
        Register(t.(jobs := t.jobs[hash := job.(timeout := Some(t.next))]), Cleanup(hash, id))
    case Cleanup(hash, _) => s.(jobs := s.jobs - {hash})
  }

  function Step(s: State, input: Input): State {
    if s.crashed then s
    else
      match input
      case Export(hash, verb, multi) => DoExport(s, hash, verb, multi).0
      case Query(hash, verb) => GetJob(s, hash, verb).0
      case Fire(handle, ok) =>
        if handle in s.pending then Call(s.(pending := s.pending - {handle}), s.pending[handle], ok) else s
  }

  function Run(s: State, inputs: seq<Input>): State
    decreases |inputs|
  {
    if |inputs| == 0 then s else Run(Step(s, inputs[0]), inputs[1..])
  }

  // ----- The environment assumption -----

  /** A zip or a download of this hash is still going on. */
  predicate InFlight(s: State, hash: Hash) {
    exists t <- s.pending :: (s.pending[t].ZipClosed? || s.pending[t].DownloadDone?) && s.pending[t].hash == hash
  }

  /** No cleanup timer fires while its hash is in flight. */
  predicate Quiet(s: State, input: Input) {
    input.Fire? && input.handle in s.pending && s.pending[input.handle].Cleanup?
    ==> !InFlight(s, s.pending[input.handle].hash)
  }

  predicate QuietRun(s: State, inputs: seq<Input>)
    decreases |inputs|
  {
    |inputs| > 0 ==> Quiet(s, inputs[0]) && QuietRun(Step(s, inputs[0]), inputs[1..])
  }

  // ----- The invariant -----

  /** A pending callback finds the job it was registered for, in the right status. */
  predicate Matches(s: State, t: nat)
    requires t in s.pending
  {
    var c := s.pending[t];
    && c.hash in s.jobs && s.jobs[c.hash].id == c.id
    && var job := s.jobs[c.hash];
       match c
       case ExecDone(_, _, rings) => job.status == Running && job.rings == rings
       case ZipClosed(_, _) => job.status == if job.rings then Complete else Running
       case DownloadDone(_, _) => job.status == Complete
       case Cleanup(_, _) => job.status == Complete && job.timeout == Some(t)
  }

  predicate Works(c: Callback) {
    c.ExecDone? || c.ZipClosed?
  }

  /** The child process or the zip of one job. */
  predicate OneWorker(s: State) {
    forall t, u :: (t in s.pending && u in s.pending && Works(s.pending[t]) && Works(s.pending[u])
                    && s.pending[t].hash == s.pending[u].hash) ==> t == u
  }

  /** A recorded timer is pending, for the job that recorded it. */
  predicate TimerPending(s: State, hash: Hash)
    requires hash in s.jobs
  {
    var job := s.jobs[hash];
    job.timeout.Some? ==> job.timeout.value in s.pending && s.pending[job.timeout.value] == Cleanup(hash, job.id)
  }

  predicate Inv(s: State) {
    && !s.crashed
    && (forall t <- s.pending :: t < s.next && Matches(s, t))
    && (forall h <- s.jobs :: s.jobs[h].id < s.next && TimerPending(s, h))
    && OneWorker(s)
  }

  /** Registering a callback that matches its job. */
  lemma RegisterKeepsInv(s: State, c: Callback)
    requires Inv(s) && c.DownloadDone?
    requires c.hash in s.jobs && s.jobs[c.hash].id == c.id && s.jobs[c.hash].status == Complete
    ensures Inv(Register(s, c))
  {
  }

  lemma NewJobKeepsInv(s: State, hash: Hash, verb: Method, multi: bool)
    requires Inv(s) && hash !in s.jobs
    ensures Inv(DoExport(s, hash, verb, multi).0)
  {
    var s' := DoExport(s, hash, verb, multi).0;
    forall t | t in s.pending
      ensures Matches(s', t) && s.pending[t].hash != hash
    {
      assert Matches(s, t);
    }
    assert Matches(s', s.next);
    forall h | h in s.jobs
      ensures s'.jobs[h].id < s'.next && TimerPending(s', h)
    {
      assert TimerPending(s, h);
    }
  }

  lemma ExportKeepsInv(s: State, hash: Hash, verb: Method, multi: bool)
    requires Inv(s)
    ensures Inv(DoExport(s, hash, verb, multi).0)
  {
    if hash !in s.jobs {
      NewJobKeepsInv(s, hash, verb, multi);
    } else if s.jobs[hash].status == Complete {
      RegisterKeepsInv(s, DownloadDone(hash, s.jobs[hash].id));
    } else if s.jobs[hash].status == Failed {
      var s' := DoExport(s, hash, verb, multi).0;
      forall t | t in s'.pending
        ensures Matches(s', t)
      {
        assert Matches(s, t);
      }
      forall h | h in s'.jobs
        ensures TimerPending(s', h)
      {
        assert TimerPending(s, h);
      }
    }
  }

  lemma ExecKeepsInv(s: State, handle: nat, ok: bool)
    requires Inv(s) && handle in s.pending && s.pending[handle].ExecDone?
    ensures Inv(Step(s, Fire(handle, ok)))
  {
    var c, s' := s.pending[handle], Step(s, Fire(handle, ok));
    assert Matches(s, handle);
    forall t | t in s'.pending
      ensures t < s'.next && Matches(s', t)
    {
      assert t in s.pending ==> Matches(s, t);
    }
    forall h | h in s'.jobs
      ensures s'.jobs[h].id < s'.next && TimerPending(s', h)
    {
      assert TimerPending(s, h);
    }
  }

  lemma ZipKeepsInv(s: State, handle: nat, ok: bool)
    requires Inv(s) && handle in s.pending && s.pending[handle].ZipClosed?
    ensures Inv(Step(s, Fire(handle, ok)))
  {
    var c, s' := s.pending[handle], Step(s, Fire(handle, ok));
    assert Matches(s, handle);
    forall t | t in s'.pending
      ensures t < s'.next && Matches(s', t)
    {
      assert Matches(s, t);
    }
    forall h | h in s'.jobs
      ensures s'.jobs[h].id < s'.next && TimerPending(s', h)
    {
      assert TimerPending(s, h);
    }
  }

  lemma DownloadKeepsInv(s: State, handle: nat, ok: bool)
    requires Inv(s) && handle in s.pending && s.pending[handle].DownloadDone?
    ensures Inv(Step(s, Fire(handle, ok)))
  {
    var c, s' := s.pending[handle], Step(s, Fire(handle, ok));
    assert Matches(s, handle);
    assert TimerPending(s, c.hash);
    forall t | t in s'.pending
      ensures t < s'.next && Matches(s', t)
    {
      assert t in s.pending ==> Matches(s, t);
    }
    forall h | h in s'.jobs
      ensures s'.jobs[h].id < s'.next && TimerPending(s', h)
    {
      assert TimerPending(s, h);
    }
  }

  lemma CleanupKeepsInv(s: State, handle: nat, ok: bool)
    requires Inv(s) && handle in s.pending && s.pending[handle].Cleanup? && Quiet(s, Fire(handle, ok))
    ensures Inv(Step(s, Fire(handle, ok)))
  {
    var c, s' := s.pending[handle], Step(s, Fire(handle, ok));
    assert Matches(s, handle);
    forall t | t in s'.pending
      ensures t < s'.next && Matches(s', t)
    {
      assert Matches(s, t);
    }
    forall h | h in s'.jobs
      ensures s'.jobs[h].id < s'.next && TimerPending(s', h)
    {
      assert TimerPending(s, h);
    }
  }

  lemma StepKeepsInv(s: State, input: Input)
    requires Inv(s) && Quiet(s, input)
    ensures Inv(Step(s, input))
  {
    match input
    case Export(hash, verb, multi) => ExportKeepsInv(s, hash, verb, multi);
    case Query(hash, verb) => ExportKeepsInv(s, hash, verb, false);
    case Fire(handle, ok) =>
      if handle in s.pending {
        match s.pending[handle]
        case ExecDone(_, _, _) => ExecKeepsInv(s, handle, ok);
        case ZipClosed(_, _) => ZipKeepsInv(s, handle, ok);
        case DownloadDone(_, _) => DownloadKeepsInv(s, handle, ok);
        case Cleanup(_, _) => CleanupKeepsInv(s, handle, ok);
      }
  }

  // ----- Every run -----

  /** No callback of a quiet run ever misses its job: the process does not crash, and
      everything still pending will find the job it was registered for. */
  lemma {:induction false} QuietRunsAreSafe(s: State, inputs: seq<Input>)
    requires Inv(s) && QuietRun(s, inputs)
    ensures Inv(Run(s, inputs))
    decreases |inputs|
  {
    if |inputs| > 0 {
      StepKeepsInv(s, inputs[0]);
      QuietRunsAreSafe(Step(s, inputs[0]), inputs[1..]);
    }
  }

  lemma InitialInv()
    ensures Inv(INITIAL)
  {
  }

  /** At most one child process per hash, and only for a job that is running. */
  lemma OneChild(inputs: seq<Input>, t: nat, u: nat)
    requires QuietRun(INITIAL, inputs)
    requires var s := Run(INITIAL, inputs);
             && t in s.pending && u in s.pending && s.pending[t].ExecDone? && s.pending[u].ExecDone?
             && s.pending[t].hash == s.pending[u].hash
    ensures t == u
    ensures var s := Run(INITIAL, inputs);
            s.pending[t].hash in s.jobs && s.jobs[s.pending[t].hash].status == Running
  {
    InitialInv();
    QuietRunsAreSafe(INITIAL, inputs);
    assert Matches(Run(INITIAL, inputs), t);
  }

  /** At most one cleanup timer per hash, owned by the current job, which is complete. */
  lemma OneTimer(inputs: seq<Input>, t: nat, u: nat)
    requires QuietRun(INITIAL, inputs)
    requires var s := Run(INITIAL, inputs);
             && t in s.pending && u in s.pending && s.pending[t].Cleanup? && s.pending[u].Cleanup?
             && s.pending[t].hash == s.pending[u].hash
    ensures t == u
    ensures var s := Run(INITIAL, inputs);
            var c := s.pending[t];
            c.hash in s.jobs && s.jobs[c.hash].id == c.id && s.jobs[c.hash].status == Complete
  {
    InitialInv();
    QuietRunsAreSafe(INITIAL, inputs);
    assert Matches(Run(INITIAL, inputs), t) && Matches(Run(INITIAL, inputs), u);
  }

  /** On the single path nothing is downloaded while the zip is being written. */
  lemma DownloadAfterZip(inputs: seq<Input>, t: nat, u: nat)
    requires QuietRun(INITIAL, inputs)
    requires var s := Run(INITIAL, inputs);
             && t in s.pending && s.pending[t].DownloadDone?
             && s.pending[t].hash in s.jobs && !s.jobs[s.pending[t].hash].rings
             && u in s.pending && Works(s.pending[u])
    ensures Run(INITIAL, inputs).pending[t].hash != Run(INITIAL, inputs).pending[u].hash
  {
    InitialInv();
    QuietRunsAreSafe(INITIAL, inputs);
    assert Matches(Run(INITIAL, inputs), t) && Matches(Run(INITIAL, inputs), u);
  }

  const H := Hash("h")

  /** The ring path marks the job complete before it starts zipping: a download can start
      while the zip is still open. */
  lemma RingDownloadDuringZip()
    ensures var inputs := [Export(H, GET, true), Fire(0, true), Export(H, GET, true)];
            && QuietRun(INITIAL, inputs)
            && Run(INITIAL, inputs).pending == map[1 := ZipClosed(H, 0), 2 := DownloadDone(H, 0)]
  {
    var inputs := [Export(H, GET, true), Fire(0, true), Export(H, GET, true)];
    var s1 := Step(INITIAL, inputs[0]);
    var s2 := Step(s1, inputs[1]);
    var s3 := Step(s2, inputs[2]);
    assert s1 == State(map[H := Job(0, Running, None, true)], map[0 := ExecDone(H, 0, true)], 1, false);
    assert s2 == State(map[H := Job(0, Complete, None, true)], map[1 := ZipClosed(H, 0)], 2, false);
    assert s3 == State(map[H := Job(0, Complete, None, true)], map[1 := ZipClosed(H, 0), 2 := DownloadDone(H, 0)], 3, false);
    assert inputs[1..][1..] == [inputs[2]] && inputs[1..][1..][1..] == [];
    assert Run(s2, [inputs[2]]) == s3;
    assert Run(INITIAL, inputs) == s3;
    assert QuietRun(s2, [inputs[2]]) && QuietRun(s1, inputs[1..]);
  }

  // ----- Status and generations -----

  /** A job that has left the table, or given way to a later one, never returns. */
  lemma {:induction false} NoReturn(s: State, inputs: seq<Input>, hash: Hash, id: nat)
    requires id < s.next && (hash !in s.jobs || s.jobs[hash].id != id)
    ensures var s' := Run(s, inputs); hash !in s'.jobs || s'.jobs[hash].id != id
    decreases |inputs|
  {
    if |inputs| > 0 {
      NoReturn(Step(s, inputs[0]), inputs[1..], hash, id);
    }
  }

  predicate Forward(before: Status, after: Status) {
    before == after || before == Running
  }

  lemma StepGoesForward(s: State, input: Input, hash: Hash)
    requires Inv(s) && Quiet(s, input) && hash in s.jobs
    ensures var s' := Step(s, input);
            hash in s'.jobs && s'.jobs[hash].id == s.jobs[hash].id ==>
              Forward(s.jobs[hash].status, s'.jobs[hash].status) && s'.jobs[hash].rings == s.jobs[hash].rings
  {
    if input.Fire? && input.handle in s.pending {
      assert Matches(s, input.handle);
    }
  }

  /** While a job is in the table its status goes from running to complete or failed, and
      then stays. */
  lemma {:induction false} StatusGoesForward(s: State, inputs: seq<Input>, hash: Hash)
    requires Inv(s) && QuietRun(s, inputs) && hash in s.jobs
    ensures var s' := Run(s, inputs);
            hash in s'.jobs && s'.jobs[hash].id == s.jobs[hash].id ==>
              Forward(s.jobs[hash].status, s'.jobs[hash].status)
    decreases |inputs|
  {
    if |inputs| > 0 {
      var id, s1 := s.jobs[hash].id, Step(s, inputs[0]);
      StepKeepsInv(s, inputs[0]);
      StepGoesForward(s, inputs[0], hash);
      if hash in s1.jobs && s1.jobs[hash].id == id {
        StatusGoesForward(s1, inputs[1..], hash);
      } else {
        NoReturn(s1, inputs[1..], hash, id);
      }
    }
  }

  /** Every running job is still being worked on: a job never hangs in the table. */
  predicate Worked(s: State) {
    forall h <- s.jobs :: s.jobs[h].status == Running ==>
      exists t <- s.pending :: Works(s.pending[t]) && s.pending[t].hash == h
  }

  lemma StepKeepsWorked(s: State, input: Input)
    requires Inv(s) && Quiet(s, input) && Worked(s)
    ensures Worked(Step(s, input))
  {
    var s' := Step(s, input);
    forall h | h in s'.jobs && s'.jobs[h].status == Running
      ensures exists t <- s'.pending :: Works(s'.pending[t]) && s'.pending[t].hash == h
    {
      if h !in s.jobs {
        assert s.next in s'.pending && Works(s'.pending[s.next]);
      } else {
        if input.Fire? && input.handle in s.pending {
          assert Matches(s, input.handle);
        }
        assert s.jobs[h].status == Running;
        var t :| t in s.pending && Works(s.pending[t]) && s.pending[t].hash == h;
        WorkerStays(s, input, h, t);
      }
    }
  }

  /** The worker of a job that keeps running is still there, or has just handed over. */
  lemma WorkerStays(s: State, input: Input, h: Hash, t: nat)
    requires Inv(s) && Quiet(s, input) && h in s.jobs && s.jobs[h].status == Running
    requires t in s.pending && Works(s.pending[t]) && s.pending[t].hash == h
    requires h in Step(s, input).jobs && Step(s, input).jobs[h].status == Running
    ensures exists u <- Step(s, input).pending :: Works(Step(s, input).pending[u]) && Step(s, input).pending[u].hash == h
  {
    var s' := Step(s, input);
    assert Matches(s, t);
    if input.Fire? && input.handle == t {
      assert s.next in s'.pending && Works(s'.pending[s.next]) && s'.pending[s.next].hash == h;
    } else {
      if input.Fire? && input.handle in s.pending && s.pending[input.handle].DownloadDone? {
        assert Matches(s, input.handle);
        assert TimerPending(s, s.pending[input.handle].hash);
      }
      assert t in s'.pending && s'.pending[t] == s.pending[t];
    }
  }

  lemma {:induction false} NoJobHangs(s: State, inputs: seq<Input>)
    requires Inv(s) && Worked(s) && QuietRun(s, inputs)
    ensures Worked(Run(s, inputs))
    decreases |inputs|
  {
    if |inputs| > 0 {
      StepKeepsInv(s, inputs[0]);
      StepKeepsWorked(s, inputs[0]);
      NoJobHangs(Step(s, inputs[0]), inputs[1..]);
    }
  }

  // ----- The assumption is needed -----

  lemma {:induction false} CrashIsFinal(s: State, inputs: seq<Input>)
    requires s.crashed
    ensures Run(s, inputs).crashed
    decreases |inputs|
  {
    if |inputs| > 0 {
      CrashIsFinal(Step(s, inputs[0]), inputs[1..]);
    }
  }

  /** A firing cleanup timer leaves a callback behind that will crash the process if and
      only if a zip or a download of its hash is in flight. */
  lemma CrashIffInFlight(s: State, handle: nat)
    requires Inv(s) && handle in s.pending && s.pending[handle].Cleanup?
    ensures var s' := Step(s, Fire(handle, true));
            (exists t, ok :: t in s'.pending && Step(s', Fire(t, ok)).crashed) <==> InFlight(s, s.pending[handle].hash)
  {
    var hash, s' := s.pending[handle].hash, Step(s, Fire(handle, true));
    if InFlight(s, hash) {
      var t :| t in s.pending && (s.pending[t].ZipClosed? || s.pending[t].DownloadDone?) && s.pending[t].hash == hash;
      assert t in s'.pending && Step(s', Fire(t, true)).crashed;
    } else {
      assert Quiet(s, Fire(handle, true));
      StepKeepsInv(s, Fire(handle, true));
      forall t, ok: bool | t in s'.pending
        ensures !Step(s', Fire(t, ok)).crashed
      {
        assert Matches(s', t);
      }
    }
  }

  lemma {:induction false} RunAppend(s: State, first: seq<Input>, second: seq<Input>)
    ensures Run(s, first + second) == Run(Run(s, first), second)
    ensures QuietRun(s, first + second) <==> QuietRun(s, first) && QuietRun(Run(s, first), second)
    decreases |first|
  {
    if |first| == 0 {
      assert first + second == second;
    } else {
      assert (first + second)[1..] == first[1..] + second;
      RunAppend(Step(s, first[0]), first[1..], second);
    }
  }

  lemma RunOne(s: State, input: Input)
    ensures Run(s, [input]) == Step(s, input)
    ensures QuietRun(s, [input]) <==> Quiet(s, input)
  {
  }

  /** A quiet run that does these three steps in a row. */
  lemma RunThree(s: State, a: Input, b: Input, c: Input)
    ensures Run(s, [a, b, c]) == Step(Step(Step(s, a), b), c)
    ensures QuietRun(s, [a, b, c]) <==> Quiet(s, a) && Quiet(Step(s, a), b) && Quiet(Step(Step(s, a), b), c)
  {
    RunOne(s, a);
    RunOne(Step(s, a), b);
    RunOne(Step(Step(s, a), b), c);
    RunAppend(s, [a], [b]);
    RunAppend(s, [a] + [b], [c]);
    assert [a] + [b] + [c] == [a, b, c];
  }

  /** Export, convert and zip on the single path. */
  const ZIPPED: seq<Input> := [Export(H, GET, false), Fire(0, true), Fire(1, true)]

  /** One download that ends, and a second one that starts. */
  const DOWNLOADING: seq<Input> := [Export(H, GET, false), Fire(2, true), Export(H, GET, false)]

  /** The state with the timer of the first download and the second download pending. */
  const SLOW := State(map[H := Job(0, Complete, Some(3), false)],
                      map[3 := Cleanup(H, 0), 4 := DownloadDone(H, 0)], 5, false)

  lemma ZippedRun()
    ensures Run(INITIAL, ZIPPED) == State(map[H := Job(0, Complete, None, false)], map[], 2, false)
    ensures QuietRun(INITIAL, ZIPPED)
  {
    var s1 := State(map[H := Job(0, Running, None, false)], map[0 := ExecDone(H, 0, false)], 1, false);
    var s2 := State(map[H := Job(0, Running, None, false)], map[1 := ZipClosed(H, 0)], 2, false);
    assert Step(INITIAL, ZIPPED[0]) == s1;
    assert Step(s1, ZIPPED[1]) == s2;
    RunThree(INITIAL, ZIPPED[0], ZIPPED[1], ZIPPED[2]);
  }

  lemma DownloadingRun()
    ensures var s := State(map[H := Job(0, Complete, None, false)], map[], 2, false);
            Run(s, DOWNLOADING) == SLOW && QuietRun(s, DOWNLOADING)
  {
    var s3 := State(map[H := Job(0, Complete, None, false)], map[], 2, false);
    var s4 := State(s3.jobs, map[2 := DownloadDone(H, 0)], 3, false);
    var s5 := State(map[H := Job(0, Complete, Some(3), false)], map[3 := Cleanup(H, 0)], 4, false);
    assert Step(s3, DOWNLOADING[0]) == s4;
    assert Step(s4, DOWNLOADING[1]) == s5;
    RunThree(s3, DOWNLOADING[0], DOWNLOADING[1], DOWNLOADING[2]);
  }

  /** Two downloads of one finished export, with the second one slow: the timer that the
      first one left removes the job, and the end of the second crashes the process. */
  lemma SlowDownloadCrashes()
    ensures QuietRun(INITIAL, ZIPPED + DOWNLOADING)
    ensures Run(INITIAL, ZIPPED + DOWNLOADING + [Fire(3, true)] + [Fire(4, true)]).crashed
  {
    ZippedRun();
    DownloadingRun();
    RunAppend(INITIAL, ZIPPED, DOWNLOADING);
    RunAppend(INITIAL, ZIPPED + DOWNLOADING, [Fire(3, true)]);
    RunAppend(INITIAL, ZIPPED + DOWNLOADING + [Fire(3, true)], [Fire(4, true)]);
    RunOne(SLOW, Fire(3, true));
    RunOne(Step(SLOW, Fire(3, true)), Fire(4, true));
    assert Step(SLOW, Fire(3, true)) == State(map[], map[4 := DownloadDone(H, 0)], 5, false);
  }

  /** Whenever a run crashes, some earlier cleanup timer fired while its hash was in flight. */
  lemma {:induction false} CrashNeedsInFlight(s: State, inputs: seq<Input>) returns (n: nat)
    requires Inv(s) && Run(s, inputs).crashed
    ensures n < |inputs| && QuietRun(s, inputs[..n]) && !Quiet(Run(s, inputs[..n]), inputs[n])
    decreases |inputs|
  {
    if !Quiet(s, inputs[0]) {
      n := 0;
      assert inputs[..0] == [];
    } else {
      StepKeepsInv(s, inputs[0]);
      var m := CrashNeedsInFlight(Step(s, inputs[0]), inputs[1..]);
      n := m + 1;
      assert inputs[..n] == [inputs[0]] + inputs[1..][..m];
      assert inputs[..n][1..] == inputs[1..][..m];
    }
  }
}
