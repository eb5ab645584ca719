/** What the routes of node-export-server/server.js answer, and what a request or a callback
    changes, told from the job alone. */
module ExportReplies {
  import opened ExportHistory
  import opened ExportJobs
  import opened Wrappers

  /** The answer to a request; a callback answers nobody. */
  function Answer(s: State, input: Input): Option<Reply> {
    match input
    case Export(hash, verb, multi) => Some(DoExport(s, hash, verb, multi).1)
    case Query(hash, verb) => Some(GetJob(s, hash, verb).1)
    case Fire(_, _) => None
  }

  /** The request is about an export of this hash: the export route, or the job route for a
      known hash. */
  predicate Asks(s: State, input: Input, hash: Hash, verb: Method) {
    (input.Export? && input.hash == hash && input.verb == verb) || (input == Query(hash, verb) && hash in s.jobs)
  }

  predicate StatusIs(s: State, hash: Hash, status: Status) {
    hash in s.jobs && s.jobs[hash].status == status
  }

  predicate OthersStay(s: State, s': State, hash: Hash) {
    s'.jobs - {hash} == s.jobs - {hash}
  }

  /** One more callback is pending, under a new handle. */
  predicate OnePending(s: State, s': State, c: Callback) {
    s'.pending == s.pending[s.next := c] && s'.next == s.next + 1
  }

  predicate NothingPending(s: State, s': State) {
    s'.pending == s.pending && s'.next == s.next
  }

  /** A missing hash starts a running job with one child process of its own, and is answered
      with the hash. */
  lemma MissingStarts(s: State, hash: Hash, verb: Method, multi: bool)
    requires !s.crashed && hash !in s.jobs
    ensures var input := Export(hash, verb, multi);
            var s' := Step(s, input);
            && Answer(s, input) == Some(SentHash)
            && hash in s'.jobs && s'.jobs[hash] == Job(s.next, Running, None, multi) && OthersStay(s, s', hash)
            && OnePending(s, s', ExecDone(hash, s.next, multi)) && !s'.crashed
    ensures Answer(s, Query(hash, verb)) == Some(NotFound) && Step(s, Query(hash, verb)) == s
  {
    var s' := Step(s, Export(hash, verb, multi));
    assert s'.jobs - {hash} == s.jobs - {hash};
  }

  /** What is answered for a job that is there, and what changes. */
  lemma JobAnswers(s: State, input: Input, hash: Hash, verb: Method)
    requires !s.crashed && hash in s.jobs && Asks(s, input, hash, verb)
    ensures var s' := Step(s, input);
            && !s'.crashed && OthersStay(s, s', hash)
            && (StatusIs(s, hash, Running) ==> Answer(s, input) == Some(SentHash) && s' == s)
            && (StatusIs(s, hash, Complete) && verb == POST ==> Answer(s, input) == Some(SentHash) && s' == s)
            && (StatusIs(s, hash, Complete) && verb != POST ==>
                  (Answer(s, input) == Some(SentFile) && s'.jobs == s.jobs
                   && OnePending(s, s', DownloadDone(hash, s.jobs[hash].id))))
            && (StatusIs(s, hash, Failed) ==>
                  (Answer(s, input) == Some(SentError) && NothingPending(s, s')
                   && (hash in s'.jobs <==> verb != GET) && (hash in s'.jobs ==> s'.jobs[hash] == s.jobs[hash])))
  {
  }

  function Without(pending: map<nat, Callback>, timeout: Option<nat>): map<nat, Callback> {
    if timeout.Some? then pending - {timeout.value} else pending
  }

  /** What a callback changes, when it finds the job it was registered for. */
  lemma CallbackChanges(s: State, handle: nat, ok: bool)
    requires Inv(s) && handle in s.pending
    ensures var c, s' := s.pending[handle], Step(s, Fire(handle, ok));
            var job, rest := s.jobs[c.hash], s.pending - {handle};
            && !s'.crashed && OthersStay(s, s', c.hash) && (c.hash in s'.jobs <==> !c.Cleanup?)
            && (c.hash in s'.jobs ==> s'.jobs[c.hash].id == job.id && s'.jobs[c.hash].rings == job.rings)
            && (c.ExecDone? && !ok ==> s'.jobs[c.hash].status == Failed && s'.pending == rest)
            && (c.ExecDone? && ok ==> s'.pending == rest[s.next := ZipClosed(c.hash, c.id)])
            && (c.ExecDone? && ok ==> s'.jobs[c.hash].status == if job.rings then Complete else Running)
            && (c.ZipClosed? ==> s'.jobs[c.hash].status == Complete && s'.pending == rest)
            && (c.DownloadDone? ==> s'.jobs[c.hash].status == Complete && s'.jobs[c.hash].timeout == Some(s.next))
            && (c.DownloadDone? ==> s'.pending == Without(rest, job.timeout)[s.next := Cleanup(c.hash, c.id)])
            && (c.Cleanup? ==> s'.pending == rest)
  {
    assert Matches(s, handle);
  }

  // ----- A failed export -----

  /** No request with GET for this hash. */
  predicate NotAsked(inputs: seq<Input>, hash: Hash) {
    forall i :: 0 <= i < |inputs| ==>
      !(inputs[i].Export? && inputs[i].hash == hash && inputs[i].verb == GET) && inputs[i] != Query(hash, GET)
  }

  lemma FailedStays(s: State, input: Input, hash: Hash)
    requires Inv(s) && StatusIs(s, hash, Failed) && NotAsked([input], hash)
    ensures hash in Step(s, input).jobs && Step(s, input).jobs[hash] == s.jobs[hash]
  {
    if input.Fire? && input.handle in s.pending {
      assert Matches(s, input.handle);
    } else {
      assert [input][0] == input;
    }
  }

  /** A failed export stays in the table, and is answered with the error, until someone asks
      for it with GET. */
  lemma {:induction false} FailedUntilAsked(s: State, inputs: seq<Input>, hash: Hash)
    requires Inv(s) && QuietRun(s, inputs) && StatusIs(s, hash, Failed) && NotAsked(inputs, hash)
    ensures hash in Run(s, inputs).jobs && Run(s, inputs).jobs[hash] == s.jobs[hash]
    decreases |inputs|
  {
    if |inputs| > 0 {
      assert NotAsked([inputs[0]], hash) && NotAsked(inputs[1..], hash);
      FailedStays(s, inputs[0], hash);
      StepKeepsInv(s, inputs[0]);
      FailedUntilAsked(Step(s, inputs[0]), inputs[1..], hash);
    }
  }

  /** Asking once removes it, so that the next export of the hash is a new job, which is
      running; and the failed one never comes back, in any run. */
  lemma AskedStartsAnew(s: State, ask: Input, verb: Method, multi: bool, later: seq<Input>, hash: Hash)
    requires Inv(s) && StatusIs(s, hash, Failed) && Asks(s, ask, hash, GET)
    ensures Answer(s, ask) == Some(SentError)
    ensures var again, t := Export(hash, verb, multi), Step(s, ask);
            && Answer(t, again) == Some(SentHash)
            && var u := Step(t, again);
               && StatusIs(u, hash, Running) && u.jobs[hash].id != s.jobs[hash].id
               && u.pending == s.pending[s.next := ExecDone(hash, u.jobs[hash].id, multi)]
               && (hash in Run(u, later).jobs ==> Run(u, later).jobs[hash].id != s.jobs[hash].id)
  {
    var t := Step(s, ask);
    JobAnswers(s, ask, hash, GET);
    MissingStarts(t, hash, verb, multi);
    var u := Step(t, Export(hash, verb, multi));
    NoReturn(u, later, hash, s.jobs[hash].id);
  }

  // ----- A finished export -----

  /** In every quiet run a file is only sent of a complete export, and on the single path only
      of one whose own zip was closed before. */
  lemma FileWasZipped(inputs: seq<Input>, ask: Input, hash: Hash, verb: Method)
    requires QuietRun(INITIAL, inputs) && Asks(Run(INITIAL, inputs), ask, hash, verb)
    requires Answer(Run(INITIAL, inputs), ask) == Some(SentFile)
    ensures var s := Run(INITIAL, inputs);
            StatusIs(s, hash, Complete) && (s.jobs[hash].rings || WasZipped(inputs, hash, s.jobs[hash].id))
  {
    var s := Run(INITIAL, inputs);
    InitialInv();
    QuietRunsAreSafe(INITIAL, inputs);
    if hash in s.jobs {
      JobAnswers(s, ask, hash, verb);
      if !s.jobs[hash].rings {
        DoneWasZipped(inputs, hash, s.jobs[hash].id);
      }
    }
  }
}
