/** The server of node-export-server/server.js as an object: routes and callbacks that
    update one job table and one queue of pending callbacks, each doing exactly its step of
    the model in ExportJobs. */
module ExportServer {
  import opened ExportJobs
  import opened Wrappers

  /** The table and the event queue, updated in place by the routes and the callbacks. */
  class Server {
    var jobs: map<Hash, Job>
    var pending: map<nat, Callback>
    var next: nat
    var crashed: bool

    ghost function Abs(): State
      reads this
    {
      State(jobs, pending, next, crashed)
    }

    constructor ()
      ensures Abs() == INITIAL
    {
      jobs, pending, next, crashed := map[], map[], 0, false;
    }

    method Register(callback: Callback) returns (handle: nat)
      modifies `pending, `next
      ensures handle == old(next) && Abs() == ExportJobs.Register(old(Abs()), callback)
    {
      handle := next;
      pending := pending[handle := callback];
      next := next + 1;
    }

    /** Dereferencing a missing job throws. */
    method SetStatus(hash: Hash, status: Status)
      modifies `jobs, `crashed
      ensures Abs() == ExportJobs.SetStatus(old(Abs()), hash, status)
    {
      if hash in jobs {
        jobs := jobs[hash := jobs[hash].(status := status)];
      } else {
        crashed := true;
      }
    }

    method DoExport(hash: Hash, verb: Method, multi: bool) returns (reply: Reply)
      modifies this
      ensures (Abs(), reply) == ExportJobs.DoExport(old(Abs()), hash, verb, multi)
    {
      if hash in jobs {
        var job := jobs[hash];
        if job.status == Complete {
          if verb == POST {
            reply := SentHash;
          } else {
            var _ := Register(DownloadDone(hash, job.id));
            reply := SentFile;
          }
        } else if job.status != Running {
          reply := SentError;
          if verb == GET {
            jobs := jobs - {hash};
          }
        } else {
          reply := SentHash;
        }
      } else {
        var id := next;
        var _ := Register(ExecDone(hash, id, multi));
        jobs := jobs[hash := Job(id, Running, None, multi)];
        reply := SentHash;
      }
    }

    method GetJob(hash: Hash, verb: Method) returns (reply: Reply)
      modifies this
      ensures (Abs(), reply) == ExportJobs.GetJob(old(Abs()), hash, verb)
    {
      if hash in jobs {
        reply := DoExport(hash, verb, false);
      } else {
        reply := NotFound;
      }
    }

    method ChildExited(hash: Hash, id: nat, rings: bool, ok: bool)
      requires !crashed
      modifies this
      ensures Abs() == Call(old(Abs()), ExecDone(hash, id, rings), ok)
    {
      if !ok {
        SetStatus(hash, Failed);
      } else {
        if rings {
          SetStatus(hash, Complete);
          if crashed {
            return;
          }
        }
        var _ := Register(ZipClosed(hash, id));
      }
    }

    method DownloadEnded(hash: Hash, id: nat)
      modifies this
      ensures Abs() == Call(old(Abs()), DownloadDone(hash, id), true)
    {
      if hash !in jobs {
        crashed := true;
        return;
      }
      if jobs[hash].timeout.Some? {
        pending := pending - {jobs[hash].timeout.value};
      }
      var timer := Register(Cleanup(hash, id));
      jobs := jobs[hash := jobs[hash].(timeout := Some(timer))];
    }

    method CleanupFired(hash: Hash)
      modifies `jobs
      ensures jobs == old(jobs) - {hash}
    {
      if hash in jobs {
        jobs := jobs - {hash};
      }
    }

    /** The event loop takes one pending callback and runs it. */
    method RunCallback(handle: nat, ok: bool)
      requires !crashed && handle in pending
      modifies this
      ensures Abs() == Step(old(Abs()), Fire(handle, ok))
    {
      var callback := pending[handle];
      pending := pending - {handle};
      match callback {
        case ExecDone(hash, id, rings) => ChildExited(hash, id, rings, ok);
        case ZipClosed(hash, _) => SetStatus(hash, Complete);
        case DownloadDone(hash, id) => DownloadEnded(hash, id);
        case Cleanup(hash, _) => CleanupFired(hash);
      }
    }
  }
}
