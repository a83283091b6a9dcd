/** The service stays sound along every run, whatever calls and workers interleave. */
module BakeRuns {
  import opened Bytes
  import opened BakeModel
  import opened BakeInvariant

  /* ---------- one action ---------- */

  lemma CoreQueue(cfg: Config, s: Service)
    requires Core(cfg, s)
    ensures QueueInv(s) && s.storedBytes == Held(s.jobs) <= cfg.maxStorage
  {
  }

  lemma JobIsOk(cfg: Config, s: Service, id: JobId)
    requires Core(cfg, s) && id in s.jobs
    ensures JobOk(s.jobs[id]) && (id in s.queue ==> s.jobs[id].state.Queued?)
  {
  }

  /** A call that adds or changes one job and leaves the queue alone. */
  lemma QueueStays(cfg: Config, s: Service, t: Service, id: JobId, job: Job)
    requires Inv(cfg, s)
    requires t == s.(jobs := s.jobs[id := job], storedBytes := t.storedBytes) && JobOk(job)
    requires t.storedBytes == Held(t.jobs) <= cfg.maxStorage
    requires if id in s.jobs then
      && job.result == s.jobs[id].result && (s.jobs[id].cancel ==> job.cancel)
      && (job.state == s.jobs[id].state || s.jobs[id].cancel)
      else !BusyJob(job)
    ensures Inv(cfg, t)
  {
    hide Core, Held;
    CoreQueue(cfg, s);
    if id in s.jobs { JobIsOk(cfg, s, id); }
    assert Reshaped(cfg, s, t, id, job);
    CallKeeps(cfg, s, t, id, job);
  }

  lemma CreateKeeps(cfg: Config, s: Service, id: JobId, reuse: bool)
    requires Inv(cfg, s)
    ensures Inv(cfg, CreateJob(cfg, s, id, reuse).0)
  {
    hide Inv, ReadCache, Held;
    var t := CreateJob(cfg, s, id, reuse).0;
    if t != s {
      var job := t.jobs[id];
      HeldUpdate(s.jobs, id, job);
      assert Sizes(job.inputs) == map[];
      HeldIsStored(cfg, s);
      QueueStays(cfg, s, t, id, job);
    }
  }

  lemma HeldIsStored(cfg: Config, s: Service)
    requires Inv(cfg, s)
    ensures s.storedBytes == Held(s.jobs) <= cfg.maxStorage
    ensures forall id :: id in s.jobs ==> JobOk(s.jobs[id])
  {
  }

  lemma UploadKeeps(cfg: Config, s: Service, id: JobId, key: string, payload: seq<Byte>, digest: Digest)
    requires Inv(cfg, s)
    ensures Inv(cfg, UploadInput(cfg, s, id, key, payload, digest).0)
  {
    hide Inv, Held, Sum;
    var t := UploadInput(cfg, s, id, key, payload, digest).0;
    if t != s {
      var job := t.jobs[id];
      HeldUpdate(s.jobs, id, job);
      if !s.jobs[id].cancel {
        assert Sizes(job.inputs) == Sizes(s.jobs[id].inputs)[key := |payload|];
        SumUpdate(Sizes(s.jobs[id].inputs), key, |payload|);
      }
      HeldIsStored(cfg, s);
      QueueStays(cfg, s, t, id, job);
    }
  }

  lemma SubmitReshapes(cfg: Config, s: Service, t: Service, id: JobId)
    requires QueueInv(s) && id in s.jobs && JobOk(s.jobs[id]) && !s.jobs[id].cancel && |Busy(s.jobs)| < cfg.maxQueue
    requires s.jobs[id].state.Open? || s.jobs[id].state.Failed?
    requires t == s.(jobs := s.jobs[id := s.jobs[id].(state := Queued)], queue := s.queue + [id])
    ensures Reshaped(cfg, s, t, id, t.jobs[id])
  {
    hide Busy;
  }

  lemma SubmitCore(cfg: Config, s: Service, t: Service, id: JobId)
    requires Core(cfg, s) && id in s.jobs && !s.jobs[id].cancel && |Busy(s.jobs)| < cfg.maxQueue
    requires s.jobs[id].state.Open? || s.jobs[id].state.Failed?
    requires t == s.(jobs := s.jobs[id := s.jobs[id].(state := Queued)], queue := s.queue + [id])
    ensures Core(cfg, t)
  {
    hide Core, Reshaped, Held;
    CoreQueue(cfg, s);
    JobIsOk(cfg, s, id);
    HeldUpdate(s.jobs, id, t.jobs[id]);
    SubmitReshapes(cfg, s, t, id);
    CallKeeps(cfg, s, t, id, t.jobs[id]);
  }

  lemma SubmitKeeps(cfg: Config, s: Service, id: JobId, requestHash: Digest)
    requires Inv(cfg, s)
    ensures Inv(cfg, Submit(cfg, s, id, requestHash).0)
  {
    hide Core, Pump, Reshaped, Held;
    if id in s.jobs && id == requestHash {
      CoreQueue(cfg, s);
      JobIsOk(cfg, s, id);
      var job := s.jobs[id];
      if job.cancel || job.state.Cancelled? {
        var t := s.(jobs := s.jobs[id := job.(state := Cancelled)]);
        HeldUpdate(s.jobs, id, t.jobs[id]);
        QueueStays(cfg, s, t, id, t.jobs[id]);
      } else if (job.state.Open? || job.state.Failed?) && |Busy(s.jobs)| < cfg.maxQueue {
        var t := s.(jobs := s.jobs[id := job.(state := Queued)], queue := s.queue + [id]);
        SubmitCore(cfg, s, t, id);
        PumpKeeps(cfg, t);
      }
    }
  }

  lemma {:induction false} WithoutOne(queue: seq<JobId>, id: JobId)
    requires forall i, j :: 0 <= i < j < |queue| ==> queue[i] != queue[j]
    ensures var r := Without(queue, id);
      && (forall i, j :: 0 <= i < j < |r| ==> r[i] != r[j])
      && (forall other :: other in r <==> other in queue && other != id)
      && (queue == [] ==> r == [])
  {
    if queue != [] {
      var rest := queue[1..];
      assert queue == [queue[0]] + rest;
      if queue[0] == id {
        assert Without(queue, id) == rest;
      } else {
        WithoutOne(rest, id);
        assert queue[0] in queue && queue[0] !in rest;
      }
    }
  }

  lemma CancelReshapes(cfg: Config, s: Service, t: Service, id: JobId)
    requires QueueInv(s) && id in s.jobs && JobOk(s.jobs[id])
    requires t == Cancel(cfg, s, id).0
    ensures Reshaped(cfg, s, t, id, t.jobs[id])
  {
    hide Without, Busy;
    WithoutOne(s.queue, id);
  }

  lemma CancelKeeps(cfg: Config, s: Service, id: JobId)
    requires Inv(cfg, s)
    ensures Inv(cfg, Cancel(cfg, s, id).0)
  {
    hide Core, Without, Held, Reshaped;
    if id in s.jobs {
      var t := Cancel(cfg, s, id).0;
      CoreQueue(cfg, s);
      JobIsOk(cfg, s, id);
      WithoutOne(s.queue, id);
      HeldUpdate(s.jobs, id, t.jobs[id]);
      CancelReshapes(cfg, s, t, id);
      CallKeeps(cfg, s, t, id, t.jobs[id]);
    }
  }

  lemma WorkerFacts(cfg: Config, s: Service, w: nat)
    requires Core(cfg, s) && w in s.workers
    ensures s.workers[w].job in s.jobs && JobOk(s.jobs[s.workers[w].job])
    ensures AtWork(s.workers[w]) ==>
      var job := s.jobs[s.workers[w].job];
      && job.result.None?
      && (!job.cancel ==> if s.workers[w].Scheduled? then job.state.Queued? else job.state.Running?)
      && (s.workers[w].Raised? && s.workers[w].code.ModelCancelled? ==> job.cancel)
  {
  }

  lemma SameJob(s: Service, id: JobId)
    requires id in s.jobs
    ensures s.jobs[id := s.jobs[id]] == s.jobs
  {
  }

  /** The stations that a worker passes before it leaves. */
  lemma StationKeeps(cfg: Config, s: Service, a: Action)
    requires Inv(cfg, s) && (a.DoStart? || a.DoInfer? || a.DoFail? || a.DoPublish? || a.DoFinishOk? || a.DoFinishError?)
    ensures Inv(cfg, Next(cfg, s, a))
  {
    hide Core, Bake, ReadCache;
    var w, t := a.w, Next(cfg, s, a);
    if t != s {
      WorkerFacts(cfg, s, w);
      var id := s.workers[w].job;
      SameJob(s, id);
      WorkerMoves(cfg, s, t, w, t.jobs[id], t.workers[w]);
    }
  }

  lemma ExitKeeps(cfg: Config, s: Service, w: nat)
    requires Inv(cfg, s)
    ensures Inv(cfg, Exit(cfg, s, w))
  {
    hide Pump;
    if w in s.workers && s.workers[w].Exiting? {
      var t := s.(workers := s.workers - {w}, inFlight := OneLess(s.inFlight));
      ExitCore(cfg, s, t, w);
      PumpKeeps(cfg, t);
    }
  }

  lemma ExitCore(cfg: Config, s: Service, t: Service, w: nat)
    requires Core(cfg, s) && w in s.workers && s.workers[w].Exiting?
    requires t == s.(workers := s.workers - {w}, inFlight := OneLess(s.inFlight))
    ensures Core(cfg, t)
  {
    hide Held, Busy, LookedAfter, WorkersInv, JobsInv, QueueInv;
    assert t.workers.Keys == s.workers.Keys - {w};
    ExitWorkers(s, t, w);
    forall other | other in t.jobs ensures LookedAfter(t, other) { ExitLooksAfter(s, t, w, other); }
  }

  lemma ExitWorkers(s: Service, t: Service, w: nat)
    requires JobsInv(s) && QueueInv(s) && WorkersInv(s)
    requires t == s.(workers := s.workers - {w}, inFlight := OneLess(s.inFlight))
    ensures JobsInv(t) && QueueInv(t) && WorkersInv(t)
  {
  }

  lemma ExitLooksAfter(s: Service, t: Service, w: nat, id: JobId)
    requires w in s.workers && s.workers[w].Exiting? && id in s.jobs && LookedAfter(s, id)
    requires t == s.(workers := s.workers - {w}, inFlight := OneLess(s.inFlight))
    ensures LookedAfter(t, id)
  {
    assert forall v :: v in s.workers && v != w ==> v in t.workers && t.workers[v] == s.workers[v];
  }

  lemma NextKeeps(cfg: Config, s: Service, a: Action)
    requires Inv(cfg, s)
    ensures Inv(cfg, Next(cfg, s, a))
  {
    hide Core, CreateJob, UploadInput, Submit, Cancel, Start, Infer, Fail, Publish, FinishOk, FinishError, Exit;
    match a
    case DoCreate(id, reuse) => CreateKeeps(cfg, s, id, reuse);
    case DoUpload(id, key, payload, digest) => UploadKeeps(cfg, s, id, key, payload, digest);
    case DoSubmit(id, requestHash) => SubmitKeeps(cfg, s, id, requestHash);
    case DoCancel(id) => CancelKeeps(cfg, s, id);
    case DoExit(w) => ExitKeeps(cfg, s, w);
    case _ => StationKeeps(cfg, s, a);
  }

  lemma {:induction false} RunKeeps(cfg: Config, s: Service, actions: seq<Action>)
    requires Inv(cfg, s)
    ensures Inv(cfg, Run(cfg, s, actions))
    decreases |actions|
  {
    if actions != [] {
      NextKeeps(cfg, s, actions[0]);
      RunKeeps(cfg, Next(cfg, s, actions[0]), actions[1..]);
    }
  }

  /** Every state that a started service can reach. */
  lemma Sound(cfg: Config, cache: map<JobId, Baked>, actions: seq<Action>)
    ensures Inv(cfg, Run(cfg, Started(cache), actions))
  {
    InitInv(cfg, cache);
    RunKeeps(cfg, Started(cache), actions);
  }

  /** In every reachable state workers are counted exactly, none is idle while a job waits, and the bounds hold. */
  lemma Scheduling(cfg: Config, cache: map<JobId, Baked>, actions: seq<Action>)
    ensures var s := Run(cfg, Started(cache), actions);
      && s.inFlight == |s.workers| <= cfg.pool
      && (s.queue != [] ==> |s.workers| == cfg.pool)
      && |Busy(s.jobs)| <= cfg.maxQueue
      && s.storedBytes == Held(s.jobs) <= cfg.maxStorage
  {
    Sound(cfg, cache, actions);
  }

  /** In every reachable state the queue holds each waiting job once, and no job is in the hands of two workers. */
  lemma OneWorkerPerJob(cfg: Config, cache: map<JobId, Baked>, actions: seq<Action>)
    ensures var s := Run(cfg, Started(cache), actions);
      && (forall i, j :: 0 <= i < j < |s.queue| ==> s.queue[i] != s.queue[j])
      && (forall id :: id in s.queue ==> id in s.jobs && s.jobs[id].state.Queued? && !s.jobs[id].cancel)
      && (forall w :: w in s.workers ==> s.workers[w].job in s.jobs)
      && (forall w :: w in s.workers && AtWork(s.workers[w]) ==> s.workers[w].job !in s.queue)
      && (forall v, w :: v in s.workers && w in s.workers && v != w && AtWork(s.workers[v]) && AtWork(s.workers[w]) ==>
           s.workers[v].job != s.workers[w].job)
  {
    Sound(cfg, cache, actions);
  }

  /** In every reachable state a job that claims to wait or to run really does. */
  lemma NoJobIsForgotten(cfg: Config, cache: map<JobId, Baked>, actions: seq<Action>)
    ensures var s := Run(cfg, Started(cache), actions); forall id :: id in s.jobs ==> LookedAfter(s, id)
  {
    Sound(cfg, cache, actions);
  }
}
