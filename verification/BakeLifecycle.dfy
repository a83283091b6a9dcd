/** The life of a job: who gets in, in which order jobs are handed to workers, and what becomes of one that is left alone. */
module BakeLifecycle {
  import opened Bytes
  import opened BakeModel
  import opened BakeInvariant
  import opened BakeRuns
  import opened BakeResults
  import opened BakeLimits

  /* ---------- who gets in ---------- */

  /** The cache has a readable result for a request that wants one. */
  predicate Hit(cfg: Config, s: Service, id: JobId, reuse: bool) { reuse && id in s.cache && ReadCache(cfg, s.cache[id]).Some? }

  predicate Corrupt(cfg: Config, s: Service, id: JobId, reuse: bool) { reuse && id in s.cache && ReadCache(cfg, s.cache[id]).None? }

  /** A new request becomes a job exactly if the cache answers it, or is silent and there is room; then it is open, or answered. */
  lemma CreatesIff(cfg: Config, s: Service, id: JobId, reuse: bool)
    requires id !in s.jobs
    ensures var (t, reply) := CreateJob(cfg, s, id, reuse);
      var room := |set i | i in s.jobs && s.jobs[i].state in {Open, Queued, Running}| < cfg.maxQueue;
      && (id in t.jobs <==> Hit(cfg, s, id, reuse) || (!Corrupt(cfg, s, id, reuse) && room))
      && (id !in t.jobs ==> t == s && reply == Refused(if Corrupt(cfg, s, id, reuse) then CacheCorrupt else Capability))
      && (id in t.jobs ==>
           && t == s.(jobs := s.jobs[id := t.jobs[id]]) && reply == State(t.jobs[id].state)
           && t.jobs[id] == if Hit(cfg, s, id, reuse) then Job(reuse, Completed, map[], false, ReadCache(cfg, s.cache[id]), None)
                            else Job(reuse, Open, map[], false, None, None))
  {
    hide ReadCache;
    assert (set i | i in s.jobs && s.jobs[i].state in {Open, Queued, Running}) == Active(s.jobs);
  }

  /** The same request again gets the same job. */
  lemma SameRequestSameJob(cfg: Config, s: Service, id: JobId, reuse: bool)
    requires id in s.jobs
    ensures CreateJob(cfg, s, id, reuse) == (s, State(s.jobs[id].state))
  {
  }

  /* ---------- first come, first served ---------- */

  function Least(x: int, y: int): int { if x <= y then x else y }

  /** The first n jobs of the queue are handed, in order, to as many new workers. */
  predicate Took(s: Service, t: Service, n: int) {
    && 0 <= n <= |s.queue| && t.queue == s.queue[n..] && t.nextWorker == s.nextWorker + n && t.inFlight == s.inFlight + n
    && (forall w :: s.nextWorker <= w < s.nextWorker + n ==> w in t.workers && t.workers[w] == Scheduled(s.queue[w - s.nextWorker]))
    && (forall w :: w in s.workers ==> w in t.workers && t.workers[w] == s.workers[w])
    && t.jobs == s.jobs && t.cache == s.cache && t.storedBytes == s.storedBytes
  }

  lemma TookOneMore(s: Service, t: Service, n: int)
    requires s.queue != [] && s.nextWorker !in s.workers && Took(HandedOver(s), t, n)
    ensures Took(s, t, n + 1)
  {
    var u := HandedOver(s);
    assert s.queue[1..][n..] == s.queue[n + 1..];
    assert u.workers[s.nextWorker] == Scheduled(s.queue[0]);
    forall w | s.nextWorker <= w < s.nextWorker + n + 1 ensures w in t.workers && t.workers[w] == Scheduled(s.queue[w - s.nextWorker]) {
      if w > s.nextWorker { assert u.queue[w - u.nextWorker] == s.queue[w - s.nextWorker]; }
    }
    forall w | w in s.workers ensures w in t.workers && t.workers[w] == s.workers[w] { assert w in u.workers; }
  }

  lemma TookNone(s: Service)
    ensures Took(s, s, 0)
  {
  }

  /** The pump takes as many as there are jobs and free workers. */
  lemma {:induction false} PumpTakesInOrder(cfg: Config, s: Service)
    requires Core(cfg, s)
    ensures Took(s, Pump(cfg, s), Least(cfg.pool - s.inFlight, |s.queue|))
    decreases |s.queue|
  {
    hide Core, Pump, Took;
    PumpUnfolds(cfg, s);
    if s.inFlight < cfg.pool && s.queue != [] {
      Dispatch(cfg, s);
      NewWorkerIsNew(cfg, s);
      PumpTakesInOrder(cfg, HandedOver(s));
      TookOneMore(s, Pump(cfg, s), Least(cfg.pool - s.inFlight, |s.queue|) - 1);
    } else { TookNone(s); }
  }

  lemma NewWorkerIsNew(cfg: Config, s: Service)
    requires Core(cfg, s)
    ensures s.nextWorker !in s.workers
  {
  }

  /** Where a job waits in the queue: behind how many others. */
  predicate WaitsBefore(queue: seq<JobId>, a: JobId, b: JobId) {
    exists i, j :: 0 <= i < j < |queue| && queue[i] == a && queue[j] == b
  }

  lemma {:induction false} WithoutKeepsOrder(queue: seq<JobId>, id: JobId, a: JobId, b: JobId)
    requires WaitsBefore(queue, a, b) && a != id && b != id
    ensures WaitsBefore(Without(queue, id), a, b)
  {
    var i, j :| 0 <= i < j < |queue| && queue[i] == a && queue[j] == b;
    if queue[0] == id {
      assert queue[1..][i - 1] == a && queue[1..][j - 1] == b;
    } else {
      var rest := queue[1..];
      if i == 0 {
        assert rest[j - 1] == b;
        StillIn(rest, id, b);
        var k :| 0 <= k < |Without(rest, id)| && Without(rest, id)[k] == b;
        assert Without(queue, id)[0] == a && Without(queue, id)[k + 1] == b;
      } else {
        assert rest[i - 1] == a && rest[j - 1] == b;
        WithoutKeepsOrder(rest, id, a, b);
        var k, l :| 0 <= k < l < |Without(rest, id)| && Without(rest, id)[k] == a && Without(rest, id)[l] == b;
        assert Without(queue, id)[k + 1] == a && Without(queue, id)[l + 1] == b;
      }
    }
  }

  lemma {:induction false} StillIn(queue: seq<JobId>, id: JobId, b: JobId)
    requires b in queue && b != id
    ensures b in Without(queue, id)
  {
    if queue[0] != id && queue[0] != b { assert b in queue[1..]; StillIn(queue[1..], id, b); }
  }

  /** The head of the queue is taken: what is left keeps its order, unless the one before is gone. */
  lemma TakenInOrder(queue: seq<JobId>, n: int, a: JobId, b: JobId)
    requires 0 <= n <= |queue| && (forall i, j :: 0 <= i < j < |queue| ==> queue[i] != queue[j])
    requires WaitsBefore(queue, a, b) && a in queue[n..]
    ensures WaitsBefore(queue[n..], a, b)
  {
    var i, j :| 0 <= i < j < |queue| && queue[i] == a && queue[j] == b;
    var k :| 0 <= k < |queue[n..]| && queue[n..][k] == a;
    assert queue[n + k] == a;
    assert queue[n..][i - n] == a && queue[n..][j - n] == b;
  }

  lemma PumpKeepsOrder(cfg: Config, s: Service, a: JobId, b: JobId)
    requires Core(cfg, s) && WaitsBefore(s.queue, a, b) && a in Pump(cfg, s).queue
    ensures WaitsBefore(Pump(cfg, s).queue, a, b)
  {
    PumpTakesInOrder(cfg, s);
    CoreQueue(cfg, s);
    hide Core, Pump, WaitsBefore;
    TakenInOrder(s.queue, Least(cfg.pool - s.inFlight, |s.queue|), a, b);
  }

  lemma MoreBehind(queue: seq<JobId>, id: JobId, a: JobId, b: JobId)
    requires WaitsBefore(queue, a, b)
    ensures WaitsBefore(queue + [id], a, b)
  {
    var i, j :| 0 <= i < j < |queue| && queue[i] == a && queue[j] == b;
    assert (queue + [id])[i] == a && (queue + [id])[j] == b;
  }

  /* ---------- nobody is overtaken ---------- */

  /** Every call and station leaves the queue as it is, but for the pump, a job joining behind it and a cancelled one leaving. */
  lemma QuietQueue(cfg: Config, s: Service, a: Action)
    requires !a.DoSubmit? && !a.DoExit? && !a.DoCancel?
    ensures Next(cfg, s, a).queue == s.queue
  {
    hide Bake, ReadCache, Active;
  }

  lemma SubmitKeepsOrder(cfg: Config, s: Service, id: JobId, hash: Digest, a: JobId, b: JobId)
    requires Inv(cfg, s) && WaitsBefore(s.queue, a, b) && a in Submit(cfg, s, id, hash).0.queue
    ensures WaitsBefore(Submit(cfg, s, id, hash).0.queue, a, b)
  {
    hide Core, Pump, WaitsBefore, Busy;
    if id in s.jobs {
      var t := s.(jobs := s.jobs[id := s.jobs[id].(state := Queued)], queue := s.queue + [id]);
      if Submit(cfg, s, id, hash).0.queue != s.queue {
        JobIsOk(cfg, s, id);
        assert Submit(cfg, s, id, hash).0 == Pump(cfg, t) && |Busy(s.jobs)| < cfg.maxQueue;
        SubmitCore(cfg, s, t, id);
        MoreBehind(s.queue, id, a, b);
        PumpKeepsOrder(cfg, t, a, b);
      }
    }
  }

  lemma ExitKeepsOrder(cfg: Config, s: Service, w: nat, a: JobId, b: JobId)
    requires Inv(cfg, s) && WaitsBefore(s.queue, a, b) && a in Exit(cfg, s, w).queue
    ensures WaitsBefore(Exit(cfg, s, w).queue, a, b)
  {
    hide Core, Pump, WaitsBefore;
    if w in s.workers && s.workers[w].Exiting? {
      var t := s.(workers := s.workers - {w}, inFlight := OneLess(s.inFlight));
      ExitCore(cfg, s, t, w);
      PumpKeepsOrder(cfg, t, a, b);
    }
  }

  lemma CancelKeepsOrder(cfg: Config, s: Service, id: JobId, a: JobId, b: JobId)
    requires Inv(cfg, s) && WaitsBefore(s.queue, a, b) && a in Cancel(cfg, s, id).0.queue
    ensures WaitsBefore(Cancel(cfg, s, id).0.queue, a, b) || (id == b && b in Cancel(cfg, s, id).0.jobs && Cancel(cfg, s, id).0.jobs[b].cancel)
  {
    hide Core, Without, WaitsBefore;
    if id in s.jobs && id != b {
      CoreQueue(cfg, s);
      WithoutOne(s.queue, id);
      if a != id { WithoutKeepsOrder(s.queue, id, a, b); }
    }
  }

  lemma NextKeepsOrder(cfg: Config, s: Service, action: Action, a: JobId, b: JobId)
    requires Inv(cfg, s) && WaitsBefore(s.queue, a, b) && a in Next(cfg, s, action).queue
    ensures var t := Next(cfg, s, action); WaitsBefore(t.queue, a, b) || (b in t.jobs && t.jobs[b].cancel)
  {
    hide Inv, WaitsBefore, CreateJob, UploadInput, Submit, Cancel, Start, Infer, Fail, Publish, FinishOk, FinishError, Exit;
    match action
    case DoSubmit(id, hash) => SubmitKeepsOrder(cfg, s, id, hash, a, b);
    case DoExit(w) => ExitKeepsOrder(cfg, s, w, a, b);
    case DoCancel(id) => CancelKeepsOrder(cfg, s, id, a, b);
    case _ => QuietQueue(cfg, s, action);
  }

  /** The job waits in every state of the run. */
  predicate KeepsWaiting(cfg: Config, s: Service, actions: seq<Action>, id: JobId)
    decreases |actions|
  {
    id in s.queue && (actions == [] || KeepsWaiting(cfg, Next(cfg, s, actions[0]), actions[1..], id))
  }

  predicate IsCancelled(s: Service, id: JobId) { id in s.jobs && s.jobs[id].cancel }

  lemma CancelStays(cfg: Config, s: Service, actions: seq<Action>, id: JobId)
    requires Inv(cfg, s) && IsCancelled(s, id)
    ensures IsCancelled(Run(cfg, s, actions), id)
  {
    hide Inv, Run;
    RunLater(cfg, s, actions);
  }

  /** First come, first served: while a job waits, none behind it is taken up; it stays behind, or is cancelled. */
  lemma {:induction false} NobodyIsOvertaken(cfg: Config, s: Service, actions: seq<Action>, a: JobId, b: JobId)
    requires Inv(cfg, s) && WaitsBefore(s.queue, a, b) && KeepsWaiting(cfg, s, actions, a)
    ensures var t := Run(cfg, s, actions); WaitsBefore(t.queue, a, b) || IsCancelled(t, b)
    decreases |actions|
  {
    hide Inv, WaitsBefore, Next;
    if actions != [] {
      var t := Next(cfg, s, actions[0]);
      NextKeeps(cfg, s, actions[0]);
      assert KeepsWaiting(cfg, t, actions[1..], a);
      NextKeepsOrder(cfg, s, actions[0], a, b);
      if WaitsBefore(t.queue, a, b) { NobodyIsOvertaken(cfg, t, actions[1..], a, b); }
      else { CancelStays(cfg, t, actions[1..], b); }
    }
  }

  /* ---------- what a submission does ---------- */

  predicate Submittable(cfg: Config, s: Service, id: JobId, hash: Digest) {
    && id in s.jobs && hash == id && !s.jobs[id].cancel && s.jobs[id].state in {Open, Failed}
    && |set i | i in s.jobs && s.jobs[i].state in {Queued, Running}| < cfg.maxQueue
  }

  /** What is submitted waits behind all others, or has a worker of its own at once. */
  predicate HandedIn(cfg: Config, s: Service, t: Service, id: JobId) {
    if s.inFlight < cfg.pool then
      t.queue == [] && s.nextWorker in t.workers && t.workers[s.nextWorker] == Scheduled(id) && t.workers - {s.nextWorker} == s.workers
    else t.queue == s.queue + [id] && t.workers == s.workers
  }

  lemma BusyIs(s: Service)
    ensures (set i | i in s.jobs && s.jobs[i].state in {Queued, Running}) == Busy(s.jobs)
  {
  }

  lemma InvParts(cfg: Config, s: Service)
    requires Inv(cfg, s)
    ensures Core(cfg, s) && s.inFlight <= cfg.pool && (s.inFlight < cfg.pool ==> s.queue == [])
    ensures s.nextWorker !in s.workers && forall w :: w in s.workers ==> w < s.nextWorker
  {
    hide JobsInv, QueueInv, LookedAfter, Held, Busy;
  }

  lemma SubmitPumps(cfg: Config, s: Service, u: Service, id: JobId, hash: Digest)
    requires Submittable(cfg, s, id, hash) && u == s.(jobs := s.jobs[id := s.jobs[id].(state := Queued)], queue := s.queue + [id])
    requires Pump(cfg, u).jobs == u.jobs
    ensures Submit(cfg, s, id, hash) == (Pump(cfg, u), State(Queued))
  {
    BusyIs(s);
    hide Pump, Busy;
  }

  lemma Joined(s: Service, id: JobId, u: Service)
    requires u.queue == s.queue + [id]
    ensures s.queue == [] ==> |u.queue| == 1 && u.queue[0] == id && u.queue[1..] == []
  {
  }

  lemma SubmittedIsQueued(cfg: Config, s: Service, id: JobId, hash: Digest)
    requires Inv(cfg, s) && Submittable(cfg, s, id, hash)
    ensures var (t, reply) := Submit(cfg, s, id, hash);
      reply == State(Queued) && t.jobs == s.jobs[id := s.jobs[id].(state := Queued)] && HandedIn(cfg, s, t, id)
  {
    InvParts(cfg, s);
    BusyIs(s);
    hide Core, Pump, Inv, Submit;
    var u := s.(jobs := s.jobs[id := s.jobs[id].(state := Queued)], queue := s.queue + [id]);
    SubmitCore(cfg, s, u, id);
    PumpTakesInOrder(cfg, u);
    OneTaken(cfg, u);
    SubmitPumps(cfg, s, u, id, hash);
    Joined(s, id, u);
  }

  /** With one job waiting and a free worker, the pump adds this worker and no other. */
  lemma OneTaken(cfg: Config, s: Service)
    requires Core(cfg, s) && s.nextWorker !in s.workers && s.queue != []
    ensures s.inFlight < cfg.pool && |s.queue| == 1 ==> Pump(cfg, s).workers - {s.nextWorker} == s.workers
    ensures s.inFlight >= cfg.pool ==> Pump(cfg, s) == s
  {
    hide Core;
    PumpUnfolds(cfg, s);
    if s.inFlight < cfg.pool && |s.queue| == 1 {
      var u := HandedOver(s);
      assert u.queue == [] && Pump(cfg, u) == u;
      assert u.workers - {s.nextWorker} == s.workers;
    }
  }

  /** A submission queues the job exactly if it is the same request, open or failed, not cancelled, and there is room. */
  lemma SubmitQueuesIff(cfg: Config, s: Service, id: JobId, hash: Digest)
    requires Inv(cfg, s)
    ensures var (t, reply) := Submit(cfg, s, id, hash);
      if Submittable(cfg, s, id, hash) then
        reply == State(Queued) && t.jobs == s.jobs[id := s.jobs[id].(state := Queued)] && HandedIn(cfg, s, t, id)
      else if id !in s.jobs then t == s && reply == Refused(Unavailable)
      else if hash != id then t == s && reply == Refused(ResponseMismatch)
      else if s.jobs[id].cancel then t == s.(jobs := s.jobs[id := s.jobs[id].(state := Cancelled)]) && reply == Refused(ModelCancelled)
      else t == s && reply == if s.jobs[id].state in {Open, Failed} then Refused(Capability) else State(s.jobs[id].state)
  {
    BusyIs(s);
    hide Core, Pump, Busy, Inv;
    if Submittable(cfg, s, id, hash) { SubmittedIsQueued(cfg, s, id, hash); }
    else if id in s.jobs { InvParts(cfg, s); JobIsOk(cfg, s, id); }
  }

  /** A cancellation marks the job and takes it out of the queue, all others keeping their order; only a finished job keeps its state. */
  lemma CancelMarks(cfg: Config, s: Service, id: JobId)
    requires Inv(cfg, s) && id in s.jobs
    ensures var (t, reply) := Cancel(cfg, s, id);
      && reply == State(Cancelled)
      && t == s.(jobs := t.jobs, queue := t.queue) && t.jobs == s.jobs[id := t.jobs[id]]
      && t.jobs[id] == s.jobs[id].(cancel := true, state := if s.jobs[id].state in {Completed, Failed} then s.jobs[id].state else Cancelled)
      && id !in t.queue && (forall a :: a in t.queue <==> a in s.queue && a != id)
      && (forall a, b :: a != id && b != id && WaitsBefore(s.queue, a, b) ==> WaitsBefore(t.queue, a, b))
  {
    InvParts(cfg, s);
    CoreQueue(cfg, s);
    JobIsOk(cfg, s, id);
    hide Core, Inv, WaitsBefore, Without;
    WithoutOne(s.queue, id);
    forall a, b | a != id && b != id && WaitsBefore(s.queue, a, b) ensures WaitsBefore(Cancel(cfg, s, id).0.queue, a, b) {
      if !(s.jobs[id].state in {Completed, Failed}) { WithoutKeepsOrder(s.queue, id, a, b); }
    }
  }

  /* ---------- a job that is left alone ---------- */

  /** The worker's stations from the hand-over to the result. */
  function Stations(w: nat, response: string, inferred: seq<Inferred>): seq<Action> {
    [DoStart(w), DoInfer(w, response, inferred), DoPublish(w), DoFinishOk(w)]
  }

  /**
   * A job that is handed to a worker and left alone ends completed, with exactly what the model answered as its result; if it
   * wants to share it, provided that the cache then gives something back, and otherwise it fails as corrupt.
   */
  lemma LeftAloneCompletes(cfg: Config, s: Service, w: nat, response: string, inferred: seq<Inferred>)
    requires w in s.workers && s.workers[w].Scheduled? && s.workers[w].job in s.jobs && !s.jobs[s.workers[w].job].cancel
    ensures var id, t := s.workers[w].job, Run(cfg, s, Stations(w, response, inferred));
      var job, baked := s.jobs[id], Bake(cfg, response, inferred);
      var cache := if job.reuse && id !in s.cache then s.cache[id := baked] else s.cache;
      var readable := job.reuse ==> ReadCache(cfg, cache[id]).Some?;
      && t == s.(jobs := t.jobs, workers := t.workers, cache := cache)
      && t.workers == s.workers[w := if readable then Exiting(id) else Raised(id, CacheCorrupt)]
      && t.jobs == s.jobs[id := if readable then job.(state := Completed, result := Some(baked)) else job.(state := Running)]
  {
    hide Bake, ReadCache;
    var id := s.workers[w].job;
    FourSteps(cfg, s, Stations(w, response, inferred));
    var baked := Bake(cfg, response, inferred);
    var s1 := s.(jobs := s.jobs[id := s.jobs[id].(state := Running)], workers := s.workers[w := Processing(id)]);
    var s2 := s1.(workers := s.workers[w := Checked(id, baked)]);
    assert Next(cfg, s, DoStart(w)) == s1;
    assert Next(cfg, s1, DoInfer(w, response, inferred)) == s2;
  }

  /** A job whose worker meets an error ends failed, with the code of the error and no result. */
  lemma ErrorFails(cfg: Config, s: Service, w: nat, code: Code)
    requires w in s.workers && s.workers[w].Scheduled? && s.workers[w].job in s.jobs && !s.jobs[s.workers[w].job].cancel && !code.ModelCancelled?
    ensures var id := s.workers[w].job;
      FinishError(Fail(Start(s, w), w, code), w)
        == s.(jobs := s.jobs[id := s.jobs[id].(state := Failed, code := Some(code))], workers := s.workers[w := Exiting(id)])
  {
  }

  /**
   * An error is taken up exactly while the model works, or, for an error of the cache, after it has answered; that a job was
   * cancelled is reported only if it was.
   */
  lemma FailsIff(s: Service, w: nat, code: Code)
    requires w in s.workers && s.workers[w].job in s.jobs
    ensures Fail(s, w, code) == s.(workers := s.workers[w := Raised(s.workers[w].job, code)])
      <==> s.workers[w] == Raised(s.workers[w].job, code)
           || ((s.workers[w].Processing? || (s.workers[w].Checked? && code == CacheCorrupt)) && (code == ModelCancelled ==> s.jobs[s.workers[w].job].cancel))
    ensures Fail(s, w, code) in {s, s.(workers := s.workers[w := Raised(s.workers[w].job, code)])}
  {
    if Fail(s, w, code) == s.(workers := s.workers[w := Raised(s.workers[w].job, code)]) {
      assert Fail(s, w, code).workers[w] == Raised(s.workers[w].job, code);
    }
    if s.workers[w] == Raised(s.workers[w].job, code) { assert s.workers[w := Raised(s.workers[w].job, code)] == s.workers; }
  }

  /** A job that is cancelled before its worker starts, or while the model works, ends cancelled and without a result. */
  lemma CancelledInTimeStops(cfg: Config, s: Service, w: nat, response: string, inferred: seq<Inferred>)
    requires w in s.workers && s.workers[w].job in s.jobs && s.jobs[s.workers[w].job].cancel && !s.jobs[s.workers[w].job].state.Completed?
    ensures var id := s.workers[w].job;
      && (s.workers[w].Scheduled? ==>
           Start(s, w) == s.(jobs := s.jobs[id := s.jobs[id].(state := Cancelled)], workers := s.workers[w := Exiting(id)]))
      && (s.workers[w].Processing? ==>
           FinishError(Infer(cfg, s, w, response, inferred), w)
             == s.(jobs := s.jobs[id := s.jobs[id].(state := Cancelled, code := Some(ModelCancelled))], workers := s.workers[w := Exiting(id)]))
  {
    hide Bake;
  }

  /* ---------- what is baked ---------- */

  /** The samples are listed in order by name, each with its channels in order, by name, size and digest. */
  predicate Lists(cfg: Config, samples: seq<Sample>, inferred: seq<Inferred>) {
    && |samples| == |inferred|
    && forall i :: 0 <= i < |inferred| ==>
         && samples[i].name == inferred[i].name && |samples[i].outputs| == |inferred[i].channels|
         && forall k :: 0 <= k < |inferred[i].channels| ==>
              samples[i].outputs[k] == Output(inferred[i].channels[k].0, |inferred[i].channels[k].1|, cfg.sha(inferred[i].channels[k].1))
  }

  lemma {:induction false} AssembleLists(cfg: Config, inferred: seq<Inferred>, acc: Baked)
    ensures var r := Assemble(cfg, inferred, acc);
      |r.samples| == |acc.samples| + |inferred| && r.samples[..|acc.samples|] == acc.samples && r.response == acc.response
      && Lists(cfg, r.samples[|acc.samples|..], inferred)
    decreases |inferred|
  {
    if inferred != [] {
      hide Buffers, Lists, Outputs;
      var first, n := inferred[0], |acc.samples|;
      var more := acc.(samples := acc.samples + [Sample(first.name, Outputs(cfg, first.channels))], buffers := Buffers(cfg, first.channels, acc.buffers));
      AssembleLists(cfg, inferred[1..], more);
      var r := Assemble(cfg, inferred, acc);
      hide Assemble;
      assert r.samples[n] == r.samples[..n + 1][n] == more.samples[n];
      assert r.samples[..n] == r.samples[..n + 1][..n];
      ListsFirst(cfg, r.samples[n..], inferred);
    } else { NothingListed(cfg); }
  }

  lemma NothingListed(cfg: Config)
    ensures Lists(cfg, [], [])
  {
  }

  lemma ListsFirst(cfg: Config, samples: seq<Sample>, inferred: seq<Inferred>)
    requires samples != [] && inferred != [] && Lists(cfg, samples[1..], inferred[1..])
    requires samples[0] == Sample(inferred[0].name, Outputs(cfg, inferred[0].channels))
    ensures Lists(cfg, samples, inferred)
  {
    forall i | 0 < i < |inferred| ensures samples[i] == samples[1..][i - 1] && inferred[i] == inferred[1..][i - 1] { }
  }

  /** No two of the payloads share a digest without being equal. */
  predicate NoCollision(cfg: Config, inferred: seq<Inferred>) {
    forall i, k, j :: 0 <= i < |inferred| && 0 <= k < |inferred[i].channels| && 0 <= j < |inferred| ==>
      NoOther(cfg, inferred[j].channels, inferred[i].channels[k].1)
  }

  predicate Holds(cfg: Config, buffers: map<Digest, seq<Byte>>, payload: seq<Byte>) {
    cfg.sha(payload) in buffers && buffers[cfg.sha(payload)] == payload
  }

  predicate NoOther(cfg: Config, channels: seq<(string, seq<Byte>)>, payload: seq<Byte>) {
    forall k :: 0 <= k < |channels| && cfg.sha(channels[k].1) == cfg.sha(payload) ==> channels[k].1 == payload
  }

  lemma {:induction false} BuffersHold(cfg: Config, channels: seq<(string, seq<Byte>)>, acc: map<Digest, seq<Byte>>, payload: seq<Byte>)
    requires NoOther(cfg, channels, payload)
    requires Holds(cfg, acc, payload) || exists k :: 0 <= k < |channels| && channels[k].1 == payload
    ensures Holds(cfg, Buffers(cfg, channels, acc), payload)
    decreases |channels|
  {
    if channels != [] {
      var next, rest := acc[cfg.sha(channels[0].1) := channels[0].1], channels[1..];
      assert Holds(cfg, next, payload) || exists k :: 0 <= k < |rest| && rest[k].1 == payload by {
        if k :| 0 <= k < |channels| && channels[k].1 == payload && k > 0 { assert rest[k - 1].1 == payload; }
      }
      BuffersHold(cfg, rest, next, payload);
    }
  }

  lemma {:induction false} AssembleHolds(cfg: Config, inferred: seq<Inferred>, acc: Baked, payload: seq<Byte>)
    requires forall i :: 0 <= i < |inferred| ==> NoOther(cfg, inferred[i].channels, payload)
    requires Holds(cfg, acc.buffers, payload) || exists i, k :: 0 <= i < |inferred| && 0 <= k < |inferred[i].channels| && inferred[i].channels[k].1 == payload
    ensures Holds(cfg, Assemble(cfg, inferred, acc).buffers, payload)
    decreases |inferred|
  {
    hide NoOther, Holds;
    if inferred != [] {
      var first, rest := inferred[0].channels, inferred[1..];
      var more := acc.(samples := acc.samples + [Sample(inferred[0].name, Outputs(cfg, first))], buffers := Buffers(cfg, first, acc.buffers));
      if Holds(cfg, acc.buffers, payload) || exists k :: 0 <= k < |first| && first[k].1 == payload {
        BuffersHold(cfg, first, acc.buffers, payload);
      } else {
        var i, k :| 0 <= i < |inferred| && 0 <= k < |inferred[i].channels| && inferred[i].channels[k].1 == payload;
        assert rest[i - 1].channels[k].1 == payload;
      }
      AssembleHolds(cfg, rest, more, payload);
    }
  }

  /** The result lists every sample and channel of the answer in order, and gives every payload back under its digest. */
  lemma BakeKeepsTheAnswer(cfg: Config, response: string, inferred: seq<Inferred>)
    ensures var b := Bake(cfg, response, inferred);
      && b.response == response && Lists(cfg, b.samples, inferred)
      && (NoCollision(cfg, inferred) ==>
           forall i, k :: 0 <= i < |inferred| && 0 <= k < |inferred[i].channels| ==> Holds(cfg, b.buffers, inferred[i].channels[k].1))
  {
    hide Assemble, Lists, Holds;
    AssembleLists(cfg, inferred, Baked(response, [], map[]));
    var b := Bake(cfg, response, inferred);
    assert b.samples[0..] == b.samples;
    if NoCollision(cfg, inferred) {
      forall i, k | 0 <= i < |inferred| && 0 <= k < |inferred[i].channels| ensures Holds(cfg, b.buffers, inferred[i].channels[k].1) {
        AssembleHolds(cfg, inferred, Baked(response, [], map[]), inferred[i].channels[k].1);
      }
    }
  }
}
