/** What every interleaving of calls and workers keeps. */
module BakeInvariant {
  import opened Bytes
  import opened BakeModel
  import opened Counting

  /* ---------- sums over maps ---------- */

  ghost function Sum<K>(m: map<K, nat>): nat {
    if m == map[] then 0 else var k :| k in m; m[k] + Sum(m - {k})
  }

  lemma {:induction false} SumRemove<K>(m: map<K, nat>, k: K)
    requires k in m
    ensures Sum(m) == m[k] + Sum(m - {k})
    decreases |m|
  {
    var p :| p in m && Sum(m) == m[p] + Sum(m - {p});
    if p != k {
      SumRemove(m - {p}, k);
      SumRemove(m - {k}, p);
      assert m - {p} - {k} == m - {k} - {p};
    }
  }

  lemma SumUpdate<K>(m: map<K, nat>, k: K, v: nat)
    ensures Sum(m[k := v]) == Sum(m) + v - (if k in m then m[k] else 0)
  {
    SumRemove(m[k := v], k);
    assert m[k := v] - {k} == m - {k};
    if k in m { SumRemove(m, k); } else { assert m - {k} == m; }
  }

  function Sizes(inputs: map<string, Input>): map<string, nat> {
    map k | k in inputs :: |inputs[k].bytes|
  }

  ghost function JobSizes(jobs: map<JobId, Job>): map<JobId, nat> {
    map id | id in jobs :: Sum(Sizes(jobs[id].inputs))
  }

  /** The bytes of all inputs that any job holds. */
  ghost function Held(jobs: map<JobId, Job>): nat {
    Sum(JobSizes(jobs))
  }

  lemma HeldUpdate(jobs: map<JobId, Job>, id: JobId, job: Job)
    ensures Held(jobs[id := job]) == Held(jobs) + Sum(Sizes(job.inputs)) - (if id in jobs then Sum(Sizes(jobs[id].inputs)) else 0)
  {
    assert JobSizes(jobs[id := job]) == JobSizes(jobs)[id := Sum(Sizes(job.inputs))];
    SumUpdate(JobSizes(jobs), id, Sum(Sizes(job.inputs)));
  }

  /* ---------- the invariant ---------- */

  /** The worker is between hand-over and the end of its processing. */
  predicate AtWork(worker: Worker) {
    !worker.Exiting?
  }

  ghost predicate JobsInv(s: Service) {
    forall id :: id in s.jobs ==> JobOk(s.jobs[id])
  }

  predicate JobOk(job: Job) {
    && (job.state.Cancelled? ==> job.cancel)
    && (job.cancel ==> job.state.Cancelled? || job.state.Completed? || job.state.Failed?)
    && (job.state.Completed? ==> job.result.Some?)
    && (job.result.Some? ==> job.state.Completed? || job.cancel)
  }

  ghost predicate QueueInv(s: Service) {
    && (forall i, j :: 0 <= i < j < |s.queue| ==> s.queue[i] != s.queue[j])
    && (forall id :: id in s.queue ==> id in s.jobs && s.jobs[id].state.Queued?)
  }

  ghost predicate WorkersInv(s: Service) {
    && (forall w :: w in s.workers ==> w < s.nextWorker && s.workers[w].job in s.jobs)
    && (forall w :: w in s.workers && AtWork(s.workers[w]) ==>
         var job := s.jobs[s.workers[w].job];
         && job.result.None? && s.workers[w].job !in s.queue
         && (!job.cancel ==> if s.workers[w].Scheduled? then job.state.Queued? else job.state.Running?)
         && (s.workers[w].Raised? && s.workers[w].code.ModelCancelled? ==> job.cancel))
    && (forall v, w :: v in s.workers && w in s.workers && v != w && AtWork(s.workers[v]) && AtWork(s.workers[w]) ==>
         s.workers[v].job != s.workers[w].job)
  }

  /** The job is being looked after: a queued job waits or is handed over, a running job has a worker. */
  ghost predicate LookedAfter(s: Service, id: JobId)
    requires id in s.jobs
  {
    && (s.jobs[id].state.Queued? ==> id in s.queue || exists w :: w in s.workers && s.workers[w] == Scheduled(id))
    && (s.jobs[id].state.Running? ==>
          exists w :: w in s.workers && s.workers[w].job == id && AtWork(s.workers[w]) && !s.workers[w].Scheduled?)
  }

  ghost predicate Core(cfg: Config, s: Service) {
    && JobsInv(s) && QueueInv(s) && WorkersInv(s)
    && (forall id :: id in s.jobs ==> LookedAfter(s, id))
    && s.inFlight == |s.workers| && s.inFlight <= cfg.pool
    && |Busy(s.jobs)| <= cfg.maxQueue
    && s.storedBytes == Held(s.jobs) <= cfg.maxStorage
  }

  /** No wakeup is lost: while jobs wait, every worker is taken. */
  predicate AllTaken(cfg: Config, s: Service) {
    s.queue != [] ==> s.inFlight == cfg.pool
  }

  ghost predicate Inv(cfg: Config, s: Service) {
    Core(cfg, s) && AllTaken(cfg, s)
  }

  lemma InitInv(cfg: Config, cache: map<JobId, Baked>)
    ensures Inv(cfg, Started(cache))
  {
    assert Busy(map[]) == {};
    assert JobSizes(map[]) == map[];
  }

  /* ---------- the pump ---------- */

  /** The service after one job was handed to a new worker. */
  function HandedOver(s: Service): Service
    requires s.queue != []
  {
    s.(queue := s.queue[1..], inFlight := s.inFlight + 1, workers := s.workers[s.nextWorker := Scheduled(s.queue[0])], nextWorker := s.nextWorker + 1)
  }

  lemma {:induction false} PumpKeeps(cfg: Config, s: Service)
    requires Core(cfg, s)
    ensures Core(cfg, Pump(cfg, s)) && AllTaken(cfg, Pump(cfg, s))
    ensures Pump(cfg, s).jobs == s.jobs && Pump(cfg, s).storedBytes == s.storedBytes && Pump(cfg, s).cache == s.cache
    decreases |s.queue|
  {
    hide Core;
    PumpUnfolds(cfg, s);
    if s.inFlight < cfg.pool && s.queue != [] {
      Dispatch(cfg, s);
      PumpKeeps(cfg, HandedOver(s));
    }
  }

  /** No job that waits is cancelled, so the pump never skips one. */
  lemma PumpUnfolds(cfg: Config, s: Service)
    requires Core(cfg, s)
    ensures s.inFlight <= cfg.pool
    ensures Pump(cfg, s) == if s.inFlight < cfg.pool && s.queue != [] then Pump(cfg, HandedOver(s)) else s
  {
    hide WorkersInv, LookedAfter, Held, Busy;
    if s.queue != [] { assert s.queue[0] in s.queue; }
  }

  lemma Dispatch(cfg: Config, s: Service)
    requires Core(cfg, s) && s.inFlight < cfg.pool && s.queue != []
    ensures Core(cfg, HandedOver(s))
  {
    hide Held, Busy, LookedAfter, WorkersInv, QueueInv, JobsInv;
    DispatchQueue(s);
    DispatchWorkers(s);
    forall other | other in s.jobs ensures LookedAfter(HandedOver(s), other) { DispatchLooked(s, other); }
    NewWorker(s);
  }

  lemma NewWorker(s: Service)
    requires WorkersInv(s) && s.queue != []
    ensures |HandedOver(s).workers| == |s.workers| + 1
  {
    assert HandedOver(s).workers.Keys == s.workers.Keys + {s.nextWorker};
  }

  lemma DispatchQueue(s: Service)
    requires JobsInv(s) && QueueInv(s) && s.queue != []
    ensures QueueInv(HandedOver(s)) && JobsInv(HandedOver(s))
    ensures forall id :: id in s.queue <==> id == s.queue[0] || id in HandedOver(s).queue
    ensures s.queue[0] !in HandedOver(s).queue
  {
    assert s.queue == [s.queue[0]] + HandedOver(s).queue;
  }

  lemma DispatchWorkers(s: Service)
    requires JobsInv(s) && QueueInv(s) && WorkersInv(s) && s.queue != []
    ensures WorkersInv(HandedOver(s))
  {
    DispatchQueue(s);
    var t := HandedOver(s);
    assert s.queue[0] in s.queue;
    assert t.workers[s.nextWorker] == Scheduled(s.queue[0]);
    assert forall w :: w in s.workers ==> w != s.nextWorker && t.workers[w] == s.workers[w];
  }

  lemma DispatchLooked(s: Service, id: JobId)
    requires QueueInv(s) && WorkersInv(s) && JobsInv(s) && s.queue != [] && id in s.jobs && LookedAfter(s, id)
    ensures LookedAfter(HandedOver(s), id)
  {
    DispatchQueue(s);
    var t := HandedOver(s);
    assert t.workers[s.nextWorker] == Scheduled(s.queue[0]);
    assert forall w :: w in s.workers ==> w != s.nextWorker && t.workers[w] == s.workers[w];
  }

  /* ---------- steps that only change one job or one worker ---------- */

  predicate BusyJob(job: Job) { job.state.Queued? || job.state.Running? }

  /** Replacing one job by one that is no busier keeps the count. */
  lemma BusyAfter(jobs: map<JobId, Job>, id: JobId, job: Job)
    ensures BusyJob(job) && (id in jobs ==> !BusyJob(jobs[id])) ==> |Busy(jobs[id := job])| <= |Busy(jobs)| + 1
    ensures !BusyJob(job) || (id in jobs && BusyJob(jobs[id])) ==> |Busy(jobs[id := job])| <= |Busy(jobs)|
  {
    SubsetSize(Busy(jobs[id := job]), Busy(jobs) + {id});
    if !BusyJob(job) || (id in jobs && BusyJob(jobs[id])) {
      SubsetSize(Busy(jobs[id := job]), Busy(jobs));
    }
  }

  /** What a job may become while a worker moves on to the given station. */
  predicate MayBecome(was: Job, job: Job, worker: Worker) {
    && job.inputs == was.inputs && job.cancel == was.cancel
    && (job.state.Cancelled? ==> job.cancel)
    && (job.cancel ==> job.state.Cancelled? || job.state.Completed? || job.state.Failed?)
    && if AtWork(worker) then
         && job.result == was.result && (!job.cancel ==> job.state.Running?) && (worker.Raised? && worker.code.ModelCancelled? ==> job.cancel)
         && (job.cancel ==> job.state == was.state)
       else
         !job.state.Queued? && !job.state.Running? && (job.state.Completed? <==> job.result.Some?)
  }

  predicate Moved(s: Service, t: Service, w: nat, job: Job, worker: Worker) {
    && w in s.workers && AtWork(s.workers[w]) && worker.job == s.workers[w].job && !worker.Scheduled? && worker.job in s.jobs
    && MayBecome(s.jobs[worker.job], job, worker)
    && t.jobs == s.jobs[worker.job := job] && t.workers == s.workers[w := worker]
    && t.queue == s.queue && t.inFlight == s.inFlight && t.nextWorker == s.nextWorker && t.storedBytes == s.storedBytes
  }

  /** A new station for a worker, and with it a new state of its job. */
  lemma WorkerMoves(cfg: Config, s: Service, t: Service, w: nat, job: Job, worker: Worker)
    requires Core(cfg, s) && Moved(s, t, w, job, worker)
    ensures Core(cfg, t)
  {
    hide Held, JobsInv, QueueInv, WorkersInv, LookedAfter;
    MoveKeepsJobs(s, t, w, job, worker);
    MoveKeepsWorkers(s, t, w, job, worker);
    forall other | other in t.jobs ensures LookedAfter(t, other) { MoveLooksAfter(s, t, w, job, worker, other); }
    MoveKeepsCounts(s, t, w, job, worker);
  }

  lemma MoveKeepsCounts(s: Service, t: Service, w: nat, job: Job, worker: Worker)
    requires WorkersInv(s) && Moved(s, t, w, job, worker) 
    ensures Held(t.jobs) == Held(s.jobs) && |t.workers| == |s.workers| && |Busy(t.jobs)| <= |Busy(s.jobs)|
  {
    hide Held, Busy;
    BusyAfter(s.jobs, worker.job, job);
    HeldUpdate(s.jobs, worker.job, job);
    assert t.workers.Keys == s.workers.Keys;
  }

  lemma MoveKeepsJobs(s: Service, t: Service, w: nat, job: Job, worker: Worker)
    requires JobsInv(s) && QueueInv(s) && WorkersInv(s) && Moved(s, t, w, job, worker)
    ensures JobsInv(t) && QueueInv(t)
  {
  }

  lemma MoveKeepsWorkers(s: Service, t: Service, w: nat, job: Job, worker: Worker)
    requires JobsInv(s) && WorkersInv(s) && Moved(s, t, w, job, worker)
    ensures WorkersInv(t)
  {
    assert t.workers[w] == worker;
    assert forall v :: v in s.workers && v != w ==> t.workers[v] == s.workers[v];
  }

  lemma MoveLooksAfter(s: Service, t: Service, w: nat, job: Job, worker: Worker, id: JobId)
    requires JobsInv(s) && WorkersInv(s) && Moved(s, t, w, job, worker) && id in s.jobs && LookedAfter(s, id)
    ensures LookedAfter(t, id)
  {
    assert t.workers[w] == worker;
    assert forall v :: v in s.workers && v != w ==> t.workers[v] == s.workers[v];
  }

  /** A client call: one job is added or changed and the queue may change at its id, but no worker. */
  ghost predicate Reshaped(cfg: Config, s: Service, t: Service, id: JobId, job: Job) {
    && t.jobs == s.jobs[id := job] && t.workers == s.workers && t.inFlight == s.inFlight && t.nextWorker == s.nextWorker
    && (forall other :: other != id ==> (other in t.queue <==> other in s.queue))
    && (forall i, j :: 0 <= i < j < |t.queue| ==> t.queue[i] != t.queue[j])
    && (id in t.queue ==> job.state.Queued?)
    && JobOk(job)
    && (if id in s.jobs then
          && job.result == s.jobs[id].result
          && (s.jobs[id].cancel ==> job.cancel)
          && (job.cancel || (job.state == s.jobs[id].state && t.queue == s.queue) || (job.state.Queued? && id in t.queue && !BusyJob(s.jobs[id])))
          && (BusyJob(job) && !BusyJob(s.jobs[id]) ==> |Busy(s.jobs)| < cfg.maxQueue)
        else !BusyJob(job))
  }

  lemma CallKeeps(cfg: Config, s: Service, t: Service, id: JobId, job: Job)
    requires Core(cfg, s) && Reshaped(cfg, s, t, id, job)
    requires t.storedBytes == Held(t.jobs) <= cfg.maxStorage
    ensures Core(cfg, t)
  {
    hide Held;
    CallKeepsWorkers(cfg, s, t, id, job);
    forall other | other in t.jobs ensures LookedAfter(t, other) { CallLooksAfter(cfg, s, t, id, job, other); }
    CallKeepsBusy(cfg, s, t, id, job);
  }

  lemma CallKeepsBusy(cfg: Config, s: Service, t: Service, id: JobId, job: Job)
    requires Core(cfg, s) && Reshaped(cfg, s, t, id, job)
    ensures |Busy(t.jobs)| <= cfg.maxQueue
  {
    hide Held, JobsInv, QueueInv, WorkersInv, LookedAfter, Busy;
    BusyAfter(s.jobs, id, job);
  }

  lemma CallKeepsWorkers(cfg: Config, s: Service, t: Service, id: JobId, job: Job)
    requires JobsInv(s) && QueueInv(s) && WorkersInv(s) && Reshaped(cfg, s, t, id, job)
    ensures JobsInv(t) && QueueInv(t) && WorkersInv(t)
  {
    hide Busy;
  }

  lemma CallLooksAfter(cfg: Config, s: Service, t: Service, id: JobId, job: Job, other: JobId)
    requires Reshaped(cfg, s, t, id, job) && other in t.jobs && (other in s.jobs ==> LookedAfter(s, other))
    ensures LookedAfter(t, other)
  {
    hide Busy;
  }
}
