/** Results, the cache and cancellation, along every run. */
module BakeResults {
  import opened Bytes
  import opened BakeModel
  import opened BakeInvariant
  import opened BakeRuns

  /* ---------- what one job bakes ---------- */

  predicate Hashed(cfg: Config, buffers: map<Digest, seq<Byte>>) {
    forall d :: d in buffers ==> cfg.sha(buffers[d]) == d
  }

  /** Every buffer hashes to its key, and the keys are exactly the listed digests. */
  predicate Good(cfg: Config, baked: Baked) {
    && Hashed(cfg, baked.buffers)
    && baked.buffers.Keys == Listed(baked.samples)
  }

  predicate Occurs(cfg: Config, channels: seq<(string, seq<Byte>)>, d: Digest) {
    exists k :: 0 <= k < |channels| && cfg.sha(channels[k].1) == d
  }

  lemma OccursSplit(cfg: Config, channels: seq<(string, seq<Byte>)>, d: Digest)
    requires channels != []
    ensures Occurs(cfg, channels, d) <==> cfg.sha(channels[0].1) == d || Occurs(cfg, channels[1..], d)
  {
    if k :| 0 <= k < |channels[1..]| && cfg.sha(channels[1..][k].1) == d { assert channels[k + 1] == channels[1..][k]; }
    if k :| 0 <= k < |channels| && cfg.sha(channels[k].1) == d && k > 0 { assert channels[1..][k - 1] == channels[k]; }
  }

  lemma {:induction false} BuffersHash(cfg: Config, channels: seq<(string, seq<Byte>)>, acc: map<Digest, seq<Byte>>, d: Digest)
    requires Hashed(cfg, acc)
    ensures Hashed(cfg, Buffers(cfg, channels, acc))
    ensures d in Buffers(cfg, channels, acc) <==> d in acc || Occurs(cfg, channels, d)
    decreases |channels|
  {
    if channels != [] {
      var next := acc[cfg.sha(channels[0].1) := channels[0].1];
      BuffersHash(cfg, channels[1..], next, d);
      assert Buffers(cfg, channels, acc) == Buffers(cfg, channels[1..], next);
      OccursSplit(cfg, channels, d);
    }
  }

  lemma ListedMore(samples: seq<Sample>, sample: Sample, d: Digest)
    ensures d in Listed(samples + [sample]) <==> d in Listed(samples) || exists k :: 0 <= k < |sample.outputs| && sample.outputs[k].sha256 == d
  {
    var all := samples + [sample];
    if d in Listed(samples) {
      var i, j :| 0 <= i < |samples| && 0 <= j < |samples[i].outputs| && samples[i].outputs[j].sha256 == d;
      assert all[i].outputs[j].sha256 == d;
    }
    if k :| 0 <= k < |sample.outputs| && sample.outputs[k].sha256 == d {
      assert all[|samples|].outputs[k].sha256 == d;
    }
  }

  lemma GoodMore(cfg: Config, sample: Inferred, acc: Baked)
    requires Good(cfg, acc)
    ensures Good(cfg, acc.(samples := acc.samples + [Sample(sample.name, Outputs(cfg, sample.channels))],
                           buffers := Buffers(cfg, sample.channels, acc.buffers)))
  {
    hide Buffers, Listed, Hashed;
    BuffersHash(cfg, sample.channels, acc.buffers, "");
    var s, outputs := Sample(sample.name, Outputs(cfg, sample.channels)), Outputs(cfg, sample.channels);
    var buffers := Buffers(cfg, sample.channels, acc.buffers);
    assert forall k :: 0 <= k < |outputs| ==> outputs[k].sha256 == cfg.sha(sample.channels[k].1);
    forall d ensures d in buffers.Keys <==> d in Listed(acc.samples + [s]) {
      BuffersHash(cfg, sample.channels, acc.buffers, d);
      ListedMore(acc.samples, s, d);
    }
  }

  lemma {:induction false} AssembleGood(cfg: Config, inferred: seq<Inferred>, acc: Baked)
    requires Good(cfg, acc)
    ensures Good(cfg, Assemble(cfg, inferred, acc))
    decreases |inferred|
  {
    hide Good;
    if inferred != [] {
      GoodMore(cfg, inferred[0], acc);
      AssembleGood(cfg, inferred[1..],
        acc.(samples := acc.samples + [Sample(inferred[0].name, Outputs(cfg, inferred[0].channels))],
             buffers := Buffers(cfg, inferred[0].channels, acc.buffers)));
    }
  }

  /** Whatever the model answers, the buffers hash to their keys and are those that the output set lists. */
  lemma BakeGood(cfg: Config, response: string, inferred: seq<Inferred>)
    ensures Good(cfg, Bake(cfg, response, inferred))
  {
    assert Listed([]) == {};
    AssembleGood(cfg, inferred, Baked(response, [], map[]));
  }

  /** What is read back is what was published, if anything. */
  lemma ReadsBack(cfg: Config, baked: Baked)
    requires Good(cfg, baked)
    ensures ReadCache(cfg, baked) == if Readable(cfg, baked) then Some(baked) else None
  {
    if Readable(cfg, baked) {
      var r := ReadCache(cfg, baked).value;
      assert r.buffers == baked.buffers;
    }
  }

  /** What is read from a directory is good, whatever the directory holds besides. */
  lemma ReadIsGood(cfg: Config, stored: Baked)
    ensures ReadCache(cfg, stored).Some? ==> Good(cfg, ReadCache(cfg, stored).value)
  {
    if Readable(cfg, stored) {
      var r := ReadCache(cfg, stored).value;
      forall d | d in Listed(stored.samples) ensures d in stored.buffers && cfg.sha(stored.buffers[d]) == d {
        var i, j :| 0 <= i < |stored.samples| && 0 <= j < |stored.samples[i].outputs| && stored.samples[i].outputs[j].sha256 == d;
        assert Intact(cfg, stored, stored.samples[i].outputs[j]);
      }
    }
  }

  /* ---------- results and the cache along a run ---------- */

  predicate HasBaked(worker: Worker) {
    worker.Checked? || worker.Published?
  }

  ghost predicate AllGood(cfg: Config, s: Service, initial: set<JobId>) {
    && (forall id :: id in s.jobs && s.jobs[id].result.Some? ==> Good(cfg, s.jobs[id].result.value))
    && (forall w :: w in s.workers && HasBaked(s.workers[w]) ==> Good(cfg, s.workers[w].baked))
    && (forall id :: id in s.cache && id !in initial ==> Good(cfg, s.cache[id]))
  }

  predicate Holds(cfg: Config, cache: map<JobId, Baked>, id: JobId, baked: Baked) {
    id in cache && ReadCache(cfg, cache[id]) == Some(baked)
  }

  /** The result of a job that shares it, and what its worker just published, are what the cache gives under its hash. */
  ghost predicate Agrees(cfg: Config, s: Service) {
    && (forall id :: id in s.jobs && s.jobs[id].reuse && s.jobs[id].result.Some? ==> Holds(cfg, s.cache, id, s.jobs[id].result.value))
    && (forall w :: w in s.workers && s.workers[w].Published? && s.workers[w].job in s.jobs && s.jobs[s.workers[w].job].reuse ==>
         Holds(cfg, s.cache, s.workers[w].job, s.workers[w].baked))
    && (forall id :: id in s.jobs && s.jobs[id].reuse && id in s.cache && ReadCache(cfg, s.cache[id]).Some? ==> Owned(s, id))
  }

  ghost predicate Owned(s: Service, id: JobId)
    requires id in s.jobs
  {
    s.jobs[id].result.Some? || exists w :: w in s.workers && s.workers[w].Published? && s.workers[w].job == id
  }

  /** Nothing that the cache, a result or a worker holds has changed. */
  ghost predicate SameResults(s: Service, t: Service) {
    && t.cache == s.cache && t.jobs.Keys == s.jobs.Keys
    && (forall id :: id in s.jobs ==> t.jobs[id].result == s.jobs[id].result && t.jobs[id].reuse == s.jobs[id].reuse)
    && (forall w :: w in t.workers && HasBaked(t.workers[w]) ==> w in s.workers && s.workers[w] == t.workers[w])
    && (forall w :: w in s.workers && s.workers[w].Published? ==> w in t.workers && s.workers[w] == t.workers[w])
  }

  lemma SameResultsKeep(cfg: Config, s: Service, t: Service, initial: set<JobId>)
    requires SameResults(s, t) && AllGood(cfg, s, initial) && Agrees(cfg, s)
    ensures AllGood(cfg, t, initial) && Agrees(cfg, t)
  {
    hide Good, Holds, ReadCache;
    forall id | id in t.jobs && t.jobs[id].reuse && id in t.cache && ReadCache(cfg, t.cache[id]).Some? ensures Owned(t, id) {
      assert Owned(s, id);
    }
  }

  lemma {:induction false} PumpSameResults(cfg: Config, s: Service)
    requires Core(cfg, s)
    ensures SameResults(s, Pump(cfg, s))
    decreases |s.queue|
  {
    hide Core;
    PumpUnfolds(cfg, s);
    if s.inFlight < cfg.pool && s.queue != [] {
      Dispatch(cfg, s);
      PumpSameResults(cfg, HandedOver(s));
      FreshWorker(cfg, s);
      assert SameResults(s, HandedOver(s));
    }
  }

  lemma FreshWorker(cfg: Config, s: Service)
    requires Core(cfg, s)
    ensures s.nextWorker !in s.workers
  {
  }

  lemma SubmitSameResults(cfg: Config, s: Service, id: JobId, requestHash: Digest)
    requires Inv(cfg, s)
    ensures SameResults(s, Submit(cfg, s, id, requestHash).0)
  {
    hide Core, Pump, Busy, SameResults;
    if id in s.jobs && id == requestHash && !s.jobs[id].cancel && (s.jobs[id].state.Open? || s.jobs[id].state.Failed?) && |Busy(s.jobs)| < cfg.maxQueue {
      var t := s.(jobs := s.jobs[id := s.jobs[id].(state := Queued)], queue := s.queue + [id]);
      SubmitCore(cfg, s, t, id);
      PumpSameResults(cfg, t);
      OneJobSameResults(s, t, id, t.jobs[id]);
      SameResultsTrans(s, t, Pump(cfg, t));
    } else {
      var t := Submit(cfg, s, id, requestHash).0;
      JobIsOkEverywhere(cfg, s);
      if id in s.jobs { SameJob(s, id); OneJobSameResults(s, t, id, t.jobs[id]); } else { NothingChanged(s); }
    }
  }

  /** One job changed, but neither its result nor how it shares it. */
  lemma OneJobSameResults(s: Service, t: Service, id: JobId, job: Job)
    requires id in s.jobs && t.jobs == s.jobs[id := job] && t.workers == s.workers && t.cache == s.cache
    requires job.result == s.jobs[id].result && job.reuse == s.jobs[id].reuse
    ensures SameResults(s, t)
  {
  }

  lemma NothingChanged(s: Service)
    ensures SameResults(s, s)
  {
  }

  lemma NothingNewSameResults(s: Service, t: Service)
    requires t.jobs == s.jobs && t.workers == s.workers && t.cache == s.cache
    ensures SameResults(s, t)
  {
  }

  /** A worker that neither holds nor will hold anything baked. */
  lemma OneWorkerSameResults(s: Service, t: Service, w: nat, worker: Worker)
    requires w in s.workers && !s.workers[w].Published? && !HasBaked(worker)
    requires t.workers == s.workers[w := worker] && t.jobs == s.jobs && t.cache == s.cache
    ensures SameResults(s, t)
  {
  }

  lemma SameResultsTrans(s: Service, t: Service, u: Service)
    requires SameResults(s, t) && SameResults(t, u)
    ensures SameResults(s, u)
  {
  }

  lemma ExitSameResults(cfg: Config, s: Service, w: nat)
    requires Inv(cfg, s)
    ensures SameResults(s, Exit(cfg, s, w))
  {
    hide Core, Pump;
    if w in s.workers && s.workers[w].Exiting? {
      var t := s.(workers := s.workers - {w}, inFlight := OneLess(s.inFlight));
      ExitCore(cfg, s, t, w);
      PumpSameResults(cfg, t);
    }
  }

  lemma ClientSameResults(cfg: Config, s: Service, a: Action)
    requires a.DoUpload? || a.DoCancel?
    ensures SameResults(s, Next(cfg, s, a))
  {
    hide Without, SameResults;
    var t := Next(cfg, s, a);
    if t.jobs != s.jobs { OneJobSameResults(s, t, a.id, t.jobs[a.id]); } else { NothingNewSameResults(s, t); }
  }

  lemma StationSameResults(cfg: Config, s: Service, a: Action)
    requires a.DoStart? || a.DoFail? || a.DoFinishError?
    ensures SameResults(s, Next(cfg, s, a))
  {
    hide SameResults;
    var t, w := Next(cfg, s, a), a.w;
    if t == s { NothingChanged(s); } else {
      var id, middle := s.workers[w].job, s.(jobs := t.jobs);
      OneJobSameResults(s, middle, id, t.jobs[id]);
      OneWorkerSameResults(middle, t, w, t.workers[w]);
      SameResultsTrans(s, middle, t);
    }
  }

  lemma CallSameResults(cfg: Config, s: Service, a: Action)
    requires Inv(cfg, s) && !a.DoCreate? && !a.DoInfer? && !a.DoPublish? && !a.DoFinishOk?
    ensures SameResults(s, Next(cfg, s, a))
  {
    hide Inv, Submit, Exit, Cancel, UploadInput, Start, Fail, FinishError, SameResults;
    match a
    case DoSubmit(id, requestHash) => SubmitSameResults(cfg, s, id, requestHash);
    case DoExit(w) => ExitSameResults(cfg, s, w);
    case DoUpload(_, _, _, _) => ClientSameResults(cfg, s, a);
    case DoCancel(_) => ClientSameResults(cfg, s, a);
    case _ => StationSameResults(cfg, s, a);
  }

  lemma WorkersHaveJobs(cfg: Config, s: Service)
    requires Inv(cfg, s)
    ensures forall w :: w in s.workers ==> s.workers[w].job in s.jobs
  {
  }

  lemma OwnedByResult(t: Service, id: JobId)
    requires id in t.jobs && t.jobs[id].result.Some?
    ensures Owned(t, id)
  {
  }

  lemma OwnedStays(s: Service, t: Service, id: JobId)
    requires id in s.jobs && Owned(s, id) && id in t.jobs && (s.jobs[id].result.Some? ==> t.jobs[id].result.Some?)
    requires forall v :: v in s.workers && s.workers[v].Published? && s.workers[v].job == id ==>
      t.jobs[id].result.Some? || (v in t.workers && t.workers[v] == s.workers[v])
    ensures Owned(t, id)
  {
  }

  lemma CreateAgrees(cfg: Config, s: Service, id: JobId, reuse: bool, initial: set<JobId>)
    requires Inv(cfg, s) && AllGood(cfg, s, initial) && Agrees(cfg, s)
    ensures AllGood(cfg, CreateJob(cfg, s, id, reuse).0, initial) && Agrees(cfg, CreateJob(cfg, s, id, reuse).0)
  {
    hide Good, ReadCache, Inv, Active, Owned;
    var t := CreateJob(cfg, s, id, reuse).0;
    if t != s {
      if reuse && id in s.cache { ReadIsGood(cfg, s.cache[id]); }
      WorkersHaveJobs(cfg, s);
      forall other | other in t.jobs && t.jobs[other].reuse && other in t.cache && ReadCache(cfg, t.cache[other]).Some? ensures Owned(t, other) {
        if other in s.jobs { OwnedStays(s, t, other); } else { assert t.jobs[other].result.Some?; OwnedByResult(t, other); }
      }
    }
  }

  lemma InferAgrees(cfg: Config, s: Service, w: nat, response: string, inferred: seq<Inferred>, initial: set<JobId>)
    requires AllGood(cfg, s, initial) && Agrees(cfg, s)
    ensures AllGood(cfg, Infer(cfg, s, w, response, inferred), initial) && Agrees(cfg, Infer(cfg, s, w, response, inferred))
  {
    hide Good, ReadCache, Owned, Bake;
    BakeGood(cfg, response, inferred);
    var t := Infer(cfg, s, w, response, inferred);
    forall id | id in t.jobs && t.jobs[id].reuse && id in t.cache && ReadCache(cfg, t.cache[id]).Some? ensures Owned(t, id) {
      OwnedStays(s, t, id);
    }
  }

  lemma FinishAgrees(cfg: Config, s: Service, w: nat, initial: set<JobId>)
    requires AllGood(cfg, s, initial) && Agrees(cfg, s)
    ensures AllGood(cfg, FinishOk(s, w), initial) && Agrees(cfg, FinishOk(s, w))
  {
    hide Good, ReadCache, Owned;
    var t := FinishOk(s, w);
    forall id | id in t.jobs && t.jobs[id].reuse && id in t.cache && ReadCache(cfg, t.cache[id]).Some? ensures Owned(t, id) {
      OwnedStays(s, t, id);
    }
  }

  /** A worker that publishes is the only one on its job, so what it finds under the hash is unreadable or its own. */
  lemma PublisherIsAlone(cfg: Config, s: Service, w: nat)
    requires Core(cfg, s) && Agrees(cfg, s) && w in s.workers && s.workers[w].Checked? && s.workers[w].job in s.jobs
    ensures var id := s.workers[w].job;
      && s.jobs[id].result.None?
      && (s.jobs[id].reuse && id in s.cache ==> ReadCache(cfg, s.cache[id]).None?)
      && (forall v :: v in s.workers && v != w ==> !(s.workers[v].Published? && s.workers[v].job == id))
  {
    var id := s.workers[w].job;
    WorkerFacts(cfg, s, w);
    assert forall v :: v in s.workers && v != w ==> !(s.workers[v].Published? && s.workers[v].job == id);
    assert !Owned(s, id);
  }

  lemma OwnedByPublisher(t: Service, w: nat)
    requires w in t.workers && t.workers[w].Published? && t.workers[w].job in t.jobs
    ensures Owned(t, t.workers[w].job)
  {
  }

  lemma BakedIsGood(cfg: Config, s: Service, w: nat, initial: set<JobId>)
    requires AllGood(cfg, s, initial)
    ensures w in s.workers && s.workers[w].Checked? ==> Good(cfg, s.workers[w].baked)
  {
  }

  lemma PublishIsGood(cfg: Config, s: Service, w: nat, initial: set<JobId>)
    requires AllGood(cfg, s, initial)
    ensures AllGood(cfg, Publish(cfg, s, w), initial)
  {
    hide Good, ReadCache;
  }

  lemma PublishAgrees(cfg: Config, s: Service, w: nat, initial: set<JobId>)
    requires Inv(cfg, s) && AllGood(cfg, s, initial) && Agrees(cfg, s)
    ensures AllGood(cfg, Publish(cfg, s, w), initial) && Agrees(cfg, Publish(cfg, s, w))
  {
    hide Core, Good, ReadCache, Owned;
    PublishIsGood(cfg, s, w, initial);
    BakedIsGood(cfg, s, w, initial);
    hide AllGood;
    var t := Publish(cfg, s, w);
    if t != s {
      PublisherIsAlone(cfg, s, w);
      ReadsBack(cfg, s.workers[w].baked);
      forall id | id in t.jobs && t.jobs[id].reuse && id in t.cache && ReadCache(cfg, t.cache[id]).Some? ensures Owned(t, id) {
        if id != s.workers[w].job { OwnedStays(s, t, id); } else { OwnedByPublisher(t, w); }
      }
    }
  }

  lemma {:induction false} ResultsAgree(cfg: Config, s: Service, actions: seq<Action>, initial: set<JobId>)
    requires Inv(cfg, s) && AllGood(cfg, s, initial) && Agrees(cfg, s)
    ensures AllGood(cfg, Run(cfg, s, actions), initial) && Agrees(cfg, Run(cfg, s, actions))
    decreases |actions|
  {
    hide Inv, AllGood, Agrees, SameResults;
    hide CreateJob, UploadInput, Submit, Cancel, Start, Infer, Fail, Publish, FinishOk, FinishError, Exit;
    if actions != [] {
      match actions[0] {
        case DoCreate(id, reuse) => CreateAgrees(cfg, s, id, reuse, initial);
        case DoInfer(w, response, inferred) => InferAgrees(cfg, s, w, response, inferred, initial);
        case DoPublish(w) => PublishAgrees(cfg, s, w, initial);
        case DoFinishOk(w) => FinishAgrees(cfg, s, w, initial);
        case _ =>
          CallSameResults(cfg, s, actions[0]);
          SameResultsKeep(cfg, s, Next(cfg, s, actions[0]), initial);
      }
      NextKeeps(cfg, s, actions[0]);
      ResultsAgree(cfg, Next(cfg, s, actions[0]), actions[1..], initial);
    }
  }

  /* ---------- what never changes again ---------- */

  /**
   * From s to t no job is lost, no result is written over, no cancellation is taken back, no cache entry is replaced, and no
   * worker was given a job that s knew to be cancelled.
   */
  ghost predicate Later(s: Service, t: Service) {
    && (forall id :: id in s.jobs ==> id in t.jobs && Continues(s.jobs[id], t.jobs[id]))
    && (forall id :: id in s.cache ==> id in t.cache && t.cache[id] == s.cache[id])
    && s.nextWorker <= t.nextWorker
    && (forall w :: w in t.workers && w < s.nextWorker ==> w in s.workers && t.workers[w].job == s.workers[w].job)
    && (forall w :: w in t.workers && w >= s.nextWorker && t.workers[w].job in s.jobs ==> !s.jobs[t.workers[w].job].cancel)
  }

  predicate Continues(was: Job, job: Job) {
    && job.reuse == was.reuse && (was.cancel ==> job.cancel) && (was.result.Some? ==> job.result == was.result)
  }

  lemma LaterTrans(s: Service, t: Service, u: Service)
    requires Later(s, t) && Later(t, u)
    ensures Later(s, u)
  {
    forall w | w in u.workers && w >= s.nextWorker && u.workers[w].job in s.jobs ensures !s.jobs[u.workers[w].job].cancel {
      if w < t.nextWorker { assert u.workers[w].job == t.workers[w].job; }
    }
  }

  lemma {:induction false} PumpLater(cfg: Config, s: Service)
    requires Core(cfg, s)
    ensures Later(s, Pump(cfg, s))
    decreases |s.queue|
  {
    hide Core, Later;
    PumpUnfolds(cfg, s);
    LaterSame(cfg, s);
    if s.inFlight < cfg.pool && s.queue != [] {
      var t := HandedOver(s);
      Dispatch(cfg, s);
      PumpLater(cfg, t);
      HandOverLater(cfg, s);
      LaterTrans(s, t, Pump(cfg, t));
    }
  }

  lemma LaterSame(cfg: Config, s: Service)
    requires Core(cfg, s)
    ensures Later(s, s)
  {
  }

  lemma HandOverLater(cfg: Config, s: Service)
    requires Core(cfg, s) && s.queue != []
    ensures Later(s, HandedOver(s))
  {
    hide LookedAfter, Busy, Held;
    assert s.queue[0] in s.queue;
  }

  /** Steps at the end of which no worker is new. */
  lemma NoNewWorker(cfg: Config, s: Service, t: Service)
    requires Core(cfg, s)
    requires Quiet(s, t)
    ensures Later(s, t)
  {
    hide LookedAfter, Busy, Held, JobsInv, QueueInv;
  }

  lemma SubmitLater(cfg: Config, s: Service, id: JobId, requestHash: Digest)
    requires Inv(cfg, s)
    ensures Later(s, Submit(cfg, s, id, requestHash).0)
  {
    hide Core, Pump, Busy, Later;
    if id in s.jobs && id == requestHash && !s.jobs[id].cancel && (s.jobs[id].state.Open? || s.jobs[id].state.Failed?) && |Busy(s.jobs)| < cfg.maxQueue {
      var t := s.(jobs := s.jobs[id := s.jobs[id].(state := Queued)], queue := s.queue + [id]);
      SubmitCore(cfg, s, t, id);
      NoNewWorker(cfg, s, t);
      PumpLater(cfg, t);
      LaterTrans(s, t, Pump(cfg, t));
    } else {
      JobIsOkEverywhere(cfg, s);
      NoNewWorker(cfg, s, Submit(cfg, s, id, requestHash).0);
    }
  }

  lemma JobIsOkEverywhere(cfg: Config, s: Service)
    requires Core(cfg, s)
    ensures forall id :: id in s.jobs ==> JobOk(s.jobs[id])
  {
  }

  lemma ExitLater(cfg: Config, s: Service, w: nat)
    requires Inv(cfg, s)
    ensures Later(s, Exit(cfg, s, w))
  {
    hide Core, Pump, Later;
    if w in s.workers && s.workers[w].Exiting? {
      var t := s.(workers := s.workers - {w}, inFlight := OneLess(s.inFlight));
      ExitCore(cfg, s, t, w);
      NoNewWorker(cfg, s, t);
      PumpLater(cfg, t);
      LaterTrans(s, t, Pump(cfg, t));
    } else { LaterSame(cfg, s); }
  }

  lemma CallLater(cfg: Config, s: Service, a: Action)
    requires Inv(cfg, s) && (a.DoCreate? || a.DoUpload? || a.DoCancel?)
    ensures Later(s, Next(cfg, s, a))
  {
    hide Core, Later, ReadCache, Active, Without;
    NoNewWorker(cfg, s, Next(cfg, s, a));
  }

  lemma StationLater(cfg: Config, s: Service, a: Action)
    requires Inv(cfg, s) && (a.DoStart? || a.DoInfer? || a.DoFail? || a.DoPublish? || a.DoFinishOk? || a.DoFinishError?)
    ensures Later(s, Next(cfg, s, a))
  {
    hide Core, Later, ReadCache, Bake;
    hide Start, Infer, Fail, Publish, FinishOk, FinishError;
    var w, t := a.w, Next(cfg, s, a);
    if w in s.workers { WorkerFacts(cfg, s, w); }
    match a {
      case DoStart(_) => QuietStart(s, w);
      case DoInfer(_, response, inferred) => QuietInfer(cfg, s, w, response, inferred);
      case DoFail(_, code) => QuietFail(s, w, code);
      case DoPublish(_) => QuietPublish(cfg, s, w);
      case DoFinishOk(_) => QuietFinishOk(s, w);
      case DoFinishError(_) => QuietFinishError(s, w);
    }
    NoNewWorker(cfg, s, t);
  }

  /** What a station leaves alone. */
  ghost predicate Quiet(s: Service, t: Service) {
    && (forall id :: id in s.jobs ==> id in t.jobs && Continues(s.jobs[id], t.jobs[id]))
    && (forall id :: id in s.cache ==> id in t.cache && t.cache[id] == s.cache[id])
    && t.nextWorker == s.nextWorker
    && (forall w :: w in t.workers ==> w in s.workers && t.workers[w].job == s.workers[w].job)
  }

  lemma QuietStart(s: Service, w: nat)
    ensures Quiet(s, Start(s, w))
  {
  }

  lemma QuietInfer(cfg: Config, s: Service, w: nat, response: string, inferred: seq<Inferred>)
    ensures Quiet(s, Infer(cfg, s, w, response, inferred))
  {
    hide Bake;
  }

  lemma QuietFail(s: Service, w: nat, code: Code)
    ensures Quiet(s, Fail(s, w, code))
  {
  }

  lemma QuietPublish(cfg: Config, s: Service, w: nat)
    ensures Quiet(s, Publish(cfg, s, w))
  {
    hide ReadCache;
  }

  lemma QuietFinishOk(s: Service, w: nat)
    requires w in s.workers && s.workers[w].Published? && s.workers[w].job in s.jobs ==> s.jobs[s.workers[w].job].result.None?
    ensures Quiet(s, FinishOk(s, w))
  {
  }

  lemma QuietFinishError(s: Service, w: nat)
    ensures Quiet(s, FinishError(s, w))
  {
  }

  lemma NextLater(cfg: Config, s: Service, a: Action)
    requires Inv(cfg, s)
    ensures Later(s, Next(cfg, s, a))
  {
    hide Inv, Later, CreateJob, UploadInput, Submit, Cancel, Start, Infer, Fail, Publish, FinishOk, FinishError, Exit;
    match a
    case DoSubmit(id, requestHash) => SubmitLater(cfg, s, id, requestHash);
    case DoExit(w) => ExitLater(cfg, s, w);
    case DoCreate(_, _) => CallLater(cfg, s, a);
    case DoUpload(_, _, _, _) => CallLater(cfg, s, a);
    case DoCancel(_) => CallLater(cfg, s, a);
    case _ => StationLater(cfg, s, a);
  }

  lemma {:induction false} RunLater(cfg: Config, s: Service, actions: seq<Action>)
    requires Inv(cfg, s)
    ensures Later(s, Run(cfg, s, actions))
    decreases |actions|
  {
    hide Inv, Later, Next;
    if actions == [] { InvCore(cfg, s); LaterSame(cfg, s); }
    else {
      var t := Next(cfg, s, actions[0]);
      NextKeeps(cfg, s, actions[0]);
      NextLater(cfg, s, actions[0]);
      RunLater(cfg, t, actions[1..]);
      LaterTrans(s, t, Run(cfg, t, actions[1..]));
    }
  }

  lemma InvCore(cfg: Config, s: Service)
    requires Inv(cfg, s)
    ensures Core(cfg, s)
  {
  }

  /* ---------- main results ---------- */

  /** A result, once there, stays as it is for the rest of every run, and so does what the cache holds. */
  lemma ResultsNeverChange(cfg: Config, cache: map<JobId, Baked>, before: seq<Action>, after: seq<Action>)
    ensures var s := Run(cfg, Started(cache), before); var t := Run(cfg, s, after);
      && (forall id :: id in s.jobs && s.jobs[id].result.Some? ==> id in t.jobs && t.jobs[id].result == s.jobs[id].result)
      && (forall id :: id in s.cache ==> id in t.cache && t.cache[id] == s.cache[id])
  {
    var s := Run(cfg, Started(cache), before);
    Sound(cfg, cache, before);
    RunLater(cfg, s, after);
  }

  /** Once cancelled, a job is never queued or running again, and no worker that starts later is given it. */
  lemma CancelledStaysOut(cfg: Config, cache: map<JobId, Baked>, before: seq<Action>, after: seq<Action>, id: JobId)
    requires var s := Run(cfg, Started(cache), before); id in s.jobs && s.jobs[id].cancel
    ensures var s := Run(cfg, Started(cache), before); var t := Run(cfg, s, after);
      && id in t.jobs && t.jobs[id].cancel && id !in t.queue
      && !t.jobs[id].state.Queued? && !t.jobs[id].state.Running? && !t.jobs[id].state.Open?
      && (forall w :: w in t.workers && t.workers[w].job == id ==> w < s.nextWorker && w in s.workers && s.workers[w].job == id)
  {
    var s := Run(cfg, Started(cache), before);
    var t := Run(cfg, s, after);
    Sound(cfg, cache, before);
    RunLater(cfg, s, after);
    RunKeeps(cfg, s, after);
    InvCancelled(cfg, t);
  }

  lemma InvCancelled(cfg: Config, s: Service)
    requires Inv(cfg, s)
    ensures forall id :: id in s.jobs && s.jobs[id].cancel ==>
      id !in s.queue && (s.jobs[id].state.Cancelled? || s.jobs[id].state.Completed? || s.jobs[id].state.Failed?)
  {
  }

  /**
   * In every reachable state, over whatever cache the service was started, each result's buffers hash to their keys and are exactly those listed, and the result of a job
   * that asked for reuse is what the cache gives back under its hash.
   */
  lemma ResultsAreSound(cfg: Config, cache: map<JobId, Baked>, actions: seq<Action>)
    ensures var s := Run(cfg, Started(cache), actions);
      && (forall id :: id in s.jobs && s.jobs[id].result.Some? ==> Good(cfg, s.jobs[id].result.value))
      && (forall id :: id in s.cache ==> if id in cache then s.cache[id] == cache[id] else Good(cfg, s.cache[id]))
      && (forall id :: id in s.jobs && s.jobs[id].reuse && s.jobs[id].result.Some? ==>
           id in s.cache && ReadCache(cfg, s.cache[id]) == s.jobs[id].result)
  {
    hide Good, ReadCache;
    InitInv(cfg, cache);
    ResultsAgree(cfg, Started(cache), actions, cache.Keys);
    RunLater(cfg, Started(cache), actions);
  }

  /** A service started later over the same cache answers the same request at once, with the same result. */
  lemma ResultsSurviveRestart(cfg: Config, cache: map<JobId, Baked>, actions: seq<Action>, id: JobId)
    requires var s := Run(cfg, Started(cache), actions); id in s.jobs && s.jobs[id].reuse && s.jobs[id].result.Some?
    ensures var s := Run(cfg, Started(cache), actions); var (t, reply) := CreateJob(cfg, Started(s.cache), id, true);
      reply == State(Completed) && id in t.jobs && t.jobs[id].result == s.jobs[id].result
  {
    hide Good, ReadCache;
    ResultsAreSound(cfg, cache, actions);
  }
}
