/** Where the service's promises end, and exactly where. */
module BakeLimits {
  import opened Bytes
  import opened BakeModel
  import opened BakeInvariant
  import opened BakeRuns
  import opened BakeResults

  /* ---------- reading back what was baked ---------- */

  /** No two outputs share a digest at different sizes. */
  predicate SizesAgree(samples: seq<Sample>) {
    forall i, j, k, l | 0 <= i < |samples| && 0 <= j < |samples[i].outputs| && 0 <= k < |samples| && 0 <= l < |samples[k].outputs| ::
      samples[i].outputs[j].sha256 == samples[k].outputs[l].sha256 ==> samples[i].outputs[j].byteSize == samples[k].outputs[l].byteSize
  }

  predicate ListedWith(samples: seq<Sample>, d: Digest, size: nat) {
    exists i, j :: 0 <= i < |samples| && 0 <= j < |samples[i].outputs| && samples[i].outputs[j].sha256 == d && samples[i].outputs[j].byteSize == size
  }

  /** Every buffer has a size that is listed for it. */
  predicate HasListedSizes(baked: Baked) {
    forall d :: d in baked.buffers ==> ListedWith(baked.samples, d, |baked.buffers[d]|)
  }

  predicate Carried(cfg: Config, channels: seq<(string, seq<Byte>)>, d: Digest, payload: seq<Byte>) {
    exists k :: 0 <= k < |channels| && cfg.sha(channels[k].1) == d && channels[k].1 == payload
  }

  lemma CarriedRest(cfg: Config, channels: seq<(string, seq<Byte>)>, d: Digest, payload: seq<Byte>)
    requires channels != [] && Carried(cfg, channels[1..], d, payload)
    ensures Carried(cfg, channels, d, payload)
  {
    var k :| 0 <= k < |channels[1..]| && cfg.sha(channels[1..][k].1) == d && channels[1..][k].1 == payload;
    assert channels[k + 1] == channels[1..][k];
  }

  lemma {:induction false} BuffersCarry(cfg: Config, channels: seq<(string, seq<Byte>)>, acc: map<Digest, seq<Byte>>, d: Digest)
    requires d in Buffers(cfg, channels, acc)
    ensures Carried(cfg, channels, d, Buffers(cfg, channels, acc)[d]) || (d in acc && acc[d] == Buffers(cfg, channels, acc)[d])
    decreases |channels|
  {
    if channels != [] {
      var next := acc[cfg.sha(channels[0].1) := channels[0].1];
      var r := Buffers(cfg, channels[1..], next);
      assert Buffers(cfg, channels, acc) == r;
      BuffersCarry(cfg, channels[1..], next, d);
      if Carried(cfg, channels[1..], d, r[d]) { CarriedRest(cfg, channels, d, r[d]); }
      else if d == cfg.sha(channels[0].1) { assert Carried(cfg, channels, d, r[d]); }
    }
  }

  lemma ListedMoreWith(samples: seq<Sample>, sample: Sample, d: Digest, size: nat)
    requires ListedWith(samples, d, size) || exists k :: 0 <= k < |sample.outputs| && sample.outputs[k].sha256 == d && sample.outputs[k].byteSize == size
    ensures ListedWith(samples + [sample], d, size)
  {
    var all := samples + [sample];
    if ListedWith(samples, d, size) {
      var i, j :| 0 <= i < |samples| && 0 <= j < |samples[i].outputs| && samples[i].outputs[j].sha256 == d && samples[i].outputs[j].byteSize == size;
      assert all[i].outputs[j].sha256 == d && all[i].outputs[j].byteSize == size;
    } else {
      var k :| 0 <= k < |sample.outputs| && sample.outputs[k].sha256 == d && sample.outputs[k].byteSize == size;
      assert all[|samples|].outputs[k].sha256 == d && all[|samples|].outputs[k].byteSize == size;
    }
  }

  lemma {:induction false} AssembleListsSizes(cfg: Config, inferred: seq<Inferred>, acc: Baked)
    requires HasListedSizes(acc)
    ensures HasListedSizes(Assemble(cfg, inferred, acc))
    decreases |inferred|
  {
    if inferred != [] {
      var channels, sample := inferred[0].channels, Sample(inferred[0].name, Outputs(cfg, inferred[0].channels));
      var buffers := Buffers(cfg, channels, acc.buffers);
      forall d | d in buffers ensures ListedWith(acc.samples + [sample], d, |buffers[d]|) {
        BuffersCarry(cfg, channels, acc.buffers, d);
        if Carried(cfg, channels, d, buffers[d]) {
          var k :| 0 <= k < |channels| && cfg.sha(channels[k].1) == d && channels[k].1 == buffers[d];
          assert sample.outputs[k] == OutputOf(cfg, channels[k]);
        } else { assert ListedWith(acc.samples, d, |acc.buffers[d]|); }
        ListedMoreWith(acc.samples, sample, d, |buffers[d]|);
      }
      AssembleListsSizes(cfg, inferred[1..], acc.(samples := acc.samples + [sample], buffers := buffers));
    }
  }

  /** What was published is read back whole, exactly when no two outputs share a digest at different sizes. */
  lemma ReadsBackIffSizesAgree(cfg: Config, response: string, inferred: seq<Inferred>)
    ensures var baked := Bake(cfg, response, inferred); ReadCache(cfg, baked) == Some(baked) <==> SizesAgree(baked.samples)
    ensures var baked := Bake(cfg, response, inferred); ReadCache(cfg, baked) in {Some(baked), None}
  {
    hide Assemble;
    var baked := Bake(cfg, response, inferred);
    BakeGood(cfg, response, inferred);
    AssembleListsSizes(cfg, inferred, Baked(response, [], map[]));
    ReadsBack(cfg, baked);
    ReadableIff(cfg, baked);
  }

  lemma ReadableIff(cfg: Config, baked: Baked)
    requires Good(cfg, baked) && HasListedSizes(baked)
    ensures Readable(cfg, baked) <==> SizesAgree(baked.samples)
  {
    var samples := baked.samples;
    if SizesAgree(samples) {
      forall i, j | 0 <= i < |samples| && 0 <= j < |samples[i].outputs| ensures Intact(cfg, baked, samples[i].outputs[j]) {
        var d := samples[i].outputs[j].sha256;
        assert d in Listed(samples);
        assert ListedWith(samples, d, |baked.buffers[d]|);
      }
    }
    if Readable(cfg, baked) {
      forall i, j, k, l | 0 <= i < |samples| && 0 <= j < |samples[i].outputs| && 0 <= k < |samples| && 0 <= l < |samples[k].outputs|
        && samples[i].outputs[j].sha256 == samples[k].outputs[l].sha256
        ensures samples[i].outputs[j].byteSize == samples[k].outputs[l].byteSize
      {
        assert Intact(cfg, baked, samples[i].outputs[j]) && Intact(cfg, baked, samples[k].outputs[l]);
      }
    }
  }

  /* ---------- the bound on active jobs ---------- */

  predicate ActiveJob(job: Job) { job.state.Open? || BusyJob(job) }

  lemma ActiveAfter(jobs: map<JobId, Job>, id: JobId, job: Job)
    ensures |Active(jobs[id := job])| == |Active(jobs)| + (if ActiveJob(job) then 1 else 0) - (if id in jobs && ActiveJob(jobs[id]) then 1 else 0)
  {
    var rest := Active(jobs) - {id};
    assert Active(jobs[id := job]) == if ActiveJob(job) then rest + {id} else rest;
    assert Active(jobs) == if id in jobs && ActiveJob(jobs[id]) then rest + {id} else rest;
  }

  /** The call resubmits a failed job while another job has taken its place. */
  predicate Resubmits(cfg: Config, s: Service, a: Action) {
    && a.DoSubmit? && a.id in s.jobs && a.requestHash == a.id && s.jobs[a.id].state.Failed? && !s.jobs[a.id].cancel
    && |Active(s.jobs)| == cfg.maxQueue && |Busy(s.jobs)| < cfg.maxQueue
  }

  /** Open, queued and running jobs together outgrow the queue bound in exactly one way. */
  lemma ActiveOutgrowsIff(cfg: Config, s: Service, a: Action)
    requires Inv(cfg, s) && |Active(s.jobs)| <= cfg.maxQueue
    ensures |Active(Next(cfg, s, a).jobs)| > cfg.maxQueue <==> Resubmits(cfg, s, a)
  {
    hide Core, Pump, Active, Busy, Without, ReadCache, Bake;
    match a
    case DoCreate(id, reuse) =>
      if Next(cfg, s, a) != s { ActiveAfter(s.jobs, id, Next(cfg, s, a).jobs[id]); }
    case DoUpload(id, _, _, _) =>
      if id in s.jobs { ActiveAfter(s.jobs, id, Next(cfg, s, a).jobs[id]); JobIsOk(cfg, s, id); SameJob(s, id); }
    case DoCancel(id) =>
      if id in s.jobs { ActiveAfter(s.jobs, id, Next(cfg, s, a).jobs[id]); }
    case DoSubmit(id, requestHash) =>
      SubmitActive(cfg, s, id, requestHash);
    case DoExit(w) =>
      if w in s.workers && s.workers[w].Exiting? {
        var t := s.(workers := s.workers - {w}, inFlight := OneLess(s.inFlight));
        ExitCore(cfg, s, t, w);
        PumpKeeps(cfg, t);
      }
    case _ =>
      StationActive(cfg, s, a);
  }

  lemma StationActive(cfg: Config, s: Service, a: Action)
    requires Core(cfg, s) && |Active(s.jobs)| <= cfg.maxQueue
    requires a.DoStart? || a.DoInfer? || a.DoFail? || a.DoPublish? || a.DoFinishOk? || a.DoFinishError?
    ensures |Active(Next(cfg, s, a).jobs)| <= cfg.maxQueue
  {
    hide Core, Active, ReadCache, Bake;
    if a.w in s.workers && Next(cfg, s, a).jobs != s.jobs {
      WorkerFacts(cfg, s, a.w);
      var id := s.workers[a.w].job;
      ActiveAfter(s.jobs, id, Next(cfg, s, a).jobs[id]);
    }
  }

  lemma SubmitActive(cfg: Config, s: Service, id: JobId, requestHash: Digest)
    requires Inv(cfg, s) && |Active(s.jobs)| <= cfg.maxQueue
    ensures |Active(Submit(cfg, s, id, requestHash).0.jobs)| > cfg.maxQueue <==> Resubmits(cfg, s, DoSubmit(id, requestHash))
  {
    hide Core, Pump, Active, Busy;
    if id in s.jobs {
      JobIsOk(cfg, s, id);
      SameJob(s, id);
      if !s.jobs[id].cancel && (s.jobs[id].state.Open? || s.jobs[id].state.Failed?) && |Busy(s.jobs)| < cfg.maxQueue {
        var t := s.(jobs := s.jobs[id := s.jobs[id].(state := Queued)], queue := s.queue + [id]);
        SubmitCore(cfg, s, t, id);
        PumpKeeps(cfg, t);
        ActiveAfter(s.jobs, id, t.jobs[id]);
      } else {
        ActiveAfter(s.jobs, id, s.jobs[id].(state := Cancelled));
      }
    }
  }

  /* ---------- cancelled jobs that complete all the same ---------- */

  /** The worker has looked at the cancel flag for the last time and nothing in its way will fail. */
  predicate PastRecall(cfg: Config, s: Service, w: nat, id: JobId) {
    && w in s.workers && s.workers[w].job == id && id in s.jobs
    && (s.workers[w].Published? || (s.workers[w].Checked? &&
          (!s.jobs[id].reuse || ReadCache(cfg, if id in s.cache then s.cache[id] else s.workers[w].baked).Some?)))
  }

  ghost predicate Recalled(cfg: Config, s: Service, id: JobId) {
    id in s.jobs && s.jobs[id].cancel && s.jobs[id].result.None? && forall w :: w in s.workers ==> !PastRecall(cfg, s, w, id)
  }

  lemma QuietKeepsRecalled(cfg: Config, s: Service, t: Service, id: JobId)
    requires Recalled(cfg, s, id) && SameResults(s, t) && id in t.jobs && t.jobs[id].cancel
    ensures Recalled(cfg, t, id)
  {
    hide ReadCache;
    assert forall w :: PastRecall(cfg, t, w, id) ==> PastRecall(cfg, s, w, id);
  }

  lemma PublishKeepsRecalled(cfg: Config, s: Service, w: nat, id: JobId)
    requires WorkersInv(s) && Recalled(cfg, s, id)
    ensures Recalled(cfg, Publish(cfg, s, w), id)
  {
    hide ReadCache;
    var t := Publish(cfg, s, w);
    if t != s {
      if s.workers[w].job == id { assert !PastRecall(cfg, s, w, id); }
      forall v | v in t.workers ensures !PastRecall(cfg, t, v, id) {
        if v != w { assert !PastRecall(cfg, s, v, id); }
      }
    }
  }

  lemma OtherKeepsRecalled(cfg: Config, s: Service, a: Action, id: JobId)
    requires Recalled(cfg, s, id) && (a.DoCreate? || a.DoInfer? || a.DoFinishOk?)
    ensures Recalled(cfg, Next(cfg, s, a), id)
  {
    hide ReadCache, Bake, Active;
    var t := Next(cfg, s, a);
    forall v | v in t.workers ensures !PastRecall(cfg, t, v, id) { assert !(v in s.workers && PastRecall(cfg, s, v, id)); }
  }

  lemma NextKeepsRecalled(cfg: Config, s: Service, a: Action, id: JobId)
    requires Inv(cfg, s) && Recalled(cfg, s, id)
    ensures Recalled(cfg, Next(cfg, s, a), id)
  {
    hide CreateJob, UploadInput, Submit, Cancel, Start, Infer, Fail, Publish, FinishOk, FinishError, Exit, PastRecall;
    if a.DoPublish? { PublishKeepsRecalled(cfg, s, a.w, id); }
    else if a.DoCreate? || a.DoInfer? || a.DoFinishOk? { OtherKeepsRecalled(cfg, s, a, id); }
    else {
      CallSameResults(cfg, s, a);
      NextLater(cfg, s, a);
      QuietKeepsRecalled(cfg, s, Next(cfg, s, a), id);
    }
  }

  lemma {:induction false} RunKeepsRecalled(cfg: Config, s: Service, actions: seq<Action>, id: JobId)
    requires Inv(cfg, s) && Recalled(cfg, s, id)
    ensures Recalled(cfg, Run(cfg, s, actions), id)
    decreases |actions|
  {
    hide Inv, Recalled, Next;
    if actions != [] {
      NextKeepsRecalled(cfg, s, actions[0], id);
      NextKeeps(cfg, s, actions[0]);
      RunKeepsRecalled(cfg, Next(cfg, s, actions[0]), actions[1..], id);
    }
  }

  lemma PastRecallCompletes(cfg: Config, s: Service, w: nat, id: JobId)
    requires AllGood(cfg, s, s.cache.Keys) && PastRecall(cfg, s, w, id)
    ensures var t := Run(cfg, s, [DoPublish(w), DoFinishOk(w)]); id in t.jobs && t.jobs[id].state.Completed? && t.jobs[id].result.Some?
  {
    hide ReadCache;
    var actions, t := [DoPublish(w), DoFinishOk(w)], Publish(cfg, s, w);
    assert actions[1..] == [DoFinishOk(w)];
    assert Run(cfg, s, actions) == Run(cfg, t, [DoFinishOk(w)]);
    assert [DoFinishOk(w)][1..] == [];
    assert Run(cfg, t, [DoFinishOk(w)]) == FinishOk(t, w);
  }

  /** A cancelled job can still get a result exactly if a worker is past its last look at the cancel flag. */
  lemma CancelledCompletesIff(cfg: Config, s: Service, id: JobId)
    requires Inv(cfg, s) && AllGood(cfg, s, s.cache.Keys) && id in s.jobs && s.jobs[id].cancel && s.jobs[id].result.None?
    ensures (exists actions :: id in Run(cfg, s, actions).jobs && Run(cfg, s, actions).jobs[id].result.Some?)
      <==> exists w :: w in s.workers && PastRecall(cfg, s, w, id)
  {
    hide Inv, AllGood, PastRecall, Run;
    if w :| w in s.workers && PastRecall(cfg, s, w, id) {
      PastRecallCompletes(cfg, s, w, id);
      assert Run(cfg, s, [DoPublish(w), DoFinishOk(w)]).jobs[id].result.Some?;
    } else {
      forall actions ensures !(id in Run(cfg, s, actions).jobs && Run(cfg, s, actions).jobs[id].result.Some?) {
        RunKeepsRecalled(cfg, s, actions, id);
      }
    }
  }

  /* ---------- runs that show both limits ---------- */

  lemma RunFirst(cfg: Config, s: Service, a: Action, rest: seq<Action>)
    ensures Run(cfg, s, [a] + rest) == Run(cfg, Next(cfg, s, a), rest)
  {
    assert ([a] + rest)[1..] == rest;
  }

  function JobIn(state: JobState): Job { Job(false, state, map[], false, None, None) }

  lemma FirstCreated(cfg: Config)
    requires cfg.pool >= 1 && cfg.maxQueue == 1
    ensures Next(cfg, Started(map[]), DoCreate("a", false)) == Started(map[]).(jobs := map["a" := JobIn(Open)])
  {
    assert Active(map[]) == {};
  }

  lemma FirstSubmitted(cfg: Config, s1: Service, s2: Service)
    requires cfg.pool >= 1 && cfg.maxQueue == 1 && s1 == Started(map[]).(jobs := map["a" := JobIn(Open)])
    requires s2 == Service(map["a" := JobIn(Queued)], [], 0, 1, map[0 := Scheduled("a")], 1, map[])
    ensures Next(cfg, s1, DoSubmit("a", "a")) == s2
  {
    assert Busy(s1.jobs) == {};
    var q := s1.(jobs := map["a" := JobIn(Queued)], queue := ["a"]);
    assert s1.jobs["a" := JobIn(Queued)] == q.jobs && [] + ["a"] == q.queue;
    assert q.queue[1..] == [] && map[][0 := Scheduled("a")] == s2.workers;
    assert Pump(cfg, q) == Pump(cfg, s2) == s2;
  }

  /** The job "a" is created, handed to the first worker and taken up. */
  lemma FirstRuns(cfg: Config)
    requires cfg.pool >= 1 && cfg.maxQueue == 1
    ensures Run(cfg, Started(map[]), [DoCreate("a", false), DoSubmit("a", "a"), DoStart(0)])
      == Service(map["a" := JobIn(Running)], [], 0, 1, map[0 := Processing("a")], 1, map[])
  {
    var s0 := Started(map[]);
    var s1 := s0.(jobs := map["a" := JobIn(Open)]);
    var s2 := Service(map["a" := JobIn(Queued)], [], 0, 1, map[0 := Scheduled("a")], 1, map[]);
    FirstCreated(cfg);
    FirstSubmitted(cfg, s1, s2);
    hide CreateJob, Active, Submit;
    RunFirst(cfg, s0, DoCreate("a", false), [DoSubmit("a", "a"), DoStart(0)]);
    RunFirst(cfg, s1, DoSubmit("a", "a"), [DoStart(0)]);
    RunFirst(cfg, s2, DoStart(0), []);
    assert [DoCreate("a", false), DoSubmit("a", "a"), DoStart(0)] == [DoCreate("a", false)] + [DoSubmit("a", "a"), DoStart(0)];
    assert [DoSubmit("a", "a"), DoStart(0)] == [DoSubmit("a", "a")] + [DoStart(0)];
    assert [DoStart(0)] == [DoStart(0)] + [];
  }

  /** With room for one job, a failed job that is resubmitted after a second was created makes two active jobs. */
  lemma ActiveOutgrows(cfg: Config)
    requires cfg.pool >= 1 && cfg.maxQueue == 1
    ensures exists actions :: |Active(Run(cfg, Started(map[]), actions).jobs)| > cfg.maxQueue
  {
    hide CreateJob, Active, Busy, Pump;
    var start := [DoCreate("a", false), DoSubmit("a", "a"), DoStart(0)];
    var rest := [DoFail(0, Unavailable), DoFinishError(0), DoCreate("b", false), DoSubmit("a", "a")];
    FirstRuns(cfg);
    RunSplit(cfg, Started(map[]), start, rest);
    SecondTakesItsPlace(cfg, rest);
  }

  lemma {:induction false} RunSplit(cfg: Config, s: Service, before: seq<Action>, after: seq<Action>)
    ensures Run(cfg, s, before + after) == Run(cfg, Run(cfg, s, before), after)
    decreases |before|
  {
    hide Next;
    if before == [] { assert before + after == after; }
    else {
      assert (before + after)[1..] == before[1..] + after;
      RunSplit(cfg, Next(cfg, s, before[0]), before[1..], after);
    }
  }

  lemma FourSteps(cfg: Config, s: Service, rest: seq<Action>)
    requires |rest| == 4
    ensures Run(cfg, s, rest) == Next(cfg, Next(cfg, Next(cfg, Next(cfg, s, rest[0]), rest[1]), rest[2]), rest[3])
  {
    hide Next;
    var s1 := Next(cfg, s, rest[0]);
    var s2 := Next(cfg, s1, rest[1]);
    var s3 := Next(cfg, s2, rest[2]);
    assert rest[1..][1..] == rest[2..] && rest[2..][1..] == rest[3..] && rest[3..][1..] == [];
    var s4 := Next(cfg, s3, rest[3]);
    assert Run(cfg, s, rest) == Run(cfg, s1, rest[1..]) == Run(cfg, s2, rest[2..]) == Run(cfg, s3, rest[3..]);
    assert Run(cfg, s3, rest[3..]) == Run(cfg, s4, rest[3..][1..]) == s4;
  }

  lemma SecondTakesItsPlace(cfg: Config, rest: seq<Action>)
    requires cfg.pool >= 1 && cfg.maxQueue == 1
    requires rest == [DoFail(0, Unavailable), DoFinishError(0), DoCreate("b", false), DoSubmit("a", "a")]
    ensures |Active(Run(cfg, Service(map["a" := JobIn(Running)], [], 0, 1, map[0 := Processing("a")], 1, map[]), rest).jobs)| == 2
  {
    hide Pump;
    var failed := JobIn(Failed).(code := Some(Unavailable));
    var s0 := Service(map["a" := JobIn(Running)], [], 0, 1, map[0 := Processing("a")], 1, map[]);
    var s1 := s0.(workers := map[0 := Raised("a", Unavailable)]);
    var s2 := s1.(jobs := map["a" := failed], workers := map[0 := Exiting("a")]);
    var s3 := s2.(jobs := map["a" := failed, "b" := JobIn(Open)]);
    assert Next(cfg, s0, rest[0]) == s1;
    assert Next(cfg, s1, rest[1]) == s2;
    assert Active(s2.jobs) == {};
    assert Next(cfg, s2, rest[2]) == s3;
    assert Busy(s3.jobs) == {};
    FourSteps(cfg, s0, rest);
    var q := s3.(jobs := s3.jobs["a" := failed.(state := Queued)], queue := s3.queue + ["a"]);
    assert Next(cfg, s3, rest[3]) == Pump(cfg, q);
    PumpKeepsJobs(cfg, q);
    assert Active(q.jobs) == {"a", "b"};
  }

  lemma {:induction false} PumpKeepsJobs(cfg: Config, s: Service)
    requires forall id :: id in s.queue ==> id in s.jobs && !s.jobs[id].cancel && !s.jobs[id].state.Cancelled?
    ensures Pump(cfg, s).jobs == s.jobs
    decreases |s.queue|
  {
    if s.inFlight < cfg.pool && s.queue != [] {
      assert s.queue[0] in s.queue;
      PumpKeepsJobs(cfg, HandedOver(s));
    }
  }

  /** A job that is cancelled after the model's answer was checked completes with its result. */
  lemma CancelledCompletes(cfg: Config, response: string, inferred: seq<Inferred>)
    requires cfg.pool >= 1 && cfg.maxQueue == 1
    ensures var s := Run(cfg, Started(map[]), [DoCreate("a", false), DoSubmit("a", "a"), DoStart(0)] +
        [DoInfer(0, response, inferred), DoCancel("a"), DoPublish(0), DoFinishOk(0)]);
      "a" in s.jobs && s.jobs["a"].cancel && s.jobs["a"].state.Completed? && s.jobs["a"].result == Some(Bake(cfg, response, inferred))
  {
    hide Pump, Busy, Active, Bake, ReadCache, CreateJob, UploadInput, Submit, Exit, Start, Fail, FinishError;
    var rest := [DoInfer(0, response, inferred), DoCancel("a"), DoPublish(0), DoFinishOk(0)];
    FirstRuns(cfg);
    RunSplit(cfg, Started(map[]), [DoCreate("a", false), DoSubmit("a", "a"), DoStart(0)], rest);
    var s0 := Service(map["a" := JobIn(Running)], [], 0, 1, map[0 := Processing("a")], 1, map[]);
    var baked := Bake(cfg, response, inferred);
    var s1 := s0.(workers := map[0 := Checked("a", baked)]);
    var s2 := s1.(jobs := map["a" := JobIn(Cancelled).(cancel := true)]);
    var s3 := s2.(workers := map[0 := Published("a", baked)]);
    assert Next(cfg, s0, rest[0]) == s1;
    assert Next(cfg, s1, rest[1]) == s2;
    assert Next(cfg, s2, rest[2]) == s3;
    hide Infer, Cancel, Publish;
    FourSteps(cfg, s0, rest);
  }
}
