/** The bake service as it runs: one lock, a job table and a queue updated in place, and worker threads between the locks. */
module BakeRuntime {
  import opened Bytes
  import opened BakeModel

  lemma {:induction false} BuffersSplit(cfg: Config, a: seq<(string, seq<Byte>)>, b: seq<(string, seq<Byte>)>, acc: map<Digest, seq<Byte>>)
    ensures Buffers(cfg, a + b, acc) == Buffers(cfg, b, Buffers(cfg, a, acc))
    decreases |a|
  {
    if a == [] { assert a + b == b; }
    else {
      assert (a + b)[1..] == a[1..] + b;
      BuffersSplit(cfg, a[1..], b, acc[cfg.sha(a[0].1) := a[0].1]);
    }
  }

  lemma {:induction false} AssembleSplit(cfg: Config, a: seq<Inferred>, b: seq<Inferred>, acc: Baked)
    ensures Assemble(cfg, a + b, acc) == Assemble(cfg, b, Assemble(cfg, a, acc))
    decreases |a|
  {
    if a == [] { assert a + b == b; }
    else {
      assert (a + b)[1..] == a[1..] + b;
      AssembleSplit(cfg, a[1..], b, acc.(samples := acc.samples + [Sample(a[0].name, Outputs(cfg, a[0].channels))],
                                         buffers := Buffers(cfg, a[0].channels, acc.buffers)));
    }
  }

  /** The outputs of one sample; the payloads go into the buffers under their digests. */
  method BakeSample(cfg: Config, channels: seq<(string, seq<Byte>)>, buffers0: map<Digest, seq<Byte>>)
    returns (outputs: seq<Output>, buffers: map<Digest, seq<Byte>>)
    ensures outputs == Outputs(cfg, channels) && buffers == Buffers(cfg, channels, buffers0)
  {
    outputs, buffers := [], buffers0;
    var k := 0;
    assert channels[..0] == [];
    while k < |channels|
      invariant 0 <= k <= |channels|
      invariant outputs == Outputs(cfg, channels[..k]) && buffers == Buffers(cfg, channels[..k], buffers0)
    {
      var payload := channels[k].1;
      var digest := cfg.sha(payload);
      assert channels[..k + 1] == channels[..k] + [channels[k]];
      BuffersSplit(cfg, channels[..k], [channels[k]], buffers0);
      assert Buffers(cfg, [channels[k]], buffers) == buffers[digest := payload] by { var one := [channels[k]]; assert one[1..] == []; }
      buffers := buffers[digest := payload];
      outputs := outputs + [Output(channels[k].0, |payload|, digest)];
      k := k + 1;
    }
    assert channels[..k] == channels;
  }

  method BakeAll(cfg: Config, response: string, inferred: seq<Inferred>) returns (baked: Baked)
    ensures baked == Bake(cfg, response, inferred)
  {
    hide Buffers, Outputs;
    var samples: seq<Sample>, buffers: map<Digest, seq<Byte>> := [], map[];
    var k := 0;
    ghost var none := Baked(response, [], map[]);
    assert inferred[..0] == [];
    while k < |inferred|
      invariant 0 <= k <= |inferred|
      invariant Baked(response, samples, buffers) == Assemble(cfg, inferred[..k], none)
    {
      assert inferred[..k + 1] == inferred[..k] + [inferred[k]];
      AssembleSplit(cfg, inferred[..k], [inferred[k]], none);
      ghost var one := [inferred[k]];
      assert one[1..] == [];
      var outputs;
      outputs, buffers := BakeSample(cfg, inferred[k].channels, buffers);
      samples := samples + [Sample(inferred[k].name, outputs)];
      k := k + 1;
    }
    assert inferred[..k] == inferred;
    return Baked(response, samples, buffers);
  }

  /** The listed outputs of the first samples, and of the sample after them the first few. */
  predicate ListedBefore(samples: seq<Sample>, i: nat, j: nat, d: Digest) {
    exists k, l :: 0 <= k < |samples| && 0 <= l < |samples[k].outputs| && (k < i || (k == i && l < j)) && samples[k].outputs[l].sha256 == d
  }

  /** Reads a directory of the cache buffer by buffer and gives up at the first that is missing or does not match. */
  method ReadStored(cfg: Config, stored: Baked) returns (read: Option<Baked>)
    ensures read == ReadCache(cfg, stored)
  {
    hide Intact, ListedBefore, ReadCache;
    NothingListed(stored.samples);
    var buffers: map<Digest, seq<Byte>> := map[];
    var i := 0;
    while i < |stored.samples|
      invariant 0 <= i <= |stored.samples|
      invariant forall k, l :: 0 <= k < i && 0 <= l < |stored.samples[k].outputs| ==> Intact(cfg, stored, stored.samples[k].outputs[l])
      invariant forall d :: d in buffers <==> ListedBefore(stored.samples, i, 0, d)
      invariant forall d :: d in buffers ==> d in stored.buffers && buffers[d] == stored.buffers[d]
    {
      var j, outputs := 0, stored.samples[i].outputs;
      while j < |outputs|
        invariant 0 <= j <= |outputs|
        invariant forall l :: 0 <= l < j ==> Intact(cfg, stored, outputs[l])
        invariant forall d :: d in buffers <==> ListedBefore(stored.samples, i, j, d)
        invariant forall d :: d in buffers ==> d in stored.buffers && buffers[d] == stored.buffers[d]
      {
        var o := outputs[j];
        NotIntact(cfg, stored, i, j);
        if o.sha256 !in stored.buffers { return None; }
        var payload := stored.buffers[o.sha256];
        if cfg.sha(payload) != o.sha256 || |payload| != o.byteSize { return None; }
        NextListed(stored.samples, i, j);
        buffers := buffers[o.sha256 := payload];
        j := j + 1;
      }
      NextSample(stored.samples, i);
      i := i + 1;
    }
    read := Some(stored.(buffers := buffers));
    AllRead(cfg, stored, buffers);
  }

  lemma NothingListed(samples: seq<Sample>)
    ensures forall d :: !ListedBefore(samples, 0, 0, d)
  {
  }

  lemma NotIntact(cfg: Config, stored: Baked, i: nat, j: nat)
    requires i < |stored.samples| && j < |stored.samples[i].outputs|
    ensures var o := stored.samples[i].outputs[j];
      && (!Intact(cfg, stored, o) ==> ReadCache(cfg, stored).None?)
      && (Intact(cfg, stored, o) <==>
          (o.sha256 in stored.buffers && cfg.sha(stored.buffers[o.sha256]) == o.sha256 && |stored.buffers[o.sha256]| == o.byteSize))
  {
  }

  lemma AllRead(cfg: Config, stored: Baked, buffers: map<Digest, seq<Byte>>)
    requires forall k, l :: 0 <= k < |stored.samples| && 0 <= l < |stored.samples[k].outputs| ==> Intact(cfg, stored, stored.samples[k].outputs[l])
    requires forall d :: d in buffers <==> ListedBefore(stored.samples, |stored.samples|, 0, d)
    requires forall d :: d in buffers ==> d in stored.buffers && buffers[d] == stored.buffers[d]
    ensures ReadCache(cfg, stored) == Some(stored.(buffers := buffers))
  {
    AllListed(stored.samples);
    hide ListedBefore, Intact;
    assert buffers == ReadCache(cfg, stored).value.buffers;
  }

  lemma NextListed(samples: seq<Sample>, i: nat, j: nat)
    requires i < |samples| && j < |samples[i].outputs|
    ensures forall d :: ListedBefore(samples, i, j + 1, d) <==> ListedBefore(samples, i, j, d) || d == samples[i].outputs[j].sha256
  {
  }

  lemma NextSample(samples: seq<Sample>, i: nat)
    requires i < |samples|
    ensures forall d :: ListedBefore(samples, i + 1, 0, d) <==> ListedBefore(samples, i, |samples[i].outputs|, d)
  {
  }

  lemma AllListed(samples: seq<Sample>)
    ensures forall d :: ListedBefore(samples, |samples|, 0, d) <==> d in Listed(samples)
  {
    forall d | d in Listed(samples) ensures ListedBefore(samples, |samples|, 0, d) {
      var i, j :| 0 <= i < |samples| && 0 <= j < |samples[i].outputs| && samples[i].outputs[j].sha256 == d;
    }
  }

  function InState(jobs: map<JobId, Job>, states: set<JobState>): set<JobId> {
    set id | id in jobs && jobs[id].state in states
  }

  class BakeService {
    const cfg: Config
    var jobs: map<JobId, Job>
    var queue: seq<JobId>
    var storedBytes: int
    var inFlight: nat
    var workers: map<nat, Worker>
    var nextWorker: nat
    var cache: map<JobId, Baked>

    function View(): Service
      reads this
    {
      Service(jobs, queue, storedBytes, inFlight, workers, nextWorker, cache)
    }

    constructor (cfg: Config, cache: map<JobId, Baked>)
      ensures this.cfg == cfg && View() == Started(cache)
    {
      this.cfg := cfg;
      jobs, queue, storedBytes, inFlight, workers, nextWorker := map[], [], 0, 0, map[], 0;
      this.cache := cache;
    }

    method CountJobs(states: set<JobState>) returns (count: nat)
      ensures count == |InState(jobs, states)|
    {
      count := 0;
      var left := jobs.Keys;
      ghost var seen: set<JobId> := {};
      while left != {}
        invariant left <= jobs.Keys && seen == jobs.Keys - left
        invariant count == |set id | id in seen && jobs[id].state in states|
        decreases |left|
      {
        var id :| id in left;
        ghost var was := set other | other in seen && jobs[other].state in states;
        assert (set other | other in seen + {id} && jobs[other].state in states) == if jobs[id].state in states then was + {id} else was;
        if jobs[id].state in states { count := count + 1; }
        left, seen := left - {id}, seen + {id};
      }
      assert (set id | id in seen && jobs[id].state in states) == InState(jobs, states);
    }

    method ActiveCount() returns (count: nat)
      ensures count == |Active(jobs)|
    {
      count := CountJobs({Open, Queued, Running});
      assert Active(jobs) == InState(jobs, {Open, Queued, Running});
    }

    method BusyCount() returns (count: nat)
      ensures count == |Busy(jobs)|
    {
      count := CountJobs({Queued, Running});
      assert Busy(jobs) == InState(jobs, {Queued, Running});
    }

    method CreateJob(id: JobId, reuse: bool) returns (reply: Reply)
      modifies this
      ensures (View(), reply) == BakeModel.CreateJob(cfg, old(View()), id, reuse)
    {
      hide Active, ReadCache;
      if id in jobs { return State(jobs[id].state); }
      var cached: Option<Baked> := None;
      if reuse && id in cache {
        cached := ReadStored(cfg, cache[id]);
        if cached.None? { return Refused(CacheCorrupt); }
      }
      var active := ActiveCount();
      if cached.None? && active >= cfg.maxQueue { return Refused(Capability); }
      jobs := jobs[id := Job(reuse, if cached.Some? then Completed else Open, map[], false, cached, None)];
      return State(jobs[id].state);
    }

    method UploadInput(id: JobId, key: string, payload: seq<Byte>, digest: Digest) returns (reply: Reply)
      modifies `jobs, `storedBytes
      ensures (View(), reply) == BakeModel.UploadInput(cfg, old(View()), id, key, payload, digest)
    {
      if |payload| > cfg.maxUpload { return Refused(Capability); }
      var actual := cfg.sha(payload);
      if actual != digest { return Refused(DigestMismatch); }
      if id !in jobs { return Refused(Unavailable); }
      var job := jobs[id];
      if job.state.Cancelled? || job.state.Failed? { return Refused(if job.state.Cancelled? then ModelCancelled else Incomplete); }
      if job.cancel {
        jobs := jobs[id := job.(state := Cancelled)];
        return Refused(ModelCancelled);
      }
      if storedBytes + |payload| > cfg.maxStorage { return Refused(Capability); }
      if key in job.inputs { storedBytes := storedBytes - |job.inputs[key].bytes|; }
      jobs := jobs[id := job.(inputs := job.inputs[key := Input(payload, actual)])];
      storedBytes := storedBytes + |payload|;
      return BakeModel.Accepted(actual, |payload|);
    }

    /** Hands waiting jobs to free workers until either runs out. */
    method Pump()
      requires forall id :: id in queue ==> id in jobs
      modifies this
      ensures View() == BakeModel.Pump(cfg, old(View()))
    {
      while inFlight < cfg.pool && queue != []
        invariant forall id :: id in queue ==> id in jobs
        invariant BakeModel.Pump(cfg, View()) == BakeModel.Pump(cfg, old(View()))
        decreases |queue|
      {
        var id := queue[0];
        assert id in queue;
        queue := queue[1..];
        if jobs[id].cancel || jobs[id].state.Cancelled? {
          jobs := jobs[id := jobs[id].(state := Cancelled)];
        } else {
          inFlight := inFlight + 1;
          workers := workers[nextWorker := Scheduled(id)];
          nextWorker := nextWorker + 1;
        }
      }
    }

    method Submit(id: JobId, requestHash: Digest) returns (reply: Reply)
      requires forall id :: id in queue ==> id in jobs
      modifies this
      ensures (View(), reply) == BakeModel.Submit(cfg, old(View()), id, requestHash)
    {
      hide Busy, BakeModel.Pump;
      if id !in jobs { return Refused(Unavailable); }
      if id != requestHash { return Refused(ResponseMismatch); }
      var job := jobs[id];
      if job.cancel || job.state.Cancelled? {
        jobs := jobs[id := job.(state := Cancelled)];
        return Refused(ModelCancelled);
      }
      if job.state.Completed? || job.state.Running? || job.state.Queued? { return State(job.state); }
      var busy := BusyCount();
      if busy >= cfg.maxQueue { return Refused(Capability); }
      jobs := jobs[id := job.(state := Queued)];
      queue := queue + [id];
      Pump();
      return State(if id in jobs then jobs[id].state else Queued);
    }

    /** Removes the first occurrence from the queue. */
    method RemoveFromQueue(id: JobId)
      modifies `queue
      ensures queue == Without(old(queue), id)
    {
      var k := 0;
      while k < |queue| && queue[k] != id
        invariant 0 <= k <= |queue| && queue == old(queue)
        invariant forall l :: 0 <= l < k ==> queue[l] != id
      {
        k := k + 1;
      }
      WithoutFirst(queue, id, k);
      if k < |queue| { queue := queue[..k] + queue[k + 1..]; }
    }

    method Cancel(id: JobId) returns (reply: Reply)
      modifies `jobs, `queue
      ensures (View(), reply) == BakeModel.Cancel(cfg, old(View()), id)
    {
      hide Without;
      if id !in jobs { return Refused(Unavailable); }
      ghost var was := jobs;
      jobs := jobs[id := jobs[id].(cancel := true)];
      if !jobs[id].state.Completed? && !jobs[id].state.Failed? {
        jobs := jobs[id := jobs[id].(state := Cancelled)];
        assert jobs == was[id := was[id].(cancel := true).(state := Cancelled)];
        RemoveFromQueue(id);
      }
      return State(Cancelled);
    }

    /** The first lock of a worker thread. */
    method Start(w: nat)
      requires w in workers && workers[w].Scheduled? && workers[w].job in jobs
      modifies `jobs, `workers
      ensures View() == BakeModel.Start(old(View()), w)
    {
      var id := workers[w].job;
      if jobs[id].cancel {
        jobs, workers := jobs[id := jobs[id].(state := Cancelled)], workers[w := Exiting(id)];
      } else {
        jobs, workers := jobs[id := jobs[id].(state := Running)], workers[w := Processing(id)];
      }
    }

    /** Between the locks: the outputs of the model are listed and hashed, then the cancel flag is looked at a last time. */
    method Infer(w: nat, response: string, inferred: seq<Inferred>)
      requires w in workers && workers[w].Processing? && workers[w].job in jobs
      modifies `workers
      ensures View() == BakeModel.Infer(cfg, old(View()), w, response, inferred)
    {
      hide Bake;
      var id := workers[w].job;
      var baked := BakeAll(cfg, response, inferred);
      workers := workers[w := if jobs[id].cancel then Raised(id, ModelCancelled) else Checked(id, baked)];
    }

    method Publish(w: nat)
      requires w in workers && workers[w].Checked? && workers[w].job in jobs
      modifies `workers, `cache
      ensures View() == BakeModel.Publish(cfg, old(View()), w)
    {
      hide ReadCache;
      var id, baked := workers[w].job, workers[w].baked;
      if jobs[id].reuse {
        if id !in cache { cache := cache[id := baked]; }
        var read := ReadStored(cfg, cache[id]);
        if read.None? {
          workers := workers[w := Raised(id, CacheCorrupt)];
          return;
        }
      }
      workers := workers[w := Published(id, baked)];
    }

    /** The second lock, after success. */
    method FinishOk(w: nat)
      requires w in workers && workers[w].Published? && workers[w].job in jobs
      modifies `jobs, `workers
      ensures View() == BakeModel.FinishOk(old(View()), w)
    {
      var id := workers[w].job;
      jobs := jobs[id := jobs[id].(result := Some(workers[w].baked))];
      jobs := jobs[id := jobs[id].(state := Completed)];
      workers := workers[w := Exiting(id)];
    }

    /** The second lock, after an error. */
    method FinishError(w: nat)
      requires w in workers && workers[w].Raised? && workers[w].job in jobs
      modifies `jobs, `workers
      ensures View() == BakeModel.FinishError(old(View()), w)
    {
      var id, code := workers[w].job, workers[w].code;
      jobs := jobs[id := jobs[id].(state := if code.ModelCancelled? then Cancelled else Failed)];
      jobs := jobs[id := jobs[id].(code := Some(code))];
      workers := workers[w := Exiting(id)];
    }

    /** The last lock: the worker is given back. */
    method Exit(w: nat)
      requires w in workers && workers[w].Exiting?
      requires forall id :: id in queue ==> id in jobs
      modifies this
      ensures View() == BakeModel.Exit(cfg, old(View()), w)
    {
      hide BakeModel.Pump;
      workers := workers - {w};
      inFlight := if inFlight == 0 then 0 else inFlight - 1;
      Pump();
    }
  }

  lemma {:induction false} WithoutFirst(queue: seq<JobId>, id: JobId, k: nat)
    requires k <= |queue| && (forall l :: 0 <= l < k ==> queue[l] != id) && (k < |queue| ==> queue[k] == id)
    ensures Without(queue, id) == if k < |queue| then queue[..k] + queue[k + 1..] else queue
  {
    if k > 0 {
      var rest := queue[1..];
      WithoutFirst(rest, id, k - 1);
      assert queue[0] != id && Without(queue, id) == [queue[0]] + Without(rest, id);
      if k < |queue| { assert queue[..k] == [queue[0]] + rest[..k - 1] && queue[k + 1..] == rest[k..]; }
    }
  }
}
