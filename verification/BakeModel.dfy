/** The bake job service as atomic steps: client calls under the lock, and the stations of a worker thread between them. */
module BakeModel {
  import opened Bytes

  type Digest = string
  type JobId = Digest

  datatype JobState = Open | Queued | Running | Completed | Failed | Cancelled

  datatype Code = Capability | DigestMismatch | ResponseMismatch | Unavailable | Incomplete | ModelCancelled | TimedOut | CacheCorrupt

  datatype Input = Input(bytes: seq<Byte>, sha256: Digest)

  datatype Output = Output(channel: string, byteSize: nat, sha256: Digest)
  datatype Sample = Sample(name: string, outputs: seq<Output>)

  /** A response, its output set, and the buffers it names by digest. */
  datatype Baked = Baked(response: string, samples: seq<Sample>, buffers: map<Digest, seq<Byte>>)

  datatype Job = Job(reuse: bool, state: JobState, inputs: map<string, Input>, cancel: bool, result: Option<Baked>, code: Option<Code>)

  /** Where a worker thread stands, and for which job. */
  datatype Worker =
    | Scheduled(job: JobId)
    | Processing(job: JobId)
    | Checked(job: JobId, baked: Baked)
    | Published(job: JobId, baked: Baked)
    | Raised(job: JobId, code: Code)
    | Exiting(job: JobId)

  datatype Config = Config(sha: seq<Byte> -> Digest, pool: nat, maxQueue: nat, maxUpload: nat, maxStorage: nat)

  datatype Service = Service(
    jobs: map<JobId, Job>,
    queue: seq<JobId>,
    storedBytes: int,
    inFlight: nat,
    workers: map<nat, Worker>,
    nextWorker: nat,
    cache: map<JobId, Baked>)

  /** A new service over the cache that earlier ones left on disk. */
  function Started(cache: map<JobId, Baked>): Service {
    Service(map[], [], 0, 0, map[], 0, cache)
  }

  datatype Reply = State(state: JobState) | Accepted(sha256: Digest, byteSize: nat) | Refused(code: Code)

  /* ---------- counting ---------- */

  function Busy(jobs: map<JobId, Job>): set<JobId> {
    set id | id in jobs && (jobs[id].state.Queued? || jobs[id].state.Running?)
  }

  function Active(jobs: map<JobId, Job>): set<JobId> {
    set id | id in jobs && (jobs[id].state.Open? || jobs[id].state.Queued? || jobs[id].state.Running?)
  }

  /* ---------- the cache ---------- */

  function Listed(samples: seq<Sample>): set<Digest> {
    set i, j | 0 <= i < |samples| && 0 <= j < |samples[i].outputs| :: samples[i].outputs[j].sha256
  }

  /** The output is held under its digest, hashes to it and has the size it is listed with. */
  predicate Intact(cfg: Config, baked: Baked, o: Output) {
    && o.sha256 in baked.buffers
    && cfg.sha(baked.buffers[o.sha256]) == o.sha256
    && |baked.buffers[o.sha256]| == o.byteSize
  }

  predicate Readable(cfg: Config, baked: Baked) {
    forall i, j :: 0 <= i < |baked.samples| && 0 <= j < |baked.samples[i].outputs| ==> Intact(cfg, baked, baked.samples[i].outputs[j])
  }

  /** Reads a directory of the cache back: only the listed buffers, and only if all of them are intact. */
  function ReadCache(cfg: Config, stored: Baked): Option<Baked> {
    if Readable(cfg, stored) then
      Some(stored.(buffers := map d | d in stored.buffers && d in Listed(stored.samples) :: stored.buffers[d]))
    else None
  }

  /* ---------- client calls ---------- */

  function NewJob(reuse: bool, cached: Option<Baked>): Job {
    Job(reuse, if cached.Some? then Completed else Open, map[], false, cached, None)
  }

  function CreateJob(cfg: Config, s: Service, id: JobId, reuse: bool): (Service, Reply) {
    if id in s.jobs then (s, State(s.jobs[id].state))
    else if reuse && id in s.cache && ReadCache(cfg, s.cache[id]).None? then (s, Refused(CacheCorrupt))
    else
      var cached := if reuse && id in s.cache then ReadCache(cfg, s.cache[id]) else None;
      if cached.None? && |Active(s.jobs)| >= cfg.maxQueue then (s, Refused(Capability))
      else
        var job := NewJob(reuse, cached);
        (s.(jobs := s.jobs[id := job]), State(job.state))
  }

  function UploadInput(cfg: Config, s: Service, id: JobId, key: string, payload: seq<Byte>, digest: Digest): (Service, Reply) {
    if |payload| > cfg.maxUpload then (s, Refused(Capability))
    else if cfg.sha(payload) != digest then (s, Refused(DigestMismatch))
    else if id !in s.jobs then (s, Refused(Unavailable))
    else
      var job := s.jobs[id];
      if job.state.Cancelled? then (s, Refused(ModelCancelled))
      else if job.state.Failed? then (s, Refused(Incomplete))
      else if job.cancel then (s.(jobs := s.jobs[id := job.(state := Cancelled)]), Refused(ModelCancelled))
      else if s.storedBytes + |payload| > cfg.maxStorage then (s, Refused(Capability))
      else
        var freed := if key in job.inputs then |job.inputs[key].bytes| else 0;
        (s.(jobs := s.jobs[id := job.(inputs := job.inputs[key := Input(payload, digest)])],
            storedBytes := s.storedBytes - freed + |payload|),
         Accepted(digest, |payload|))
  }

  function Submit(cfg: Config, s: Service, id: JobId, requestHash: Digest): (Service, Reply) {
    if id !in s.jobs then (s, Refused(Unavailable))
    else if id != requestHash then (s, Refused(ResponseMismatch))
    else
      var job := s.jobs[id];
      if job.cancel || job.state.Cancelled? then
        (s.(jobs := s.jobs[id := job.(state := Cancelled)]), Refused(ModelCancelled))
      else if job.state.Completed? || job.state.Running? || job.state.Queued? then (s, State(job.state))
      else if |Busy(s.jobs)| >= cfg.maxQueue then (s, Refused(Capability))
      else
        var p := Pump(cfg, s.(jobs := s.jobs[id := job.(state := Queued)], queue := s.queue + [id]));
        (p, State(if id in p.jobs then p.jobs[id].state else Queued))
  }

  function Without(queue: seq<JobId>, id: JobId): seq<JobId> {
    if queue == [] then [] else if queue[0] == id then queue[1..] else [queue[0]] + Without(queue[1..], id)
  }

  function Cancel(cfg: Config, s: Service, id: JobId): (Service, Reply) {
    if id !in s.jobs then (s, Refused(Unavailable))
    else
      var job := s.jobs[id].(cancel := true);
      if job.state.Completed? || job.state.Failed? then (s.(jobs := s.jobs[id := job]), State(Cancelled))
      else (s.(jobs := s.jobs[id := job.(state := Cancelled)], queue := Without(s.queue, id)), State(Cancelled))
  }

  /** Hands queued jobs to free workers. */
  function Pump(cfg: Config, s: Service): Service
    decreases |s.queue|
  {
    if s.inFlight >= cfg.pool || s.queue == [] then s
    else
      var id, rest := s.queue[0], s.(queue := s.queue[1..]);
      if id !in s.jobs then Pump(cfg, rest)
      else if s.jobs[id].cancel || s.jobs[id].state.Cancelled? then
        Pump(cfg, rest.(jobs := s.jobs[id := s.jobs[id].(state := Cancelled)]))
      else
        Pump(cfg, rest.(inFlight := s.inFlight + 1, workers := s.workers[s.nextWorker := Scheduled(id)], nextWorker := s.nextWorker + 1))
  }

  /* ---------- worker threads ---------- */

  /** What the model returned for one sample: channels and their payloads. */
  datatype Inferred = Inferred(name: string, channels: seq<(string, seq<Byte>)>)

  function OutputOf(cfg: Config, channel: (string, seq<Byte>)): Output {
    Output(channel.0, |channel.1|, cfg.sha(channel.1))
  }

  function Outputs(cfg: Config, channels: seq<(string, seq<Byte>)>): (r: seq<Output>)
    ensures |r| == |channels|
  {
    seq(|channels|, i requires 0 <= i < |channels| => OutputOf(cfg, channels[i]))
  }

  /** The buffers by digest; of two payloads with one digest the later stays. */
  function Buffers(cfg: Config, channels: seq<(string, seq<Byte>)>, acc: map<Digest, seq<Byte>>): map<Digest, seq<Byte>> {
    if channels == [] then acc else Buffers(cfg, channels[1..], acc[cfg.sha(channels[0].1) := channels[0].1])
  }

  function Assemble(cfg: Config, inferred: seq<Inferred>, acc: Baked): Baked {
    if inferred == [] then acc
    else Assemble(cfg, inferred[1..],
      acc.(samples := acc.samples + [Sample(inferred[0].name, Outputs(cfg, inferred[0].channels))],
           buffers := Buffers(cfg, inferred[0].channels, acc.buffers)))
  }

  function Bake(cfg: Config, response: string, inferred: seq<Inferred>): Baked {
    Assemble(cfg, inferred, Baked(response, [], map[]))
  }

  function SetWorker(s: Service, w: nat, worker: Worker): Service {
    s.(workers := s.workers[w := worker])
  }

  /** The worker takes the job up, unless it was cancelled since it was handed over. */
  function Start(s: Service, w: nat): Service {
    if w in s.workers && s.workers[w].Scheduled? && s.workers[w].job in s.jobs then
      var id := s.workers[w].job;
      var job := s.jobs[id];
      if job.cancel then SetWorker(s.(jobs := s.jobs[id := job.(state := Cancelled)]), w, Exiting(id))
      else SetWorker(s.(jobs := s.jobs[id := job.(state := Running)]), w, Processing(id))
    else s
  }

  /** The model has answered and the last look at the cancel flag is past. */
  function Infer(cfg: Config, s: Service, w: nat, response: string, inferred: seq<Inferred>): Service {
    if w in s.workers && s.workers[w].Processing? && s.workers[w].job in s.jobs then
      var id := s.workers[w].job;
      SetWorker(s, w, if s.jobs[id].cancel then Raised(id, ModelCancelled) else Checked(id, Bake(cfg, response, inferred)))
    else s
  }

  /**
   * Validation, inference or the writing of the cache failed. Cancellation is reported only when it was requested, and
   * past the last look at the cancel flag only the cache can fail.
   */
  function Fail(s: Service, w: nat, code: Code): Service {
    if w in s.workers && s.workers[w].job in s.jobs
       && (s.workers[w].Processing? || (s.workers[w].Checked? && code.CacheCorrupt?))
       && (code.ModelCancelled? ==> s.jobs[s.workers[w].job].cancel)
    then SetWorker(s, w, Raised(s.workers[w].job, code))
    else s
  }

  /** Publishes to the cache if the request asks for it. The first publication under a hash stays. */
  function Publish(cfg: Config, s: Service, w: nat): Service {
    if w in s.workers && s.workers[w].Checked? && s.workers[w].job in s.jobs then
      var id, baked := s.workers[w].job, s.workers[w].baked;
      if !s.jobs[id].reuse then SetWorker(s, w, Published(id, baked))
      else
        var t := if id in s.cache then s else s.(cache := s.cache[id := baked]);
        SetWorker(t, w, if ReadCache(cfg, t.cache[id]).Some? then Published(id, baked) else Raised(id, CacheCorrupt))
    else s
  }

  function FinishOk(s: Service, w: nat): Service {
    if w in s.workers && s.workers[w].Published? && s.workers[w].job in s.jobs then
      var id := s.workers[w].job;
      SetWorker(s.(jobs := s.jobs[id := s.jobs[id].(result := Some(s.workers[w].baked), state := Completed)]), w, Exiting(id))
    else s
  }

  function FinishError(s: Service, w: nat): Service {
    if w in s.workers && s.workers[w].Raised? && s.workers[w].job in s.jobs then
      var id, code := s.workers[w].job, s.workers[w].code;
      SetWorker(s.(jobs := s.jobs[id := s.jobs[id].(state := if code.ModelCancelled? then Cancelled else Failed, code := Some(code))]), w, Exiting(id))
    else s
  }

  function OneLess(n: nat): nat { if n == 0 then 0 else n - 1 }

  function Exit(cfg: Config, s: Service, w: nat): Service {
    if w in s.workers && s.workers[w].Exiting? then
      Pump(cfg, s.(workers := s.workers - {w}, inFlight := OneLess(s.inFlight)))
    else s
  }

  /* ---------- runs ---------- */

  datatype Action =
    | DoCreate(id: JobId, reuse: bool)
    | DoUpload(id: JobId, key: string, payload: seq<Byte>, digest: Digest)
    | DoSubmit(id: JobId, requestHash: Digest)
    | DoCancel(id: JobId)
    | DoStart(w: nat)
    | DoInfer(w: nat, response: string, inferred: seq<Inferred>)
    | DoFail(w: nat, code: Code)
    | DoPublish(w: nat)
    | DoFinishOk(w: nat)
    | DoFinishError(w: nat)
    | DoExit(w: nat)

  function Next(cfg: Config, s: Service, a: Action): Service {
    match a
    case DoCreate(id, reuse) => CreateJob(cfg, s, id, reuse).0
    case DoUpload(id, key, payload, digest) => UploadInput(cfg, s, id, key, payload, digest).0
    case DoSubmit(id, requestHash) => Submit(cfg, s, id, requestHash).0
    case DoCancel(id) => Cancel(cfg, s, id).0
    case DoStart(w) => Start(s, w)
    case DoInfer(w, response, inferred) => Infer(cfg, s, w, response, inferred)
    case DoFail(w, code) => Fail(s, w, code)
    case DoPublish(w) => Publish(cfg, s, w)
    case DoFinishOk(w) => FinishOk(s, w)
    case DoFinishError(w) => FinishError(s, w)
    case DoExit(w) => Exit(cfg, s, w)
  }

  /** Any interleaving of calls and worker stations. */
  function Run(cfg: Config, s: Service, actions: seq<Action>): Service
    decreases |actions|
  {
    if actions == [] then s else Run(cfg, Next(cfg, s, actions[0]), actions[1..])
  }
}
