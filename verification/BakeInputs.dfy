/** Uploads: which are accepted, what they leave behind, and what a job holds along every run. */
module BakeInputs {
  import opened Bytes
  import opened BakeModel
  import opened BakeInvariant

  /* ---------- one upload ---------- */

  /** What the service asks of an upload. */
  predicate Welcome(cfg: Config, s: Service, id: JobId, payload: seq<Byte>, digest: Digest) {
    && |payload| <= cfg.maxUpload && cfg.sha(payload) == digest
    && id in s.jobs && s.jobs[id].state in {Open, Queued, Running, Completed} && !s.jobs[id].cancel
    && s.storedBytes + |payload| <= cfg.maxStorage
  }

  /** Why it refuses: the first of these that applies. */
  function Refusal(cfg: Config, s: Service, id: JobId, payload: seq<Byte>, digest: Digest): Code {
    if |payload| > cfg.maxUpload then Capability
    else if cfg.sha(payload) != digest then DigestMismatch
    else if id !in s.jobs then Unavailable
    else if s.jobs[id].state == Failed then Incomplete
    else if s.jobs[id].state == Cancelled || s.jobs[id].cancel then ModelCancelled
    else Capability
  }

  /** The input of a job under a key. */
  function InputAt(s: Service, id: JobId, key: string): Option<Input> {
    if id in s.jobs && key in s.jobs[id].inputs then Some(s.jobs[id].inputs[key]) else None
  }

  function SizeAt(s: Service, id: JobId, key: string): nat {
    match InputAt(s, id, key) case Some(i) => |i.bytes| case None => 0
  }

  lemma UploadAcceptedIff(cfg: Config, s: Service, id: JobId, key: string, payload: seq<Byte>, digest: Digest)
    ensures var reply := UploadInput(cfg, s, id, key, payload, digest).1;
      reply == if Welcome(cfg, s, id, payload, digest) then Accepted(digest, |payload|) else Refused(Refusal(cfg, s, id, payload, digest))
  {
  }

  /** Equal but for the jobs and the byte count. */
  predicate SameOutside(s: Service, t: Service) {
    && t.queue == s.queue && t.inFlight == s.inFlight && t.workers == s.workers && t.nextWorker == s.nextWorker && t.cache == s.cache
  }

  /** After an accepted upload the job holds the payload under its key, and nothing else has changed but the byte count. */
  lemma UploadIsStored(cfg: Config, s: Service, id: JobId, key: string, payload: seq<Byte>, digest: Digest)
    requires Welcome(cfg, s, id, payload, digest)
    ensures var t := UploadInput(cfg, s, id, key, payload, digest).0;
      && InputAt(t, id, key) == Some(Input(payload, digest))
      && (forall i, k :: (i, k) != (id, key) ==> InputAt(t, i, k) == InputAt(s, i, k))
      && t.jobs.Keys == s.jobs.Keys && (forall i :: i in s.jobs ==> t.jobs[i].(inputs := map[]) == s.jobs[i].(inputs := map[]))
      && t.storedBytes == s.storedBytes + |payload| - SizeAt(s, id, key)
      && SameOutside(s, t)
  {
  }

  /** A refused upload changes nothing, but that a job found cancelled is marked so. */
  lemma RefusedUploadIsNot(cfg: Config, s: Service, id: JobId, key: string, payload: seq<Byte>, digest: Digest)
    requires !Welcome(cfg, s, id, payload, digest)
    ensures var t := UploadInput(cfg, s, id, key, payload, digest).0;
      t == s || (id in s.jobs && s.jobs[id].cancel && t == s.(jobs := s.jobs[id := s.jobs[id].(state := Cancelled)]))
  {
  }

  /* ---------- runs ---------- */

  /** The input that the action adds under the key of the job. */
  function Uploaded(cfg: Config, s: Service, a: Action, id: JobId, key: string): Option<Input> {
    if a.DoUpload? && a.id == id && a.key == key && Welcome(cfg, s, id, a.payload, a.digest) then Some(Input(a.payload, a.digest)) else None
  }

  lemma {:induction false} PumpKeepsInputs(cfg: Config, s: Service, id: JobId, key: string)
    ensures InputAt(Pump(cfg, s), id, key) == InputAt(s, id, key)
    decreases |s.queue|
  {
    if s.inFlight < cfg.pool && s.queue != [] {
      var first, rest := s.queue[0], s.(queue := s.queue[1..]);
      if first !in s.jobs { PumpKeepsInputs(cfg, rest, id, key); }
      else if s.jobs[first].cancel || s.jobs[first].state.Cancelled? {
        PumpKeepsInputs(cfg, rest.(jobs := s.jobs[first := s.jobs[first].(state := Cancelled)]), id, key);
      } else {
        PumpKeepsInputs(cfg, rest.(inFlight := s.inFlight + 1, workers := s.workers[s.nextWorker := Scheduled(first)], nextWorker := s.nextWorker + 1), id, key);
      }
    }
  }

  lemma UploadInputs(cfg: Config, s: Service, a: Action, id: JobId, key: string)
    requires a.DoUpload?
    ensures InputAt(Next(cfg, s, a), id, key) == if Uploaded(cfg, s, a, id, key).Some? then Uploaded(cfg, s, a, id, key) else InputAt(s, id, key)
  {
    hide UploadInput, Welcome;
    if Welcome(cfg, s, a.id, a.payload, a.digest) { UploadIsStored(cfg, s, a.id, a.key, a.payload, a.digest); }
    else { RefusedUploadIsNot(cfg, s, a.id, a.key, a.payload, a.digest); }
  }

  lemma SubmitInputs(cfg: Config, s: Service, other: JobId, hash: Digest, id: JobId, key: string)
    ensures InputAt(Submit(cfg, s, other, hash).0, id, key) == InputAt(s, id, key)
  {
    hide Pump, Busy;
    if other in s.jobs {
      PumpKeepsInputs(cfg, s.(jobs := s.jobs[other := s.jobs[other].(state := Queued)], queue := s.queue + [other]), id, key);
    }
  }

  lemma ExitInputs(cfg: Config, s: Service, w: nat, id: JobId, key: string)
    ensures InputAt(Exit(cfg, s, w), id, key) == InputAt(s, id, key)
  {
    hide Pump;
    PumpKeepsInputs(cfg, s.(workers := s.workers - {w}, inFlight := OneLess(s.inFlight)), id, key);
  }

  lemma CallInputs(cfg: Config, s: Service, a: Action, id: JobId, key: string)
    requires a.DoCreate? || a.DoCancel?
    ensures InputAt(Next(cfg, s, a), id, key) == InputAt(s, id, key)
  {
    hide Active, ReadCache, Without;
  }

  lemma StationInputs(cfg: Config, s: Service, a: Action, id: JobId, key: string)
    requires a.DoStart? || a.DoInfer? || a.DoFail? || a.DoPublish? || a.DoFinishOk? || a.DoFinishError?
    ensures InputAt(Next(cfg, s, a), id, key) == InputAt(s, id, key)
  {
    hide Bake, ReadCache;
  }

  /** An action adds exactly what an accepted upload brings, and takes no input away. */
  lemma NextInputs(cfg: Config, s: Service, a: Action, id: JobId, key: string)
    ensures InputAt(Next(cfg, s, a), id, key) == if Uploaded(cfg, s, a, id, key).Some? then Uploaded(cfg, s, a, id, key) else InputAt(s, id, key)
  {
    hide InputAt, CreateJob, UploadInput, Submit, Cancel, Start, Infer, Fail, Publish, FinishOk, FinishError, Exit, Welcome;
    match a
    case DoUpload(_, _, _, _) => UploadInputs(cfg, s, a, id, key);
    case DoSubmit(other, hash) => SubmitInputs(cfg, s, other, hash, id, key);
    case DoExit(w) => ExitInputs(cfg, s, w, id, key);
    case DoCreate(_, _) => CallInputs(cfg, s, a, id, key);
    case DoCancel(_) => CallInputs(cfg, s, a, id, key);
    case _ => StationInputs(cfg, s, a, id, key);
  }

  /** The last upload for the key of the job that a run accepts. */
  function LastUpload(cfg: Config, s: Service, actions: seq<Action>, id: JobId, key: string): Option<Input>
    decreases |actions|
  {
    if actions == [] then None
    else
      var later := LastUpload(cfg, Next(cfg, s, actions[0]), actions[1..], id, key);
      if later.Some? then later else Uploaded(cfg, s, actions[0], id, key)
  }

  lemma {:induction false} InputsFrom(cfg: Config, s: Service, actions: seq<Action>, id: JobId, key: string)
    ensures InputAt(Run(cfg, s, actions), id, key)
      == if LastUpload(cfg, s, actions, id, key).Some? then LastUpload(cfg, s, actions, id, key) else InputAt(s, id, key)
    decreases |actions|
  {
    hide Next, InputAt, Uploaded;
    if actions != [] {
      NextInputs(cfg, s, actions[0], id, key);
      InputsFrom(cfg, Next(cfg, s, actions[0]), actions[1..], id, key);
    }
  }

  lemma {:induction false} UploadsHash(cfg: Config, s: Service, actions: seq<Action>, id: JobId, key: string)
    ensures var i := LastUpload(cfg, s, actions, id, key); i.Some? ==> cfg.sha(i.value.bytes) == i.value.sha256
    decreases |actions|
  {
    hide Next;
    if actions != [] { UploadsHash(cfg, Next(cfg, s, actions[0]), actions[1..], id, key); }
  }

  /** Over every run, a job holds under a key exactly what the last accepted upload for both brought, with its digest. */
  lemma HeldIsLastUpload(cfg: Config, cache: map<JobId, Baked>, actions: seq<Action>, id: JobId, key: string)
    ensures var i := InputAt(Run(cfg, Started(cache), actions), id, key);
      i == LastUpload(cfg, Started(cache), actions, id, key) && (i.Some? ==> cfg.sha(i.value.bytes) == i.value.sha256)
  {
    hide Run, LastUpload;
    InputsFrom(cfg, Started(cache), actions, id, key);
    UploadsHash(cfg, Started(cache), actions, id, key);
  }
}
