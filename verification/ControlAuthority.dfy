/** Who drives: which submissions reach the actuators, which of them counts, and what a stamped command must look like. */
module ControlAuthority {
  import opened Bytes
  import opened Reals
  import opened ControlCommands
  import opened ControlStep
  import opened ControlHistory
  import opened ControlSafety

  /** The producer that the controls put in charge. */
  function InCharge(c: Controls): string { if c.authority == "reference" then "reference" else "candidate" }

  /* ---------- nobody else drives ---------- */

  /** Submitted directly by someone who is neither in charge nor the bypass. */
  predicate Foreign(c: Controls, e: Event) {
    e.Submitted? && e.producer != "bypass" && e.producer != InCharge(c)
  }

  function WithoutForeign(c: Controls, es: seq<Event>): seq<Event> {
    if es == [] then [] else (if Foreign(c, es[0]) then [] else [es[0]]) + WithoutForeign(c, es[1..])
  }

  /** Equal in all that the actuators depend on. */
  predicate Alike(c: Controls, v: Vehicle, w: Vehicle) {
    && v.queue == w.queue
    && Lookup(v.pending, "bypass") == Lookup(w.pending, "bypass") && Lookup(v.pending, InCharge(c)) == Lookup(w.pending, InCharge(c))
    && v.state.(requested := None, reference := None) == w.state.(requested := None, reference := None)
  }

  lemma AlikeSelects(c: Controls, v: Vehicle, w: Vehicle, t: int)
    requires Alike(c, v, w)
    ensures Selected(c, v) == Selected(c, w) && EverCommanded(c, v) == EverCommanded(c, w) && TimedOut(c, v, t) == TimedOut(c, w, t)
    ensures EverCommanded(c, v) ==> Desired(c, v, t) == Desired(c, w, t)
  {
  }

  lemma AlikeSteps(c: Controls, limits: Limits, v: Vehicle, w: Vehicle, t: Tick)
    requires Alike(c, v, w)
    ensures Alike(c, Step(c, limits, v, t), Step(c, limits, w, t))
  {
    hide Selected, EverCommanded, TimedOut, Desired, ApplyLimits, Ready;
    AlikeSelects(c, v, w, t.timeNs);
  }

  lemma AlikeSubmits(c: Controls, v: Vehicle, w: Vehicle, command: Command, producer: string)
    requires Alike(c, v, w)
    ensures Alike(c, Submit(c, v, command, producer), Submit(c, w, command, producer))
  {
  }

  lemma AlikeIngests(c: Controls, v: Vehicle, w: Vehicle, drive: Option<Drive>, now: int, producer: string)
    requires Alike(c, v, w)
    ensures Alike(c, Ingest(c, v, drive, now, producer), Ingest(c, w, drive, now, producer))
  {
    hide Normalize, Submit, IngestRejection;
    SameRejection(v, w, drive, now, producer);
    if IngestRejection(v, drive, now, producer).None? {
      var command := Normalize(drive, now, producer).command;
      AlikeSubmits(c, v, w, command, producer);
    }
  }

  lemma SameRejection(v: Vehicle, w: Vehicle, drive: Option<Drive>, now: int, producer: string)
    requires v.state.lastSequence == w.state.lastSequence
    ensures IngestRejection(v, drive, now, producer) == IngestRejection(w, drive, now, producer)
    ensures IngestRejection(v, drive, now, producer).None? ==> Normalize(drive, now, producer).Valid?
  {
    hide Normalize;
  }

  lemma AlikeTakes(c: Controls, limits: Limits, v: Vehicle, w: Vehicle, e: Event)
    requires Alike(c, v, w) && !e.Stepped?
    ensures Alike(c, Apply(c, limits, v, e), Apply(c, limits, w, e))
  {
    hide Alike, Submit, Ingest;
    match e
    case Submitted(command, producer) => AlikeSubmits(c, v, w, command, producer);
    case Ingested(drive, now, producer) => AlikeIngests(c, v, w, drive, now, producer);
  }

  lemma ForeignIsNoted(c: Controls, limits: Limits, v: Vehicle, w: Vehicle, e: Event)
    requires Alike(c, v, w) && Foreign(c, e)
    ensures Alike(c, Apply(c, limits, v, e), w)
  {
  }

  /**
   * Without the submissions of anyone but the bypass and the producer in charge, every run leaves the same applied command,
   * queue, flags and selection.
   */
  lemma {:induction false} ForeignNeverDrives(c: Controls, limits: Limits, v: Vehicle, w: Vehicle, es: seq<Event>)
    requires Alike(c, v, w)
    ensures Alike(c, Run(c, limits, v, es), Run(c, limits, w, WithoutForeign(c, es)))
    decreases |es|
  {
    hide Alike, Foreign, Apply;
    if es != [] {
      var e, rest := es[0], WithoutForeign(c, es[1..]);
      if Foreign(c, e) {
        ForeignIsNoted(c, limits, v, w, e);
        ForeignNeverDrives(c, limits, Apply(c, limits, v, e), w, es[1..]);
        assert WithoutForeign(c, es) == rest;
      } else {
        if e.Stepped? { StepIs(c, limits, v, e); StepIs(c, limits, w, e); AlikeSteps(c, limits, v, w, e.tick); } else { AlikeTakes(c, limits, v, w, e); }
        ForeignNeverDrives(c, limits, Apply(c, limits, v, e), Apply(c, limits, w, e), es[1..]);
        assert WithoutForeign(c, es)[1..] == rest;
      }
    }
  }

  lemma StepIs(c: Controls, limits: Limits, v: Vehicle, e: Event)
    requires e.Stepped?
    ensures Apply(c, limits, v, e) == Step(c, limits, v, e.tick)
  {
    hide Step;
  }

  /* ---------- the latest command counts ---------- */

  /** The command that the event brings in from the producer. */
  function Brought(v: Vehicle, e: Event, producer: string): Option<Command> {
    match e
    case Submitted(command, p) => if p == producer then Some(command.(producer := p)) else None
    case Ingested(drive, now, p) =>
      if p == producer && IngestRejection(v, drive, now, p).None? then Some(Normalize(drive, now, p).command) else None
    case Stepped(_) => None
  }

  /** The latest command that the producer brought in since the last step. */
  function Latest(c: Controls, limits: Limits, v: Vehicle, es: seq<Event>, producer: string): Option<Command>
    decreases |es|
  {
    if es == [] then None
    else
      var before, e := es[..|es| - 1], es[|es| - 1];
      if e.Stepped? then None
      else Else(Brought(Run(c, limits, v, before), e, producer), Latest(c, limits, v, before, producer))
  }

  lemma {:induction false} RunLast(c: Controls, limits: Limits, v: Vehicle, es: seq<Event>)
    requires es != []
    ensures Run(c, limits, v, es) == Apply(c, limits, Run(c, limits, v, es[..|es| - 1]), es[|es| - 1])
    decreases |es|
  {
    hide Apply;
    if |es| > 1 {
      RunLast(c, limits, Apply(c, limits, v, es[0]), es[1..]);
      assert es[1..][..|es| - 2] == es[..|es| - 1][1..];
    }
  }

  lemma NormalizedProducer(drive: Option<Drive>, now: int, producer: string)
    ensures Normalize(drive, now, producer).Valid? ==> Normalize(drive, now, producer).command.producer == producer
  {
  }

  lemma PendingOfOne(c: Controls, limits: Limits, v: Vehicle, e: Event, producer: string)
    ensures Lookup(Apply(c, limits, v, e).pending, producer)
      == if e.Stepped? then None else Else(Brought(v, e, producer), Lookup(v.pending, producer))
  {
    hide Normalize, EverCommanded, Judged, ApplyLimits, Pushed, Effective, Noted;
    if e.Ingested? { NormalizedProducer(e.drive, e.applyTimeNs, e.producer); }
  }

  lemma {:induction false} PendingIsLatest(c: Controls, limits: Limits, v: Vehicle, es: seq<Event>, producer: string)
    requires v.pending == map[]
    ensures Lookup(Run(c, limits, v, es).pending, producer) == Latest(c, limits, v, es, producer)
    decreases |es|
  {
    hide Apply, Brought;
    if es != [] {
      var before, e := es[..|es| - 1], es[|es| - 1];
      PendingIsLatest(c, limits, v, before, producer);
      RunLast(c, limits, v, es);
      PendingOfOne(c, limits, Run(c, limits, v, before), e, producer);
    }
  }

  /**
   * After any run, the next step selects the latest command of the bypass since the last step; without one, the latest of
   * the producer in charge; and without one of these, the command selected before.
   */
  lemma LatestIsSelected(c: Controls, limits: Limits, es: seq<Event>)
    ensures var v := Run(c, limits, NewVehicle, es);
      var bypass, own := Latest(c, limits, NewVehicle, es, "bypass"), Latest(c, limits, NewVehicle, es, InCharge(c));
      Selected(c, v) == if bypass.Some? then bypass else if own.Some? then own else v.state.selected
  {
    hide Run, Latest;
    PendingIsLatest(c, limits, NewVehicle, es, "bypass");
    PendingIsLatest(c, limits, NewVehicle, es, InCharge(c));
  }

  /** A step keeps what it selected, unless it is stale; the stale step leaves the selection. */
  lemma SelectionStays(c: Controls, limits: Limits, v: Vehicle, t: Tick)
    ensures Step(c, limits, v, t).state.selected == if EverCommanded(c, v) && !TimedOut(c, v, t.timeNs) then Selected(c, v) else v.state.selected
  {
    hide Selected, ApplyLimits, Effective, Pushed, Ready;
  }

  /* ---------- when a vehicle counts as commanded ---------- */

  lemma SequenceCommands(c: Controls, v: Vehicle)
    requires v.state.lastSequence >= 0
    ensures EverCommanded(c, v)
  {
    hide Selected;
  }

  /** Once a stamped command was accepted, whoever sent it, the vehicle counts as commanded for good. */
  lemma AcceptedCommands(c: Controls, limits: Limits, v: Vehicle, drive: Option<Drive>, now: int, producer: string, es: seq<Event>)
    requires v.state.lastSequence >= -1 && IngestRejection(v, drive, now, producer).None?
    ensures EverCommanded(c, Run(c, limits, Ingest(c, v, drive, now, producer), es))
  {
    AcceptedAsks(c, v, drive, now, producer);
    AcceptedIff(v, drive, now, producer);
    hide Ingest, Run, IngestRejection;
    AcceptedIncrease(c, limits, Ingest(c, v, drive, now, producer), es);
    SequenceCommands(c, Run(c, limits, Ingest(c, v, drive, now, producer), es));
  }

  /** Nothing but foreign submissions and steps. */
  predicate Unattended(c: Controls, es: seq<Event>) {
    forall i :: 0 <= i < |es| ==> es[i].Stepped? || Foreign(c, es[i])
  }

  predicate Untouched(c: Controls, v: Vehicle) {
    && v.state.lastSequence < 0 && v.state.selected.None? && v.queue == [] && v.state.applied == InitialState.applied
    && Lookup(v.pending, "bypass").None? && Lookup(v.pending, InCharge(c)).None?
  }

  lemma StaysUntouched(c: Controls, limits: Limits, v: Vehicle, e: Event)
    requires Untouched(c, v) && (e.Stepped? || Foreign(c, e))
    ensures Untouched(c, Apply(c, limits, v, e)) && !EverCommanded(c, v)
  {
    hide ApplyLimits, Judged, Effective, Pushed;
  }

  /** Until then, and before any command of the bypass or of the producer in charge, no run moves it, and nothing is queued. */
  lemma {:induction false} UnattendedStandsStill(c: Controls, limits: Limits, v: Vehicle, es: seq<Event>)
    requires Untouched(c, v) && Unattended(c, es)
    ensures Untouched(c, Run(c, limits, v, es)) && !EverCommanded(c, Run(c, limits, v, es))
    decreases |es|
  {
    hide Untouched, Apply, Foreign;
    if es == [] { StaysUntouched(c, limits, v, Stepped(Tick(0, 0.0, None))); }
    else {
      StaysUntouched(c, limits, v, es[0]);
      UnattendedStandsStill(c, limits, Apply(c, limits, v, es[0]), es[1..]);
    }
  }

  /** Every command that a step uses counts as seen: the last sequence number is never below that of the selected command. */
  ghost predicate SelectedIsSeen(v: Vehicle) { v.state.selected.Some? ==> v.state.selected.value.sequence <= v.state.lastSequence }

  lemma SeenStep(c: Controls, limits: Limits, v: Vehicle, e: Event)
    requires SelectedIsSeen(v)
    ensures SelectedIsSeen(Apply(c, limits, v, e))
    ensures e.Stepped? ==> var s := Selected(c, v);
      Apply(c, limits, v, e).state.lastSequence
        == if EverCommanded(c, v) && !TimedOut(c, v, e.tick.timeNs) && s.value.sequence > v.state.lastSequence then s.value.sequence else v.state.lastSequence
  {
    hide Normalize, Selected, ApplyLimits, Effective, Pushed, Ready, Stale;
  }

  /** So over every run an accepted stamped command is newer than the selected one, even one that was submitted without a stamp. */
  lemma {:induction false} AcceptedIsNewer(c: Controls, limits: Limits, v: Vehicle, es: seq<Event>, drive: Option<Drive>, now: int, producer: string)
    requires SelectedIsSeen(v)
    ensures var w := Run(c, limits, v, es);
      && SelectedIsSeen(w)
      && (IngestRejection(w, drive, now, producer).None? && w.state.selected.Some? ==>
           Normalize(drive, now, producer).command.sequence > w.state.selected.value.sequence)
    decreases |es|
  {
    if es != [] {
      hide Apply, SelectedIsSeen, Normalize, IngestRejection;
      SeenStep(c, limits, v, es[0]);
      AcceptedIsNewer(c, limits, Apply(c, limits, v, es[0]), es[1..], drive, now, producer);
    } else { hide Normalize; }
  }

  /* ---------- stale commands ---------- */

  /** What replaces a stale command: the applied one held, the configured fallback, or a stop; anything fresh is passed on. */
  lemma StaleAsksFor(c: Controls, v: Vehicle, now: int)
    requires EverCommanded(c, v)
    ensures var d := Desired(c, v, now);
      if !TimedOut(c, v, now) then Selected(c, v) == Some(d)
      else if c.stalePolicy.HoldPolicy? then d == v.state.applied.(mode := Hold, source := "hold")
      else if c.stalePolicy.FallbackPolicy? && c.fallbackCommand.Some? && !c.fallbackCommand.value.mode.Stop? then
        var f := c.fallbackCommand.value;
        && d.mode == f.mode && d.speedMps == f.speed && d.accelerationMps2 == f.acceleration
        && d.steeringRadThree == d.steeringRadRep103 == f.steeringAngle && d.captureTimeNs == Some(now) && d.deadlineNs == None
      else d.mode == Stop && d.speedMps == d.accelerationMps2 == d.steeringRadThree == d.steeringRadRep103 == 0.0
  {
    hide Selected, Stale;
  }

  /* ---------- what is reported ---------- */

  /** What a step reports besides the applied command. */
  lemma StepReports(c: Controls, limits: Limits, v: Vehicle, t: Tick)
    ensures var s := Step(c, limits, v, t).state;
      && s.requested == (if "candidate" in v.pending then Some(v.pending["candidate"]) else v.state.requested)
      && s.reference == (if c.authority != "reference" && c.referenceShadow && "reference" in v.pending then Some(v.pending["reference"]) else v.state.reference)
      && (!EverCommanded(c, v) ==> s.status == Awaiting && s == v.state.(requested := s.requested, reference := s.reference, status := Awaiting))
      && (EverCommanded(c, v) ==>
           && s.timedOut == TimedOut(c, v, t.timeNs) && s.status == (if s.timedOut then Timeout else Live)
           && (s.fallbackActive <==> s.timedOut && c.stalePolicy.FallbackPolicy? && c.fallbackCommand.Some?)
           && (s.delayed <==> limits.responseDelayNs > 0)
           && (var l := ApplyLimits(v.state.applied, Effective(c, limits, v, t.timeNs), limits, t.dt, t.baseline);
               s.applied == l.command && s.saturated == l.saturated && s.rateLimited == l.rateLimited))
  {
    hide Selected, Stale, ApplyLimits, Effective, Pushed, Ready;
  }

  /** A rejected stamped command is noted and changes nothing else; a submission is noted if it is from the producer in charge. */
  lemma SubmissionReports(c: Controls, v: Vehicle, command: Command, drive: Option<Drive>, now: int, producer: string)
    ensures IngestRejection(v, drive, now, producer).Some? ==>
      Ingest(c, v, drive, now, producer) == v.(state := v.state.(status := Refused(IngestRejection(v, drive, now, producer).value)))
    ensures Submit(c, v, command, producer).state
      == if producer == c.authority then v.state.(requested := Some(command.(producer := producer))) else v.state
  {
    hide Normalize;
  }

  /* ---------- stamped commands ---------- */

  predicate NotInfinite(n: Number) { !n.NotFinite? }

  /** A stamped command is accepted exactly if it is an object with a stamp, a mode, a new number and finite values, and in time. */
  lemma AcceptedIff(v: Vehicle, drive: Option<Drive>, now: int, producer: string)
    ensures IngestRejection(v, drive, now, producer).None? <==>
      && drive.Some?
      && var d := drive.value;
      && !d.stamp.NoStamp?
      && d.mode in {NoMode, Named(Velocity), Named(Acceleration), Named(Stop)}
      && d.sequence.Int? && d.sequence.value >= 0 && d.sequence.value > v.state.lastSequence
      && NotInfinite(d.steeringAngle) && NotInfinite(d.steeringAngleVelocity) && NotInfinite(d.speed) && NotInfinite(d.acceleration) && NotInfinite(d.jerk)
      && (d.deadlineNs == Missing || d.deadlineNs == Finite(0.0) || (d.deadlineNs.Finite? && d.deadlineNs.value > 0.0 && d.deadlineNs.value >= now as real))
  {
  }

  function Given(n: Number): real { match n case Finite(x) => x case _ => 0.0 }

  /** An accepted command asks for what the payload says, a stop for nothing; and it is the one pending from its producer. */
  lemma AcceptedAsks(c: Controls, v: Vehicle, drive: Option<Drive>, now: int, producer: string)
    requires IngestRejection(v, drive, now, producer).None?
    ensures drive.Some? && producer in Ingest(c, v, drive, now, producer).pending
    ensures var d, a := drive.value, Ingest(c, v, drive, now, producer).pending[producer];
      && a.mode == (if d.mode == NoMode then Velocity else d.mode.mode) && a.sequence == d.sequence.value
      && a.speedMps == (if a.mode.Stop? then 0.0 else Given(d.speed))
      && a.accelerationMps2 == (if a.mode.Stop? then 0.0 else Given(d.acceleration))
      && a.steeringRadThree == a.steeringRadRep103 == (if a.mode.Stop? then 0.0 else Given(d.steeringAngle))
      && a.jerkMps3 == Given(d.jerk) && a.steeringRateRadps == Given(d.steeringAngleVelocity)
      && a.deadlineNs == (if d.deadlineNs.Finite? && d.deadlineNs.value > 0.0 then Some(d.deadlineNs.value) else None)
      && (a.captureTimeNs.Some? <==> d.stamp.At?) && (d.stamp.At? ==> a.captureTimeNs.value == (d.stamp.sec * 1_000_000_000.0 + d.stamp.nanosec).Floor)
    ensures Ingest(c, v, drive, now, producer).state.lastSequence == drive.value.sequence.value
  {
  }

  /* ---------- limits ---------- */

  /** One limit: what the run overrides, else what the vehicle has, else the default. */
  predicate Prefers(r: real, override: Option<real>, own: Option<real>, default: real) {
    && (override.Some? ==> r == override.value) && (override.None? && own.Some? ==> r == own.value)
    && (override.None? && own.None? ==> r == default)
  }

  /** The defaults are 15 m/s, 3, 5 and 10 in acceleration, braking and jerk, 0.6 rad and 1.2 rad/s, and no delay; a negative delay is none. */
  lemma MergedIs(own: Partial, overrides: Partial)
    ensures var l := MergeLimits(own, overrides);
      && Prefers(l.maxSpeed, overrides.maxSpeed, own.maxSpeed, 15.0) && Prefers(l.maxAcceleration, overrides.maxAcceleration, own.maxAcceleration, 3.0)
      && Prefers(l.maxDeceleration, overrides.maxDeceleration, own.maxDeceleration, 5.0) && Prefers(l.maxJerk, overrides.maxJerk, own.maxJerk, 10.0)
      && Prefers(l.maxSteeringAngle, overrides.maxSteeringAngle, own.maxSteeringAngle, 0.6)
      && Prefers(l.maxSteeringRate, overrides.maxSteeringRate, own.maxSteeringRate, 1.2)
      && (overrides.responseDelayNs.Some? && overrides.responseDelayNs.value >= 0.0 ==>
           l.responseDelayNs as real <= overrides.responseDelayNs.value < l.responseDelayNs as real + 1.0)
      && (overrides.responseDelayNs.None? && own.responseDelayNs.Some? && own.responseDelayNs.value >= 0.0 ==>
           l.responseDelayNs as real <= own.responseDelayNs.value < l.responseDelayNs as real + 1.0)
      && (overrides.responseDelayNs.None? && own.responseDelayNs.None? ==> l.responseDelayNs == 0)
      && (overrides.responseDelayNs.Some? && overrides.responseDelayNs.value < 0.0 ==> l.responseDelayNs == 0)
  {
  }

  /** The steering stop: the given angle, or 0.6 rad if there is none, but never past 0.49 pi. */
  lemma SteeringStopIs(maxAngle: real)
    ensures var stop := SteeringStop(maxAngle);
      && (0.0 < maxAngle <= 1.5393804002589986 ==> stop == maxAngle) && (maxAngle > 1.5393804002589986 ==> stop == 1.5393804002589986)
      && (maxAngle <= 0.0 ==> stop == 0.6)
  {
  }
}
