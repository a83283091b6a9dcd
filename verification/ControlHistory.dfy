/** What holds along every run of a vehicle: the actuator envelope, the delay line, command order, and the safe stop. */
module ControlHistory {
  import opened Bytes
  import opened Reals
  import opened ControlCommands
  import opened ControlStep

  datatype Event =
    | Submitted(command: Command, producer: string)
    | Ingested(drive: Option<Drive>, applyTimeNs: int, producer: string)
    | Stepped(tick: Tick)

  function Apply(c: Controls, limits: Limits, v: Vehicle, e: Event): Vehicle {
    match e
    case Submitted(command, producer) => Submit(c, v, command, producer)
    case Ingested(drive, applyTimeNs, producer) => Ingest(c, v, drive, applyTimeNs, producer)
    case Stepped(t) => Step(c, limits, v, t)
  }

  function Run(c: Controls, limits: Limits, v: Vehicle, es: seq<Event>): Vehicle
    decreases |es|
  {
    if es == [] then v else Run(c, limits, Apply(c, limits, v, es[0]), es[1..])
  }

  /* ---------- the envelope ---------- */

  predicate Sane(limits: Limits) {
    limits.maxSpeed >= 0.0 && limits.maxAcceleration >= 0.0 && limits.maxDeceleration >= 0.0 && limits.maxJerk >= 0.0
  }

  ghost predicate NonNegative(x: Option<real>) { x.Some? ==> x.value >= 0.0 }

  /** Configured limits that are non-negative wherever they are given merge to sane ones, whatever overrides whatever. */
  lemma MergedIsSane(l: Partial, overrides: Partial)
    requires forall p :: p in {l, overrides} ==> NonNegative(p.maxSpeed) && NonNegative(p.maxAcceleration) && NonNegative(p.maxDeceleration) && NonNegative(p.maxJerk)
    ensures Sane(MergeLimits(l, overrides))
  {
  }

  predicate InEnvelope(limits: Limits, a: Command) {
    && -limits.maxSpeed <= a.speedMps <= limits.maxSpeed
    && -limits.maxDeceleration <= a.accelerationMps2 <= limits.maxAcceleration
  }

  lemma OverMonotone(x: real, y: real, step: real)
    requires step > 0.0
    ensures x <= y <==> Over(x, step) <= Over(y, step)
    ensures Over(0.0, step) == 0.0 && Over(-x, step) == -Over(x, step)
  {
    if x < y { assert (y - x) * step > 0.0; }
    if x > y { assert (x - y) * step > 0.0; }
  }

  lemma RateOf(delta: real, lo: real, hi: real, step: real)
    requires step > 0.0 && Over(lo, step) <= delta <= Over(hi, step)
    ensures lo <= delta / step <= hi
  {
    assert Over(delta / step, step) == delta;
    OverMonotone(lo, delta / step, step);
    OverMonotone(delta / step, hi, step);
  }

  /** How far one pass through the limiter may move an actuator that is inside its envelope. */
  predicate RateLimited(limits: Limits, prev: Command, a: Command, dt: real) {
    var step := DtSafe(dt);
    match a.mode
    case Stop => a.speedMps == 0.0 && a.accelerationMps2 == 0.0
    case Hold => a.speedMps == prev.speedMps && a.accelerationMps2 == 0.0
    case Velocity =>
      -Over(limits.maxDeceleration, step) <= a.speedMps - prev.speedMps <= Over(limits.maxAcceleration, step)
    case Acceleration =>
      && -Over(limits.maxDeceleration, step) <= a.speedMps - prev.speedMps <= Over(limits.maxAcceleration, step)
      && -Over(limits.maxJerk, step) <= a.accelerationMps2 - prev.accelerationMps2 <= Over(limits.maxJerk, step)
  }

  lemma VelocityLimits(prev: Command, next: Command, limits: Limits, dt: real)
    requires Sane(limits) && InEnvelope(limits, prev) && next.mode.Velocity?
    ensures var a := LimitSpeed(prev, next, limits, dt).command; InEnvelope(limits, a) && RateLimited(limits, prev, a, dt)
  {
    hide DtSafe, Over;
    var step := DtSafe(dt);
    OverMonotone(0.0, limits.maxAcceleration, step);
    OverMonotone(0.0, limits.maxDeceleration, step);
    OverMonotone(limits.maxDeceleration, 0.0, step);
    var a := LimitSpeed(prev, next, limits, dt).command;
    RateOf(a.speedMps - prev.speedMps, -limits.maxDeceleration, limits.maxAcceleration, step);
  }

  lemma ClampTwice(want: real, lo: real, hi: real, prev: real, slack: real)
    requires lo <= prev <= hi && slack >= 0.0
    ensures var r := Clamp(Clamp(want, lo, hi), prev - slack, prev + slack);
      lo <= r <= hi && prev - slack <= r <= prev + slack
  {
  }

  lemma ClampGain(prev: real, gain: real, max: real, lo: real, hi: real)
    requires -max <= prev <= max && lo <= gain <= hi && lo <= 0.0 <= hi
    ensures var r := Clamp(prev + gain, -max, max); -max <= r <= max && lo <= r - prev <= hi
  {
  }

  lemma AccelerationLimits(prev: Command, next: Command, limits: Limits, dt: real)
    requires Sane(limits) && InEnvelope(limits, prev) && next.mode.Acceleration?
    ensures var a := LimitSpeed(prev, next, limits, dt).command; InEnvelope(limits, a) && RateLimited(limits, prev, a, dt)
  {
    hide DtSafe, Clamp, Abs, Over;
    var step := DtSafe(dt);
    var accel, jerk := LimitSpeed(prev, next, limits, dt).command.accelerationMps2, Over(limits.maxJerk, step);
    OverMonotone(0.0, limits.maxJerk, step);
    ClampTwice(next.accelerationMps2, -limits.maxDeceleration, limits.maxAcceleration, prev.accelerationMps2, jerk);
    OverMonotone(0.0, limits.maxAcceleration, step);
    OverMonotone(0.0, limits.maxDeceleration, step);
    OverMonotone(accel, limits.maxAcceleration, step);
    OverMonotone(limits.maxDeceleration, -accel, step);
    OverMonotone(accel, 0.0, step);
    OverMonotone(-accel, limits.maxDeceleration, step);
    ClampGain(prev.speedMps, Over(accel, step), limits.maxSpeed, -Over(limits.maxDeceleration, step), Over(limits.maxAcceleration, step));
  }

  lemma LimiterKeepsEnvelope(prev: Command, desired: Command, limits: Limits, dt: real, baseline: Option<real>)
    requires Sane(limits) && InEnvelope(limits, prev)
    ensures var a := ApplyLimits(prev, desired, limits, dt, baseline).command;
      InEnvelope(limits, a) && RateLimited(limits, prev, a, dt) && a.mode == desired.mode
  {
    hide Slew, Clamp, DtSafe;
    match desired.mode
    case Velocity => VelocityLimits(prev, desired, limits, dt);
    case Acceleration => AccelerationLimits(prev, desired, limits, dt);
    case _ =>
  }

  /**
   * In every state that any run reaches, whatever was submitted, held, replaced or delayed, the applied speed and
   * acceleration are inside the envelope.
   */
  lemma {:induction false} EnvelopeAlways(c: Controls, limits: Limits, v: Vehicle, es: seq<Event>)
    requires Sane(limits) && InEnvelope(limits, v.state.applied)
    ensures InEnvelope(limits, Run(c, limits, v, es).state.applied)
    decreases |es|
  {
    if es != [] {
      hide ApplyLimits;
      EventKeepsEnvelope(c, limits, v, es[0]);
      EnvelopeAlways(c, limits, Apply(c, limits, v, es[0]), es[1..]);
    }
  }

  /** A fixed step of a commanded vehicle respects the rate limits of the mode it ends in; nothing else moves the actuators. */
  lemma EventKeepsEnvelope(c: Controls, limits: Limits, v: Vehicle, e: Event)
    requires Sane(limits) && InEnvelope(limits, v.state.applied)
    ensures var a := Apply(c, limits, v, e).state.applied;
      && InEnvelope(limits, a)
      && if e.Stepped? && EverCommanded(c, v) then RateLimited(limits, v.state.applied, a, e.tick.dt) else a == v.state.applied
  {
    hide ApplyLimits, InEnvelope, RateLimited, TimedOut, Selected, Pushed;
    if e.Stepped? && EverCommanded(c, v) {
      LimiterKeepsEnvelope(v.state.applied, Effective(c, limits, v, e.tick.timeNs), limits, e.tick.dt, e.tick.baseline);
    }
  }

  /** The steering angle that a step starts from: the measured one if there is one, else the applied one. */
  function SteeringFrom(v: Vehicle, t: Tick): real {
    if t.baseline.Some? then t.baseline.value else v.state.applied.steeringRadThree
  }

  /** A commanded step ends within the steering stop exactly if it starts no further outside than it can turn back. */
  lemma SteeringStepIff(c: Controls, limits: Limits, v: Vehicle, t: Tick)
    requires EverCommanded(c, v)
    ensures Abs(Step(c, limits, v, t).state.applied.steeringRadThree) <= SteeringStop(limits.maxSteeringAngle)
      <==> Abs(SteeringFrom(v, t)) <= SteeringStop(limits.maxSteeringAngle) + Reach(limits.maxSteeringRate, t.dt)
  {
    hide LimitSpeed, Slew, TimedOut, Selected, Effective, Pushed, Abs, Reach, SteeringStop, Judged, EverCommanded;
    var l := LimitSpeed(v.state.applied, Effective(c, limits, v, t.timeNs), limits, t.dt);
    SlewEndsWithinIff(SteeringFrom(v, t), l.command.steeringRadThree, limits.maxSteeringAngle, limits.maxSteeringRate, t.dt);
  }

  /** Every measured angle is no further outside the stop than its step can turn back. */
  predicate Recoverable(limits: Limits, es: seq<Event>) {
    forall i :: 0 <= i < |es| ==> es[i].Stepped? && es[i].tick.baseline.Some? ==>
      Abs(es[i].tick.baseline.value) <= SteeringStop(limits.maxSteeringAngle) + Reach(limits.maxSteeringRate, es[i].tick.dt)
  }

  /** The applied steering angle stays within the stop as long as the measured angles can be brought back in one step. */
  lemma {:induction false} SteeringAlways(c: Controls, limits: Limits, v: Vehicle, es: seq<Event>)
    requires Abs(v.state.applied.steeringRadThree) <= SteeringStop(limits.maxSteeringAngle) && Recoverable(limits, es)
    ensures Abs(Run(c, limits, v, es).state.applied.steeringRadThree) <= SteeringStop(limits.maxSteeringAngle)
    decreases |es|
  {
    if es != [] {
      ReachIsPositive(limits, es[0]);
      SteeringEvent(c, limits, v, es[0]);
      hide Abs, Apply, Reach, SteeringStop;
      SteeringAlways(c, limits, Apply(c, limits, v, es[0]), es[1..]);
    }
  }

  lemma ReachIsPositive(limits: Limits, e: Event)
    ensures e.Stepped? ==> Reach(limits.maxSteeringRate, e.tick.dt) >= 0.0
  {
  }

  lemma SteeringEvent(c: Controls, limits: Limits, v: Vehicle, e: Event)
    requires Abs(v.state.applied.steeringRadThree) <= SteeringStop(limits.maxSteeringAngle)
    requires e.Stepped? ==> Reach(limits.maxSteeringRate, e.tick.dt) >= 0.0
    requires e.Stepped? && e.tick.baseline.Some? ==>
      Abs(e.tick.baseline.value) <= SteeringStop(limits.maxSteeringAngle) + Reach(limits.maxSteeringRate, e.tick.dt)
    ensures Abs(Apply(c, limits, v, e).state.applied.steeringRadThree) <= SteeringStop(limits.maxSteeringAngle)
  {
    hide Abs, Reach, SteeringStop, ApplyLimits, TimedOut, Selected, Effective, Pushed, EverCommanded;
    if e.Stepped? && EverCommanded(c, v) { SteeringStepIff(c, limits, v, e.tick); }
  }

  /* ---------- the delay line ---------- */

  /** The entry that the event adds to the history. */
  function Own(c: Controls, limits: Limits, v: Vehicle, e: Event): seq<Entry> {
    if e.Stepped? && EverCommanded(c, v) && limits.responseDelayNs > 0
    then [Entry(e.tick.timeNs + limits.responseDelayNs, Desired(c, v, e.tick.timeNs))] else []
  }

  function ActiveTime(c: Controls, v: Vehicle, e: Event, last: int): int {
    if e.Stepped? && EverCommanded(c, v) then e.tick.timeNs else last
  }

  /** The desired commands of the steps of a run, each with the time at which it is due. */
  function History(c: Controls, limits: Limits, v: Vehicle, es: seq<Event>): seq<Entry>
    decreases |es|
  {
    if es == [] then []
    else
      Own(c, limits, v, es[0]) + History(c, limits, Apply(c, limits, v, es[0]), es[1..])
  }

  /** The time of the last step in which the vehicle was commanded, or `last` if there is none. */
  function LastActive(c: Controls, limits: Limits, v: Vehicle, es: seq<Event>, last: int): int
    decreases |es|
  {
    if es == [] then last
    else LastActive(c, limits, Apply(c, limits, v, es[0]), es[1..], ActiveTime(c, v, es[0], last))
  }

  /** No step is earlier than the one before it, nor than `last`. */
  predicate InOrder(es: seq<Event>, last: int) {
    es == [] || (if es[0].Stepped? then last <= es[0].tick.timeNs && InOrder(es[1..], es[0].tick.timeNs) else InOrder(es[1..], last))
  }

  ghost predicate Sorted(h: seq<Entry>) {
    forall i, j :: 0 <= i <= j < |h| ==> h[i].readyNs <= h[j].readyNs
  }

  /** The queue holds exactly the entries of h that are not yet due at time t. */
  ghost predicate HoldsUndue(h: seq<Entry>, t: int, queue: seq<Entry>) {
    queue == h[Ready(h, t)..]
  }

  lemma {:induction false} ReadyIsUnique(h: seq<Entry>, t: int, n: nat)
    requires n <= |h| && (forall i :: 0 <= i < n ==> h[i].readyNs <= t) && (n < |h| ==> h[n].readyNs > t)
    ensures Ready(h, t) == n
  {
    if n > 0 { ReadyIsUnique(h[1..], t, n - 1); }
  }

  /** Appending an entry and releasing later continues where the earlier release stopped. */
  lemma ReadySplits(h: seq<Entry>, e: Entry, last: int, t: int)
    requires last <= t
    ensures var m, n := Ready(h, last), Ready(h + [e], t);
      && m <= n && Ready(h[m..] + [e], t) == n - m
      && (h[m..] + [e])[n - m..] == (h + [e])[n..]
      && (n > m ==> (h[m..] + [e])[n - m - 1] == (h + [e])[n - 1])
  {
    hide Ready;
    var m, n := Ready(h, last), Ready(h + [e], t);
    var q := h[m..] + [e];
    var k := Ready(q, t);
    var all := h + [e];
    assert forall i :: 0 <= i < |q| ==> q[i] == all[m + i];
    forall i | 0 <= i < m + k ensures all[i].readyNs <= t {
      if i >= m { assert all[i] == q[i - m]; }
    }
    ReadyIsUnique(all, t, m + k);
  }

  lemma EventKeepsOrder(c: Controls, limits: Limits, v: Vehicle, e: Event, last: int, h: seq<Entry>)
    requires (e.Stepped? ==> last <= e.tick.timeNs) && Sorted(h)
    requires forall i :: 0 <= i < |h| ==> h[i].readyNs <= last + limits.responseDelayNs
    ensures var t, h' := ActiveTime(c, v, e, last), h + Own(c, limits, v, e);
      Sorted(h') && forall i :: 0 <= i < |h'| ==> h'[i].readyNs <= t + limits.responseDelayNs
  {
    hide Desired, EverCommanded;
  }

  lemma EventKeepsUndue(c: Controls, limits: Limits, v: Vehicle, e: Event, last: int, h: seq<Entry>)
    requires (e.Stepped? ==> last <= e.tick.timeNs) && HoldsUndue(h, last, v.queue)
    requires forall i :: 0 <= i < |h| ==> h[i].readyNs <= last + limits.responseDelayNs
    ensures HoldsUndue(h + Own(c, limits, v, e), ActiveTime(c, v, e, last), Apply(c, limits, v, e).queue)
  {
    hide Judged, ApplyLimits, Desired, EverCommanded, Effective, Ready, IngestRejection;
    var own, t := Own(c, limits, v, e), ActiveTime(c, v, e, last);
    if own == [] {
      assert h + own == h;
      if limits.responseDelayNs == 0 { AllDue(h, last, t); }
    } else {
      ReadySplits(h, own[0], last, t);
    }
  }

  lemma EventKeepsQueue(c: Controls, limits: Limits, v: Vehicle, e: Event, last: int, h: seq<Entry>)
    requires e.Stepped? ==> last <= e.tick.timeNs
    requires Sorted(h) && HoldsUndue(h, last, v.queue)
    requires forall i :: 0 <= i < |h| ==> h[i].readyNs <= last + limits.responseDelayNs
    ensures var t, h' := ActiveTime(c, v, e, last), h + Own(c, limits, v, e);
      && Sorted(h') && HoldsUndue(h', t, Apply(c, limits, v, e).queue)
      && forall i :: 0 <= i < |h'| ==> h'[i].readyNs <= t + limits.responseDelayNs
  {
    hide ActiveTime, Own, Apply, Sorted, HoldsUndue;
    EventKeepsOrder(c, limits, v, e, last, h);
    EventKeepsUndue(c, limits, v, e, last, h);
  }

  /**
   * Over a run with steps in time order, the delay queue is exactly the part of the history of desired commands that
   * is not yet due.
   */
  lemma {:induction false} QueueIsHistory(c: Controls, limits: Limits, v: Vehicle, es: seq<Event>, last: int, h: seq<Entry>)
    requires InOrder(es, last) && Sorted(h) && HoldsUndue(h, last, v.queue)
    requires forall i :: 0 <= i < |h| ==> h[i].readyNs <= last + limits.responseDelayNs
    ensures var all := h + History(c, limits, v, es);
      Sorted(all) && HoldsUndue(all, LastActive(c, limits, v, es, last), Run(c, limits, v, es).queue)
    decreases |es|
  {
    hide Apply, Own, ActiveTime, HoldsUndue, Sorted;
    if es == [] {
      assert h + [] == h;
    } else {
      var v', own, t := Apply(c, limits, v, es[0]), Own(c, limits, v, es[0]), ActiveTime(c, v, es[0], last);
      EventKeepsQueue(c, limits, v, es[0], last, h);
      ActiveTimeInOrder(c, v, es, last);
      QueueIsHistory(c, limits, v', es[1..], t, h + own);
      assert h + own + History(c, limits, v', es[1..]) == h + (own + History(c, limits, v', es[1..]));
    }
  }

  lemma ActiveTimeInOrder(c: Controls, v: Vehicle, es: seq<Event>, last: int)
    requires es != [] && InOrder(es, last)
    ensures InOrder(es[1..], ActiveTime(c, v, es[0], last)) && last <= ActiveTime(c, v, es[0], last)
    ensures es[0].Stepped? ==> ActiveTime(c, v, es[0], last) <= es[0].tick.timeNs
  {
    if es[0].Stepped? { InOrderWeaken(es[1..], es[0].tick.timeNs, last); }
  }

  lemma AllDue(h: seq<Entry>, last: int, t: int)
    requires last <= t && forall i :: 0 <= i < |h| ==> h[i].readyNs <= last
    ensures Ready(h, last) == |h| == Ready(h, t)
  {
  }

  lemma InOrderWeaken(es: seq<Event>, last: int, earlier: int)
    requires InOrder(es, last) && earlier <= last
    ensures InOrder(es, earlier)
  {
  }

  /**
   * What the limiter gets at a commanded step at time t, after any run from a new vehicle: the newest desired command
   * that is due at t, if it was not due at the step before, and otherwise the applied command again. Nothing is
   * released early, twice or out of order.
   */
  lemma DelayLineIsLookup(c: Controls, limits: Limits, es: seq<Event>, t: Tick, start: int)
    requires limits.responseDelayNs > 0 && InOrder(es + [Stepped(t)], start)
    requires EverCommanded(c, Run(c, limits, NewVehicle, es))
    ensures var v := Run(c, limits, NewVehicle, es);
      var before := Ready(History(c, limits, NewVehicle, es), LastActive(c, limits, NewVehicle, es, start));
      var all := History(c, limits, NewVehicle, es) + [Entry(t.timeNs + limits.responseDelayNs, Desired(c, v, t.timeNs))];
      var due := Ready(all, t.timeNs);
      && before <= due
      && Effective(c, limits, v, t.timeNs) == (if before < due then all[due - 1].command else v.state.applied)
  {
    hide Desired, EverCommanded, Ready, Run, History, LastActive, InOrder, Effective, Sorted, HoldsUndue;
    var v, h := Run(c, limits, NewVehicle, es), History(c, limits, NewVehicle, es);
    var last := LastActive(c, limits, NewVehicle, es, start);
    InOrderSplit(es, [Stepped(t)], start);
    QueueFromNew(c, limits, es, start);
    LastActiveBound(c, limits, NewVehicle, es, t, start);
    NewestDue(c, limits, v, h, last, t.timeNs);
  }

  lemma QueueFromNew(c: Controls, limits: Limits, es: seq<Event>, start: int)
    requires InOrder(es, start)
    ensures var h := History(c, limits, NewVehicle, es);
      Sorted(h) && HoldsUndue(h, LastActive(c, limits, NewVehicle, es, start), Run(c, limits, NewVehicle, es).queue)
  {
    hide Run, History, LastActive, InOrder;
    ReadyIsUnique([], start, 0);
    QueueIsHistory(c, limits, NewVehicle, es, start, []);
    assert [] + History(c, limits, NewVehicle, es) == History(c, limits, NewVehicle, es);
  }

  lemma NewestDue(c: Controls, limits: Limits, v: Vehicle, h: seq<Entry>, last: int, t: int)
    requires limits.responseDelayNs > 0 && EverCommanded(c, v) && last <= t
    requires Sorted(h) && HoldsUndue(h, last, v.queue)
    requires forall i :: 0 <= i < |h| ==> h[i].readyNs <= t + limits.responseDelayNs
    ensures var all := h + [Entry(t + limits.responseDelayNs, Desired(c, v, t))];
      && Ready(h, last) <= Ready(all, t)
      && Effective(c, limits, v, t) == (if Ready(h, last) < Ready(all, t) then all[Ready(all, t) - 1].command else v.state.applied)
  {
    hide Desired, EverCommanded, Ready;
    ReadySplits(h, Entry(t + limits.responseDelayNs, Desired(c, v, t)), last, t);
  }

  lemma {:induction false} InOrderSplit(es: seq<Event>, fs: seq<Event>, last: int)
    requires InOrder(es + fs, last)
    ensures InOrder(es, last)
    decreases |es|
  {
    if es != [] {
      assert (es + fs)[1..] == es[1..] + fs;
      InOrderSplit(es[1..], fs, if es[0].Stepped? then es[0].tick.timeNs else last);
    }
  }

  lemma {:induction false} LastActiveBound(c: Controls, limits: Limits, v: Vehicle, es: seq<Event>, t: Tick, last: int)
    requires InOrder(es + [Stepped(t)], last)
    ensures last <= LastActive(c, limits, v, es, last) <= t.timeNs
    ensures forall i :: 0 <= i < |History(c, limits, v, es)| ==> History(c, limits, v, es)[i].readyNs <= t.timeNs + limits.responseDelayNs
    decreases |es|
  {
    hide EverCommanded, Desired, Apply;
    if es == [] {
      assert es + [Stepped(t)] == [Stepped(t)];
    } else {
      var es' := es + [Stepped(t)];
      assert es'[1..] == es[1..] + [Stepped(t)] && es'[0] == es[0];
      ActiveTimeInOrder(c, v, es', last);
      LastActiveBound(c, limits, Apply(c, limits, v, es[0]), es[1..], t, ActiveTime(c, v, es[0], last));
    }
  }
}
