/** One vehicle of the actuator sink: what a submission and a fixed step do to it. */
module ControlStep {
  import opened Bytes
  import opened Reals
  import opened ControlCommands

  datatype Limits = Limits(maxSpeed: real, maxAcceleration: real, maxDeceleration: real, maxJerk: real,
                           maxSteeringAngle: real, maxSteeringRate: real, responseDelayNs: nat)

  /** Limits as they are configured: any of them may be missing. */
  datatype Partial = Partial(maxSpeed: Option<real>, maxAcceleration: Option<real>, maxDeceleration: Option<real>, maxJerk: Option<real>,
                             maxSteeringAngle: Option<real>, maxSteeringRate: Option<real>, responseDelayNs: Option<real>)

  const NoLimits := Partial(None, None, None, None, None, None, None)

  function Pick(override: Option<real>, limit: Option<real>, default: real): real {
    if override.Some? then override.value else if limit.Some? then limit.value else default
  }

  /** The overrides of the run, else the limits of the vehicle, else the defaults; a delay counts in whole nanoseconds from zero up. */
  function MergeLimits(limits: Partial, overrides: Partial): Limits {
    var delay := Pick(overrides.responseDelayNs, limits.responseDelayNs, 0.0).Floor;
    Limits(
      Pick(overrides.maxSpeed, limits.maxSpeed, 15.0),
      Pick(overrides.maxAcceleration, limits.maxAcceleration, 3.0),
      Pick(overrides.maxDeceleration, limits.maxDeceleration, 5.0),
      Pick(overrides.maxJerk, limits.maxJerk, 10.0),
      Pick(overrides.maxSteeringAngle, limits.maxSteeringAngle, 0.6),
      Pick(overrides.maxSteeringRate, limits.maxSteeringRate, 1.2),
      if delay < 0 then 0 else delay)
  }

  datatype StalePolicy = StopPolicy | HoldPolicy | FallbackPolicy

  datatype Fallback = Fallback(mode: Mode, speed: real, steeringAngle: real, acceleration: real)

  datatype Controls = Controls(authority: string, stalePolicy: StalePolicy, watchdogNs: Option<int>,
                               fallbackCommand: Option<Fallback>, referenceShadow: bool)

  datatype Status = Fresh | Awaiting | Live | Timeout | Refused(code: Rejection)

  datatype State = State(
    requested: Option<Command>,
    selected: Option<Command>,
    reference: Option<Command>,
    applied: Command,
    lastSequence: int,
    lastHeartbeatNs: Option<int>,
    timedOut: bool,
    fallbackActive: bool,
    saturated: bool,
    rateLimited: bool,
    delayed: bool,
    status: Status)

  const InitialState := State(None, None, None, EmptyCommand.(mode := Hold), -1, None, false, false, false, false, false, Fresh)

  datatype Entry = Entry(readyNs: int, command: Command)

  /** A vehicle: its state, the commands submitted since the last step by producer, and its delay queue. */
  datatype Vehicle = Vehicle(state: State, pending: map<string, Command>, queue: seq<Entry>)

  const NewVehicle := Vehicle(InitialState, map[], [])

  /* ---------- submissions ---------- */

  function Submit(c: Controls, v: Vehicle, command: Command, producer: string): Vehicle {
    var cmd := command.(producer := producer);
    v.(pending := v.pending[producer := cmd],
       state := if producer == c.authority then v.state.(requested := Some(cmd)) else v.state)
  }

  function IngestRejection(v: Vehicle, drive: Option<Drive>, applyTimeNs: int, producer: string): Option<Rejection> {
    match Normalize(drive, applyTimeNs, producer)
    case Rejected(code) => Some(code)
    case Valid(command) => if command.sequence <= v.state.lastSequence then Some(SequenceRegression) else None
  }

  function Ingest(c: Controls, v: Vehicle, drive: Option<Drive>, applyTimeNs: int, producer: string): Vehicle {
    match IngestRejection(v, drive, applyTimeNs, producer)
    case Some(code) => v.(state := v.state.(status := Refused(code)))
    case None =>
      var command := Normalize(drive, applyTimeNs, producer).command;
      var w := Submit(c, v, command, producer);
      w.(state := w.state.(lastSequence := MaxInt(w.state.lastSequence, command.sequence)))
  }

  function MaxInt(x: int, y: int): int { if x >= y then x else y }

  /* ---------- selection and watchdog ---------- */

  function Lookup(pending: map<string, Command>, producer: string): Option<Command> {
    if producer in pending then Some(pending[producer]) else None
  }

  function Else<T>(x: Option<T>, y: Option<T>): Option<T> {
    if x.Some? then x else y
  }

  function Selected(c: Controls, v: Vehicle): Option<Command> {
    var bypass := Lookup(v.pending, "bypass");
    if bypass.Some? then bypass
    else Else(Lookup(v.pending, if c.authority == "reference" then "reference" else "candidate"), v.state.selected)
  }

  function EverCommanded(c: Controls, v: Vehicle): bool {
    v.state.lastSequence >= 0 || v.state.selected.Some? || Selected(c, v).Some?
  }

  function Heartbeat(c: Controls, v: Vehicle): Option<int> {
    var s := Selected(c, v);
    Else(if s.Some? then s.value.captureTimeNs else None, v.state.lastHeartbeatNs)
  }

  predicate Stale(c: Controls, v: Vehicle, timeNs: int)
    requires Selected(c, v).Some?
  {
    var s, h := Selected(c, v).value, Heartbeat(c, v);
    && c.watchdogNs.Some? && c.watchdogNs.value > 0
    && (h.None? || timeNs - h.value > c.watchdogNs.value
        || (s.deadlineNs.Some? && s.deadlineNs.value > 0.0 && timeNs as real > s.deadlineNs.value))
  }

  predicate TimedOut(c: Controls, v: Vehicle, timeNs: int) {
    EverCommanded(c, v) && (Selected(c, v).None? || Stale(c, v, timeNs))
  }

  /** The command that replaces a stale one. */
  function StaleCommand(c: Controls, st: State, timeNs: int): Command {
    if c.stalePolicy.HoldPolicy? then st.applied.(mode := Hold, source := "hold")
    else if c.stalePolicy.FallbackPolicy? && c.fallbackCommand.Some? then
      var fb := c.fallbackCommand.value;
      FromSi(fb.speed, fb.steeringAngle, fb.acceleration, fb.mode, st.lastSequence + 1, Some(timeNs), "bypass", "fallback")
    else
      EmptyCommand.(sequence := st.lastSequence + 1, captureTimeNs := Some(timeNs), producer := "bypass", source := "safe-stop")
  }

  function Desired(c: Controls, v: Vehicle, timeNs: int): Command
    requires EverCommanded(c, v)
  {
    if TimedOut(c, v, timeNs) then StaleCommand(c, v.state, timeNs) else Selected(c, v).value
  }

  /* ---------- the delay queue ---------- */

  /** The number of entries at the head of the queue that are ready. */
  function Ready(queue: seq<Entry>, timeNs: int): (n: nat)
    ensures n <= |queue|
    ensures forall i :: 0 <= i < n ==> queue[i].readyNs <= timeNs
    ensures n < |queue| ==> queue[n].readyNs > timeNs
  {
    if queue != [] && queue[0].readyNs <= timeNs then 1 + Ready(queue[1..], timeNs) else 0
  }

  /* ---------- limits ---------- */

  function DtSafe(dt: real): (r: real)
    ensures r > 0.0
  {
    Max(0.000001, if dt == 0.0 then 0.01 else dt)
  }

  datatype Limited = Limited(command: Command, saturated: bool, rateLimited: bool)

  /** Longitudinal limits, before the steering slew. */
  function LimitSpeed(prev: Command, next: Command, limits: Limits, dt: real): Limited {
    var step := DtSafe(dt);
    match next.mode
    case Stop =>
      Limited(next.(speedMps := 0.0, accelerationMps2 := 0.0, steeringRadRep103 := 0.0, steeringRadThree := 0.0), false, false)
    case Acceleration =>
      var accel := Clamp(next.accelerationMps2, -limits.maxDeceleration, limits.maxAcceleration);
      var jerk := Over(limits.maxJerk, step);
      var jerked := Clamp(accel, prev.accelerationMps2 - jerk, prev.accelerationMps2 + jerk);
      var reached := prev.speedMps + Over(jerked, step);
      Limited(next.(accelerationMps2 := jerked, speedMps := Clamp(reached, -limits.maxSpeed, limits.maxSpeed)),
              accel != next.accelerationMps2 || Abs(reached) > limits.maxSpeed, jerked != accel)
    case Hold =>
      Limited(next.(speedMps := prev.speedMps, steeringRadThree := prev.steeringRadThree,
                    steeringRadRep103 := prev.steeringRadRep103, accelerationMps2 := 0.0), false, false)
    case Velocity =>
      var speed := Clamp(next.speedMps, -limits.maxSpeed, limits.maxSpeed);
      var upper, lower := prev.speedMps + Over(limits.maxAcceleration, step), prev.speedMps - Over(limits.maxDeceleration, step);
      var limited := Clamp(speed, Min(lower, upper), Max(lower, upper));
      Limited(next.(speedMps := limited, accelerationMps2 := (limited - prev.speedMps) / step),
              speed != next.speedMps, limited != speed)
  }

  function ApplyLimits(prev: Command, desired: Command, limits: Limits, dt: real, baseline: Option<real>): Limited {
    var l := LimitSpeed(prev, desired, limits, dt);
    var current := if baseline.Some? then baseline.value else prev.steeringRadThree;
    var s := Slew(current, l.command.steeringRadThree, limits.maxSteeringAngle, limits.maxSteeringRate, dt);
    Limited(l.command.(steeringRadThree := s.angleRad, steeringRadRep103 := s.angleRad),
            l.saturated || s.saturated, l.rateLimited || s.rateLimited)
  }

  /* ---------- a fixed step ---------- */

  datatype Tick = Tick(timeNs: int, dt: real, baseline: Option<real>)

  /** The bookkeeping of what was submitted, before selection. */
  function Noted(c: Controls, v: Vehicle): State {
    var candidate, reference := Lookup(v.pending, "candidate"), Lookup(v.pending, "reference");
    v.state.(
      requested := Else(candidate, v.state.requested),
      reference := if c.authority != "reference" && c.referenceShadow then Else(reference, v.state.reference) else v.state.reference)
  }

  /** The state once a command is selected or found stale. */
  function Judged(c: Controls, v: Vehicle, timeNs: int): State
    requires EverCommanded(c, v)
  {
    var st, stale := Noted(c, v), TimedOut(c, v, timeNs);
    if stale then
      st.(timedOut := true, status := Timeout,
          fallbackActive := c.stalePolicy.FallbackPolicy? && c.fallbackCommand.Some?)
    else
      var s := Selected(c, v).value;
      st.(timedOut := false, status := Live, fallbackActive := false,
          lastSequence := MaxInt(st.lastSequence, s.sequence),
          lastHeartbeatNs := Else(s.captureTimeNs, Some(timeNs)),
          selected := Some(s))
  }

  /** The queue after the desired command joins it. */
  function Pushed(c: Controls, limits: Limits, v: Vehicle, timeNs: int): seq<Entry>
    requires EverCommanded(c, v)
  {
    v.queue + [Entry(timeNs + limits.responseDelayNs, Desired(c, v, timeNs))]
  }

  /** The command that reaches the limiter: the newest one released, or the applied one once more. */
  function Effective(c: Controls, limits: Limits, v: Vehicle, timeNs: int): Command
    requires EverCommanded(c, v)
  {
    if limits.responseDelayNs == 0 then Desired(c, v, timeNs)
    else
      var q := Pushed(c, limits, v, timeNs);
      var n := Ready(q, timeNs);
      if n == 0 then v.state.applied else q[n - 1].command
  }

  function Step(c: Controls, limits: Limits, v: Vehicle, t: Tick): Vehicle {
    if !EverCommanded(c, v) then v.(state := Noted(c, v).(status := Awaiting), pending := map[])
    else
      var st := Judged(c, v, t.timeNs);
      var l := ApplyLimits(v.state.applied, Effective(c, limits, v, t.timeNs), limits, t.dt, t.baseline);
      var q := Pushed(c, limits, v, t.timeNs);
      Vehicle(
        st.(applied := l.command, saturated := l.saturated, rateLimited := l.rateLimited, delayed := limits.responseDelayNs > 0),
        map[],
        if limits.responseDelayNs == 0 then v.queue else q[Ready(q, t.timeNs)..])
  }
}
