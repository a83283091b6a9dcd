/** Commands, their validation, and the steering slew they pass through. */
module ControlCommands {
  import opened Bytes
  import opened Reals

  datatype Mode = Velocity | Acceleration | Stop | Hold

  datatype Command = Command(
    mode: Mode,
    sequence: int,
    captureTimeNs: Option<int>,
    deadlineNs: Option<real>,
    speedMps: real,
    accelerationMps2: real,
    jerkMps3: real,
    steeringRadRep103: real,
    steeringRateRadps: real,
    steeringRadThree: real,
    producer: string,
    source: string)

  const EmptyCommand := Command(Stop, 0, None, None, 0.0, 0.0, 0.0, 0.0, 0.0, 0.0, "", "")

  function FromSi(speedMps: real, steeringRad: real, accelerationMps2: real, mode: Mode, sequence: int,
                  captureTimeNs: Option<int>, producer: string, source: string): Command {
    var stop := mode.Stop?;
    EmptyCommand.(
      mode := mode, sequence := sequence, captureTimeNs := captureTimeNs,
      speedMps := if stop then 0.0 else speedMps,
      accelerationMps2 := if stop then 0.0 else accelerationMps2,
      steeringRadRep103 := if stop then 0.0 else steeringRad,
      steeringRadThree := if stop then 0.0 else steeringRad,
      producer := producer, source := source)
  }

  /* ---------- stamped commands from a topic ---------- */

  datatype Number = Missing | NotFinite | Finite(value: real)
  datatype Integer = NoInteger | NotInteger | Int(value: int)
  datatype ModeField = NoMode | UnknownMode | Named(mode: Mode)

  /** The stamp of a payload; without a number of seconds it gives no capture time. */
  datatype Stamp = NoStamp | NoSeconds | At(sec: real, nanosec: real)

  /** The payload of a stamped drive command, as far as it is an object. */
  datatype Drive = Drive(
    stamp: Stamp,
    mode: ModeField,
    sequence: Integer,
    steeringAngle: Number,
    steeringAngleVelocity: Number,
    speed: Number,
    acceleration: Number,
    jerk: Number,
    deadlineNs: Number)

  datatype Rejection = MalformedPayload | MissingStamp | InvalidMode | InvalidSequence | NonFinite | InvalidDeadline
    | ExpiredDeadline | SequenceRegression

  datatype Checked = Valid(command: Command) | Rejected(code: Rejection)

  function ModeOf(d: Drive): Mode {
    if d.mode.Named? then d.mode.mode else Velocity
  }

  function OrZero(n: Number): real {
    if n.Finite? then n.value else 0.0
  }

  function Validate(value: Option<Drive>, applyTimeNs: int): Option<Rejection> {
    if value.None? then Some(MalformedPayload)
    else
      var d := value.value;
      if d.stamp.NoStamp? then Some(MissingStamp)
      else if d.mode.UnknownMode? || d.mode == Named(Hold) then Some(InvalidMode)
      else if !(d.sequence.Int? && d.sequence.value >= 0) then Some(InvalidSequence)
      else if d.steeringAngle.NotFinite? || d.steeringAngleVelocity.NotFinite? || d.speed.NotFinite? || d.acceleration.NotFinite? || d.jerk.NotFinite?
        then Some(NonFinite)
      else if d.deadlineNs.NotFinite? || (d.deadlineNs.Finite? && d.deadlineNs.value < 0.0) then Some(InvalidDeadline)
      else if d.deadlineNs.Finite? && d.deadlineNs.value > 0.0 && applyTimeNs as real > d.deadlineNs.value then Some(ExpiredDeadline)
      else None
  }

  function CaptureTime(stamp: Stamp): Option<int> {
    if stamp.At? then Some((stamp.sec * 1_000_000_000.0 + stamp.nanosec).Floor) else None
  }

  function Normalize(value: Option<Drive>, applyTimeNs: int, producer: string): (r: Checked)
    ensures r.Valid? ==> value.Some?
    ensures r.Valid? ==>
      && r.command.sequence >= 0 && !r.command.mode.Hold?
      && (r.command.captureTimeNs.Some? <==> value.value.stamp.At?)
      && (r.command.deadlineNs.Some? ==> r.command.deadlineNs.value >= applyTimeNs as real && r.command.deadlineNs.value > 0.0)
      && (r.command.mode.Stop? ==> r.command.speedMps == r.command.accelerationMps2 == r.command.steeringRadThree == 0.0)
      && r.command.steeringRadThree == r.command.steeringRadRep103
  {
    var code := Validate(value, applyTimeNs);
    if code.Some? then Rejected(code.value)
    else
      var d := value.value;
      var mode := ModeOf(d);
      var stop := mode.Stop?;
      var steering := if stop then 0.0 else OrZero(d.steeringAngle);
      Valid(EmptyCommand.(
        mode := mode,
        sequence := d.sequence.value,
        captureTimeNs := CaptureTime(d.stamp),
        deadlineNs := if d.deadlineNs.Finite? && d.deadlineNs.value > 0.0 then Some(d.deadlineNs.value) else None,
        speedMps := if stop then 0.0 else OrZero(d.speed),
        accelerationMps2 := if stop then 0.0 else OrZero(d.acceleration),
        jerkMps3 := OrZero(d.jerk),
        steeringRadRep103 := steering,
        steeringRateRadps := OrZero(d.steeringAngleVelocity),
        steeringRadThree := steering,
        producer := producer,
        source := "topic"))
  }

  /* ---------- steering ---------- */

  function Clamp(x: real, lo: real, hi: real): real {
    Max(lo, Min(hi, x))
  }

  /** What a rate amounts to over a time. */
  function Over(rate: real, time: real): real {
    rate * time
  }

  /** 0.49 pi, to the precision of the original's arithmetic. */
  const STEERING_CAP := 1.5393804002589986

  function SteeringStop(maxAngle: real): real {
    Min(if maxAngle > 0.0 then maxAngle else 0.6, STEERING_CAP)
  }

  datatype Slewed = Slewed(angleRad: real, saturated: bool, rateLimited: bool)

  function Slew(current: real, target: real, maxAngle: real, maxRate: real, dt: real): (r: Slewed)
    ensures Abs(current) <= SteeringStop(maxAngle) ==> Abs(r.angleRad) <= SteeringStop(maxAngle)
    ensures dt <= 0.0 || maxRate <= 0.0 ==> r.angleRad == current
    ensures dt > 0.0 && maxRate > 0.0 ==> Abs(r.angleRad - current) <= maxRate * dt
    ensures dt > 0.0 && maxRate > 0.0 && !r.saturated && !r.rateLimited ==> r.angleRad == target
  {
    if dt <= 0.0 || maxRate <= 0.0 then Slewed(current, false, false)
    else
      var stop := SteeringStop(maxAngle);
      var clamped := Clamp(target, -stop, stop);
      var maxDelta := maxRate * dt;
      assert maxDelta > 0.0;
      var angle := Clamp(clamped, current - maxDelta, current + maxDelta);
      Slewed(angle, clamped != target, angle != clamped)
  }

  /** How far the slew can turn the wheels in one step. */
  function Reach(maxRate: real, dt: real): real {
    if dt > 0.0 && maxRate > 0.0 then Over(maxRate, dt) else 0.0
  }

  /** The slew ends within the stop exactly if it starts no further outside than it can turn back. */
  lemma SlewEndsWithinIff(current: real, target: real, maxAngle: real, maxRate: real, dt: real)
    ensures Abs(Slew(current, target, maxAngle, maxRate, dt).angleRad) <= SteeringStop(maxAngle)
      <==> Abs(current) <= SteeringStop(maxAngle) + Reach(maxRate, dt)
  {
    if dt > 0.0 && maxRate > 0.0 {
      assert maxRate * dt > 0.0;
      SlewByIff(current, Clamp(target, -SteeringStop(maxAngle), SteeringStop(maxAngle)), SteeringStop(maxAngle), maxRate * dt);
    }
  }

  lemma SlewByIff(current: real, clamped: real, stop: real, delta: real)
    requires -stop <= clamped <= stop && delta > 0.0
    ensures Abs(Clamp(clamped, current - delta, current + delta)) <= stop <==> Abs(current) <= stop + delta
  {
  }
}
