/** How the limiter follows a command: where one step ends, which flags it raises, and when a run has arrived. */
module ControlTracking {
  import opened Bytes
  import opened Reals
  import opened ControlCommands
  import opened ControlStep
  import opened ControlHistory
  import opened ControlSafety

  /* ---------- reach ---------- */

  /** The time that a step counts: a missing one is ten milliseconds, and none is under a microsecond. */
  function StepTime(dt: real): real {
    if dt == 0.0 then 0.01 else if dt < 0.000001 then 0.000001 else dt
  }

  /** x, cut to lo and hi. */
  function Cut(x: real, lo: real, hi: real): real {
    if x < lo then lo else if x > hi then hi else x
  }

  /** From `from`, with so much reach down and up, a step that aims at the goal ends at r. */
  predicate Reaches(from: real, goal: real, down: real, up: real, r: real) {
    && (r == goal <==> from - down <= goal <= from + up)
    && (goal > from + up ==> r == from + up)
    && (goal < from - down ==> r == from - down)
  }

  lemma ClampIsCut(x: real, lo: real, hi: real)
    requires lo <= hi
    ensures Clamp(x, lo, hi) == Cut(x, lo, hi)
  {
  }

  lemma ClampFollows(from: real, goal: real, down: real, up: real)
    requires down >= 0.0 && up >= 0.0
    ensures Reaches(from, goal, down, up, Clamp(goal, Min(from - down, from + up), Max(from - down, from + up)))
    ensures Reaches(from, goal, down, up, Clamp(goal, from - down, from + up))
  {
  }

  lemma StepTimeIs(dt: real)
    ensures DtSafe(dt) == StepTime(dt) > 0.0
  {
  }

  lemma OverIs(rate: real, time: real)
    ensures Over(rate, time) == rate * time
    ensures rate >= 0.0 && time > 0.0 ==> Over(rate, time) >= 0.0
  {
  }

  /* ---------- one pass through the limiter ---------- */

  /** The angle that a command aims at: none for a stop, the applied one for a hold. */
  function SteeringGoal(prev: Command, next: Command): real {
    match next.mode case Stop => 0.0 case Hold => prev.steeringRadThree case _ => next.steeringRadThree
  }

  predicate Turns(limits: Limits, dt: real) { dt > 0.0 && limits.maxSteeringRate > 0.0 }

  lemma StopIsPositive(maxAngle: real)
    ensures SteeringStop(maxAngle) > 0.0
  {
  }

  /** The steering ends at its goal, cut to the stop, if that is in reach, and otherwise turns towards it as far as it can. */
  lemma SteeringFollows(prev: Command, next: Command, limits: Limits, dt: real, baseline: Option<real>)
    ensures var a := ApplyLimits(prev, next, limits, dt, baseline).command;
      var from := if baseline.Some? then baseline.value else prev.steeringRadThree;
      var stop := SteeringStop(limits.maxSteeringAngle);
      && a.steeringRadRep103 == a.steeringRadThree
      && if Turns(limits, dt) then
           Reaches(from, Cut(SteeringGoal(prev, next), -stop, stop), limits.maxSteeringRate * dt, limits.maxSteeringRate * dt, a.steeringRadThree)
         else a.steeringRadThree == from
  {
    var from := if baseline.Some? then baseline.value else prev.steeringRadThree;
    var stop := SteeringStop(limits.maxSteeringAngle);
    SpeedKeepsSteering(prev, next, limits, dt);
    hide LimitSpeed;
    if Turns(limits, dt) {
      StopIsPositive(limits.maxSteeringAngle);
      SlewFollows(from, SteeringGoal(prev, next), limits, dt);
    }
  }

  lemma SpeedKeepsSteering(prev: Command, next: Command, limits: Limits, dt: real)
    ensures LimitSpeed(prev, next, limits, dt).command.steeringRadThree == SteeringGoal(prev, next)
  {
    hide Clamp, DtSafe, Over;
  }

  lemma SlewFollows(from: real, goal: real, limits: Limits, dt: real)
    requires Turns(limits, dt)
    ensures var s := Slew(from, goal, limits.maxSteeringAngle, limits.maxSteeringRate, dt);
      var stop := SteeringStop(limits.maxSteeringAngle);
      var target := Cut(goal, -stop, stop);
      && Reaches(from, target, limits.maxSteeringRate * dt, limits.maxSteeringRate * dt, s.angleRad)
      && (s.saturated <==> Abs(goal) > stop)
      && (s.rateLimited <==> Abs(target - from) > limits.maxSteeringRate * dt)
  {
    hide Cut, Clamp, SteeringStop, Abs;
    var stop := SteeringStop(limits.maxSteeringAngle);
    var reach := limits.maxSteeringRate * dt;
    StopIsPositive(limits.maxSteeringAngle);
    Positive(limits.maxSteeringRate, dt);
    ClampIsCut(goal, -stop, stop);
    CutIsOther(goal, stop);
    ClampFollows(from, Cut(goal, -stop, stop), reach, reach);
    WithinIsAbs(Cut(goal, -stop, stop), from, reach);
  }

  lemma Positive(rate: real, dt: real)
    requires rate > 0.0 && dt > 0.0
    ensures rate * dt > 0.0
  {
  }

  lemma CutIsOther(x: real, stop: real)
    requires stop > 0.0
    ensures Cut(x, -stop, stop) != x <==> Abs(x) > stop
  {
  }

  lemma WithinIsAbs(x: real, from: real, reach: real)
    ensures from - reach <= x <= from + reach <==> Abs(x - from) <= reach
  {
  }

  /** Where a velocity step ends. */
  lemma VelocityFollows(prev: Command, next: Command, limits: Limits, dt: real, baseline: Option<real>)
    requires Sane(limits) && next.mode.Velocity?
    ensures var a := ApplyLimits(prev, next, limits, dt, baseline).command;
      var t := StepTime(dt);
      && Reaches(prev.speedMps, Cut(next.speedMps, -limits.maxSpeed, limits.maxSpeed), Over(limits.maxDeceleration, t), Over(limits.maxAcceleration, t), a.speedMps)
      && a.accelerationMps2 == (a.speedMps - prev.speedMps) / t
  {
    hide Clamp, Slew, Over, DtSafe, StepTime, Cut;
    StepTimeIs(dt);
    OverIs(limits.maxDeceleration, StepTime(dt)); OverIs(limits.maxAcceleration, StepTime(dt));
    ClampIsCut(next.speedMps, -limits.maxSpeed, limits.maxSpeed);
    ClampFollows(prev.speedMps, Cut(next.speedMps, -limits.maxSpeed, limits.maxSpeed), Over(limits.maxDeceleration, StepTime(dt)), Over(limits.maxAcceleration, StepTime(dt)));
  }

  /** The accelerations that the limits and the jerk since the last step allow. */
  predicate Allowed(limits: Limits, prev: Command, t: real, x: real) {
    && -limits.maxDeceleration <= x <= limits.maxAcceleration
    && prev.accelerationMps2 - limits.maxJerk * t <= x <= prev.accelerationMps2 + limits.maxJerk * t
  }

  lemma NearestIn(request: real, lo: real, hi: real, from: real, jerk: real, x: real)
    requires lo <= from <= hi && jerk >= 0.0
    ensures var r := Clamp(Clamp(request, lo, hi), from - jerk, from + jerk);
      && lo <= r <= hi && from - jerk <= r <= from + jerk
      && (lo <= x <= hi && from - jerk <= x <= from + jerk ==> Abs(r - request) <= Abs(x - request))
  {
  }

  /** The speed after accelerating for a time. */
  function SpeedAfter(speed: real, acceleration: real, t: real): real { speed + acceleration * t }

  lemma SpeedAfterIs(speed: real, acceleration: real, t: real)
    ensures SpeedAfter(speed, acceleration, t) == speed + Over(acceleration, t)
  {
  }

  /** An acceleration step applies the allowed acceleration nearest to the request, and the speed advances by it. */
  lemma AccelerationFollows(prev: Command, next: Command, limits: Limits, dt: real, baseline: Option<real>, x: real)
    requires Sane(limits) && InEnvelope(limits, prev) && next.mode.Acceleration?
    ensures var a := ApplyLimits(prev, next, limits, dt, baseline).command;
      && Allowed(limits, prev, StepTime(dt), a.accelerationMps2)
      && (Allowed(limits, prev, StepTime(dt), x) ==> Abs(a.accelerationMps2 - next.accelerationMps2) <= Abs(x - next.accelerationMps2))
    ensures var a, t := ApplyLimits(prev, next, limits, dt, baseline).command, StepTime(dt);
      a.speedMps == Cut(SpeedAfter(prev.speedMps, a.accelerationMps2, t), -limits.maxSpeed, limits.maxSpeed)
  {
    hide Clamp, Slew, Over, DtSafe, StepTime, Abs, Cut, SpeedAfter;
    var t := StepTime(dt);
    StepTimeIs(dt);
    OverIs(limits.maxJerk, t);
    NearestIn(next.accelerationMps2, -limits.maxDeceleration, limits.maxAcceleration, prev.accelerationMps2, Over(limits.maxJerk, t), x);
    var a := ApplyLimits(prev, next, limits, dt, baseline).command;
    assert a.accelerationMps2 == LimitSpeed(prev, next, limits, dt).command.accelerationMps2;
    SpeedAfterIs(prev.speedMps, a.accelerationMps2, t);
    ClampIsCut(prev.speedMps + Over(a.accelerationMps2, t), -limits.maxSpeed, limits.maxSpeed);
  }

  /* ---------- flags ---------- */

  /** The speed limit or an acceleration limit cuts the command off. */
  predicate SpeedIsCut(prev: Command, next: Command, a: Command, limits: Limits, t: real) {
    match next.mode
    case Velocity => Abs(next.speedMps) > limits.maxSpeed
    case Acceleration =>
      || next.accelerationMps2 < -limits.maxDeceleration || next.accelerationMps2 > limits.maxAcceleration
      || Abs(SpeedAfter(prev.speedMps, a.accelerationMps2, t)) > limits.maxSpeed
    case _ => false
  }

  /** What is left of the command is out of the step's reach. */
  predicate SpeedIsLate(prev: Command, next: Command, limits: Limits, t: real) {
    match next.mode
    case Velocity =>
      var goal := Cut(next.speedMps, -limits.maxSpeed, limits.maxSpeed);
      goal < prev.speedMps - limits.maxDeceleration * t || goal > prev.speedMps + limits.maxAcceleration * t
    case Acceleration =>
      Abs(Cut(next.accelerationMps2, -limits.maxDeceleration, limits.maxAcceleration) - prev.accelerationMps2) > limits.maxJerk * t
    case _ => false
  }

  predicate SteeringIsCut(prev: Command, next: Command, limits: Limits) {
    Abs(SteeringGoal(prev, next)) > SteeringStop(limits.maxSteeringAngle)
  }

  predicate SteeringIsLate(prev: Command, next: Command, limits: Limits, dt: real, from: real) {
    var stop := SteeringStop(limits.maxSteeringAngle);
    Abs(Cut(SteeringGoal(prev, next), -stop, stop) - from) > limits.maxSteeringRate * dt
  }

  /** The flags say exactly whether the command was cut off and whether it was out of reach. */
  lemma FlagsIff(prev: Command, next: Command, limits: Limits, dt: real, baseline: Option<real>)
    requires Sane(limits)
    ensures var l := ApplyLimits(prev, next, limits, dt, baseline);
      var from := if baseline.Some? then baseline.value else prev.steeringRadThree;
      && (l.saturated <==> SpeedIsCut(prev, next, l.command, limits, StepTime(dt)) || (Turns(limits, dt) && SteeringIsCut(prev, next, limits)))
      && (l.rateLimited <==> SpeedIsLate(prev, next, limits, StepTime(dt)) || (Turns(limits, dt) && SteeringIsLate(prev, next, limits, dt, from)))
  {
    hide LimitSpeed, Slew, SteeringStop, SpeedIsCut, SpeedIsLate, Abs, Cut;
    var from := if baseline.Some? then baseline.value else prev.steeringRadThree;
    SpeedKeepsSteering(prev, next, limits, dt);
    SpeedFlags(prev, next, limits, dt);
    if Turns(limits, dt) { SlewFollows(from, SteeringGoal(prev, next), limits, dt); } else { SlewRests(from, SteeringGoal(prev, next), limits, dt); }
    var a, b := LimitSpeed(prev, next, limits, dt).command, ApplyLimits(prev, next, limits, dt, baseline).command;
    SameAcceleration(prev, next, a, b, limits, StepTime(dt));
  }

  lemma SameAcceleration(prev: Command, next: Command, a: Command, b: Command, limits: Limits, t: real)
    requires a.accelerationMps2 == b.accelerationMps2
    ensures SpeedIsCut(prev, next, a, limits, t) == SpeedIsCut(prev, next, b, limits, t)
  {
    hide SpeedAfter, Abs;
  }

  lemma SlewRests(from: real, goal: real, limits: Limits, dt: real)
    requires !Turns(limits, dt)
    ensures Slew(from, goal, limits.maxSteeringAngle, limits.maxSteeringRate, dt) == Slewed(from, false, false)
  {
  }

  lemma SpeedFlags(prev: Command, next: Command, limits: Limits, dt: real)
    requires Sane(limits)
    ensures var l := LimitSpeed(prev, next, limits, dt);
      && (l.saturated <==> SpeedIsCut(prev, next, l.command, limits, StepTime(dt)))
      && (l.rateLimited <==> SpeedIsLate(prev, next, limits, StepTime(dt)))
  {
    hide Clamp, Over, DtSafe, StepTime, Abs, Cut, SpeedAfter;
    var t := StepTime(dt);
    StepTimeIs(dt);
    match next.mode
    case Velocity =>
      var goal, down, up := Cut(next.speedMps, -limits.maxSpeed, limits.maxSpeed), Over(limits.maxDeceleration, t), Over(limits.maxAcceleration, t);
      OverIs(limits.maxDeceleration, t); OverIs(limits.maxAcceleration, t);
      ClampIsCut(next.speedMps, -limits.maxSpeed, limits.maxSpeed);
      CutIsOtherOrNone(next.speedMps, limits.maxSpeed);
      ClampFollows(prev.speedMps, goal, down, up);
    case Acceleration =>
      var goal, jerk := Cut(next.accelerationMps2, -limits.maxDeceleration, limits.maxAcceleration), Over(limits.maxJerk, t);
      OverIs(limits.maxJerk, t);
      ClampIsCut(next.accelerationMps2, -limits.maxDeceleration, limits.maxAcceleration);
      CutIsOutside(next.accelerationMps2, -limits.maxDeceleration, limits.maxAcceleration);
      ClampFollows(prev.accelerationMps2, goal, jerk, jerk);
      WithinIsAbs(goal, prev.accelerationMps2, jerk);
      SpeedAfterIs(prev.speedMps, LimitSpeed(prev, next, limits, dt).command.accelerationMps2, t);
    case _ =>
  }

  lemma CutIsOtherOrNone(x: real, stop: real)
    requires stop >= 0.0
    ensures Cut(x, -stop, stop) != x <==> Abs(x) > stop
  {
  }

  lemma CutIsOutside(x: real, lo: real, hi: real)
    requires lo <= hi
    ensures Cut(x, lo, hi) != x <==> x < lo || x > hi
  {
  }

  /* ---------- runs ---------- */

  /** Whatever else is submitted, at every step the limiter gets a command of this speed. */
  predicate AlwaysDrives(c: Controls, limits: Limits, v: Vehicle, es: seq<Event>, speed: real)
    decreases |es|
  {
    es == [] || ((es[0].Stepped? ==> EverCommanded(c, v) && Drives(Effective(c, limits, v, es[0].tick.timeNs), speed))
                 && AlwaysDrives(c, limits, Apply(c, limits, v, es[0]), es[1..], speed))
  }

  predicate Drives(d: Command, speed: real) { d.mode.Velocity? && d.speedMps == speed }

  /** What a limit amounts to over the steps of a run. */
  function Summed(limit: real, es: seq<Event>): real {
    if es == [] then 0.0 else (if es[0].Stepped? then Over(limit, StepTime(es[0].tick.dt)) else 0.0) + Summed(limit, es[1..])
  }

  lemma {:induction false} SummedIsPositive(limit: real, es: seq<Event>)
    requires limit >= 0.0
    ensures Summed(limit, es) >= 0.0
  {
    hide StepTime, Over;
    if es != [] {
      if es[0].Stepped? { StepTimeIs(es[0].tick.dt); OverIs(limit, StepTime(es[0].tick.dt)); }
      SummedIsPositive(limit, es[1..]);
    }
  }

  lemma DrivingStep(c: Controls, limits: Limits, v: Vehicle, t: Tick, speed: real)
    requires Sane(limits) && EverCommanded(c, v) && Drives(Effective(c, limits, v, t.timeNs), speed)
    ensures Reaches(v.state.applied.speedMps, Cut(speed, -limits.maxSpeed, limits.maxSpeed),
      Over(limits.maxDeceleration, StepTime(t.dt)), Over(limits.maxAcceleration, StepTime(t.dt)), Step(c, limits, v, t).state.applied.speedMps)
  {
    hide Effective, ApplyLimits, Judged, Pushed, Cut, StepTime, Over, Reaches;
    OverIs(limits.maxDeceleration, StepTime(t.dt)); OverIs(limits.maxAcceleration, StepTime(t.dt));
    VelocityFollows(v.state.applied, Effective(c, limits, v, t.timeNs), limits, t.dt, t.baseline);
  }

  lemma FollowsOn(from: real, goal: real, down: real, up: real, middle: real, down': real, up': real, r: real)
    requires down >= 0.0 && up >= 0.0 && down' >= 0.0 && up' >= 0.0
    requires Reaches(from, goal, down, up, middle) && Reaches(middle, goal, down', up', r)
    ensures Reaches(from, goal, down + down', up + up', r)
  {
  }

  /**
   * A constant velocity command is reached exactly once the summed reach of the steps covers the gap, and until then the
   * speed is where that reach ends, on its side.
   */
  lemma {:induction false} SpeedIsReachedIff(c: Controls, limits: Limits, v: Vehicle, es: seq<Event>, speed: real)
    requires Sane(limits) && AlwaysDrives(c, limits, v, es, speed)
    ensures Reaches(v.state.applied.speedMps, Cut(speed, -limits.maxSpeed, limits.maxSpeed),
      Summed(limits.maxDeceleration, es), Summed(limits.maxAcceleration, es), Run(c, limits, v, es).state.applied.speedMps)
    decreases |es|
  {
    if es != [] {
      hide Effective, Step, EverCommanded, Cut, StepTime, Over, Drives;
      var v', from, goal := Apply(c, limits, v, es[0]), v.state.applied.speedMps, Cut(speed, -limits.maxSpeed, limits.maxSpeed);
      SpeedIsReachedIff(c, limits, v', es[1..], speed);
      SummedIsPositive(limits.maxDeceleration, es[1..]); SummedIsPositive(limits.maxAcceleration, es[1..]);
      var r := Run(c, limits, v', es[1..]).state.applied.speedMps;
      if es[0].Stepped? {
        var t := es[0].tick;
        DrivingStep(c, limits, v, t, speed);
        StepTimeIs(t.dt);
        OverIs(limits.maxDeceleration, StepTime(t.dt)); OverIs(limits.maxAcceleration, StepTime(t.dt));
        FollowsOn(from, goal, Over(limits.maxDeceleration, StepTime(t.dt)), Over(limits.maxAcceleration, StepTime(t.dt)), v'.state.applied.speedMps,
          Summed(limits.maxDeceleration, es[1..]), Summed(limits.maxAcceleration, es[1..]), r);
      } else {
        SubmittingKeepsApplied(c, limits, v, es[0]);
      }
    }
  }

  lemma SubmittingKeepsApplied(c: Controls, limits: Limits, v: Vehicle, e: Event)
    requires !e.Stepped?
    ensures Apply(c, limits, v, e).state.applied == v.state.applied
  {
    hide Normalize;
  }

  /** As long as a velocity command does not expire, silent steps without a response delay go on driving it. */
  lemma {:induction false} UnexpiredDrives(c: Controls, limits: Limits, v: Vehicle, s: Command, es: seq<Event>, last: int)
    requires Follows(c, v, s, last) && Silent(es) && Spaced(es, last, c.watchdogNs.value) && limits.responseDelayNs == 0 && s.mode.Velocity?
    requires es != [] ==> !Expired(c, s, EndTime(es, last))
    ensures AlwaysDrives(c, limits, v, es, s.speedMps)
    decreases |es|
  {
    hide Step, Follows, TimedOut, EverCommanded, Desired, Expired, Watched;
    WatchedWhenFollowed(c, v, s, last);
    if es != [] {
      var t := es[0].tick;
      SilentStep(c, limits, v, s, t, last);
      SpacedFrom(es[1..], t.timeNs, c.watchdogNs.value);
      assert EndTime(es, last) == EndTime(es[1..], t.timeNs);
      if Expired(c, s, t.timeNs) { ExpiredLater(c, s, t.timeNs, EndTime(es, last)); }
      assert Effective(c, limits, v, t.timeNs) == s;
      UnexpiredDrives(c, limits, Step(c, limits, v, t), s, es[1..], t.timeNs);
    }
  }

  /**
   * So a vehicle that is left alone with a velocity command, as long as this has not expired, is at the commanded speed, cut
   * to the limit, exactly if the steps have had the time for it, and else as close as they could bring it.
   */
  lemma LeftAloneReachesIff(c: Controls, limits: Limits, v: Vehicle, s: Command, es: seq<Event>, last: int)
    requires Sane(limits) && Follows(c, v, s, last) && Silent(es) && Spaced(es, last, c.watchdogNs.value)
    requires limits.responseDelayNs == 0 && s.mode.Velocity? && (es != [] ==> !Expired(c, s, EndTime(es, last)))
    ensures Reaches(v.state.applied.speedMps, Cut(s.speedMps, -limits.maxSpeed, limits.maxSpeed),
      Summed(limits.maxDeceleration, es), Summed(limits.maxAcceleration, es), Run(c, limits, v, es).state.applied.speedMps)
  {
    hide *;
    UnexpiredDrives(c, limits, v, s, es, last);
    SpeedIsReachedIff(c, limits, v, es, s.speedMps);
  }
}
