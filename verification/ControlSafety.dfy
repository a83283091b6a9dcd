/** Silence and staleness: when a commanded vehicle must stop, and by when. */
module ControlSafety {
  import opened Bytes
  import opened Reals
  import opened ControlCommands
  import opened ControlStep
  import opened ControlHistory

  /** Every step of the run finds the command stale. Submissions may go on. */
  predicate AlwaysTimedOut(c: Controls, limits: Limits, v: Vehicle, es: seq<Event>)
    decreases |es|
  {
    es == [] || ((es[0].Stepped? ==> TimedOut(c, v, es[0].tick.timeNs))
                 && AlwaysTimedOut(c, limits, Apply(c, limits, v, es[0]), es[1..]))
  }

  /** Stale commands are replaced by a stop. */
  predicate StopsWhenStale(c: Controls) {
    c.stalePolicy.StopPolicy? || (c.stalePolicy.FallbackPolicy? && c.fallbackCommand.None?)
  }

  predicate Stopped(a: Command) {
    a.mode.Stop? && a.speedMps == 0.0 && a.accelerationMps2 == 0.0
  }

  /* ---------- a mode on its way through the delay queue ---------- */

  /** The step asks for a command of mode m. */
  predicate AsksFor(c: Controls, v: Vehicle, t: int, m: Mode) {
    EverCommanded(c, v) && Desired(c, v, t).mode == m
  }

  predicate AlwaysAsksFor(c: Controls, limits: Limits, v: Vehicle, es: seq<Event>, m: Mode)
    decreases |es|
  {
    es == [] || ((es[0].Stepped? ==> AsksFor(c, v, es[0].tick.timeNs, m))
                 && AlwaysAsksFor(c, limits, Apply(c, limits, v, es[0]), es[1..], m))
  }

  predicate Only(q: seq<Entry>, m: Mode) {
    forall i :: 0 <= i < |q| ==> q[i].command.mode == m
  }

  /** A command of mode m is among the entries due by the deadline, and no other mode is queued behind it. */
  predicate Coming(q: seq<Entry>, k: nat, deadline: int, m: Mode) {
    && k < |q| && Only(q[k..], m)
    && forall i :: 0 <= i <= k ==> q[i].readyNs <= deadline
  }

  /** The applied command has mode m, and nothing else is queued; a stop stands still. */
  predicate Settled(limits: Limits, v: Vehicle, m: Mode) {
    && v.state.applied.mode == m && (m.Stop? ==> Stopped(v.state.applied))
    && (limits.responseDelayNs > 0 ==> Only(v.queue, m))
  }

  ghost predicate Arriving(limits: Limits, v: Vehicle, deadline: int, m: Mode) {
    Settled(limits, v, m) || (limits.responseDelayNs > 0 && exists k: nat :: Coming(v.queue, k, deadline, m))
  }

  lemma LimiterKeepsMode(prev: Command, desired: Command, limits: Limits, dt: real, baseline: Option<real>)
    ensures var a := ApplyLimits(prev, desired, limits, dt, baseline).command; a.mode == desired.mode && (a.mode.Stop? ==> Stopped(a))
  {
    hide Slew, Clamp, DtSafe;
  }

  lemma Advances(queue: seq<Entry>, e: Entry, t: int, k: nat, deadline: int, m: Mode)
    requires Coming(queue, k, deadline, m) && e.command.mode == m
    ensures var q := queue + [e]; var n := Ready(q, t);
      && (n > k ==> q[n - 1].command.mode == m && Only(q[n..], m))
      && (n <= k ==> Coming(q[n..], k - n, deadline, m))
      && (deadline <= t ==> n > k)
  {
    hide Ready;
    var q := queue + [e];
    forall i | k <= i < |q| ensures q[i].command.mode == m {
      if i < |queue| { assert queue[k..][i - k] == q[i]; }
    }
    assert forall i :: 0 <= i <= k ==> q[i] == queue[i];
  }

  /** A step that asks for the mode cannot undo it on its way, and has applied it once the deadline is reached. */
  lemma AskingStep(c: Controls, limits: Limits, v: Vehicle, t: Tick, deadline: int, m: Mode)
    requires AsksFor(c, v, t.timeNs, m) && Arriving(limits, v, deadline, m)
    ensures Arriving(limits, Step(c, limits, v, t), deadline, m)
    ensures deadline <= t.timeNs ==> Settled(limits, Step(c, limits, v, t), m)
    ensures Settled(limits, v, m) ==> Settled(limits, Step(c, limits, v, t), m)
  {
    hide Desired, Judged, TimedOut, Selected, ApplyLimits, EverCommanded, Coming, Ready;
    var q := Pushed(c, limits, v, t.timeNs);
    LimiterKeepsMode(v.state.applied, Effective(c, limits, v, t.timeNs), limits, t.dt, t.baseline);
    if limits.responseDelayNs > 0 && !Settled(limits, v, m) {
      var k: nat :| Coming(v.queue, k, deadline, m);
      Advances(v.queue, q[|q| - 1], t.timeNs, k, deadline, m);
    }
  }

  /** The first step that asks for a mode puts it on its way, behind nothing that is due later. */
  lemma FirstAskingStep(c: Controls, limits: Limits, v: Vehicle, t: Tick, m: Mode)
    requires AsksFor(c, v, t.timeNs, m)
    requires forall i :: 0 <= i < |v.queue| ==> v.queue[i].readyNs <= t.timeNs + limits.responseDelayNs
    ensures Arriving(limits, Step(c, limits, v, t), t.timeNs + limits.responseDelayNs, m)
  {
    hide Desired, Judged, TimedOut, Selected, ApplyLimits, EverCommanded;
    var q := Pushed(c, limits, v, t.timeNs);
    LimiterKeepsMode(v.state.applied, Effective(c, limits, v, t.timeNs), limits, t.dt, t.baseline);
    if limits.responseDelayNs > 0 {
      var n := Ready(q, t.timeNs);
      assert q[|q| - 1].readyNs > t.timeNs;
      assert Coming(q[n..], |q| - 1 - n, t.timeNs + limits.responseDelayNs, m);
    }
  }

  lemma {:induction false} StillArriving(c: Controls, limits: Limits, v: Vehicle, es: seq<Event>, deadline: int, m: Mode)
    requires AlwaysAsksFor(c, limits, v, es, m) && Arriving(limits, v, deadline, m)
    ensures Arriving(limits, Run(c, limits, v, es), deadline, m)
    ensures (exists e :: e in es && e.Stepped? && deadline <= e.tick.timeNs) || Settled(limits, v, m) ==> Settled(limits, Run(c, limits, v, es), m)
    decreases |es|
  {
    hide AsksFor, Step;
    if es != [] {
      var v' := Apply(c, limits, v, es[0]);
      if es[0].Stepped? { AskingStep(c, limits, v, es[0].tick, deadline, m); }
      StillArriving(c, limits, v', es[1..], deadline, m);
      if exists e :: e in es && e.Stepped? && deadline <= e.tick.timeNs {
        var e :| e in es && e.Stepped? && deadline <= e.tick.timeNs;
        assert e == es[0] || e in es[1..];
      }
    }
  }

  /**
   * Let a new vehicle run for any time with steps in order, then let a step at t and every later one ask for mode m. As soon
   * as one of them is a response delay or more behind t, the applied command has that mode.
   */
  lemma ModeArrives(c: Controls, limits: Limits, before: seq<Event>, t: Tick, after: seq<Event>, start: int, m: Mode)
    requires InOrder(before + [Stepped(t)], start)
    requires var v := Run(c, limits, NewVehicle, before); AsksFor(c, v, t.timeNs, m) && AlwaysAsksFor(c, limits, Step(c, limits, v, t), after, m)
    requires limits.responseDelayNs == 0
      || exists e :: e in after && e.Stepped? && t.timeNs + limits.responseDelayNs <= e.tick.timeNs
    ensures Settled(limits, Run(c, limits, Step(c, limits, Run(c, limits, NewVehicle, before), t), after), m)
  {
    hide Run, Step, AsksFor, AlwaysAsksFor, InOrder, History, Ready;
    var v := Run(c, limits, NewVehicle, before);
    InOrderSplit(before, [Stepped(t)], start);
    QueueFromNew(c, limits, before, start);
    LastActiveBound(c, limits, NewVehicle, before, t, start);
    FirstAskingStep(c, limits, v, t, m);
    StillArriving(c, limits, Step(c, limits, v, t), after, t.timeNs + limits.responseDelayNs, m);
  }

  /* ---------- the bounded-time stop ---------- */

  lemma StaleAsksForStop(c: Controls, v: Vehicle, t: int)
    requires StopsWhenStale(c) && TimedOut(c, v, t)
    ensures AsksFor(c, v, t, Stop)
  {
  }

  lemma {:induction false} StaleAlwaysAsksForStop(c: Controls, limits: Limits, v: Vehicle, es: seq<Event>)
    requires StopsWhenStale(c) && AlwaysTimedOut(c, limits, v, es)
    ensures AlwaysAsksFor(c, limits, v, es, Stop)
    decreases |es|
  {
    hide TimedOut, AsksFor, Apply;
    if es != [] {
      if es[0].Stepped? { StaleAsksForStop(c, v, es[0].tick.timeNs); }
      StaleAlwaysAsksForStop(c, limits, Apply(c, limits, v, es[0]), es[1..]);
    }
  }

  /**
   * Bounded-time stop. Let a new vehicle run for any time with steps in order, then let a step at t find the command
   * stale, and every later step too. As soon as one of them is a response delay or more behind t, the applied command
   * is a stop at speed zero and stays one, whatever the delay queue still held and whatever is submitted meanwhile.
   */
  lemma StaleMeansStopped(c: Controls, limits: Limits, before: seq<Event>, t: Tick, after: seq<Event>, start: int)
    requires StopsWhenStale(c) && InOrder(before + [Stepped(t)], start)
    requires var v := Run(c, limits, NewVehicle, before); TimedOut(c, v, t.timeNs) && AlwaysTimedOut(c, limits, Step(c, limits, v, t), after)
    requires limits.responseDelayNs == 0
      || exists e :: e in after && e.Stepped? && t.timeNs + limits.responseDelayNs <= e.tick.timeNs
    ensures Stopped(Run(c, limits, Step(c, limits, Run(c, limits, NewVehicle, before), t), after).state.applied)
  {
    hide Run, Step, TimedOut, AlwaysTimedOut, InOrder, AsksFor, AlwaysAsksFor;
    var v := Run(c, limits, NewVehicle, before);
    StaleAsksForStop(c, v, t.timeNs);
    StaleAlwaysAsksForStop(c, limits, Step(c, limits, v, t), after);
    ModeArrives(c, limits, before, t, after, start, Stop);
  }

  /* ---------- silence ---------- */

  /** The events are steps only: nothing is submitted. */
  predicate Silent(es: seq<Event>) {
    forall i :: 0 <= i < |es| ==> es[i].Stepped?
  }

  predicate Watched(c: Controls) { c.watchdogNs.Some? && c.watchdogNs.value > 0 }

  predicate HasDeadline(s: Command) { s.deadlineNs.Some? && s.deadlineNs.value > 0.0 }

  /** The command can go stale at all. */
  predicate CanExpire(s: Command) { s.captureTimeNs.Some? || HasDeadline(s) }

  /** At time t the command is older than the watchdog allows, or past its deadline. */
  predicate Expired(c: Controls, s: Command, t: int)
    requires Watched(c)
  {
    (s.captureTimeNs.Some? && t - s.captureTimeNs.value > c.watchdogNs.value) || (HasDeadline(s) && t as real > s.deadlineNs.value)
  }

  /** Nothing is pending, s is selected, and if s has no capture time the last step that used it was at `last`. */
  predicate Follows(c: Controls, v: Vehicle, s: Command, last: int) {
    && Watched(c) && v.pending == map[] && v.state.selected == Some(s)
    && (s.captureTimeNs.None? ==> v.state.lastHeartbeatNs.Some? && (v.state.lastHeartbeatNs.value == last || Expired(c, s, last)))
  }

  /** Each step follows the one before it, and the first one `last`, within w. */
  predicate Spaced(es: seq<Event>, last: int, w: int)
    requires Silent(es)
  {
    es == [] || (last <= es[0].tick.timeNs <= last + w && Spaced(es[1..], es[0].tick.timeNs, w))
  }

  function EndTime(es: seq<Event>, last: int): int
    requires Silent(es)
  {
    if es == [] then last else es[|es| - 1].tick.timeNs
  }

  /** A silent step within the watchdog time finds the command stale exactly if it has expired. */
  lemma SilentStep(c: Controls, limits: Limits, v: Vehicle, s: Command, t: Tick, last: int)
    requires Follows(c, v, s, last) && last <= t.timeNs && (s.captureTimeNs.None? ==> t.timeNs <= last + c.watchdogNs.value)
    ensures EverCommanded(c, v) && (TimedOut(c, v, t.timeNs) <==> Expired(c, s, t.timeNs))
    ensures !TimedOut(c, v, t.timeNs) ==> Desired(c, v, t.timeNs) == s
    ensures Follows(c, Step(c, limits, v, t), s, t.timeNs)
    ensures Step(c, limits, v, t).state.timedOut <==> Expired(c, s, t.timeNs)
  {
    hide ApplyLimits, Effective, Pushed, StaleCommand;
    assert Selected(c, v) == Some(s);
  }

  /**
   * Over silent steps within the watchdog time of each other, a run of at least one step ends timed out exactly if its last
   * step is past the capture time by more than the watchdog, or past a positive deadline.
   */
  lemma {:induction false} SilenceTimesOutIff(c: Controls, limits: Limits, v: Vehicle, s: Command, es: seq<Event>, last: int)
    requires Follows(c, v, s, last) && Silent(es) && Spaced(es, last, c.watchdogNs.value)
    ensures Follows(c, Run(c, limits, v, es), s, EndTime(es, last))
    ensures es != [] ==> (Run(c, limits, v, es).state.timedOut <==> Expired(c, s, EndTime(es, last)))
    decreases |es|
  {
    hide Step, Expired, Follows, TimedOut, EverCommanded, Watched;
    WatchedWhenFollowed(c, v, s, last);
    if es != [] {
      var t := es[0].tick;
      SilentStep(c, limits, v, s, t, last);
      SilenceTimesOutIff(c, limits, Step(c, limits, v, t), s, es[1..], t.timeNs);
    }
  }

  lemma WatchedWhenFollowed(c: Controls, v: Vehicle, s: Command, last: int)
    requires Follows(c, v, s, last)
    ensures Watched(c) && c.watchdogNs.Some?
  {
  }

  lemma {:induction false} ExpiredStays(c: Controls, limits: Limits, v: Vehicle, s: Command, es: seq<Event>, from: int)
    requires Watched(c) && v.pending == map[] && v.state.selected == Some(s) && Silent(es)
    requires forall i :: 0 <= i < |es| ==> Expired(c, s, es[i].tick.timeNs)
    ensures AlwaysTimedOut(c, limits, v, es)
    decreases |es|
  {
    hide ApplyLimits, Effective, Pushed, StaleCommand;
    if es != [] {
      assert Selected(c, v) == Some(s);
      ExpiredStays(c, limits, Step(c, limits, v, es[0].tick), s, es[1..], from);
    }
  }

  lemma ExpiredLater(c: Controls, s: Command, t: int, u: int)
    requires Watched(c) && Expired(c, s, t) && t <= u
    ensures Expired(c, s, u)
  {
  }

  /**
   * A vehicle whose command has expired stops by itself: once nothing more is submitted, the first step past the watchdog or
   * the deadline starts the stop, and it is complete one response delay later.
   */
  lemma SilenceMeansStopped(c: Controls, limits: Limits, before: seq<Event>, t: Tick, after: seq<Event>, start: int, s: Command)
    requires StopsWhenStale(c) && Watched(c) && InOrder(before + [Stepped(t)], start)
    requires var v := Run(c, limits, NewVehicle, before); v.pending == map[] && v.state.selected == Some(s)
    requires Expired(c, s, t.timeNs) && Silent(after)
    requires forall i :: 0 <= i < |after| ==> after[i].tick.timeNs >= t.timeNs
    requires limits.responseDelayNs == 0
      || exists e :: e in after && e.Stepped? && t.timeNs + limits.responseDelayNs <= e.tick.timeNs
    ensures Stopped(Run(c, limits, Step(c, limits, Run(c, limits, NewVehicle, before), t), after).state.applied)
  {
    hide Run, Step, TimedOut, InOrder, Expired, Watched;
    var v := Run(c, limits, NewVehicle, before);
    var all := [Stepped(t)] + after;
    forall i | 0 <= i < |all| ensures Expired(c, s, all[i].tick.timeNs) {
      if i > 0 { ExpiredLater(c, s, t.timeNs, after[i - 1].tick.timeNs); }
    }
    ExpiredStays(c, limits, v, s, all, t.timeNs);
    assert all[0] == Stepped(t) && all[1..] == after;
    assert Apply(c, limits, v, all[0]) == Step(c, limits, v, t);
    StaleMeansStopped(c, limits, before, t, after, start);
  }

  /** A command that cannot expire is asked for by every silent step within the watchdog time. */
  lemma {:induction false} UnexpiringIsKept(c: Controls, limits: Limits, v: Vehicle, s: Command, es: seq<Event>, last: int)
    requires Follows(c, v, s, last) && Silent(es) && Spaced(es, last, c.watchdogNs.value) && !CanExpire(s)
    ensures AlwaysAsksFor(c, limits, v, es, s.mode)
    decreases |es|
  {
    hide Step, Follows, TimedOut, EverCommanded, Desired;
    WatchedWhenFollowed(c, v, s, last);
    if es != [] {
      var t := es[0].tick;
      SilentStep(c, limits, v, s, t, last);
      UnexpiringIsKept(c, limits, Step(c, limits, v, t), s, es[1..], t.timeNs);
    }
  }

  /** Some step is early enough for what it asks to have arrived by the end; if the command can expire, it has by then. */
  predicate LongEnough(c: Controls, limits: Limits, s: Command, es: seq<Event>, i: nat)
    requires Watched(c) && Silent(es)
  {
    && i < |es| && (CanExpire(s) ==> Expired(c, s, es[i].tick.timeNs))
    && es[i].tick.timeNs + limits.responseDelayNs <= es[|es| - 1].tick.timeNs
  }

  lemma {:induction false} SpacedParts(es: seq<Event>, last: int, w: int, i: nat)
    requires Silent(es) && Spaced(es, last, w) && i < |es|
    ensures Silent(es[..i]) && Silent(es[i + 1..]) && Spaced(es[..i], last, w) && Spaced(es[i + 1..], es[i].tick.timeNs, w)
    ensures EndTime(es[..i], last) <= es[i].tick.timeNs <= EndTime(es[..i], last) + w
    ensures forall j :: i < j < |es| ==> es[i].tick.timeNs <= es[j].tick.timeNs
    decreases |es|
  {
    if i > 0 {
      SpacedParts(es[1..], es[0].tick.timeNs, w, i - 1);
      assert es[1..][..i - 1] == es[..i][1..] && es[1..][i..] == es[i + 1..];
      forall j | i < j < |es| ensures es[i].tick.timeNs <= es[j].tick.timeNs { assert es[1..][j - 1] == es[j]; }
    } else if |es| > 1 {
      SpacedFrom(es[1..], es[0].tick.timeNs, w);
      forall j | 0 < j < |es| ensures es[0].tick.timeNs <= es[j].tick.timeNs { assert es[1..][j - 1] == es[j]; }
    }
  }

  lemma {:induction false} SpacedFrom(es: seq<Event>, last: int, w: int)
    requires Silent(es) && Spaced(es, last, w)
    ensures forall j :: 0 <= j < |es| ==> last <= es[j].tick.timeNs
    decreases |es|
  {
    if es != [] {
      SpacedFrom(es[1..], es[0].tick.timeNs, w);
      forall j | 0 < j < |es| ensures last <= es[j].tick.timeNs { assert es[1..][j - 1] == es[j]; }
    }
  }

  lemma {:induction false} RunAppend(c: Controls, limits: Limits, v: Vehicle, es: seq<Event>, fs: seq<Event>)
    ensures Run(c, limits, v, es + fs) == Run(c, limits, Run(c, limits, v, es), fs)
    decreases |es|
  {
    hide Apply;
    if es == [] { assert es + fs == fs; }
    else {
      assert (es + fs)[1..] == es[1..] + fs;
      RunAppend(c, limits, Apply(c, limits, v, es[0]), es[1..], fs);
    }
  }

  lemma RunFrom(c: Controls, limits: Limits, v: Vehicle, es: seq<Event>, i: nat)
    requires i < |es| && es[i].Stepped?
    ensures Run(c, limits, v, es) == Run(c, limits, Step(c, limits, Run(c, limits, v, es[..i]), es[i].tick), es[i + 1..])
  {
    hide Step;
    RunAppend(c, limits, v, es[..i], es[i..]);
    assert es == es[..i] + es[i..] && es[i..][0] == es[i] && es[i..][1..] == es[i + 1..];
  }

  predicate LateStep(limits: Limits, t: Tick, after: seq<Event>) {
    limits.responseDelayNs == 0 || exists e :: e in after && e.Stepped? && t.timeNs + limits.responseDelayNs <= e.tick.timeNs
  }

  lemma LateEnough(c: Controls, limits: Limits, s: Command, es: seq<Event>, i: nat, k: nat, last: int)
    requires Watched(c) && Silent(es) && Spaced(es, last, c.watchdogNs.value) && LongEnough(c, limits, s, es, i) && k <= i
    ensures LateStep(limits, es[k].tick, es[k + 1..])
  {
    hide Expired, Spaced;
    SpacedParts(es, last, c.watchdogNs.value, k);
    if limits.responseDelayNs > 0 { assert es[|es| - 1] in es[k + 1..]; }
  }

  /** The run up to step k, that step, and what follows. */
  lemma SplitAt(c: Controls, limits: Limits, before: seq<Event>, es: seq<Event>, start: int, s: Command, last: int, k: nat)
    requires Silent(es) && InOrder(before + es, start) && k < |es|
    requires Follows(c, Run(c, limits, NewVehicle, before), s, last) && Spaced(es, last, c.watchdogNs.value)
    ensures InOrder(before + es[..k] + [Stepped(es[k].tick)], start)
    ensures Silent(es[..k]) && Silent(es[k + 1..]) && Watched(c) && Spaced(es[k + 1..], es[k].tick.timeNs, c.watchdogNs.value)
    ensures var u := Run(c, limits, NewVehicle, before + es[..k]);
      && Follows(c, u, s, EndTime(es[..k], last)) && u.pending == map[] && u.state.selected == Some(s)
      && Run(c, limits, NewVehicle, before + es) == Run(c, limits, Step(c, limits, u, es[k].tick), es[k + 1..])
    ensures EndTime(es[..k], last) <= es[k].tick.timeNs <= EndTime(es[..k], last) + c.watchdogNs.value
    ensures forall j :: k < j < |es| ==> es[k].tick.timeNs <= es[j].tick.timeNs
  {
    hide Run, Step, InOrder, Expired, TimedOut, Spaced, EndTime;
    var v := Run(c, limits, NewVehicle, before);
    WatchedWhenFollowed(c, v, s, last);
    SpacedParts(es, last, c.watchdogNs.value, k);
    RunAppend(c, limits, NewVehicle, before, es);
    RunAppend(c, limits, NewVehicle, before, es[..k]);
    RunFrom(c, limits, v, es, k);
    SilenceTimesOutIff(c, limits, v, s, es[..k], last);
    assert before + es == before + es[..k] + [Stepped(es[k].tick)] + es[k + 1..];
    InOrderSplit(before + es[..k] + [Stepped(es[k].tick)], es[k + 1..], start);
  }

  lemma DrivesOn(c: Controls, limits: Limits, v: Vehicle, s: Command, t: Tick, after: seq<Event>, last: int)
    requires Follows(c, v, s, last) && last <= t.timeNs <= last + c.watchdogNs.value && !CanExpire(s)
    requires Silent(after) && Spaced(after, t.timeNs, c.watchdogNs.value)
    ensures AsksFor(c, v, t.timeNs, s.mode) && AlwaysAsksFor(c, limits, Step(c, limits, v, t), after, s.mode)
  {
    hide Step, Follows, TimedOut, EverCommanded, Desired, Spaced, AlwaysAsksFor;
    WatchedWhenFollowed(c, v, s, last);
    SilentStep(c, limits, v, s, t, last);
    UnexpiringIsKept(c, limits, Step(c, limits, v, t), s, after, t.timeNs);
  }

  /**
   * Does silence end in a stop? After any run that leaves a driving command selected, silent steps within the watchdog time
   * of each other that go on long enough end in a stop exactly if the command has a capture time or a positive deadline.
   */
  lemma SilenceStopsIff(c: Controls, limits: Limits, before: seq<Event>, es: seq<Event>, start: int, s: Command, last: int, i: nat)
    requires StopsWhenStale(c) && Silent(es) && InOrder(before + es, start) && !s.mode.Stop?
    requires Follows(c, Run(c, limits, NewVehicle, before), s, last) && Spaced(es, last, c.watchdogNs.value) && LongEnough(c, limits, s, es, i)
    ensures Stopped(Run(c, limits, NewVehicle, before + es).state.applied) <==> CanExpire(s)
  {
    hide Run, Step, InOrder, Follows, Expired, TimedOut, AlwaysAsksFor, Watched, Spaced, EndTime;
    var v, k := Run(c, limits, NewVehicle, before), if CanExpire(s) then i else 0;
    RunAppend(c, limits, NewVehicle, before, es);
    SplitAt(c, limits, before, es, start, s, last, k);
    var t, after, at := es[k].tick, es[k + 1..], before + es[..k];
    assert LateStep(limits, t, after) by { LateEnough(c, limits, s, es, i, k, last); }
    if CanExpire(s) {
      forall j | 0 <= j < |after| ensures after[j].tick.timeNs >= t.timeNs { assert after[j] == es[k + 1 + j]; }
      SilenceMeansStopped(c, limits, at, t, after, start, s);
    } else {
      var u := Run(c, limits, NewVehicle, at);
      DrivesOn(c, limits, u, s, t, after, EndTime(es[..k], last));
      ModeArrives(c, limits, at, t, after, start, s.mode);
    }
  }

  /* ---------- the first command ---------- */

  /** Before any heartbeat a command is taken up exactly if it has a capture time that is recent enough and no past deadline. */
  lemma FirstCommandIff(c: Controls, limits: Limits, v: Vehicle, s: Command, t: Tick)
    requires Watched(c) && v.state.lastHeartbeatNs.None? && Selected(c, v) == Some(s)
    ensures !TimedOut(c, v, t.timeNs) <==> s.captureTimeNs.Some? && !Expired(c, s, t.timeNs)
    ensures Step(c, limits, v, t).state.selected == if TimedOut(c, v, t.timeNs) then v.state.selected else Some(s)
    ensures Step(c, limits, v, t).state.lastHeartbeatNs == if TimedOut(c, v, t.timeNs) then None else s.captureTimeNs
  {
    hide ApplyLimits, Effective, Pushed, StaleCommand, Ready;
  }

  predicate Unstamped(e: Event) {
    && (e.Submitted? ==> e.command.captureTimeNs.None?)
    && (e.Ingested? && e.drive.Some? ==> !e.drive.value.stamp.At?)
  }

  /** No command that the vehicle holds has a capture time, and it has never had a heartbeat. */
  predicate NoHeartbeat(v: Vehicle) {
    && v.state.lastHeartbeatNs.None? && v.state.selected.None?
    && forall p :: p in v.pending ==> v.pending[p].captureTimeNs.None?
  }

  lemma UnstampedEvent(c: Controls, limits: Limits, v: Vehicle, e: Event)
    requires Watched(c) && NoHeartbeat(v) && Unstamped(e)
    ensures NoHeartbeat(Apply(c, limits, v, e))
    ensures e.Stepped? && EverCommanded(c, v) ==> TimedOut(c, v, e.tick.timeNs)
  {
    hide ApplyLimits, Effective, Pushed, StaleCommand, Ready;
  }

  predicate TimedOutWhenCommanded(c: Controls, limits: Limits, v: Vehicle, es: seq<Event>)
    decreases |es|
  {
    es == [] || ((es[0].Stepped? && EverCommanded(c, v) ==> TimedOut(c, v, es[0].tick.timeNs))
                 && TimedOutWhenCommanded(c, limits, Apply(c, limits, v, es[0]), es[1..]))
  }

  /** A vehicle that is only ever given commands without a capture time takes up none of them: every commanded step is stale. */
  lemma {:induction false} UnstampedNeverStarts(c: Controls, limits: Limits, v: Vehicle, es: seq<Event>)
    requires Watched(c) && NoHeartbeat(v) && forall i :: 0 <= i < |es| ==> Unstamped(es[i])
    ensures TimedOutWhenCommanded(c, limits, v, es) && Run(c, limits, v, es).state.selected.None?
    decreases |es|
  {
    hide Apply, Unstamped, TimedOut, EverCommanded;
    if es != [] {
      UnstampedEvent(c, limits, v, es[0]);
      UnstampedNeverStarts(c, limits, Apply(c, limits, v, es[0]), es[1..]);
    }
  }

  /* ---------- command order ---------- */

  function AcceptedNow(v: Vehicle, e: Event): seq<int> {
    if e.Ingested? && IngestRejection(v, e.drive, e.applyTimeNs, e.producer).None?
    then [Normalize(e.drive, e.applyTimeNs, e.producer).command.sequence] else []
  }

  lemma EventSequence(c: Controls, limits: Limits, v: Vehicle, e: Event)
    ensures var last, last' := v.state.lastSequence, Apply(c, limits, v, e).state.lastSequence;
      last <= last' && forall i :: 0 <= i < |AcceptedNow(v, e)| ==> last < AcceptedNow(v, e)[i] <= last'
    ensures |AcceptedNow(v, e)| <= 1
  {
    hide Normalize, ApplyLimits, Effective, Pushed, TimedOut, Selected, Desired, Ready, Lookup, CaptureTime;
  }

  /** The sequence numbers of the stamped commands that a run accepts. */
  function Accepted(c: Controls, limits: Limits, v: Vehicle, es: seq<Event>): seq<int>
    decreases |es|
  {
    if es == [] then []
    else AcceptedNow(v, es[0]) + Accepted(c, limits, Apply(c, limits, v, es[0]), es[1..])
  }

  predicate Increasing(a: seq<int>, floor: int) {
    && (forall i :: 0 <= i < |a| ==> floor < a[i])
    && (forall i, j :: 0 <= i < j < |a| ==> a[i] < a[j])
  }

  lemma IncreasingAppend(own: seq<int>, rest: seq<int>, floor: int, middle: int)
    requires |own| <= 1 && floor <= middle && (forall i :: 0 <= i < |own| ==> floor < own[i] <= middle)
    requires Increasing(rest, middle)
    ensures Increasing(own + rest, floor)
  {
    forall i | |own| <= i < |own + rest| ensures (own + rest)[i] > middle {
      assert (own + rest)[i] == rest[i - |own|];
    }
  }

  /** Whatever is submitted and stepped in between, accepted stamped commands are numbered in strictly increasing order. */
  lemma {:induction false} AcceptedIncrease(c: Controls, limits: Limits, v: Vehicle, es: seq<Event>)
    ensures Increasing(Accepted(c, limits, v, es), v.state.lastSequence)
    ensures v.state.lastSequence <= Run(c, limits, v, es).state.lastSequence
    decreases |es|
  {
    hide Apply, AcceptedNow;
    if es != [] {
      EventSequence(c, limits, v, es[0]);
      var v' := Apply(c, limits, v, es[0]);
      AcceptedIncrease(c, limits, v', es[1..]);
      IncreasingAppend(AcceptedNow(v, es[0]), Accepted(c, limits, v', es[1..]), v.state.lastSequence, v'.state.lastSequence);
    }
  }
}
