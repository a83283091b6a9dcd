/** The actuator sink as it runs: maps of per-vehicle state that submissions and fixed steps update in place. */
module ControlRuntime {
  import opened Bytes
  import opened Reals
  import opened ControlCommands
  import ControlStep
  import opened ControlHistory

  type Vehicle = ControlStep.Vehicle
  type State = ControlStep.State
  type Limits = ControlStep.Limits
  type Entry = ControlStep.Entry

  class Runtime {
    var controls: ControlStep.Controls
    var target: string
    var overrides: ControlStep.Partial
    var limitsByVehicle: map<string, Limits>
    var states: map<string, State>
    var pendingByVehicle: map<string, map<string, Command>>
    var delayQueues: map<string, seq<Entry>>

    ghost predicate Valid()
      reads `states, `delayQueues
    {
      delayQueues.Keys <= states.Keys
    }

    /** The limits of a vehicle; the original stores merged defaults on first use, which no caller can tell apart. */
    function LimitsOf(id: string): Limits
      reads `limitsByVehicle, `overrides
    {
      if id in limitsByVehicle then limitsByVehicle[id] else ControlStep.MergeLimits(ControlStep.NoLimits, overrides)
    }

    /** The vehicle as the pure model sees it. */
    function VehicleOf(id: string): Vehicle
      reads this
    {
      ControlStep.Vehicle(
        if id in states then states[id] else ControlStep.InitialState,
        if id in pendingByVehicle then pendingByVehicle[id] else map[],
        QueueOf(id))
    }

    function QueueOf(id: string): seq<Entry>
      reads `delayQueues
    {
      if id in delayQueues then delayQueues[id] else []
    }

    constructor (controls: ControlStep.Controls, target: string, overrides: ControlStep.Partial)
      ensures Valid() && this.controls == controls && this.target == target && this.overrides == overrides
      ensures limitsByVehicle == map[] && forall id :: VehicleOf(id) == ControlStep.NewVehicle
    {
      this.controls, this.target, this.overrides := controls, target, overrides;
      limitsByVehicle, states, pendingByVehicle, delayQueues := map[], map[], map[], map[];
    }

    method Reset()
      modifies `states, `pendingByVehicle, `delayQueues
      ensures Valid() && forall id :: VehicleOf(id) == ControlStep.NewVehicle
    {
      states, pendingByVehicle, delayQueues := map[], map[], map[];
    }

    method SetVehicleLimits(id: string, limits: ControlStep.Partial)
      modifies `limitsByVehicle
      ensures LimitsOf(id) == ControlStep.MergeLimits(limits, overrides) && forall other :: other != id ==> LimitsOf(other) == old(LimitsOf(other))
    {
      limitsByVehicle := limitsByVehicle[id := ControlStep.MergeLimits(limits, overrides)];
    }

    method SubmitCommand(id: string, command: Command, producer: string)
      requires Valid()
      modifies `states, `pendingByVehicle
      ensures Valid() && id in states && id in pendingByVehicle
      ensures VehicleOf(id) == ControlStep.Submit(controls, old(VehicleOf(id)), command, producer)
      ensures states == old(states)[id := states[id]] && pendingByVehicle == old(pendingByVehicle)[id := pendingByVehicle[id]]
    {
      var cmd := command.(producer := producer);
      var submitted := if id in pendingByVehicle then pendingByVehicle[id] else map[];
      pendingByVehicle := pendingByVehicle[id := submitted[producer := cmd]];
      var state := if id in states then states[id] else ControlStep.InitialState;
      if producer == controls.authority { state := state.(requested := Some(cmd)); }
      states := states[id := state];
    }

    method IngestStampedCommand(id: string, drive: Option<Drive>, applyTimeNs: int, producer: string) returns (code: Option<Rejection>)
      requires Valid()
      modifies `states, `pendingByVehicle
      ensures Valid()
      ensures code == ControlStep.IngestRejection(old(VehicleOf(id)), drive, applyTimeNs, producer)
      ensures VehicleOf(id) == ControlStep.Ingest(controls, old(VehicleOf(id)), drive, applyTimeNs, producer)
      ensures id in states && states == old(states)[id := states[id]]
      ensures forall other :: other != id && other in old(pendingByVehicle) ==>
        other in pendingByVehicle && pendingByVehicle[other] == old(pendingByVehicle)[other]
      ensures pendingByVehicle.Keys <= old(pendingByVehicle).Keys + {id}
    {
      hide Normalize;
      var normalized := Normalize(drive, applyTimeNs, producer);
      if id !in states { states := states[id := ControlStep.InitialState]; }
      if normalized.Rejected? {
        states := states[id := states[id].(status := ControlStep.Refused(normalized.code))];
        return Some(normalized.code);
      }
      if normalized.command.sequence <= states[id].lastSequence {
        states := states[id := states[id].(status := ControlStep.Refused(SequenceRegression))];
        return Some(SequenceRegression);
      }
      SubmitCommand(id, normalized.command, producer);
      states := states[id := states[id].(lastSequence := ControlStep.MaxInt(states[id].lastSequence, normalized.command.sequence))];
      return None;
    }

    /** Releases what is ready at the head of the queue; the last command released, if any, counts. */
    method Release(queue: seq<Entry>, timeNs: int) returns (released: Option<Command>, rest: seq<Entry>)
      ensures rest == queue[ControlStep.Ready(queue, timeNs)..]
      ensures released == (var n := ControlStep.Ready(queue, timeNs); if n == 0 then None else Some(queue[n - 1].command))
    {
      released, rest := None, queue;
      ghost var n := 0;
      while rest != [] && rest[0].readyNs <= timeNs
        invariant 0 <= n <= |queue| && rest == queue[n..]
        invariant forall i :: 0 <= i < n ==> queue[i].readyNs <= timeNs
        invariant released == if n == 0 then None else Some(queue[n - 1].command)
        decreases |rest|
      {
        released, rest := Some(rest[0].command), rest[1..];
        n := n + 1;
      }
      ReadyIsUnique(queue, timeNs, n);
    }

    /** Notes what was submitted and selects a command by authority. */
    method Select(state0: State, pending: map<string, Command>, ghost v: Vehicle) returns (state: State, selected: Option<Command>)
      requires v.state == state0 && v.pending == pending
      ensures selected == ControlStep.Selected(controls, v) && state == ControlStep.Noted(controls, v)
    {
      state := state0;
      if "candidate" in pending { state := state.(requested := Some(pending["candidate"])); }
      if "reference" in pending && controls.authority != "reference" && controls.referenceShadow {
        state := state.(reference := Some(pending["reference"]));
      }
      selected := state.selected;
      if "bypass" in pending {
        selected := Some(pending["bypass"]);
      } else if controls.authority == "reference" {
        if "reference" in pending { selected := Some(pending["reference"]); }
      } else if "candidate" in pending {
        selected := Some(pending["candidate"]);
      }
    }

    method HasTimedOut(lastHeartbeatNs: Option<int>, selected: Option<Command>, timeNs: int, ghost v: Vehicle) returns (timedOut: bool)
      requires ControlStep.EverCommanded(controls, v) && selected == ControlStep.Selected(controls, v)
      requires lastHeartbeatNs == v.state.lastHeartbeatNs
      ensures timedOut == ControlStep.TimedOut(controls, v, timeNs) && (!timedOut ==> selected.Some?)
    {
      hide ControlStep.Selected;
      if selected.None? { return true; }
      var s := selected.value;
      if controls.watchdogNs.None? || controls.watchdogNs.value <= 0 { return false; }
      var heartbeat := if s.captureTimeNs.Some? then s.captureTimeNs else lastHeartbeatNs;
      if heartbeat.None? || timeNs - heartbeat.value > controls.watchdogNs.value { return true; }
      return s.deadlineNs.Some? && s.deadlineNs.value > 0.0 && timeNs as real > s.deadlineNs.value;
    }

    /** The state after the selected command is accepted or found stale, and the command to carry out. */
    method Judge(noted: State, selected: Option<Command>, timeNs: int, ghost v: Vehicle) returns (state: State, desired: Command)
      requires ControlStep.EverCommanded(controls, v) && selected == ControlStep.Selected(controls, v)
      requires noted == ControlStep.Noted(controls, v)
      ensures state == ControlStep.Judged(controls, v, timeNs) && desired == ControlStep.Desired(controls, v, timeNs)
    {
      hide ControlStep.Selected, ControlStep.TimedOut, ControlStep.EverCommanded;
      var timedOut := HasTimedOut(noted.lastHeartbeatNs, selected, timeNs, v);
      if timedOut {
        desired := ControlStep.StaleCommand(controls, noted, timeNs);
        state := noted.(timedOut := true, status := ControlStep.Timeout,
                        fallbackActive := controls.stalePolicy.FallbackPolicy? && controls.fallbackCommand.Some?);
      } else {
        desired := selected.value;
        state := noted.(timedOut := false, status := ControlStep.Live, fallbackActive := false,
                        lastSequence := ControlStep.MaxInt(noted.lastSequence, desired.sequence),
                        lastHeartbeatNs := if desired.captureTimeNs.Some? then desired.captureTimeNs else Some(timeNs),
                        selected := selected);
      }
    }

    /** The next state of one vehicle, and its queue. */
    method Advance(state0: State, pending: map<string, Command>, queue0: seq<Entry>, limits: Limits, tick: ControlStep.Tick)
      returns (state: State, queue: seq<Entry>)
      ensures ControlStep.Vehicle(state, map[], queue)
           == ControlStep.Step(controls, limits, ControlStep.Vehicle(state0, pending, queue0), tick)
    {
      hide ControlStep.Selected, ControlStep.Noted, ControlStep.Judged, ControlStep.Desired, ControlStep.ApplyLimits, ControlStep.Ready;
      ghost var v := ControlStep.Vehicle(state0, pending, queue0);
      var selected: Option<Command>;
      var desired: Command;
      state, selected := Select(state0, pending, v);
      queue := queue0;
      if state0.lastSequence < 0 && state0.selected.None? && selected.None? {
        state := state.(status := ControlStep.Awaiting);
        return;
      }
      state, desired := Judge(state, selected, tick.timeNs, v);
      var effective := desired;
      if limits.responseDelayNs > 0 {
        var released: Option<Command>;
        released, queue := Release(queue0 + [ControlStep.Entry(tick.timeNs + limits.responseDelayNs, desired)], tick.timeNs);
        effective := if released.Some? then released.value else state0.applied;
      }
      var limited := ControlStep.ApplyLimits(state0.applied, effective, limits, tick.dt, tick.baseline);
      state := state.(applied := limited.command, saturated := limited.saturated,
                      rateLimited := limited.rateLimited, delayed := limits.responseDelayNs > 0);
    }

    method StepVehicle(id: string, tick: ControlStep.Tick)
      requires Valid()
      modifies `states, `delayQueues
      ensures Valid()
      ensures var v := ControlStep.Step(controls, LimitsOf(id), old(VehicleOf(id)), tick);
        Advanced(v, id) && states.Keys == old(states).Keys + {id}
      ensures forall other :: other != id ==> VehicleOf(other) == old(VehicleOf(other))
      ensures forall other, v :: other != id ==> (Advanced(v, other) <==> old(Advanced(v, other)))
    {
      hide ControlStep.Step;
      var state := if id in states then states[id] else ControlStep.InitialState;
      var pending := if id in pendingByVehicle then pendingByVehicle[id] else map[];
      var queue := if id in delayQueues then delayQueues[id] else [];
      state, queue := Advance(state, pending, queue, LimitsOf(id), tick);
      states := states[id := state];
      delayQueues := delayQueues[id := queue];
    }

    /** Every known vehicle takes one step from its own state, and what was submitted is used up. */
    method Step(timeNs: int, dt: real, baselines: map<string, real>)
      requires Valid()
      modifies `states, `delayQueues, `pendingByVehicle
      ensures Valid() && pendingByVehicle == map[]
      ensures states.Keys == {target} + old(states).Keys + old(pendingByVehicle).Keys
      ensures forall id :: id in states ==> Advanced(ControlStep.Step(controls, LimitsOf(id), old(VehicleOf(id)), TickFor(id, timeNs, dt, baselines)), id)
    {
      hide ControlStep.Step, LimitsOf, TickFor, VehicleOf, Advanced, Valid;
      var ids := {target} + states.Keys + pendingByVehicle.Keys;
      var todo := ids;
      while todo != {}
        invariant Valid() && todo <= ids && ids - todo <= states.Keys <= ids && pendingByVehicle == old(pendingByVehicle)
        invariant forall id :: id in todo ==> VehicleOf(id) == old(VehicleOf(id))
        invariant forall id :: id in ids && id !in todo ==>
          Advanced(ControlStep.Step(controls, LimitsOf(id), old(VehicleOf(id)), TickFor(id, timeNs, dt, baselines)), id)
        decreases todo
      {
        var id :| id in todo;
        StepVehicle(id, TickFor(id, timeNs, dt, baselines));
        todo := todo - {id};
      }
      pendingByVehicle := map[];
    }

    /** The vehicle is in the state v, with the queue v. */
    predicate Advanced(v: Vehicle, id: string)
      reads `states, `delayQueues
    {
      id in states && states[id] == v.state && QueueOf(id) == v.queue
    }
  }

  function TickFor(id: string, timeNs: int, dt: real, baselines: map<string, real>): ControlStep.Tick {
    ControlStep.Tick(timeNs, dt, if id in baselines then Some(baselines[id]) else None)
  }
}
