/**
  Properties of the elevator state machine over one tick and over many:
  single-step travel that never overshoots, the door cycle, and exact tick
  counts until an elevator with work in hand is idle again.
 */
module ElevatorProofs {

  import opened Operation
  import opened Elevators

  /** The floor a leg in progress ends on (the current floor once no travel is left). */
  function Destination(e: Elevator): i16
  {
    match e.movement
    case ReturnHome => 0
    case Down(_, until) => if e.currentFloor > until then until else e.currentFloor
    case Up(_, until) => if e.currentFloor < until then until else e.currentFloor
    case _ => e.currentFloor
  }

  /**
    Reference count of the ticks until the elevator is idle again: the
    floors still to travel, then open, close and idle (plus one for the
    decision to leave when returning home from another floor).
   */
  function TicksToIdle(e: Elevator): nat
  {
    match e.movement
    case Idle => 0
    case CloseDoor => 1
    case OpenDoor => 2
    case ReturnHome => if e.currentFloor == 0 then 3 else Distance(e.currentFloor, 0) + 4
    case Down(_, until) => if e.currentFloor > until then e.currentFloor as int - until as int + 3 else 3
    case Up(_, until) => if e.currentFloor < until then until as int - e.currentFloor as int + 3 else 3
  }

  /** `x` lies between `a` and `b`, in either order. */
  predicate Between(x: int, a: int, b: int)
  {
    (a <= x <= b) || (b <= x <= a)
  }

  /** Short of the target, a tick travels exactly one floor toward it and keeps the leg. */
  lemma TravelStep(e: Elevator)
    ensures e.movement.Down? && e.currentFloor > e.movement.until ==>
              Elevators.Tick(e) == e.(currentFloor := e.currentFloor - 1) && Elevators.Tick(e).currentFloor >= e.movement.until
    ensures e.movement.Up? && e.currentFloor < e.movement.until ==>
              Elevators.Tick(e) == e.(currentFloor := e.currentFloor + 1) && Elevators.Tick(e).currentFloor <= e.movement.until
  {
  }

  /** At or past the target, a leg ends with the doors opening on the same floor. */
  lemma ArrivalOpensDoor(e: Elevator)
    requires (e.movement.Down? && e.currentFloor <= e.movement.until)
          || (e.movement.Up? && e.currentFloor >= e.movement.until)
    ensures Elevators.Tick(e) == e.(movement := OpenDoor)
  {
  }

  /** Returning home starts a leg toward floor 0, or opens the doors when already there. */
  lemma ReturnHomeStarts(e: Elevator)
    requires e.movement.ReturnHome?
    ensures Elevators.Tick(e).currentFloor == e.currentFloor && Elevators.Tick(e).work == e.work
    ensures e.currentFloor > 0 ==> Elevators.Tick(e).movement == Down(e.currentFloor, 0)
    ensures e.currentFloor < 0 ==> Elevators.Tick(e).movement == Up(e.currentFloor, 0)
    ensures e.currentFloor == 0 ==> Elevators.Tick(e).movement == OpenDoor
  {
  }

  /** Open doors close, closed doors make the elevator idle; nothing else changes. */
  lemma DoorCycle(e: Elevator)
    ensures e.movement.OpenDoor? ==> Elevators.Tick(e) == e.(movement := CloseDoor)
    ensures e.movement.CloseDoor? ==> Elevators.Tick(e) == e.(movement := Idle)
  {
  }

  /** An idle elevator adopts the front of its queue, or stays put with an empty queue. */
  lemma IdleAdoptsNextJob(e: Elevator)
    requires e.movement.Idle?
    ensures e.work == [] ==> Elevators.Tick(e) == e
    ensures e.work != [] ==> Elevators.Tick(e) == e.(movement := e.work[0], work := e.work[1..])
  {
  }

  /** A tick is a no-op exactly for an idle elevator with nothing queued. */
  lemma TickFixpoint(e: Elevator)
    ensures Elevators.Tick(e) == e <==> e.movement.Idle? && e.work == []
  {
  }

  /** Never two changes in one tick: travel keeps the movement, a phase change keeps the floor. */
  lemma OneChangePerTick(e: Elevator)
    ensures Elevators.Tick(e).currentFloor == e.currentFloor || Elevators.Tick(e).movement == e.movement
    ensures Elevators.Tick(e).work == e.work || Elevators.Tick(e).currentFloor == e.currentFloor
  {
  }

  /** Each tick of a busy elevator uses up one tick of its budget and keeps the destination and queue. */
  lemma TickProgress(e: Elevator)
    requires !e.movement.Idle?
    ensures TicksToIdle(Elevators.Tick(e)) == TicksToIdle(e) - 1
    ensures Destination(Elevators.Tick(e)) == Destination(e)
    ensures Elevators.Tick(e).work == e.work
    ensures Between(Elevators.Tick(e).currentFloor as int, e.currentFloor as int, Destination(e) as int)
  {
  }

  /** One tick then `n` more is `n + 1` ticks. */
  lemma TicksShift(e: Elevator, n: nat)
    ensures Ticks(Elevators.Tick(e), n) == Ticks(e, n + 1)
  {
  }

  /**
    A busy elevator is idle on its destination after exactly `TicksToIdle`
    ticks, with its queue untouched, and not a tick earlier.
   */
  lemma {:induction false} ReachesIdle(e: Elevator)
    requires !e.movement.Idle?
    ensures Ticks(e, TicksToIdle(e)) == e.(movement := Idle, currentFloor := Destination(e))
    ensures forall k :: 0 <= k < TicksToIdle(e) ==> !Ticks(e, k).movement.Idle?
    decreases TicksToIdle(e)
  {
    var e' := Elevators.Tick(e);
    TickProgress(e);
    if e'.movement.Idle? {
      assert TicksToIdle(e) == 1;
    } else {
      ReachesIdle(e');
      forall k | 0 < k < TicksToIdle(e)
        ensures !Ticks(e, k).movement.Idle?
      {
        TicksShift(e, k - 1);
      }
    }
  }

  /**
    While a leg is in progress the floor stays between where it started and
    its destination, so it never overshoots.
   */
  lemma {:induction false} StaysOnCourse(e: Elevator, k: nat)
    requires !e.movement.Idle? && k <= TicksToIdle(e)
    ensures Between(Ticks(e, k).currentFloor as int, e.currentFloor as int, Destination(e) as int)
    ensures Destination(Ticks(e, k)) == Destination(e)
    decreases k
  {
    if k > 0 {
      var e' := Elevators.Tick(e);
      TickProgress(e);
      if e'.movement.Idle? {
        assert k == 1;
      } else {
        StaysOnCourse(e', k - 1);
      }
    }
  }

  /** Travelling down, the elevator is exactly `k` floors lower after `k` ticks until it reaches the target. */
  lemma {:induction false} DownTravel(e: Elevator, k: nat)
    requires e.movement.Down? && k <= e.currentFloor as int - e.movement.until as int
    ensures Ticks(e, k) == e.(currentFloor := (e.currentFloor as int - k) as i16)
    decreases k
  {
    if k > 0 {
      DownTravel(Elevators.Tick(e), k - 1);
    }
  }

  /** Travelling up, the elevator is exactly `k` floors higher after `k` ticks until it reaches the target. */
  lemma {:induction false} UpTravel(e: Elevator, k: nat)
    requires e.movement.Up? && k <= e.movement.until as int - e.currentFloor as int
    ensures Ticks(e, k) == e.(currentFloor := (e.currentFloor as int + k) as i16)
    decreases k
  {
    if k > 0 {
      UpTravel(Elevators.Tick(e), k - 1);
    }
  }

  /**
    From `ReturnHome` on floor `f` the elevator is idle on floor 0 after
    |f| + 4 ticks (3 when `f` is 0), its queue untouched, and busy before.
   */
  lemma ReturnHomeTicks(e: Elevator)
    requires e.movement.ReturnHome?
    ensures var n := if e.currentFloor == 0 then 3 else Distance(e.currentFloor, 0) + 4;
            && Ticks(e, n) == e.(movement := Idle, currentFloor := 0)
            && forall k :: 0 <= k < n ==> !Ticks(e, k).movement.Idle?
  {
    ReachesIdle(e);
  }

  /** A freshly spawned elevator (floor 10, return-home queued) is idle on floor 0 with an empty queue after 15 ticks. */
  lemma SpawnReturnsHome(id: u8)
    ensures Ticks(Spawn(id), 15) == New(id, 0)
  {
    var e := Spawn(id);
    var e' := Elevators.Tick(e);
    assert e' == Elevator(id, ReturnHome, StartingFloor, []);
    ReturnHomeTicks(e');
    TicksShift(e, 14);
  }

  /** The number of `Tick` commands in a command sequence. */
  function CountTicks(cmds: seq<Command>): nat
  {
    if cmds == [] then 0 else (if cmds[0].Tick? then 1 else 0) + CountTicks(cmds[1..])
  }

  /** True when a command would queue work on elevator `id`. */
  predicate AssignsTo(cmd: Command, id: u8)
  {
    cmd.Lift? && cmd.liftId == id && !cmd.request.Idle?
  }

  /**
    Without work addressed to it, an actor's elevator ends where as many
    plain ticks as the bus carried would take it: every other command is
    inert for the state machine.
   */
  lemma {:induction false} RunWithoutWork(e: Elevator, cmds: seq<Command>)
    requires forall i :: 0 <= i < |cmds| ==> !AssignsTo(cmds[i], e.id)
    ensures Run(e, cmds).0 == Ticks(e, CountTicks(cmds))
    decreases |cmds|
  {
    if cmds != [] {
      var step := Handle(e, cmds[0]);
      assert forall i :: 0 <= i < |cmds[1..]| ==> !AssignsTo(cmds[1..][i], step.lift.id) by {
        forall i | 0 <= i < |cmds[1..]|
          ensures !AssignsTo(cmds[1..][i], step.lift.id)
        {
          assert cmds[1..][i] == cmds[i + 1];
        }
      }
      RunWithoutWork(step.lift, cmds[1..]);
      if cmds[0].Tick? {
        TicksShift(e, CountTicks(cmds[1..]));
      }
    }
  }

  /** Ticking `a` times and then `b` times is ticking `a + b` times. */
  lemma {:induction false} TicksAdd(e: Elevator, a: nat, b: nat)
    ensures Ticks(Ticks(e, a), b) == Ticks(e, a + b)
    decreases a
  {
    if a > 0 {
      TicksAdd(Elevators.Tick(e), a - 1, b);
    }
  }

  /**
    The queue is first in, first out: on an idle elevator with work
    waiting, queueing a job at the back and then ticking is the same as
    ticking (which adopts the front job) and then queueing it.
   */
  lemma QueueIsFifo(e: Elevator, request: Movement)
    requires e.movement.Idle? && e.work != []
    ensures Elevators.Tick(AddRequest(e, request)) == AddRequest(Elevators.Tick(e), request)
  {
  }

  /**
    Two jobs queued on an idle elevator with nothing to do run in the
    order they were queued: the first is adopted on the next tick and runs
    to idle, and the tick after that adopts the second.
   */
  lemma JobsRunInOrder(e: Elevator, first: Movement, second: Movement)
    requires e.movement.Idle? && e.work == [] && !first.Idle? && !second.Idle?
    ensures var q := AddRequest(AddRequest(e, first), second);
            && Elevators.Tick(q) == e.(movement := first, work := [second])
            && var n := 1 + TicksToIdle(Elevators.Tick(q));
               && Ticks(q, n) == e.(movement := Idle, currentFloor := Destination(Elevators.Tick(q)), work := [second])
               && Ticks(q, n + 1) == e.(movement := second, currentFloor := Destination(Elevators.Tick(q)), work := [])
  {
    var q := AddRequest(AddRequest(e, first), second);
    var q1 := Elevators.Tick(q);
    assert q.work == [first, second];
    assert q1 == e.(movement := first, work := [second]);
    var m := TicksToIdle(q1);
    ReachesIdle(q1);
    TicksShift(q, m);
    TicksAdd(q, 1 + m, 1);
  }

}
