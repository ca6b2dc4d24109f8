/**
  One elevator: its movement state machine, its FIFO work queue and the
  body of the actor loop that applies one bus command at a time.
 */
module Elevators {

  import opened Wrappers
  import opened Operation

  datatype Elevator = Elevator(id: u8, movement: Movement, currentFloor: i16, work: seq<Movement>)

  /** The floor `add_lift` starts every elevator on. */
  const StartingFloor: i16 := 10

  /** `Elevator::new`: idle on the given floor with nothing to do. */
  function New(id: u8, startingFloor: i16): (e: Elevator)
    ensures e.id == id && e.currentFloor == startingFloor
    ensures e.movement.Idle? && e.work == []
  {
    Elevator(id, Idle, startingFloor, [])
  }

  /** `location_status`: busy exactly when the elevator is not idle. */
  function Status(e: Elevator): (s: LocationStatus)
    ensures s.id == e.id && s.floor == e.currentFloor
    ensures s.isBusy <==> !e.movement.Idle?
  {
    NewLocationStatus(e.id, e.movement != Idle, e.currentFloor)
  }

  /** `add_request`: an `Idle` request is dropped, anything else queued at the back. */
  function AddRequest(e: Elevator, request: Movement): (r: Elevator)
    ensures r.id == e.id && r.movement == e.movement && r.currentFloor == e.currentFloor
    ensures request.Idle? ==> r.work == e.work
    ensures !request.Idle? ==> |r.work| == |e.work| + 1 && r.work[..|e.work|] == e.work && r.work[|e.work|] == request
  {
    if request != Idle then e.(work := e.work + [request]) else e
  }

  /**
    `tick`: exactly one unit of work, either one floor of travel or one phase
    change. The floor moves by at most one, only while travelling, and the
    queue changes only when an idle elevator adopts its next job.
   */
  function Tick(e: Elevator): (r: Elevator)
    ensures r.id == e.id
    ensures -1 <= r.currentFloor as int - e.currentFloor as int <= 1
    ensures r.currentFloor != e.currentFloor ==>
              (e.movement.Up? || e.movement.Down?) && r.movement == e.movement && r.work == e.work
    ensures r.work != e.work ==>
              e.movement.Idle? && r.currentFloor == e.currentFloor && |e.work| > 0
              && r.movement == e.work[0] && r.work == e.work[1..]
  {
    match e.movement
    case ReturnHome =>
      if e.currentFloor > 0 then e.(movement := Down(e.currentFloor, 0))
      else if e.currentFloor < 0 then e.(movement := Up(e.currentFloor, 0))
      else e.(movement := OpenDoor)
    case Down(_, until) =>
      if e.currentFloor > until then e.(currentFloor := e.currentFloor - 1)
      else e.(movement := OpenDoor)
    case Up(_, until) =>
      if e.currentFloor < until then e.(currentFloor := e.currentFloor + 1)
      else e.(movement := OpenDoor)
    case OpenDoor => e.(movement := CloseDoor)
    case CloseDoor => e.(movement := Idle)
    case Idle =>
      if |e.work| > 0 then e.(movement := e.work[0], work := e.work[1..]) else e
  }

  /** `n` consecutive ticks. The floor drifts by at most one per tick. */
  function Ticks(e: Elevator, n: nat): (r: Elevator)
    ensures r.id == e.id
    ensures -(n as int) <= r.currentFloor as int - e.currentFloor as int <= n
    decreases n
  {
    if n == 0 then e else Ticks(Tick(e), n - 1)
  }

  /** The actor's reaction to one command: the new elevator and the report it publishes, if any. */
  datatype Step = Step(lift: Elevator, report: Option<LocationStatus>)

  /**
    One iteration of the actor loop in `add_lift`. Only `Tick` moves the
    elevator, only a `Lift` addressed to this id queues work, and only the
    status query publishes a report; every other command is ignored.
   */
  function Handle(e: Elevator, cmd: Command): (s: Step)
    ensures s.lift.id == e.id
    ensures cmd.Tick? ==> s.lift == Tick(e)
    ensures cmd.Lift? && cmd.liftId == e.id ==> s.lift == AddRequest(e, cmd.request)
    ensures s.report.Some? <==> cmd.LocationQuery?
    ensures s.report.Some? ==> s.report.value == Status(e) && s.lift == e
    ensures cmd.Lift? && cmd.liftId != e.id ==> s.lift == e
    ensures !cmd.Tick? && !cmd.Lift? ==> s.lift == e
  {
    match cmd
    case Tick => Step(Tick(e), None)
    case LocationQuery => Step(e, Some(Status(e)))
    case Lift(liftId, request) =>
      Step(if liftId == e.id then AddRequest(e, request) else e, None)
    case _ => Step(e, None)
  }

  /** The number of status queries in a command sequence. */
  function CountQueries(cmds: seq<Command>): nat
  {
    if cmds == [] then 0 else (if cmds[0].LocationQuery? then 1 else 0) + CountQueries(cmds[1..])
  }

  /**
    The actor loop over a finite prefix of the bus: the final elevator and
    every report it publishes, in order, one per status query, each
    carrying the actor's own id.
   */
  function Run(e: Elevator, cmds: seq<Command>): (s: (Elevator, seq<LocationStatus>))
    ensures s.0.id == e.id
    ensures |s.1| == CountQueries(cmds)
    ensures forall i :: 0 <= i < |s.1| ==> s.1[i].id == e.id
    decreases |cmds|
  {
    if cmds == [] then (e, [])
    else
      var step := Handle(e, cmds[0]);
      var rest := Run(step.lift, cmds[1..]);
      (rest.0, (if step.report.Some? then [step.report.value] else []) + rest.1)
  }

  /** The elevator `add_lift` creates: idle on floor 10 with a return-home job queued. */
  function Spawn(id: u8): (e: Elevator)
    ensures e.id == id && e.movement.Idle? && e.currentFloor == StartingFloor
    ensures e.work == [ReturnHome]
  {
    AddRequest(New(id, StartingFloor), ReturnHome)
  }

}
