/**
  How the pieces meet on the bus: an elevator's snapshot as the tracker
  records it and the status route reports it, and a dispatched command as
  the elevators receive it.
 */
module Fleet {

  import opened Wrappers
  import opened Operation
  import opened Elevators
  import opened Scheduler
  import opened LiftRoute
  import opened StatusRoute

  /**
    Once an elevator has registered, the single-status query answers with
    its floor and with busy exactly when it was not idle, unless the id was
    already registered, in which case the earlier entry stays.
   */
  lemma RegisteredElevatorIsVisible(t: Table, e: Elevator)
    ensures GetLiftStatus(Track(t, Register(Status(e))), e.id).Found?
    ensures e.id !in t ==>
              GetLiftStatus(Track(t, Register(Status(e))), e.id)
                == Found(!e.movement.Idle?, e.currentFloor)
    ensures e.id in t ==>
              GetLiftStatus(Track(t, Register(Status(e))), e.id) == GetLiftStatus(t, e.id)
  {
  }

  /** A report from a registered elevator replaces what the query answers; other ids answer as before. */
  lemma ReportIsVisible(t: Table, e: Elevator, other: u8)
    requires e.id in t
    ensures GetLiftStatus(Track(t, SendLocation(Status(e))), e.id) == Found(!e.movement.Idle?, e.currentFloor)
    ensures other != e.id ==> GetLiftStatus(Track(t, SendLocation(Status(e))), other) == GetLiftStatus(t, other)
  {
  }

  /**
    A command the dispatcher published queues its movement on the chosen
    elevator only; every other elevator ignores it.
   */
  lemma DispatchReachesChosen(t: Table, order: seq<u8>, request: Passenger,
                              direction: (i16, i16) -> Option<Movement>, delivered: bool, e: Elevator)
    requires IsIterationOrder(t, order)
    ensures var d := PassengerRequest(t, order, request, direction, delivered);
            d.sent.Some? ==>
              var chosen := Choose(t, order, request.fromFloor).id;
              && (e.id == chosen ==> Handle(e, d.sent.value).lift == AddRequest(e, d.sent.value.request))
              && (e.id != chosen ==> Handle(e, d.sent.value).lift == e)
  {
  }

  /**
    One elevator idle on floor 8 and one busy on floor 3: a trip from
    floor 3 to floor 9 goes to the idle one although the busy one is
    already on the pickup floor, whatever order the table is iterated in.
   */
  lemma IdleChosenOverBusy(order: seq<u8>)
    requires IsIterationOrder(map[1 := (false, 8), 2 := (true, 3)], order)
    ensures Choose(map[1 := (false, 8), 2 := (true, 3)], order, 3) == IdleLift(1)
    ensures Distance(8, 3) > Distance(3, 3)
  {
    var t: Table := map[1 := (false, 8), 2 := (true, 3)];
    assert 1 in t && !t[1].0;
    var c := Choose(t, order, 3);
    assert c.id in t && !t[c.id].0;
  }

  /** With no elevator registered, every real trip is answered NOT_FOUND and nothing is sent. */
  lemma EmptyFleetNotFound(request: Passenger, direction: (i16, i16) -> Option<Movement>, delivered: bool)
    requires request.fromFloor != request.toFloor
    ensures PassengerRequest(map[], [], request, direction, delivered)
              == Dispatched(Reply(LiftRoute.NotFound, "No Lifts - what are you requesting?"), None)
  {
  }

}
