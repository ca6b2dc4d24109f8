/**
  Dispatch of a passenger request: pick an elevator from a snapshot of the
  fleet table (idle ones first, nearest to the pickup floor) and publish at
  most one `Lift` command to it.
 */
module LiftRoute {

  import opened Wrappers
  import opened Operation
  import opened Scheduler

  /** The HTTP status codes the handler answers with. */
  datatype StatusCode = Ok | Accepted | NotFound | InternalServerError

  /** A response: its code and the `status` text of its JSON payload. */
  datatype Reply = Reply(code: StatusCode, status: string)

  /** A passenger's trip. */
  datatype Passenger = Passenger(fromFloor: i16, toFloor: i16)

  /** The handler's observable effect: its reply and the command it managed to publish, if any. */
  datatype Dispatched = Dispatched(reply: Reply, sent: Option<Command>)

  /** One row of the handler's `nearest_lifts` vector. */
  datatype Candidate = Candidate(id: u8, isBusy: bool, distance: nat)

  /**
    `order` lists the table's keys once each, in the unspecified order a
    `HashMap` iterates them.
   */
  predicate IsIterationOrder(t: Table, order: seq<u8>)
  {
    && (forall k :: k in t <==> k in order)
    && (forall i, j :: 0 <= i < j < |order| ==> order[i] != order[j])
  }

  function CandidateOf(t: Table, id: u8, target: i16): Candidate
    requires id in t
  {
    Candidate(id, t[id].0, Distance(t[id].1, target))
  }

  /** `nearest_lifts`: one candidate per key, in iteration order. */
  function Candidates(t: Table, order: seq<u8>, target: i16): (cs: seq<Candidate>)
    requires forall k :: k in order ==> k in t
    ensures |cs| == |order|
    ensures forall i :: 0 <= i < |order| ==> cs[i] == CandidateOf(t, order[i], target)
  {
    if order == [] then [] else [CandidateOf(t, order[0], target)] + Candidates(t, order[1..], target)
  }

  /** The `filter` on `!is_busy`, keeping order. */
  function IdleOnly(cs: seq<Candidate>): (r: seq<Candidate>)
    ensures forall c :: c in r <==> c in cs && !c.isBusy
  {
    if cs == [] then []
    else (if cs[0].isBusy then [] else [cs[0]]) + IdleOnly(cs[1..])
  }

  /**
    `min_by` on distance: the position of the first candidate of least
    distance, none for an empty input.
   */
  function Nearest(cs: seq<Candidate>): (r: Option<nat>)
    ensures r.None? <==> cs == []
    ensures r.Some? ==> r.value < |cs|
    ensures r.Some? ==> forall j :: 0 <= j < |cs| ==> cs[r.value].distance <= cs[j].distance
    ensures r.Some? ==> forall j :: 0 <= j < r.value ==> cs[j].distance > cs[r.value].distance
  {
    if cs == [] then None
    else match Nearest(cs[1..])
      case None => Some(0)
      case Some(i) =>
        if cs[0].distance <= cs[i + 1].distance then Some(0)
        else
          assert forall j :: 0 < j < |cs| ==> cs[j] == cs[1..][j - 1];
          Some(i + 1)
  }

  /** Which elevator the handler settles on, and through which branch. */
  datatype Choice = IdleLift(id: u8) | NearestLift(id: u8) | NoLift

  /**
    The selection in `passenger_request`: an idle elevator nearest to the
    pickup floor when there is an idle one at all, otherwise the nearest
    elevator overall, and nothing only for an empty fleet.
   */
  function Choose(t: Table, order: seq<u8>, target: i16): (c: Choice)
    requires IsIterationOrder(t, order)
    ensures c.NoLift? <==> |t| == 0
    ensures c.IdleLift? <==> exists k :: k in t && !t[k].0
    ensures !c.NoLift? ==> c.id in t
    ensures c.IdleLift? ==> !t[c.id].0 && forall k :: k in t && !t[k].0 ==> Distance(t[c.id].1, target) <= Distance(t[k].1, target)
    ensures c.NearestLift? ==> forall k :: k in t ==> Distance(t[c.id].1, target) <= Distance(t[k].1, target)
  {
    var cs := Candidates(t, order, target);
    CandidatesCoverTable(t, order, target);
    var idle := IdleOnly(cs);
    match Nearest(idle)
    case Some(i) =>
      assert idle[i] in cs;
      IdleLift(idle[i].id)
    case None =>
      assert forall k :: k in t ==> t[k].0 by {
        forall k | k in t
          ensures t[k].0
        {
          assert CandidateOf(t, k, target) in cs;
          assert CandidateOf(t, k, target) !in idle;
        }
      }
      match Nearest(cs)
      case Some(i) => NearestLift(cs[i].id)
      case None =>
        assert forall k :: k !in t;
        assert t == map[];
        NoLift
  }

  /** The candidate rows are exactly the table's entries. */
  lemma CandidatesCoverTable(t: Table, order: seq<u8>, target: i16)
    requires IsIterationOrder(t, order)
    ensures forall k :: k in t ==> CandidateOf(t, k, target) in Candidates(t, order, target)
    ensures forall c :: c in Candidates(t, order, target) ==> c.id in t && c == CandidateOf(t, c.id, target)
  {
    var cs := Candidates(t, order, target);
    forall k | k in t
      ensures CandidateOf(t, k, target) in cs
    {
      var i :| 0 <= i < |order| && order[i] == k;
      assert cs[i] == CandidateOf(t, k, target);
    }
  }

  /** Publish `Lift(id, m)` when `get_direction` produced `m`; a failed send is an internal error. */
  function Notify(id: u8, direction: Option<Movement>, delivered: bool, failure: string): (d: Dispatched)
    ensures d.sent.Some? <==> direction.Some? && delivered
    ensures d.sent.Some? ==> d.sent.value == Lift(id, direction.value)
    ensures d.reply.code == Ok <==> direction.None? || delivered
    ensures d.reply.code != Ok ==> d.reply == Reply(InternalServerError, failure)
  {
    match direction
    case None => Dispatched(Reply(Ok, "Ok"), None)
    case Some(m) =>
      if delivered then Dispatched(Reply(Ok, "Ok"), Some(Lift(id, m)))
      else Dispatched(Reply(InternalServerError, failure), None)
  }

  /**
    `passenger_request` without the web framework. `direction` stands for
    `Movement::get_direction`, which is called with the pickup floor for
    both of its arguments, and `delivered` for whether the broadcast send
    found a receiver.
   */
  function PassengerRequest(t: Table, order: seq<u8>, request: Passenger,
                            direction: (i16, i16) -> Option<Movement>, delivered: bool): (d: Dispatched)
    requires IsIterationOrder(t, order)
    ensures request.fromFloor == request.toFloor ==> d == Dispatched(Reply(Accepted, "No action required"), None)
    ensures request.fromFloor != request.toFloor && |t| == 0 ==> d.reply.code == NotFound && d.sent.None?
    ensures d.reply.code == NotFound <==> request.fromFloor != request.toFloor && |t| == 0
    ensures request.fromFloor != request.toFloor && |t| > 0 ==>
              (d.reply.code == Ok <==> delivered || direction(request.fromFloor, request.fromFloor).None?)
    ensures request.fromFloor != request.toFloor && |t| > 0 && direction(request.fromFloor, request.fromFloor).Some? && delivered ==>
              d.sent == Some(Lift(Choose(t, order, request.fromFloor).id, direction(request.fromFloor, request.fromFloor).value))
    ensures request.fromFloor != request.toFloor && |t| > 0 && direction(request.fromFloor, request.fromFloor).Some? && !delivered ==>
              d.reply.code == InternalServerError && d.sent.None?
    ensures d.sent.Some? ==>
              && request.fromFloor != request.toFloor
              && !Choose(t, order, request.fromFloor).NoLift?
              && direction(request.fromFloor, request.fromFloor).Some?
              && d.sent.value == Lift(Choose(t, order, request.fromFloor).id, direction(request.fromFloor, request.fromFloor).value)
  {
    if request.fromFloor == request.toFloor then
      Dispatched(Reply(Accepted, "No action required"), None)
    else if |t| == 0 then
      Dispatched(Reply(NotFound, "No Lifts - what are you requesting?"), None)
    else
      var mvm := direction(request.fromFloor, request.fromFloor);
      match Choose(t, order, request.fromFloor)
      case IdleLift(id) => Notify(id, mvm, delivered, "Unable to notify ")
      case NearestLift(id) => Notify(id, mvm, delivered, "Oh no!")
      case NoLift => Dispatched(Reply(InternalServerError, "Oh no!"), None)
  }

}
