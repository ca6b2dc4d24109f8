/**
  The two read-only status queries over the fleet table: one elevator by
  id, and a listing of every entry.
 */
module StatusRoute {

  import opened Operation
  import opened Scheduler

  /** `get_lift_status`'s answer: OK with the stored pair, or NOT_FOUND. */
  datatype LiftStatus = Found(isBusy: bool, currentFloor: i16) | NotFound

  /** `get_lift_status`: found exactly for registered ids, with the stored entry. */
  function GetLiftStatus(t: Table, id: u8): (r: LiftStatus)
    ensures r.Found? <==> id in t
    ensures r.Found? ==> t[id] == (r.isBusy, r.currentFloor)
  {
    if id in t then Found(t[id].0, t[id].1) else NotFound
  }

  /**
    `get_current_status_all`: one snapshot per table entry, in the table's
    unspecified iteration order, with nothing added and nothing repeated.
   */
  method GetCurrentStatusAll(t: Table) returns (payload: seq<LocationStatus>)
    ensures |payload| == |t|
    ensures forall i :: 0 <= i < |payload| ==> payload[i].id in t && t[payload[i].id] == Entry(payload[i])
    ensures forall k :: k in t ==> exists i :: 0 <= i < |payload| && payload[i].id == k
    ensures forall i, j :: 0 <= i < j < |payload| ==> payload[i].id != payload[j].id
  {
    payload := [];
    var remaining := t.Keys;
    while remaining != {}
      invariant remaining <= t.Keys
      invariant |payload| + |remaining| == |t|
      invariant forall i :: 0 <= i < |payload| ==> payload[i].id in t - remaining && t[payload[i].id] == Entry(payload[i])
      invariant forall k :: k in t && k !in remaining ==> exists i :: 0 <= i < |payload| && payload[i].id == k
      invariant forall i, j :: 0 <= i < j < |payload| ==> payload[i].id != payload[j].id
      decreases |remaining|
    {
      var k :| k in remaining;
      var (b, f) := t[k];
      ghost var listed := payload;
      payload := payload + [NewLocationStatus(k, b, f)];
      remaining := remaining - {k};
      assert payload[|listed|].id == k;
      assert forall i :: 0 <= i < |listed| ==> payload[i] == listed[i];
    }
  }

}
