/**
  The status tracker: the fleet table from elevator id to its last known
  `(is_busy, floor)`, and the fold of bus commands into it.
 */
module Scheduler {

  import opened Operation

  /** The `AppState` map, without its mutex. */
  type Table = map<u8, (bool, i16)>

  /** What a snapshot contributes to the table. */
  function Entry(s: LocationStatus): (bool, i16)
  {
    (s.isBusy, s.floor)
  }

  /** The id a command would write to, when it writes at all. */
  predicate Writes(cmd: Command, id: u8)
  {
    (cmd.Register? || cmd.SendLocation?) && cmd.status.id == id
  }

  /**
    One command through the tracker. `Register` inserts only when the id is
    absent, `SendLocation` overwrites only when it is present, and every
    other command is ignored. Only the command's own id can change, and
    only `Register` can add a key.
   */
  function Track(t: Table, cmd: Command): (r: Table)
    ensures forall k :: !Writes(cmd, k) ==> (k in r <==> k in t) && (k in t ==> r[k] == t[k])
    ensures t.Keys <= r.Keys
    ensures r.Keys <= t.Keys + (if cmd.Register? then {cmd.status.id} else {})
    ensures cmd.Register? ==> cmd.status.id in r
    ensures cmd.Register? && cmd.status.id !in t ==> r[cmd.status.id] == Entry(cmd.status)
    ensures cmd.Register? && cmd.status.id in t ==> r == t
    ensures cmd.SendLocation? && cmd.status.id in t ==> r[cmd.status.id] == Entry(cmd.status)
    ensures cmd.SendLocation? && cmd.status.id !in t ==> r == t
  {
    match cmd
    case SendLocation(s) =>
      if s.id in t then t[s.id := Entry(s)] else t
    case Register(s) =>
      if s.id in t then t else t[s.id := Entry(s)]
    case _ => t
  }

  /**
    The tracker over a finite prefix of the bus: entries are never removed,
    and without a `Register` no key is added.
   */
  function TrackAll(t: Table, cmds: seq<Command>): (r: Table)
    ensures t.Keys <= r.Keys
    ensures (forall i :: 0 <= i < |cmds| ==> !cmds[i].Register?) ==> r.Keys == t.Keys
    decreases |cmds|
  {
    if cmds == [] then t else TrackAll(Track(t, cmds[0]), cmds[1..])
  }

  /** Ids named by a `Register` command in `cmds`. */
  function RegisteredIds(cmds: seq<Command>): set<u8>
  {
    set i | 0 <= i < |cmds| && cmds[i].Register? :: cmds[i].status.id
  }

  /** Registering an id twice is the same as registering it once: the first registration wins. */
  lemma FirstRegistrationWins(t: Table, s1: LocationStatus, s2: LocationStatus)
    requires s1.id == s2.id
    ensures Track(Track(t, Register(s1)), Register(s2)) == Track(t, Register(s1))
    ensures s1.id !in t ==> Track(Track(t, Register(s1)), Register(s2))[s1.id] == Entry(s1)
  {
  }

  /** A report for a registered elevator is what a later lookup sees; one for an unknown id is dropped. */
  lemma ReportOverwrites(t: Table, s: LocationStatus)
    ensures s.id in t <==> s.id in Track(t, SendLocation(s)) && Track(t, SendLocation(s))[s.id] == Entry(s)
    ensures s.id !in t ==> Track(t, SendLocation(s)) == t
  {
  }

  lemma RegisteredIdsCons(cmds: seq<Command>)
    requires cmds != []
    ensures RegisteredIds(cmds) == RegisteredIds(cmds[1..]) + (if cmds[0].Register? then {cmds[0].status.id} else {})
  {
    var rest := cmds[1..];
    forall id | id in RegisteredIds(cmds)
      ensures id in RegisteredIds(rest) + (if cmds[0].Register? then {cmds[0].status.id} else {})
    {
      var i :| 0 <= i < |cmds| && cmds[i].Register? && cmds[i].status.id == id;
      if i > 0 {
        assert rest[i - 1] == cmds[i];
      }
    }
    forall id | id in RegisteredIds(rest)
      ensures id in RegisteredIds(cmds)
    {
      var i :| 0 <= i < |rest| && rest[i].Register? && rest[i].status.id == id;
      assert cmds[i + 1] == rest[i];
    }
  }

  /**
    Over any run of commands the key set never shrinks and grows exactly by
    the ids that were registered: reports never create entries.
   */
  lemma {:induction false} TrackAllKeys(t: Table, cmds: seq<Command>)
    ensures TrackAll(t, cmds).Keys == t.Keys + RegisteredIds(cmds)
    decreases |cmds|
  {
    if cmds != [] {
      TrackAllKeys(Track(t, cmds[0]), cmds[1..]);
      RegisteredIdsCons(cmds);
    }
  }

  /**
    Every entry after a run is either the one the table started with or
    the payload of some `Register`/`SendLocation` for that very id.
   */
  lemma {:induction false} TrackAllValues(t: Table, cmds: seq<Command>, k: u8)
    requires k in TrackAll(t, cmds)
    ensures || (k in t && TrackAll(t, cmds)[k] == t[k])
            || (exists i :: 0 <= i < |cmds| && Writes(cmds[i], k) && TrackAll(t, cmds)[k] == Entry(cmds[i].status))
    decreases |cmds|
  {
    if cmds != [] {
      var t' := Track(t, cmds[0]);
      var r := TrackAll(t, cmds);
      TrackAllValues(t', cmds[1..], k);
      if k in t' && r[k] == t'[k] {
        if !(k in t && t'[k] == t[k]) {
          assert Writes(cmds[0], k) && t'[k] == Entry(cmds[0].status);
        }
      } else {
        var j :| 0 <= j < |cmds[1..]| && Writes(cmds[1..][j], k) && r[k] == Entry(cmds[1..][j].status);
        assert cmds[j + 1] == cmds[1..][j];
      }
    }
  }

}
