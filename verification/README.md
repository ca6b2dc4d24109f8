# lift_with_me, modelled in Dafny

A model of the core of `lift_with_me`, a small asynchronous elevator
simulator written in Rust. Elevators are actors on a broadcast command bus.
A clock ticks them one floor or one door phase at a time. A status tracker
folds their reports into a table from elevator id to `(is_busy, floor)`.
HTTP handlers read that table to dispatch passenger requests and to answer
status queries.

Here every actor and handler is a pure function over immutable data:

- `operation.dfy` (module `Operation`): `u8` and `i16` as newtypes, the
  `Movement` directive, the `LocationStatus` snapshot, and a `Command` type
  that carries every variant the code uses. The Rust enum lists only
  `Tick`, `LocationStatus` and `Lift`. `Register`, `SendLocation` and
  `RequestLocation` are used in other files, so they are added here. The
  elevator's status query `Command::LocationStatus` is named `LocationQuery`.
- `elevator.dfy` (module `Elevators`): the `Elevator` record (id, movement,
  floor, FIFO work queue as a `seq`), `tick`, `add_request`,
  `location_status`, and one iteration of the actor loop (`Handle`). `Run`
  folds `Handle` over a finite command sequence.
- `elevator_proofs.dfy` (module `ElevatorProofs`): single-tick transition
  lemmas and two reference definitions. `TicksToIdle` counts the ticks left
  until the elevator is idle. `Destination` is the floor the current leg
  ends on. Lemmas over iterated ticks tie the machine to both definitions,
  and two lemmas show that the work queue is first in, first out.
- `scheduler.dfy` (module `Scheduler`): the status tracker's map update and
  its fold over a command sequence.
- `lift_route.dfy` (module `LiftRoute`): the selection and publishing logic
  of `passenger_request`.
- `status_route.dfy` (module `StatusRoute`): the two status queries.
- `fleet.dfy` (module `Fleet`): lemmas that join the pieces (tracker with
  query, dispatch with elevator) plus two dispatch scenarios.

Machine integers are modelled with their widths. Floors are the newtype
`i16`, so Dafny's range check on `Tick` proves that one floor of travel
never leaves the `i16` range. The stepping branches only move toward a
target that is itself an `i16`.

## Model

| member | source | states |
|---|---|---|
| Operation.NewLocationStatus | src/model/operation.rs:29-37 | the snapshot keeps the given id and busy flag, and its floor is the `current_floor` argument |
| Elevators.New | src/model/elevator.rs:41-48 | a new elevator has the given id and floor, is `Idle`, and has an empty queue |
| Elevators.Status | src/model/elevator.rs:52-55 | the snapshot copies id and floor, and reports busy exactly when the movement is not `Idle` |
| Elevators.AddRequest | src/model/elevator.rs:58-62 | an `Idle` request leaves the queue unchanged; any other request is appended at the back and earlier items keep their order; movement and floor are untouched |
| Elevators.Tick | src/model/elevator.rs:65-104 | id kept; the floor moves by at most one; the floor changes only while travelling, and then movement and queue stay the same; the queue changes only when an idle elevator pops its front job and adopts it as the movement |
| Elevators.Ticks | src/model/elevator.rs:64-104 | after n ticks the id is the same and the floor has moved by at most n |
| Elevators.Handle | src/model/elevator.rs:12-26 | `Tick` applies exactly one `tick`; a `Lift` for this id goes through `add_request`; a report is published exactly for the status query, and it is the current snapshot with the elevator unchanged; a `Lift` for another id and every other command leave the elevator unchanged |
| Elevators.Run | src/model/elevator.rs:12-27 | the actor loop keeps its id and publishes exactly one report per status query, each carrying its own id |
| Elevators.Spawn | src/model/elevator.rs:8-9 | `add_lift` starts an idle elevator on floor 10 whose queue holds only `ReturnHome` |
| ElevatorProofs.TravelStep | src/model/elevator.rs:78-85 | short of the target, a tick moves exactly one floor toward it, keeps the leg, and does not pass the target |
| ElevatorProofs.ArrivalOpensDoor | src/model/elevator.rs:86-89 | at or beyond the target, `Up`/`Down` becomes `OpenDoor` on the same floor |
| ElevatorProofs.ReturnHomeStarts | src/model/elevator.rs:67-77 | `ReturnHome` becomes `Down(f,0)` above floor 0, `Up(f,0)` below it, and `OpenDoor` on it; floor and queue are unchanged |
| ElevatorProofs.DoorCycle | src/model/elevator.rs:90-96 | `OpenDoor` becomes `CloseDoor`, which becomes `Idle`, and nothing else changes |
| ElevatorProofs.IdleAdoptsNextJob | src/model/elevator.rs:97-102 | an idle elevator adopts the front of a non-empty queue and removes it from the queue; with an empty queue it stays as it is |
| ElevatorProofs.TickFixpoint | src/model/elevator.rs:66-103 | a tick changes nothing if and only if the elevator is idle with an empty queue |
| ElevatorProofs.OneChangePerTick | src/model/elevator.rs:66-103 | a tick never changes both the floor and the movement, nor both the floor and the queue |
| ElevatorProofs.TickProgress | src/model/elevator.rs:66-103 | each tick of a busy elevator consumes exactly one tick of `TicksToIdle`, keeps `Destination` and the queue, and lands between the current floor and the destination |
| ElevatorProofs.ReachesIdle | src/model/elevator.rs:66-103 | a busy elevator is idle on its destination after exactly `TicksToIdle` ticks with its queue untouched, and is busy at every earlier tick |
| ElevatorProofs.StaysOnCourse | src/model/elevator.rs:78-89 | until it is idle again, the floor stays between the starting floor and the destination (no overshoot) |
| ElevatorProofs.DownTravel | src/model/elevator.rs:78-81 | in `Down(_, t)` from floor f ≥ t, k ≤ f − t ticks put the elevator exactly on floor f − k, still in the same leg |
| ElevatorProofs.UpTravel | src/model/elevator.rs:82-85 | in `Up(_, t)` from floor f ≤ t, k ≤ t − f ticks put the elevator exactly on floor f + k, still in the same leg |
| ElevatorProofs.ReturnHomeTicks | src/model/elevator.rs:67-96 | from `ReturnHome` on floor f the elevator is idle on floor 0 after exactly abs(f) + 4 ticks (3 when f = 0), with the queue untouched, and busy before |
| ElevatorProofs.SpawnReturnsHome | src/model/elevator.rs:8-9 | a spawned elevator is idle on floor 0 with an empty queue after exactly 15 ticks |
| ElevatorProofs.RunWithoutWork | src/model/elevator.rs:12-26 | if no command queues work for this elevator, the actor ends where one tick per `Tick` command would take it; all other commands are inert |
| ElevatorProofs.QueueIsFifo | src/model/elevator.rs:58-62 | on an idle elevator with work waiting, appending a job at the back commutes with the tick that pops the front, so a queued job never overtakes earlier ones |
| ElevatorProofs.JobsRunInOrder | src/model/elevator.rs:58-102 | two jobs queued on an idle, empty elevator run in queue order: the first is adopted on the next tick and runs to idle on its destination, then the second is adopted |
| Scheduler.Track | src/scheduler.rs:12-36 | `Register` inserts `(is_busy, floor)` only for an absent id; `SendLocation` overwrites only a present id; other commands change nothing; no other key changes, keys never disappear, and only `Register` adds one |
| Scheduler.FirstRegistrationWins | src/scheduler.rs:25-33 | registering an id a second time leaves the table as after the first registration, so the first payload is kept |
| Scheduler.ReportOverwrites | src/scheduler.rs:13-22 | an id is present if and only if a report for it becomes its stored entry; a report for an unknown id leaves the whole table unchanged |
| Scheduler.TrackAll | src/scheduler.rs:9-39 | over any command sequence no key is ever removed, and without a `Register` the key set stays the same |
| Scheduler.TrackAllKeys | src/scheduler.rs:9-39 | over any command sequence, the final key set is the initial keys plus exactly the registered ids |
| Scheduler.TrackAllValues | src/scheduler.rs:12-36 | every final entry is either the initial one or the payload of a `Register`/`SendLocation` for that same id |
| LiftRoute.Candidates | src/routes/lift.rs:43-47 | one row per key in iteration order, holding the key, its busy flag and its distance to the pickup floor |
| LiftRoute.IdleOnly | src/routes/lift.rs:48-50 | keeps exactly the candidates that are not busy |
| LiftRoute.Nearest | src/routes/lift.rs:48-51 | `min_by` on distance: none exactly for no candidates, otherwise a least-distance candidate with every earlier candidate strictly farther |
| LiftRoute.Choose | src/routes/lift.rs:43-66 | no elevator exactly when the table is empty; an idle elevator exactly when one exists, and then one at least as near as every idle elevator; otherwise one at least as near as every elevator |
| LiftRoute.Notify | src/routes/lift.rs:55-63 | a `Lift(id, m)` is sent exactly when `get_direction` yields `m` and the send succeeds; the reply is OK unless the send failed, and then it is INTERNAL_SERVER_ERROR |
| LiftRoute.PassengerRequest | src/routes/lift.rs:26-81 | equal floors give ACCEPTED "No action required" and send nothing, whatever the table holds; NOT_FOUND exactly for a real trip with an empty table; with elevators present, when `get_direction` yields `m` a successful send publishes exactly `Lift(chosen id, m)` and a failed one is INTERNAL_SERVER_ERROR with nothing sent; the reply is OK exactly when nothing needed sending or the send succeeded; any command sent is one `Lift` to the chosen id |
| StatusRoute.GetLiftStatus | src/routes/status.rs:26-36 | found exactly for ids in the table, with the stored `(is_busy, floor)` |
| StatusRoute.GetCurrentStatusAll | src/routes/status.rs:14-22 | one snapshot per table entry, each matching its entry, every key listed, ids pairwise distinct, length equal to the table size |
| Fleet.RegisteredElevatorIsVisible | src/scheduler.rs:25-33 | after an elevator registers, the status query finds it; a fresh id reports busy iff not idle and its floor; an already-known id keeps its old answer |
| Fleet.ReportIsVisible | src/scheduler.rs:13-22 | a registered elevator's report becomes the status query's answer, and other ids answer as before |
| Fleet.DispatchReachesChosen | src/model/elevator.rs:21-25 | a published dispatch command queues its movement on the chosen elevator, and every other elevator ignores it |
| Fleet.IdleChosenOverBusy | src/routes/lift.rs:48-53 | an idle elevator on floor 8 is chosen over a busy one already on the pickup floor 3, in any iteration order |
| Fleet.EmptyFleetNotFound | src/routes/lift.rs:37-41 | with no elevators, a real trip is answered NOT_FOUND with the code's message and nothing is sent |

The model is pure, so neither route handler can modify the table. Both take
it as a value and return no table.

## Left out

- Async plumbing is not modelled: tokio tasks, `select!`, `Arc<Mutex<…>>`
  locking, and broadcast channels with lagging receivers. Each actor and
  the tracker is a pure step over one command. `Run` and `TrackAll` fold
  those steps over a finite command sequence.
- `attach_elevator` is not modelled beyond `Spawn`. It only spawns a task,
  and spawning is left out.
- The sleep-driven clock in `src/ticker.rs` is left out. Its output is
  covered by arbitrary command sequences.
- `src/bin/main.rs` and `src/routes/heath.rs` are left out. They hold
  process start-up, an outdated vector-indexed scheduler and a constant
  health reply.
- HTTP and JSON are left out. A reply is a status code plus the `status`
  text of the payload. `get_lift_status` returns its two fields directly.
  `tracing` calls are dropped.
- `Movement::get_direction` and `Passenger` are not defined in the
  source. `PassengerRequest` takes `get_direction` as a function
  parameter. It is called with the pickup floor as both arguments, exactly
  as the code does, and at most one command is sent.
- Whether a broadcast send fails depends on the channel's receivers at run
  time. It is the boolean parameter `delivered`.
- `HashMap` iteration order is a parameter `order`, which lists each key
  once. `Nearest` returns the first minimum in that order, as `min_by`
  does. No lowest-id tie-break is claimed.
- LiftRoute.Candidates: the distance is computed over unbounded integers.
  The Rust `i16` subtraction at `src/routes/lift.rs:46` can overflow for
  extreme floors, and that overflow is not modelled.
- The elevator sends its snapshot on a separate `LocationStatus` channel,
  not as `Command::SendLocation`. `Handle` returns the snapshot.
- No code in the repository publishes `Register` or `SendLocation`.
  Nothing turns an elevator's snapshot into either command. So
  `Fleet.RegisteredElevatorIsVisible` and `Fleet.ReportIsVisible` describe
  how the tracker would treat such a snapshot if it were published. That
  wiring does not exist in the code.
- Elevators.Handle: `report` is the snapshot the actor tries to send. When
  `status_tx.send` fails, the code only logs the error
  (`src/model/elevator.rs:17-19`). The model does not say whether the
  report was delivered.
- The elevator actor's `match` has no arm for `RequestLocation`,
  `Register` or `SendLocation`. `Handle` ignores them, as the tracker
  ignores commands it does not handle.
- In four places the code does something a reader might not expect. The
  model follows the code:
  - An idle elevator adopts its next job directly. It does not first travel
    to the job's origin floor.
  - Dispatch sends at most one command, not two legs.
  - Ties are not broken by lowest id.
  - From `ReturnHome` on a floor other than 0, reaching `Idle` takes
    abs(f) + 4 ticks, not abs(f) + 3. The first tick only picks the
    direction.
