/**
  The shared vocabulary of the simulator: the integer widths the Rust code
  uses, the movement directive of one elevator, the status snapshot an
  elevator reports, and the commands carried on the broadcast bus.
 */
module Operation {

  /** Rust `u8`: elevator identities. */
  newtype u8 = x: int | 0 <= x < 0x100

  /** Rust `i16`: floors. Floor 0 is home. */
  newtype i16 = x: int | -0x8000 <= x < 0x8000

  /**
    What an elevator is doing. `Down(from, until)` and `Up(from, until)` are
    legs of travel whose first floor is informational only; the second is
    the floor the leg stops at.
   */
  datatype Movement =
    | Down(from: i16, until: i16)
    | Up(from: i16, until: i16)
    | Idle
    | ReturnHome
    | OpenDoor
    | CloseDoor

  /** The number of floors between two floors, over unbounded integers. */
  function Distance(floor: i16, target: i16): nat
  {
    var d := floor as int - target as int;
    if d < 0 then -d else d
  }

  /** A point-in-time snapshot of one elevator. */
  datatype LocationStatus = LocationStatus(id: u8, isBusy: bool, floor: i16)

  /** `LocationStatus::new`: the floor field is filled from `currentFloor`. */
  function NewLocationStatus(id: u8, isBusy: bool, currentFloor: i16): (s: LocationStatus)
    ensures s.id == id && s.isBusy == isBusy && s.floor == currentFloor
  {
    LocationStatus(id, isBusy, currentFloor)
  }

  /**
    Everything that travels on the command bus. The Rust enum declares only
    `Tick`, `LocationStatus` and `Lift`; the scheduler and the clock use
    `SendLocation`, `Register` and `RequestLocation` as well, so all six are
    here. The elevator's status query `Command::LocationStatus` is called
    `LocationQuery` so that it does not clash with the snapshot type.
   */
  datatype Command =
    | Tick
    | LocationQuery
    | RequestLocation
    | Lift(liftId: u8, request: Movement)
    | Register(status: LocationStatus)
    | SendLocation(status: LocationStatus)

}
