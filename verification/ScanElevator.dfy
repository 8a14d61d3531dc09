/** The single-elevator machine: `elevator/requests.go` and `elevator/fsm.go`. */
module ScanElevator {
  import opened Shaft

  datatype State = Idle | DoorOpen | Moving

  /** A Go value: every event function gets one and returns the updated one. */
  datatype Elevator = Elevator(floor: int, dir: Dirn, requests: seq<Calls>, behaviour: State, obstructed: bool)

  datatype Button = HallUp | HallDown | Cab

  function With(row: Calls, b: Button): Calls {
    match b
    case HallUp => row.(up := true)
    case HallDown => row.(down := true)
    case Cab => row.(cab := true)
  }

  /** The floors an elevator's matrix covers, or -1 before the first floor sensor. */
  predicate InShaft(e: Elevator) {
    -1 <= e.floor < |e.requests|
  }

  predicate AtFloor(e: Elevator) {
    0 <= e.floor < |e.requests|
  }

  // ----- requests.go -----

  method RequestsAbove(e: Elevator) returns (any: bool)
    requires InShaft(e)
    ensures any == AnyAbove(e.requests, e.floor)
  {
    for f := e.floor + 1 to |e.requests|
      invariant forall g :: e.floor < g < f ==> !Any(e.requests[g])
    {
      if e.requests[f].up || e.requests[f].down || e.requests[f].cab {
        return true;
      }
    }
    return false;
  }

  method RequestsBelow(e: Elevator) returns (any: bool)
    requires InShaft(e)
    ensures any == AnyBelow(e.requests, e.floor)
  {
    var f := 0;
    while f < e.floor
      invariant 0 <= f <= |e.requests|
      invariant forall g :: 0 <= g < f ==> !Any(e.requests[g])
    {
      if e.requests[f].up || e.requests[f].down || e.requests[f].cab {
        return true;
      }
      f := f + 1;
    }
    return false;
  }

  function ChooseDirection(e: Elevator): (Dirn, State) {
    var above := AnyAbove(e.requests, e.floor);
    var below := AnyBelow(e.requests, e.floor);
    var here := AnyAt(e.requests, e.floor);
    match e.dir
    case Up =>
      if above then (Up, Moving)
      else if here then (Down, DoorOpen)
      else if below then (Down, Moving)
      else (Stop, Idle)
    case Down =>
      if below then (Down, Moving)
      else if here then (Up, DoorOpen)
      else if above then (Up, Moving)
      else (Stop, Idle)
    case Stop =>
      if here then (Stop, DoorOpen)
      else if above then (Up, Moving)
      else if below then (Down, Moving)
      else (Stop, Idle)
  }

  predicate ShouldStop(e: Elevator)
    requires AtFloor(e)
  {
    var row := e.requests[e.floor];
    match e.dir
    case Down => row.down || row.cab || !AnyBelow(e.requests, e.floor)
    case Up => row.up || row.cab || !AnyAbove(e.requests, e.floor)
    case Stop => true
  }

  /** What is left of the current floor's row after clearing. */
  function Remaining(e: Elevator): Calls
    requires AtFloor(e)
  {
    var row := e.requests[e.floor];
    match e.dir
    case Up => Calls(false, row.down && (AnyAbove(e.requests, e.floor) || row.up), false)
    case Down => Calls(row.up && (AnyBelow(e.requests, e.floor) || row.down), false, false)
    case Stop => NO_CALLS
  }

  function Cleared(e: Elevator): Elevator
    requires AtFloor(e)
  {
    e.(requests := e.requests[e.floor := Remaining(e)])
  }

  /** Clearing writes the current floor's row one button at a time. */
  method ClearAtCurrentFloor(e0: Elevator) returns (e: Elevator)
    requires AtFloor(e0)
    ensures e == Cleared(e0)
  {
    e := e0;
    var f := e.floor;
    e := e.(requests := e.requests[f := e.requests[f].(cab := false)]);
    match e.dir {
      case Up =>
        var above := RequestsAbove(e);
        RowElsewhere(e0, e);
        if !above && !e.requests[f].up {
          e := e.(requests := e.requests[f := e.requests[f].(down := false)]);
        }
        e := e.(requests := e.requests[f := e.requests[f].(up := false)]);
      case Down =>
        var below := RequestsBelow(e);
        RowElsewhere(e0, e);
        if !below && !e.requests[f].down {
          e := e.(requests := e.requests[f := e.requests[f].(up := false)]);
        }
        e := e.(requests := e.requests[f := e.requests[f].(down := false)]);
      case Stop =>
        e := e.(requests := e.requests[f := e.requests[f].(up := false)]);
        e := e.(requests := e.requests[f := e.requests[f].(down := false)]);
    }
  }

  /** What lies above and below does not depend on the current floor's row. */
  lemma RowElsewhere(d: Elevator, e: Elevator)
    requires AtFloor(d) && e.floor == d.floor
    requires |e.requests| == |d.requests|
    requires forall g :: 0 <= g < |d.requests| && g != d.floor ==> e.requests[g] == d.requests[g]
    ensures AnyAbove(e.requests, e.floor) <==> AnyAbove(d.requests, d.floor)
    ensures AnyBelow(e.requests, e.floor) <==> AnyBelow(d.requests, d.floor)
  {
    forall f | 0 <= f < |d.requests| && f != d.floor
      ensures Any(d.requests[f]) <==> Any(e.requests[f])
    {
    }
  }

  // ----- fsm.go -----

  /** The elevator after an event and whether the door timer is (re)started. */
  datatype Outcome = Outcome(e: Elevator, restart: bool)

  function Arrival(e: Elevator, newFloor: int): Outcome
    requires 0 <= newFloor < |e.requests|
  {
    var there := e.(floor := newFloor);
    if e.behaviour == Moving && ShouldStop(there) then Outcome(Cleared(there).(behaviour := DoorOpen), true)
    else Outcome(there, false)
  }

  function Timeout(e: Elevator): Outcome
    requires e.behaviour == DoorOpen ==> AtFloor(e)
  {
    if e.obstructed then Outcome(e, true)
    else if e.behaviour != DoorOpen then Outcome(e, false)
    else
      var (dir, behaviour) := ChooseDirection(e);
      var turned := e.(dir := dir, behaviour := behaviour);
      if behaviour == DoorOpen then Outcome(Cleared(turned), true) else Outcome(turned, false)
  }

  function Press(e: Elevator, floor: int, b: Button): Outcome
    requires 0 <= floor < |e.requests| && (e.behaviour != Moving ==> AtFloor(e))
  {
    var asked := e.(requests := e.requests[floor := With(e.requests[floor], b)]);
    match e.behaviour
    case DoorOpen => if e.floor == floor then Outcome(Cleared(asked), true) else Outcome(asked, false)
    case Moving => Outcome(asked, false)
    case Idle =>
      if e.floor == floor then Outcome(Cleared(asked).(behaviour := DoorOpen), true)
      else
        var (dir, behaviour) := ChooseDirection(asked);
        var turned := asked.(dir := dir, behaviour := behaviour);
        Outcome(if behaviour == DoorOpen then Cleared(turned) else turned, false)
  }

  /** The hardware as the sum of the commands given to it. */
  class Panel {
    var motor: Dirn
    var doorLamp: bool
    var floorIndicator: int

    constructor ()
      ensures motor == Stop && !doorLamp && floorIndicator == 0
    {
      motor, doorLamp, floorIndicator := Stop, false, 0;
    }

    /** The motor runs as the state says and the lamp is lit exactly with the door open. */
    predicate Agrees(e: Elevator)
      reads this
    {
      motor == (if e.behaviour == Moving then e.dir else Stop) && (doorLamp <==> e.behaviour == DoorOpen)
    }
  }

  method OnInitBetweenFloors(panel: Panel, e0: Elevator) returns (e: Elevator)
    modifies panel
    ensures e == e0.(dir := Down, behaviour := Moving)
    ensures old(!panel.doorLamp) ==> panel.Agrees(e)
  {
    panel.motor := Down;
    e := e0.(dir := Down);
    e := e.(behaviour := Moving);
  }

  method OnFloorArrival(panel: Panel, e0: Elevator, newFloor: int) returns (e: Elevator, restart: bool)
    requires 0 <= newFloor < |e0.requests|
    modifies panel
    ensures Outcome(e, restart) == Arrival(e0, newFloor)
    ensures panel.floorIndicator == newFloor
    ensures restart ==> panel.motor == Stop && panel.doorLamp
    ensures old(panel.Agrees(e0)) ==> panel.Agrees(e)
  {
    e := e0.(floor := newFloor);
    panel.floorIndicator := e.floor;
    match e.behaviour {
      case Moving =>
        if ShouldStop(e) {
          panel.motor := Stop;
          panel.doorLamp := true;
          e := ClearAtCurrentFloor(e);
          e := e.(behaviour := DoorOpen);
          return e, true;
        }
      case Idle =>
      case DoorOpen =>
    }
    return e, false;
  }

  method OnDoorTimeout(panel: Panel, e0: Elevator) returns (e: Elevator, restart: bool)
    requires e0.behaviour == DoorOpen ==> AtFloor(e0)
    modifies panel
    ensures Outcome(e, restart) == Timeout(e0)
    ensures e0.behaviour == DoorOpen && !e0.obstructed ==>
              && (panel.doorLamp <==> e.behaviour == DoorOpen)
              && (e.behaviour == Moving ==> panel.motor == e.dir) && (e.behaviour == Idle ==> panel.motor == Stop)
    ensures old(panel.Agrees(e0)) ==> panel.Agrees(e)
  {
    e := e0;
    if e.obstructed {
      return e, true;
    }
    if e.behaviour != DoorOpen {
      return e, false;
    }
    var (dir, behaviour) := ChooseDirection(e);
    e := e.(dir := dir);
    e := e.(behaviour := behaviour);
    match behaviour {
      case DoorOpen =>
        panel.doorLamp := true;
        e := ClearAtCurrentFloor(e);
        return e, true;
      case Moving =>
        panel.doorLamp := false;
        panel.motor := dir;
        return e, false;
      case Idle =>
        panel.doorLamp := false;
        panel.motor := Stop;
        return e, false;
    }
  }

  method OnRequestButtonPress(panel: Panel, e0: Elevator, btnFloor: int, btn: Button)
    returns (e: Elevator, restart: bool)
    requires 0 <= btnFloor < |e0.requests| && (e0.behaviour != Moving ==> AtFloor(e0))
    modifies panel
    ensures Outcome(e, restart) == Press(e0, btnFloor, btn)
    ensures e0.behaviour == Idle ==>
              (e.behaviour == DoorOpen ==> panel.doorLamp) && (e.behaviour == Moving ==> panel.motor == e.dir)
    ensures old(panel.Agrees(e0)) ==> panel.Agrees(e)
  {
    e := e0.(requests := e0.requests[btnFloor := With(e0.requests[btnFloor], btn)]);
    match e.behaviour {
      case DoorOpen =>
        if e.floor == btnFloor {
          e := ClearAtCurrentFloor(e);
          return e, true;
        }
      case Idle =>
        if e.floor == btnFloor {
          panel.doorLamp := true;
          e := ClearAtCurrentFloor(e);
          e := e.(behaviour := DoorOpen);
          return e, true;
        }
        var (dir, behaviour) := ChooseDirection(e);
        e := e.(dir := dir);
        e := e.(behaviour := behaviour);
        match behaviour {
          case Moving =>
            panel.motor := dir;
          case DoorOpen =>
            panel.doorLamp := true;
            e := ClearAtCurrentFloor(e);
          case Idle =>
        }
      case Moving =>
    }
    return e, false;
  }
}
