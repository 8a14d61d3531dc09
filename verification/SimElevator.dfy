/** The elevator that the hall request assigner simulates: `elevator_state.d` and
    `elevator_algorithm.d`. */
module SimElevator {
  import opened Shaft

  datatype ElevatorBehaviour = Idle | Moving | DoorOpen

  datatype LocalElevatorState = LocalElevatorState(
    behaviour: ElevatorBehaviour,
    floor: int,
    direction: Dirn,
    cabRequests: seq<bool>)

  datatype ElevatorState = ElevatorState(
    behaviour: ElevatorBehaviour,
    floor: int,
    direction: Dirn,
    requests: seq<Calls>)

  datatype ClearRequestType = All | InDirn

  function Step(d: Dirn): int {
    match d
    case Down => -1
    case Stop => 0
    case Up => 1
  }

  predicate AnyCab(s: LocalElevatorState) {
    exists f :: 0 <= f < |s.cabRequests| && s.cabRequests[f]
  }

  predicate OnFloor(e: ElevatorState) {
    0 <= e.floor < |e.requests|
  }

  predicate ShouldStop(e: ElevatorState)
    requires OnFloor(e)
  {
    var row := e.requests[e.floor];
    match e.direction
    case Up => row.up || row.cab || !AnyAbove(e.requests, e.floor) || e.floor == 0 || e.floor == |e.requests| - 1
    case Down => row.down || row.cab || !AnyBelow(e.requests, e.floor) || e.floor == 0 || e.floor == |e.requests| - 1
    case Stop => true
  }

  function ChooseDirection(e: ElevatorState): Dirn {
    var above := AnyAbove(e.requests, e.floor);
    var below := AnyBelow(e.requests, e.floor);
    var here := AnyAt(e.requests, e.floor);
    match e.direction
    case Up => if above then Up else if here then Stop else if below then Down else Stop
    case Down => if below then Down else if here then Stop else if above then Up else Stop
    case Stop => if below then Down else if here then Stop else if above then Up else Stop
  }

  /** The calls that clearing at the current floor reports to its callback. */
  function ClearedCalls(e: ElevatorState, mode: ClearRequestType): Calls
    requires OnFloor(e)
  {
    var row := e.requests[e.floor];
    match mode
    case All => row
    case InDirn =>
      match e.direction
      case Up => Calls(row.up, !row.up && row.down && !AnyAbove(e.requests, e.floor), row.cab)
      case Down => Calls(!row.down && row.up && !AnyBelow(e.requests, e.floor), row.down, row.cab)
      case Stop => row
  }

  function Without(row: Calls, cleared: Calls): Calls {
    Calls(row.up && !cleared.up, row.down && !cleared.down, row.cab && !cleared.cab)
  }

  /** One call of the local `clear`: report and reset a call that is set. */
  method ClearOne(e: ElevatorState, cleared: Calls, c: Calls) returns (e2: ElevatorState, cleared2: Calls)
    requires OnFloor(e) && RowCount(c) == 1
    ensures var row := e.requests[e.floor];
            && e2 == e.(requests := e.requests[e.floor := Without(row, c)])
            && cleared2 == Calls(cleared.up || (c.up && row.up), cleared.down || (c.down && row.down),
                                 cleared.cab || (c.cab && row.cab))
  {
    e2, cleared2 := e, cleared;
    var row := e.requests[e.floor];
    if (c.up && row.up) || (c.down && row.down) || (c.cab && row.cab) {
      cleared2 := Calls(cleared.up || c.up, cleared.down || c.down, cleared.cab || c.cab);
      e2 := e.(requests := e.requests[e.floor := Without(row, c)]);
    } else {
      assert Without(row, c) == row;
      assert e.requests[e.floor := row] == e.requests;
    }
  }

  /** Clearing works call by call on a copy; the callbacks are the result `cleared`. */
  method ClearReqsAtFloor(e: ElevatorState, mode: ClearRequestType) returns (e2: ElevatorState, cleared: Calls)
    requires OnFloor(e)
    ensures cleared == ClearedCalls(e, mode)
    ensures e2 == e.(requests := e.requests[e.floor := Without(e.requests[e.floor], cleared)])
  {
    var hallUp := Calls(true, false, false);
    var hallDown := Calls(false, true, false);
    var cab := Calls(false, false, true);
    e2, cleared := e, NO_CALLS;
    match mode {
      case All =>
        e2, cleared := ClearOne(e2, cleared, hallUp);
        e2, cleared := ClearOne(e2, cleared, hallDown);
        e2, cleared := ClearOne(e2, cleared, cab);
      case InDirn =>
        e2, cleared := ClearOne(e2, cleared, cab);
        SameElsewhere(e.requests, e2.requests, e.floor);
        match e.direction {
          case Up =>
            if e2.requests[e2.floor].up {
              e2, cleared := ClearOne(e2, cleared, hallUp);
            } else if !AnyAbove(e2.requests, e2.floor) {
              e2, cleared := ClearOne(e2, cleared, hallDown);
            }
          case Down =>
            if e2.requests[e2.floor].down {
              e2, cleared := ClearOne(e2, cleared, hallDown);
            } else if !AnyBelow(e2.requests, e2.floor) {
              e2, cleared := ClearOne(e2, cleared, hallUp);
            }
          case Stop =>
            e2, cleared := ClearOne(e2, cleared, hallUp);
            e2, cleared := ClearOne(e2, cleared, hallDown);
        }
    }
  }

  /** What lies above and below does not depend on the floor's own row. */
  lemma SameElsewhere(a: seq<Calls>, b: seq<Calls>, floor: int)
    requires |a| == |b| && forall g :: 0 <= g < |a| && g != floor ==> a[g] == b[g]
    ensures AnyAbove(a, floor) <==> AnyAbove(b, floor)
    ensures AnyBelow(a, floor) <==> AnyBelow(b, floor)
  {
    forall g | 0 <= g < |a| && g != floor
      ensures Any(a[g]) <==> Any(b[g])
    {
    }
  }

  /** A stop that clears nothing is one at a floor with no calls, or one held there
      by calls the direction of travel does not take. */
  lemma NothingCleared(e: ElevatorState, mode: ClearRequestType)
    requires OnFloor(e) && ClearedCalls(e, mode) == NO_CALLS
    ensures !AnyAt(e.requests, e.floor) || AnyAhead(e.requests, e.floor, e.direction)
    ensures var row := e.requests[e.floor];
            !row.cab && (e.direction != Down ==> !row.up) && (e.direction != Up ==> !row.down)
  {
  }
}
