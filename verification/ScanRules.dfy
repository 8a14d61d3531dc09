/** What the single-elevator machine does at each event, call by call. */
module ScanRules {
  import opened Shaft
  import opened ScanElevator

  predicate CallAt(rows: seq<Calls>, floor: int) {
    0 <= floor < |rows| && (rows[floor].up || rows[floor].down || rows[floor].cab)
  }

  predicate CallAbove(rows: seq<Calls>, floor: int) {
    exists f :: floor < f < |rows| && CallAt(rows, f)
  }

  predicate CallBelow(rows: seq<Calls>, floor: int) {
    exists f :: 0 <= f < floor && CallAt(rows, f)
  }

  lemma SeesCalls(rows: seq<Calls>, floor: int)
    ensures AnyAbove(rows, floor) <==> CallAbove(rows, floor)
    ensures AnyBelow(rows, floor) <==> CallBelow(rows, floor)
    ensures AnyAt(rows, floor) <==> CallAt(rows, floor)
  {
    if CallAbove(rows, floor) {
      var f :| floor < f < |rows| && CallAt(rows, f);
      assert Any(rows[f]);
    }
    if CallBelow(rows, floor) {
      var f :| 0 <= f < floor && CallAt(rows, f);
      assert Any(rows[f]);
    }
    if AnyAbove(rows, floor) {
      var f :| floor < f < |rows| && 0 <= f && Any(rows[f]);
      assert CallAt(rows, f);
    }
    if AnyBelow(rows, floor) {
      var f :| 0 <= f < floor && f < |rows| && Any(rows[f]);
      assert CallAt(rows, f);
    }
  }

  // ----- what an open door leaves of the calls -----

  /** Only the calls of this floor may differ. */
  predicate SameButAt(before: seq<Calls>, after: seq<Calls>, floor: int) {
    |after| == |before| && forall f :: 0 <= f < |before| && f != floor ==> after[f] == before[f]
  }

  /** Opened in direction `dir`, the door clears the cab call and the call of that
      direction. The call against it stays exactly if it is set and there is a call ahead
      or the direction's own call was set; without a direction none stays. */
  predicate ServesRow(before: seq<Calls>, after: seq<Calls>, floor: int, dir: Dirn)
    requires 0 <= floor < |before| && |after| == |before|
  {
    var row, left := before[floor], after[floor];
    && !left.cab
    && (left.up <==> dir == Down && row.up && (row.down || CallBelow(before, floor)))
    && (left.down <==> dir == Up && row.down && (row.up || CallAbove(before, floor)))
  }

  lemma ClearedServes(e: Elevator)
    requires AtFloor(e)
    ensures var d := Cleared(e);
            && d == e.(requests := d.requests) && SameButAt(e.requests, d.requests, e.floor)
            && ServesRow(e.requests, d.requests, e.floor, e.dir)
  {
    SeesCalls(e.requests, e.floor);
  }

  // ----- arrivals -----

  /** A moving car stops at a floor for a cab call, for a call of its direction, and where
      there is nothing ahead. */
  predicate StopsFor(rows: seq<Calls>, floor: int, dir: Dirn)
    requires 0 <= floor < |rows|
  {
    match dir
    case Up => rows[floor].cab || rows[floor].up || !CallAbove(rows, floor)
    case Down => rows[floor].cab || rows[floor].down || !CallBelow(rows, floor)
    case Stop => true
  }

  /** An arrival changes the floor, and where the car stops for it, it opens the door in its
      direction. */
  lemma ArrivalServes(e: Elevator, floor: int)
    requires 0 <= floor < |e.requests|
    ensures var o := Arrival(e, floor);
            && (o.restart <==> e.behaviour == Moving && StopsFor(e.requests, floor, e.dir))
            && (!o.restart ==> o.e == e.(floor := floor))
            && (o.restart ==>
                && o.e == e.(floor := floor, behaviour := DoorOpen, requests := o.e.requests)
                && SameButAt(e.requests, o.e.requests, floor) && ServesRow(e.requests, o.e.requests, floor, e.dir))
  {
    SeesCalls(e.requests, floor);
    ClearedServes(e.(floor := floor));
  }

  /** So a call against the car's direction survives every stop that the car makes on its
      way to a call ahead. */
  lemma CallAgainstSurvives(e: Elevator, floor: int)
    requires 0 <= floor < |e.requests|
    ensures e.dir == Up && CallAbove(e.requests, floor) ==>
              Arrival(e, floor).e.requests[floor].down == e.requests[floor].down
    ensures e.dir == Down && CallBelow(e.requests, floor) ==>
              Arrival(e, floor).e.requests[floor].up == e.requests[floor].up
  {
    ArrivalServes(e, floor);
  }

  // ----- the door timer -----

  function Opposite(dir: Dirn): Dirn {
    match dir
    case Up => Down
    case Down => Up
    case Stop => Stop
  }

  /** A car with a direction goes on while there is a call ahead, and only then serves what
      is left of its floor, and only then turns back; with nothing left it rests. */
  lemma ChoosesInOrder(e: Elevator)
    requires AtFloor(e) && e.dir != Stop
    ensures var ahead := if e.dir == Up then CallAbove(e.requests, e.floor) else CallBelow(e.requests, e.floor);
            var behind := if e.dir == Up then CallBelow(e.requests, e.floor) else CallAbove(e.requests, e.floor);
            ChooseDirection(e) ==
              if ahead then (e.dir, Moving)
              else if CallAt(e.requests, e.floor) then (Opposite(e.dir), DoorOpen)
              else if behind then (Opposite(e.dir), Moving)
              else (Stop, Idle)
  {
    SeesCalls(e.requests, e.floor);
  }

  /** One without serves its floor first, then the calls above, and then those below. */
  lemma ChoosesFromRest(e: Elevator)
    requires AtFloor(e) && e.dir == Stop
    ensures ChooseDirection(e) ==
              if CallAt(e.requests, e.floor) then (Stop, DoorOpen)
              else if CallAbove(e.requests, e.floor) then (Up, Moving)
              else if CallBelow(e.requests, e.floor) then (Down, Moving)
              else (Stop, Idle)
  {
    SeesCalls(e.requests, e.floor);
  }

  /** When the timer fires at an open door with a free doorway, the car goes the way it
      chooses; staying for its floor, it serves that in the direction chosen and starts the
      timer again. Blocked, it starts the timer again and nothing else. */
  lemma TimeoutServes(e: Elevator)
    requires AtFloor(e)
    ensures var o := Timeout(e);
            && (e.obstructed ==> o == Outcome(e, true))
            && (!e.obstructed && e.behaviour != DoorOpen ==> o == Outcome(e, false))
            && (!e.obstructed && e.behaviour == DoorOpen ==>
                var (dir, behaviour) := ChooseDirection(e);
                && o.e == e.(dir := dir, behaviour := behaviour, requests := o.e.requests)
                && (o.restart <==> behaviour == DoorOpen)
                && SameButAt(e.requests, o.e.requests, e.floor)
                && if behaviour == DoorOpen then ServesRow(e.requests, o.e.requests, e.floor, dir)
                   else o.e.requests == e.requests)
  {
    var (dir, behaviour) := ChooseDirection(e);
    ClearedServes(e.(dir := dir, behaviour := behaviour));
  }

  // ----- presses -----

  /** The calls once a button is pressed. */
  function Asked(rows: seq<Calls>, floor: int, b: Button): seq<Calls>
    requires 0 <= floor < |rows|
  {
    var row := rows[floor];
    rows[floor := Calls(row.up || b == HallUp, row.down || b == HallDown, row.cab || b == Cab)]
  }

  /** A press sets its own call. At the car's floor, unless the car moves, the door opens or
      stays open for another interval and serves the floor in the car's direction; an idle
      car elsewhere goes the way it chooses; otherwise nothing else happens. */
  lemma PressServes(e: Elevator, floor: int, b: Button)
    requires 0 <= floor < |e.requests| && (e.behaviour != Moving ==> AtFloor(e))
    ensures var o, asked := Press(e, floor, b), Asked(e.requests, floor, b);
            if e.behaviour != Moving && e.floor == floor then
              && o.restart && o.e == e.(behaviour := DoorOpen, requests := o.e.requests)
              && SameButAt(asked, o.e.requests, floor) && ServesRow(asked, o.e.requests, floor, e.dir)
            else if e.behaviour == Idle then
              var (dir, behaviour) := ChooseDirection(e.(requests := asked));
              && !o.restart && o.e == e.(dir := dir, behaviour := behaviour, requests := o.e.requests)
              && SameButAt(asked, o.e.requests, e.floor)
              && if behaviour == DoorOpen then ServesRow(asked, o.e.requests, e.floor, dir)
                 else o.e.requests == asked
            else o == Outcome(e.(requests := asked), false)
  {
    var asked := e.(requests := Asked(e.requests, floor, b));
    assert asked.requests[floor] == With(e.requests[floor], b);
    if e.behaviour != Moving {
      ClearedServes(asked);
      var (dir, behaviour) := ChooseDirection(asked);
      ClearedServes(asked.(dir := dir, behaviour := behaviour));
    }
  }
}
