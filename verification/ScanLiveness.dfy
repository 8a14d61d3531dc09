/** Every request given to the single elevator is served, and it never leaves the shaft. */
module ScanLiveness {
  import opened Shaft
  import opened ScanElevator

  /** Before the first floor sensor the car runs down with its floor unknown. */
  predicate Homing(e: Elevator) {
    e.floor == -1 && e.behaviour == Moving && e.dir == Down
  }

  /** The states a car can be in: idle only with nothing to do, moving only with a
      request strictly ahead, and with the door open the calls its direction
      serves are cleared. */
  predicate Running(e: Elevator) {
    Homing(e) ||
    (AtFloor(e) &&
     match e.behaviour
     case Idle => e.dir == Stop && !AnyCalls(e.requests)
     case Moving => AnyAhead(e.requests, e.floor, e.dir)
     case DoorOpen =>
       var row := e.requests[e.floor];
       !row.cab && (e.dir != Down ==> !row.up) && (e.dir != Up ==> !row.down))
  }

  /** The floor sensors a moving car can reach next. */
  predicate CanReach(e: Elevator, floor: int) {
    0 <= floor < |e.requests| && e.behaviour == Moving &&
    (if e.floor == -1 then true
     else match e.dir
          case Up => floor == e.floor + 1
          case Down => floor == e.floor - 1
          case Stop => false)
  }

  // ----- every event keeps a car running -----

  lemma ClearedRow(e: Elevator)
    requires AtFloor(e)
    ensures var row := Cleared(e).requests[e.floor];
            !row.cab && (e.dir != Down ==> !row.up) && (e.dir != Up ==> !row.down)
  {
  }

  /** A moving car has a floor ahead of it: it never passes an end of the shaft. */
  lemma NextFloorExists(e: Elevator)
    requires Running(e) && e.behaviour == Moving && |e.requests| > 0
    ensures exists floor :: CanReach(e, floor)
  {
    if Homing(e) {
      assert CanReach(e, 0);
    } else if e.dir == Up {
      assert CanReach(e, e.floor + 1);
    } else {
      assert CanReach(e, e.floor - 1);
    }
  }

  lemma ArrivalRuns(e: Elevator, floor: int)
    requires Running(e) && CanReach(e, floor)
    ensures Running(Arrival(e, floor).e)
  {
    var there := e.(floor := floor);
    if ShouldStop(there) {
      ClearedRow(there);
    }
  }

  lemma ChoiceRuns(e: Elevator)
    requires AtFloor(e)
    ensures var (dir, behaviour) := ChooseDirection(e);
            && (behaviour == Moving ==> AnyAhead(e.requests, e.floor, dir))
            && (behaviour == Idle ==> dir == Stop && !AnyCalls(e.requests))
            && (behaviour == DoorOpen ==> AnyAt(e.requests, e.floor))
  {
    if AnyCalls(e.requests) {
      var f :| 0 <= f < |e.requests| && Any(e.requests[f]);
      assert f < e.floor || f == e.floor || f > e.floor;
    }
  }

  lemma TimeoutRuns(e: Elevator)
    requires Running(e)
    ensures Running(Timeout(e).e)
  {
    if !e.obstructed && e.behaviour == DoorOpen {
      ChoiceRuns(e);
      var (dir, behaviour) := ChooseDirection(e);
      if behaviour == DoorOpen {
        ClearedRow(e.(dir := dir, behaviour := behaviour));
      }
    }
  }

  lemma WithKeeps(rows: seq<Calls>, f: nat, b: Button)
    requires f < |rows|
    ensures var after := rows[f := With(rows[f], b)];
            && (forall g :: 0 <= g < |rows| && Any(rows[g]) ==> Any(after[g]))
            && Any(after[f])
            && (forall g :: 0 <= g < |rows| && g != f && !Any(rows[g]) ==> !Any(after[g]))
  {
  }

  lemma PressRuns(e: Elevator, floor: int, b: Button)
    requires Running(e) && 0 <= floor < |e.requests|
    ensures Running(Press(e, floor, b).e)
  {
    var asked := e.(requests := e.requests[floor := With(e.requests[floor], b)]);
    WithKeeps(e.requests, floor, b);
    match e.behaviour
    case Moving =>
      if e.floor >= 0 {
        AheadKept(e.requests, asked.requests, e.floor, e.dir);
      }
    case DoorOpen =>
      if e.floor == floor {
        ClearedRow(asked);
      }
    case Idle =>
      if e.floor == floor {
        ClearedRow(asked);
      } else {
        ChoiceRuns(asked);
        assert !Any(e.requests[e.floor]);
        assert Any(asked.requests[floor]);
        assert AnyCalls(asked.requests);
      }
  }

  lemma AheadKept(before: seq<Calls>, after: seq<Calls>, floor: int, dir: Dirn)
    requires |before| == |after| && AnyAhead(before, floor, dir)
    requires forall g :: 0 <= g < |before| && Any(before[g]) ==> Any(after[g])
    ensures AnyAhead(after, floor, dir)
  {
  }

  // ----- the car with its door timer -----

  /** The elevator, and whether the door timer is running. */
  datatype Timed = Timed(e: Elevator, timer: bool)

  datatype Event = Arrive(floor: int) | TimerFires | Pressed(floor: int, b: Button) | Obstruct(on: bool)

  /** Sensors fire at the next floor, the timer when it is running, buttons and the
      obstruction switch at any time. Buttons exist for the shaft's floors only. */
  predicate Possible(t: Timed, ev: Event) {
    match ev
    case Arrive(floor) => CanReach(t.e, floor)
    case TimerFires => t.timer && (t.e.behaviour == DoorOpen ==> AtFloor(t.e))
    case Pressed(floor, _) => 0 <= floor < |t.e.requests| && (t.e.behaviour != Moving ==> AtFloor(t.e))
    case Obstruct(_) => true
  }

  /** The timer runs on, or from now, if the event says so. */
  function Timing(o: Outcome, timer: bool): Timed {
    Timed(o.e, timer || o.restart)
  }

  /** The timer has fired and stopped before its event; a freed doorway starts it. */
  function After(t: Timed, ev: Event): Timed
    requires Possible(t, ev)
  {
    match ev
    case Arrive(floor) => Timing(Arrival(t.e, floor), t.timer)
    case TimerFires => Timing(Timeout(t.e), false)
    case Pressed(floor, b) => Timing(Press(t.e, floor, b), t.timer)
    case Obstruct(on) => Timed(t.e.(obstructed := on), t.timer || (!on && t.e.behaviour == DoorOpen))
  }

  /** The timer runs exactly while the door is open. */
  predicate TimedRunning(t: Timed) {
    Running(t.e) && (t.timer <==> t.e.behaviour == DoorOpen)
  }

  /** Idle at a floor with nothing to do, or homing after a start between floors. */
  ghost predicate Start(t: Timed) {
    !t.timer &&
    (Homing(t.e) || (AtFloor(t.e) && t.e.behaviour == Idle && t.e.dir == Stop && !AnyCalls(t.e.requests)))
  }

  ghost predicate Run(tr: seq<Timed>, evs: seq<Event>) {
    && |tr| == |evs| + 1 && Start(tr[0])
    && forall i :: 0 <= i < |evs| ==> Possible(tr[i], evs[i]) && tr[i + 1] == After(tr[i], evs[i])
  }

  lemma PressTimes(e: Elevator, floor: int, b: Button)
    requires Running(e) && 0 <= floor < |e.requests|
    ensures var o := Press(e, floor, b); (e.behaviour == DoorOpen || o.restart) <==> o.e.behaviour == DoorOpen
  {
    if e.behaviour == Idle && e.floor != floor {
      var asked := e.(requests := e.requests[floor := With(e.requests[floor], b)]);
      WithKeeps(e.requests, floor, b);
      assert !Any(e.requests[e.floor]) && !Any(asked.requests[e.floor]);
      assert Any(asked.requests[floor]);
    }
  }

  lemma EventRuns(t: Timed, ev: Event)
    requires TimedRunning(t) && Possible(t, ev)
    ensures TimedRunning(After(t, ev)) && |After(t, ev).e.requests| == |t.e.requests|
  {
    match ev
    case Arrive(floor) => ArrivalRuns(t.e, floor);
    case TimerFires => TimeoutRuns(t.e);
    case Pressed(floor, b) =>
      PressRuns(t.e, floor, b);
      PressTimes(t.e, floor, b);
    case Obstruct(_) =>
  }

  /** Over every run of arrivals, timer events, presses and obstructions; the buttons of
      the shaft can be used in every state reached, and the timer runs exactly while the
      door is open, so that it will fire. */
  lemma {:induction false} RunStaysRunning(tr: seq<Timed>, evs: seq<Event>, i: nat)
    requires Run(tr, evs) && i <= |evs|
    ensures TimedRunning(tr[i]) && |tr[i].e.requests| == |tr[0].e.requests|
    ensures tr[i].e.behaviour == DoorOpen <==> Possible(tr[i], TimerFires)
    ensures forall floor, b :: 0 <= floor < |tr[i].e.requests| ==> Possible(tr[i], Pressed(floor, b))
  {
    if i > 0 {
      RunStaysRunning(tr, evs, i - 1);
      EventRuns(tr[i - 1], evs[i - 1]);
    }
  }

  // ----- left alone, the car finishes -----

  function Rank(e: Elevator): nat
    requires Running(e)
  {
    var n := |e.requests|;
    match e.behaviour
    case Idle => 0
    case DoorOpen => n + 1
    case Moving => if e.floor == -1 then n + 2 else if e.dir == Up then n - e.floor else e.floor + 1
  }

  function Measure(e: Elevator): nat
    requires Running(e)
  {
    Count(e.requests) * (|e.requests| + 2) + Rank(e)
  }

  /** Clearing a row that holds a call the direction serves takes calls away. */
  lemma ClearingCounts(e: Elevator)
    requires AtFloor(e)
    ensures Count(Cleared(e).requests) <= Count(e.requests)
    ensures Remaining(e) != e.requests[e.floor] ==> Count(Cleared(e).requests) < Count(e.requests)
  {
    CountUpdate(e.requests, e.floor, Remaining(e));
  }

  lemma FewerCalls(m: nat, c: nat, d: nat, r: nat, q: int)
    requires d < c && r <= m - 1 && q > -1 && m > 0
    ensures d * m + r < c * m + q
  {
    assert d * m <= (c - 1) * m;
  }

  /** Every stop at a floor with a request ahead of the car clears at least one call. */
  lemma StopServes(e: Elevator, floor: int)
    requires Running(e) && CanReach(e, floor) && e.floor >= 0 && Arrival(e, floor).restart
    ensures Count(Arrival(e, floor).e.requests) < Count(e.requests)
  {
    var there := e.(floor := floor);
    ClearingCounts(there);
    if e.dir == Up && !AnyAbove(e.requests, floor) {
      var f :| e.floor < f < |e.requests| && Any(e.requests[f]);
      assert f == floor;
    }
    if e.dir == Down && !AnyBelow(e.requests, floor) {
      var f :| 0 <= f < e.floor && Any(e.requests[f]);
      assert f == floor;
    }
  }

  /** Every re-opening clears at least one call. */
  lemma ReopenServes(e: Elevator)
    requires Running(e) && e.behaviour == DoorOpen && !e.obstructed && Timeout(e).restart
    ensures Count(Timeout(e).e.requests) < Count(e.requests)
  {
    var (dir, behaviour) := ChooseDirection(e);
    ClearingCounts(e.(dir := dir, behaviour := behaviour));
  }

  /** One step of the machine and its shaft with no new presses and a free doorway: the
      next floor sensor, or the door timer if it is running. */
  ghost predicate Alone(t: Timed, u: Timed) {
    && !t.e.obstructed
    && match t.e.behaviour
       case Idle => false
       case Moving => exists floor :: CanReach(t.e, floor) && u == After(t, Arrive(floor))
       case DoorOpen => Possible(t, TimerFires) && u == After(t, TimerFires)
  }

  lemma HomingProgress(e: Elevator, floor: int)
    requires Running(e) && CanReach(e, floor) && e.floor == -1
    ensures Running(Arrival(e, floor).e) && Measure(Arrival(e, floor).e) < Measure(e)
  {
    ArrivalRuns(e, floor);
    var f := Arrival(e, floor).e;
    if Arrival(e, floor).restart {
      ClearingCounts(e.(floor := floor));
      NoMoreCalls(|e.requests| + 2, Count(e.requests), Count(f.requests));
    }
    assert Rank(f) < Rank(e);
  }

  lemma NoMoreCalls(m: nat, c: nat, d: nat)
    requires d <= c
    ensures d * m <= c * m
  {
  }

  lemma ArrivalProgress(e: Elevator, floor: int)
    requires Running(e) && CanReach(e, floor) && e.floor >= 0
    ensures Running(Arrival(e, floor).e) && Measure(Arrival(e, floor).e) < Measure(e)
  {
    ArrivalRuns(e, floor);
    var f := Arrival(e, floor).e;
    if Arrival(e, floor).restart {
      StopServes(e, floor);
      FewerCalls(|e.requests| + 2, Count(e.requests), Count(f.requests), Rank(f), Rank(e));
    } else {
      assert f.requests == e.requests && Rank(f) < Rank(e);
    }
  }

  lemma TimeoutProgress(e: Elevator)
    requires Running(e) && e.behaviour == DoorOpen && !e.obstructed
    ensures Running(Timeout(e).e) && Measure(Timeout(e).e) < Measure(e)
  {
    TimeoutRuns(e);
    var f := Timeout(e).e;
    if Timeout(e).restart {
      ReopenServes(e);
      FewerCalls(|e.requests| + 2, Count(e.requests), Count(f.requests), Rank(f), Rank(e));
    }
  }

  lemma AloneProgress(t: Timed, u: Timed)
    requires TimedRunning(t) && Alone(t, u)
    ensures TimedRunning(u) && Measure(u.e) < Measure(t.e) && !u.e.obstructed && |u.e.requests| == |t.e.requests|
  {
    if t.e.behaviour == Moving {
      var floor :| CanReach(t.e, floor) && u == After(t, Arrive(floor));
      EventRuns(t, Arrive(floor));
      if t.e.floor == -1 {
        HomingProgress(t.e, floor);
      } else {
        ArrivalProgress(t.e, floor);
      }
    } else {
      EventRuns(t, TimerFires);
      TimeoutProgress(t.e);
    }
  }

  lemma MeasureBound(e: Elevator)
    requires Running(e)
    ensures Measure(e) <= (Count(e.requests) + 1) * (|e.requests| + 2)
  {
    assert (Count(e.requests) + 1) * (|e.requests| + 2) == Count(e.requests) * (|e.requests| + 2) + (|e.requests| + 2);
  }

  /** From any state a car can be in, with no new presses and a free doorway, the
      car is through after at most (calls + 1) * (floors + 2) steps, and where it can
      make no further step it is idle with every call cleared. */
  lemma ServesEverything(tr: seq<Timed>)
    requires tr != [] && TimedRunning(tr[0]) && !tr[0].e.obstructed && |tr[0].e.requests| > 0
    requires forall i :: 0 <= i < |tr| - 1 ==> Alone(tr[i], tr[i + 1])
    ensures |tr| - 1 <= (Count(tr[0].e.requests) + 1) * (|tr[0].e.requests| + 2)
    ensures var last := tr[|tr| - 1];
            (forall next :: !Alone(last, next)) <==> last.e.behaviour == Idle
    ensures var last := tr[|tr| - 1].e;
            last.behaviour == Idle ==> !AnyCalls(last.requests)
  {
    AloneBound(tr, |tr| - 1);
    MeasureBound(tr[0].e);
    var last := tr[|tr| - 1];
    if last.e.behaviour == Moving {
      NextFloorExists(last.e);
      var floor :| CanReach(last.e, floor);
      assert Alone(last, After(last, Arrive(floor)));
    } else if last.e.behaviour == DoorOpen {
      assert Alone(last, After(last, TimerFires));
    }
  }

  lemma {:induction false} AloneBound(tr: seq<Timed>, i: nat)
    requires i < |tr| && TimedRunning(tr[0]) && !tr[0].e.obstructed && |tr[0].e.requests| > 0
    requires forall j :: 0 <= j < |tr| - 1 ==> Alone(tr[j], tr[j + 1])
    ensures TimedRunning(tr[i]) && !tr[i].e.obstructed && |tr[i].e.requests| == |tr[0].e.requests|
    ensures i + Measure(tr[i].e) <= Measure(tr[0].e)
  {
    if i > 0 {
      AloneBound(tr, i - 1);
      AloneProgress(tr[i - 1], tr[i]);
    }
  }

  /** A call is cleared only at the car's floor, with the door open. */
  lemma ClearedAtDoor(t: Timed, ev: Event, f: int)
    requires Running(t.e) && Possible(t, ev) && 0 <= f < |t.e.requests|
    requires RowCount(After(t, ev).e.requests[f]) < RowCount(t.e.requests[f])
    ensures After(t, ev).e.behaviour == DoorOpen && f == After(t, ev).e.floor
  {
  }
}
