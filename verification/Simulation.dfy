/** The moves of the simulated elevators over one shared call table
    (`optimal_hall_requests.d`), as functions of the state before. */
module Simulation {
  import opened Shaft
  import opened SimElevator

  datatype Req = Req(active: bool, assignedTo: string)

  /** A floor's `Req[2]`. */
  datatype FloorReqs = FloorReqs(up: Req, down: Req)

  /** `bool[2]`: the hall buttons of a floor. */
  datatype HallCalls = HallCalls(up: bool, down: bool)

  /** A simulated elevator; time is in units of 100 nanoseconds. */
  datatype SimState = SimState(id: string, state: LocalElevatorState, time: int)

  /** Durations are in milliseconds. */
  datatype SimConfig = SimConfig(
    doorOpenDuration: int,
    travelDuration: int,
    includeCab: bool,
    clearRequestType: ClearRequestType)

  function Msecs(n: int): int {
    n * 10_000
  }

  function HalfOf(n: int): int {
    n * 5_000
  }

  // ----- the call table -----

  predicate IsUnassigned(r: Req) {
    r.active && r.assignedTo == ""
  }

  predicate AnyUnassigned(reqs: seq<FloorReqs>) {
    exists f :: 0 <= f < |reqs| && (IsUnassigned(reqs[f].up) || IsUnassigned(reqs[f].down))
  }

  function ToReq(hallReqs: seq<HallCalls>): seq<FloorReqs> {
    seq(|hallReqs|, f requires 0 <= f < |hallReqs| => FloorReqs(Req(hallReqs[f].up, ""), Req(hallReqs[f].down, "")))
  }

  function Row(s: LocalElevatorState, reqs: seq<FloorReqs>, f: int): Calls
    requires 0 <= f < |reqs|
  {
    Calls(IsUnassigned(reqs[f].up), IsUnassigned(reqs[f].down), f < |s.cabRequests| && s.cabRequests[f])
  }

  /** The elevator as it sees the calls: the unassigned hall calls and its own cab calls. */
  function WithReqs(s: LocalElevatorState, reqs: seq<FloorReqs>): ElevatorState {
    ElevatorState(s.behaviour, s.floor, s.direction, seq(|reqs|, f requires 0 <= f < |reqs| => Row(s, reqs, f)))
  }

  function Take(r: Req, taken: bool, id: string): Req {
    if taken then r.(assignedTo := id) else r
  }

  function TakeRow(row: FloorReqs, cleared: Calls, id: string): FloorReqs {
    FloorReqs(Take(row.up, cleared.up, id), Take(row.down, cleared.down, id))
  }

  // ----- moves -----

  predicate InShaft(s: SimState, floors: int) {
    && 0 <= s.state.floor < floors && |s.state.cabRequests| == floors
  }

  /** A moving elevator has come from the floor behind it. */
  predicate Sound(s: SimState, floors: int) {
    && InShaft(s, floors)
    && (s.state.behaviour == Moving && s.state.direction == Up ==> s.state.floor > 0)
    && (s.state.behaviour == Moving && s.state.direction == Down ==> s.state.floor < floors - 1)
  }

  function InitialState(cfg: SimConfig, s: SimState, reqs: seq<FloorReqs>): SimState
    requires 0 <= s.state.floor < |reqs|
  {
    var row := reqs[s.state.floor];
    match s.state.behaviour
    case Moving =>
      s.(state := s.state.(floor := s.state.floor + Step(s.state.direction)),
         time := s.time + HalfOf(cfg.travelDuration))
    case _ =>
      var closing := if s.state.behaviour == DoorOpen then HalfOf(cfg.doorOpenDuration) else 0;
      var calls := (if row.up.active then 1 else 0) + (if row.down.active then 1 else 0);
      s.(time := s.time + closing + calls * Msecs(cfg.doorOpenDuration))
  }

  /** Standing at a floor takes its active calls, whoever had them. */
  function InitialReqs(s: SimState, reqs: seq<FloorReqs>): seq<FloorReqs>
    requires 0 <= s.state.floor < |reqs|
  {
    if s.state.behaviour == Moving then reqs
    else
      var row := reqs[s.state.floor];
      reqs[s.state.floor := TakeRow(row, Calls(row.up.active, row.down.active, false), s.id)]
  }

  /** Whether a single move opens the door at the elevator's floor. */
  predicate Opens(s: SimState, reqs: seq<FloorReqs>)
    requires InShaft(s, |reqs|)
  {
    var e := WithReqs(s.state, reqs);
    if s.state.behaviour == Moving then ShouldStop(e)
    else ChooseDirection(e) == Stop && AnyAt(e.requests, e.floor)
  }

  /** What the move takes: with the direction the elevator had before it. */
  function Taken(cfg: SimConfig, s: SimState, reqs: seq<FloorReqs>): Calls
    requires InShaft(s, |reqs|)
  {
    if Opens(s, reqs) then ClearedCalls(WithReqs(s.state, reqs), cfg.clearRequestType) else NO_CALLS
  }

  function MovedReqs(cfg: SimConfig, s: SimState, reqs: seq<FloorReqs>): seq<FloorReqs>
    requires InShaft(s, |reqs|)
  {
    reqs[s.state.floor := TakeRow(reqs[s.state.floor], Taken(cfg, s, reqs), s.id)]
  }

  function MovedState(cfg: SimConfig, s: SimState, reqs: seq<FloorReqs>): SimState
    requires InShaft(s, |reqs|)
  {
    var e := WithReqs(s.state, reqs);
    var f := s.state.floor;
    var cabs := if Taken(cfg, s, reqs).cab then s.state.cabRequests[f := false] else s.state.cabRequests;
    if s.state.behaviour == Moving then
      if ShouldStop(e) then
        s.(state := s.state.(behaviour := DoorOpen, cabRequests := cabs), time := s.time + Msecs(cfg.doorOpenDuration))
      else
        s.(state := s.state.(floor := f + Step(s.state.direction)), time := s.time + Msecs(cfg.travelDuration))
    else
      var dir := ChooseDirection(e);
      if dir != Stop then
        s.(state := s.state.(behaviour := Moving, direction := dir, floor := f + Step(dir)),
           time := s.time + Msecs(cfg.travelDuration))
      else if AnyAt(e.requests, f) then
        s.(state := s.state.(behaviour := DoorOpen, direction := dir, cabRequests := cabs),
           time := s.time + Msecs(cfg.doorOpenDuration))
      else
        s.(state := s.state.(behaviour := Idle, direction := dir))
  }

  // ----- the way out of the simulation -----

  predicate FreeAt(states: seq<SimState>, f: int) {
    exists i :: 0 <= i < |states| && states[i].state.floor == f && !AnyCab(states[i].state)
  }

  /** No cab calls, no floor with both hall calls, and an elevator at every floor
      with an unassigned one. */
  predicate UnvisitedAreImmediatelyAssignable(reqs: seq<FloorReqs>, states: seq<SimState>) {
    && (forall i :: 0 <= i < |states| ==> !AnyCab(states[i].state))
    && (forall f :: 0 <= f < |reqs| ==>
         && !(reqs[f].up.active && reqs[f].down.active)
         && (IsUnassigned(reqs[f].up) || IsUnassigned(reqs[f].down) ==> FreeAt(states, f)))
  }

  predicate GoesOn(reqs: seq<FloorReqs>, states: seq<SimState>) {
    AnyUnassigned(reqs) && !UnvisitedAreImmediatelyAssignable(reqs, states)
  }

  /** What passing the elevators one by one makes of a call at floor `f`: as long as
      it has no named elevator, one standing there takes it. */
  function Offered(r: Req, f: int, states: seq<SimState>): Req {
    if states == [] then r
    else
      var before := Offered(r, f, states[..|states| - 1]);
      var s := states[|states| - 1];
      Take(before, IsUnassigned(before) && s.state.floor == f && !AnyCab(s.state), s.id)
  }

  function AssignedImmediately(reqs: seq<FloorReqs>, states: seq<SimState>): seq<FloorReqs> {
    seq(|reqs|, f requires 0 <= f < |reqs| =>
          FloorReqs(Offered(reqs[f].up, f, states), Offered(reqs[f].down, f, states)))
  }

  // ----- the shaft and the table under every move -----

  lemma InitialIsSound(cfg: SimConfig, s: SimState, reqs: seq<FloorReqs>)
    requires InShaft(s, |reqs|)
    requires s.state.behaviour == Moving ==> 0 <= s.state.floor + Step(s.state.direction) < |reqs|
    ensures Sound(InitialState(cfg, s, reqs), |reqs|) && InitialState(cfg, s, reqs).id == s.id
  {
  }

  /** No move leaves the shaft. */
  lemma MoveIsSound(cfg: SimConfig, s: SimState, reqs: seq<FloorReqs>)
    requires Sound(s, |reqs|)
    ensures Sound(MovedState(cfg, s, reqs), |reqs|) && MovedState(cfg, s, reqs).id == s.id
  {
    var e := WithReqs(s.state, reqs);
    if ChooseDirection(e) == Up {
      assert AnyAbove(e.requests, e.floor);
    }
    if ChooseDirection(e) == Down {
      assert AnyBelow(e.requests, e.floor);
    }
  }

  /** A move takes time: the door interval when it opens the door, the travel time
      for the floor it passes, and none only when there is nothing to do. */
  lemma MoveTakesTime(cfg: SimConfig, s: SimState, reqs: seq<FloorReqs>)
    requires Sound(s, |reqs|)
    ensures var t := MovedState(cfg, s, reqs);
            t.time - s.time ==
              (if Opens(s, reqs) then Msecs(cfg.doorOpenDuration)
               else if t.state.behaviour == Moving then Msecs(cfg.travelDuration)
               else 0)
    ensures AnyCalls(WithReqs(s.state, reqs).requests) ==>
              Opens(s, reqs) || MovedState(cfg, s, reqs).state.behaviour == Moving
  {
    var e := WithReqs(s.state, reqs);
    if AnyCalls(e.requests) {
      var f :| 0 <= f < |e.requests| && Any(e.requests[f]);
      assert f < e.floor || f == e.floor || f > e.floor;
    }
  }

  /** Every active call stays active and every assigned call keeps its elevator. */
  ghost predicate Keeps(before: seq<FloorReqs>, after: seq<FloorReqs>) {
    && |after| == |before|
    && forall f :: 0 <= f < |before| ==>
         KeepsCall(before[f].up, after[f].up) && KeepsCall(before[f].down, after[f].down)
  }

  predicate KeepsCall(before: Req, after: Req) {
    after.active == before.active && (before.assignedTo != "" ==> after == before)
  }

  lemma MoveKeeps(cfg: SimConfig, s: SimState, reqs: seq<FloorReqs>)
    requires InShaft(s, |reqs|)
    ensures Keeps(reqs, MovedReqs(cfg, s, reqs))
  {
  }

  lemma {:induction false} OfferedKeeps(r: Req, f: int, states: seq<SimState>)
    ensures KeepsCall(r, Offered(r, f, states))
    ensures Offered(r, f, states).assignedTo == r.assignedTo ||
            exists i :: 0 <= i < |states| && Offered(r, f, states).assignedTo == states[i].id
  {
    if states != [] {
      var front := states[..|states| - 1];
      OfferedKeeps(r, f, front);
      if i :| 0 <= i < |front| && Offered(r, f, front).assignedTo == front[i].id {
        assert states[i] == front[i];
      }
    }
  }

  lemma ImmediateKeeps(reqs: seq<FloorReqs>, states: seq<SimState>)
    ensures Keeps(reqs, AssignedImmediately(reqs, states))
  {
    forall f | 0 <= f < |reqs|
      ensures KeepsCall(reqs[f].up, AssignedImmediately(reqs, states)[f].up)
      ensures KeepsCall(reqs[f].down, AssignedImmediately(reqs, states)[f].down)
    {
      OfferedKeeps(reqs[f].up, f, states);
      OfferedKeeps(reqs[f].down, f, states);
    }
  }

  lemma KeepsTransitive(a: seq<FloorReqs>, b: seq<FloorReqs>, c: seq<FloorReqs>)
    requires Keeps(a, b) && Keeps(b, c)
    ensures Keeps(a, c)
  {
  }

  /** The call is active as the buttons say, and any elevator it names is a given one. */
  predicate WellAssigned(r: Req, active: bool, ids: set<string>) {
    r.active == active && (r.assignedTo == "" || r.assignedTo in ids)
  }

  predicate TableOf(reqs: seq<FloorReqs>, hallReqs: seq<HallCalls>, ids: set<string>) {
    && |reqs| == |hallReqs|
    && forall f :: 0 <= f < |reqs| ==>
         WellAssigned(reqs[f].up, hallReqs[f].up, ids) && WellAssigned(reqs[f].down, hallReqs[f].down, ids)
  }

  /** A free elevator at a call's floor takes the call, unless one already has it. */
  lemma {:induction false} OfferedIsTaken(r: Req, f: int, states: seq<SimState>, ids: set<string>)
    requires r.active && (r.assignedTo != "" ==> r.assignedTo in ids)
    requires forall i :: 0 <= i < |states| ==> states[i].id in ids
    requires r.assignedTo != "" || FreeAt(states, f)
    ensures Offered(r, f, states).assignedTo in ids
  {
    if states != [] {
      var front := states[..|states| - 1];
      OfferedKeeps(r, f, front);
      if r.assignedTo != "" || FreeAt(front, f) {
        OfferedIsTaken(r, f, front, ids);
      }
    }
  }
}
