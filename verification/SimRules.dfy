/** What a simulated elevator does in one move, call by call. */
module SimRules {
  import opened Shaft
  import opened SimElevator
  import opened Simulation

  // ----- the calls an elevator sees -----

  /** An active call that nobody has. */
  predicate Free(r: Req) {
    r.active && r.assignedTo == ""
  }

  predicate OwnCab(s: LocalElevatorState, f: int) {
    0 <= f < |s.cabRequests| && s.cabRequests[f]
  }

  predicate CallAt(s: LocalElevatorState, reqs: seq<FloorReqs>, f: int) {
    0 <= f < |reqs| && (Free(reqs[f].up) || Free(reqs[f].down) || OwnCab(s, f))
  }

  predicate CallAbove(s: LocalElevatorState, reqs: seq<FloorReqs>) {
    exists f :: s.floor < f < |reqs| && CallAt(s, reqs, f)
  }

  predicate CallBelow(s: LocalElevatorState, reqs: seq<FloorReqs>) {
    exists f :: 0 <= f < s.floor && CallAt(s, reqs, f)
  }

  lemma SeesCalls(s: LocalElevatorState, reqs: seq<FloorReqs>)
    requires 0 <= s.floor < |reqs|
    ensures var e := WithReqs(s, reqs);
            && (AnyAbove(e.requests, s.floor) <==> CallAbove(s, reqs))
            && (AnyBelow(e.requests, s.floor) <==> CallBelow(s, reqs))
            && (AnyAt(e.requests, s.floor) <==> CallAt(s, reqs, s.floor))
  {
    var e := WithReqs(s, reqs);
    forall f | 0 <= f < |reqs|
      ensures Any(e.requests[f]) <==> CallAt(s, reqs, f)
    {
      assert e.requests[f] == Row(s, reqs, f);
    }
  }

  // ----- where it opens its door, and where it goes -----

  /** A moving elevator opens where it has a cab call, where there is a call for its
      direction, at the ends of the shaft, and where there is nothing ahead. */
  predicate StopsHere(s: LocalElevatorState, reqs: seq<FloorReqs>)
    requires 0 <= s.floor < |reqs|
  {
    var row := reqs[s.floor];
    match s.direction
    case Up => OwnCab(s, s.floor) || Free(row.up) || !CallAbove(s, reqs) || s.floor == 0 || s.floor == |reqs| - 1
    case Down => OwnCab(s, s.floor) || Free(row.down) || !CallBelow(s, reqs) || s.floor == 0 || s.floor == |reqs| - 1
    case Stop => true
  }

  /** One that stands goes on upward if that was its direction and there is a call above;
      otherwise it prefers the calls below to those of its floor, unless it was on its way
      up, and those of its floor to those above. */
  function Heads(s: LocalElevatorState, reqs: seq<FloorReqs>): Dirn {
    if s.direction == Up && CallAbove(s, reqs) then Up
    else if s.direction != Up && CallBelow(s, reqs) then Down
    else if CallAt(s, reqs, s.floor) then Stop
    else if CallBelow(s, reqs) then Down
    else if CallAbove(s, reqs) then Up
    else Stop
  }

  lemma DecidesAsRuled(s: LocalElevatorState, reqs: seq<FloorReqs>)
    requires 0 <= s.floor < |reqs|
    ensures ShouldStop(WithReqs(s, reqs)) <==> StopsHere(s, reqs)
    ensures ChooseDirection(WithReqs(s, reqs)) == Heads(s, reqs)
  {
    SeesCalls(s, reqs);
    assert WithReqs(s, reqs).requests[s.floor] == Row(s, reqs, s.floor);
  }

  // ----- what it takes where it opens -----

  /** With everything cleared at once, all calls nobody has. Otherwise those of the
      direction the elevator came with: going up the up call, and the down call only if
      there is no up call to take and nothing above; going down the other way round; without
      a direction both. */
  predicate Takes(mode: ClearRequestType, s: LocalElevatorState, reqs: seq<FloorReqs>, up: bool)
    requires 0 <= s.floor < |reqs|
  {
    var row := reqs[s.floor];
    && Free(if up then row.up else row.down)
    && (|| mode == All || s.direction == Stop
        || (up && s.direction == Up) || (!up && s.direction == Down)
        || (!up && s.direction == Up && !Free(row.up) && !CallAbove(s, reqs))
        || (up && s.direction == Down && !Free(row.down) && !CallBelow(s, reqs)))
  }

  lemma ClearsAsRuled(mode: ClearRequestType, s: LocalElevatorState, reqs: seq<FloorReqs>)
    requires 0 <= s.floor < |reqs|
    ensures var cleared := ClearedCalls(WithReqs(s, reqs), mode);
            && cleared.up == Takes(mode, s, reqs, true) && cleared.down == Takes(mode, s, reqs, false)
            && cleared.cab == OwnCab(s, s.floor)
  {
    SeesCalls(s, reqs);
    assert WithReqs(s, reqs).requests[s.floor] == Row(s, reqs, s.floor);
  }

  /** The table when the elevator has opened its door. */
  predicate TakenBy(mode: ClearRequestType, s: SimState, before: seq<FloorReqs>, after: seq<FloorReqs>)
    requires 0 <= s.state.floor < |before|
  {
    && |after| == |before|
    && (forall f :: 0 <= f < |before| && f != s.state.floor ==> after[f] == before[f])
    && var was, now := before[s.state.floor], after[s.state.floor];
       && now.up == (if Takes(mode, s.state, before, true) then Req(true, s.id) else was.up)
       && now.down == (if Takes(mode, s.state, before, false) then Req(true, s.id) else was.down)
  }

  predicate CabServed(before: seq<bool>, after: seq<bool>, f: int) {
    |after| == |before| && forall g :: 0 <= g < |before| ==> after[g] == (g != f && before[g])
  }

  // ----- the moves -----

  /** A moving elevator stops, which takes the door interval, serves its cab call and takes
      the calls it takes, or passes on to the next floor, which takes the travel time. */
  lemma MovingMoves(cfg: SimConfig, s: SimState, reqs: seq<FloorReqs>)
    requires InShaft(s, |reqs|) && s.state.behaviour == Moving
    ensures var t, after := MovedState(cfg, s, reqs), MovedReqs(cfg, s, reqs);
            if StopsHere(s.state, reqs) then
              && t.id == s.id && t.time == s.time + 10_000 * cfg.doorOpenDuration
              && t.state == s.state.(behaviour := DoorOpen, cabRequests := t.state.cabRequests)
              && CabServed(s.state.cabRequests, t.state.cabRequests, s.state.floor)
              && TakenBy(cfg.clearRequestType, s, reqs, after)
            else
              && t.id == s.id && t.time == s.time + 10_000 * cfg.travelDuration
              && t.state == s.state.(floor := Onwards(s.state.floor, s.state.direction))
              && after == reqs
  {
    DecidesAsRuled(s.state, reqs);
    ClearsAsRuled(cfg.clearRequestType, s.state, reqs);
    assert TakeRow(reqs[s.state.floor], NO_CALLS, s.id) == reqs[s.state.floor];
  }

  function Onwards(f: int, dir: Dirn): int {
    if dir == Up then f + 1 else if dir == Down then f - 1 else f
  }

  /** One that stands sets out the way it heads for, which takes the travel time to the next
      floor; or it opens its door for the calls of its floor, decided on the direction it
      had, which takes the door interval; or it becomes idle, which takes none. */
  lemma StandingMoves(cfg: SimConfig, s: SimState, reqs: seq<FloorReqs>)
    requires InShaft(s, |reqs|) && s.state.behaviour != Moving
    ensures var t, after, dir := MovedState(cfg, s, reqs), MovedReqs(cfg, s, reqs), Heads(s.state, reqs);
            if dir != Stop then
              && t.id == s.id && t.time == s.time + 10_000 * cfg.travelDuration
              && t.state == s.state.(behaviour := Moving, direction := dir, floor := Onwards(s.state.floor, dir))
              && after == reqs
            else if CallAt(s.state, reqs, s.state.floor) then
              && t.id == s.id && t.time == s.time + 10_000 * cfg.doorOpenDuration
              && t.state == s.state.(behaviour := DoorOpen, direction := Stop, cabRequests := t.state.cabRequests)
              && CabServed(s.state.cabRequests, t.state.cabRequests, s.state.floor)
              && TakenBy(cfg.clearRequestType, s, reqs, after)
            else
              t == SimState(s.id, s.state.(behaviour := Idle, direction := Stop), s.time) && after == reqs
  {
    DecidesAsRuled(s.state, reqs);
    SeesCalls(s.state, reqs);
    ClearsAsRuled(cfg.clearRequestType, s.state, reqs);
    assert TakeRow(reqs[s.state.floor], NO_CALLS, s.id) == reqs[s.state.floor];
  }

  // ----- the shortcut -----

  /** No elevator has a cab call. */
  predicate NoCabCalls(states: seq<SimState>) {
    forall i, f :: 0 <= i < |states| && 0 <= f < |states[i].state.cabRequests| ==> !states[i].state.cabRequests[f]
  }

  /** The simulation ends early exactly if no elevator has a cab call, no floor has both of
      its calls active, and an elevator is at every floor with a call that nobody has. */
  lemma ShortcutExactly(reqs: seq<FloorReqs>, states: seq<SimState>)
    ensures UnvisitedAreImmediatelyAssignable(reqs, states) <==>
            && NoCabCalls(states)
            && forall f :: 0 <= f < |reqs| ==>
                 && !(reqs[f].up.active && reqs[f].down.active)
                 && (Free(reqs[f].up) || Free(reqs[f].down) ==> SomebodyAt(states, f))
  {
    if forall i :: 0 <= i < |states| ==> !AnyCab(states[i].state) {
      assert NoCabCalls(states);
    }
    if NoCabCalls(states) {
      forall f
        ensures FreeAt(states, f) <==> SomebodyAt(states, f)
      {
        NobodyHasCabCalls(states, f);
      }
    }
  }

  predicate SomebodyAt(states: seq<SimState>, f: int) {
    exists i :: 0 <= i < |states| && states[i].state.floor == f
  }

  lemma NobodyHasCabCalls(states: seq<SimState>, f: int)
    requires NoCabCalls(states)
    ensures FreeAt(states, f) <==> SomebodyAt(states, f)
    ensures forall i :: 0 <= i < |states| ==> !AnyCab(states[i].state)
  {
    forall i | 0 <= i < |states|
      ensures !AnyCab(states[i].state)
    {
    }
  }

  /** It gives a call that nobody has to the first, in order of time, of the elevators that
      are at its floor without cab calls, if that has a name. */
  lemma {:induction false} OfferedToFirst(r: Req, f: int, states: seq<SimState>, i: nat)
    requires i < |states| && Free(r) && states[i].id != ""
    requires states[i].state.floor == f && !AnyCab(states[i].state)
    requires forall j :: 0 <= j < i ==> states[j].state.floor != f || AnyCab(states[j].state)
    ensures Offered(r, f, states) == Req(true, states[i].id)
  {
    var front := states[..|states| - 1];
    if i < |front| {
      OfferedToFirst(r, f, front, i);
    } else {
      NobodyThere(r, f, front);
    }
  }

  /** It leaves a call that somebody has, and one at whose floor there is no such elevator. */
  lemma {:induction false} NobodyThere(r: Req, f: int, states: seq<SimState>)
    requires !Free(r) || forall j :: 0 <= j < |states| ==> states[j].state.floor != f || AnyCab(states[j].state)
    ensures Offered(r, f, states) == r
  {
    if states != [] {
      NobodyThere(r, f, states[..|states| - 1]);
    }
  }
}
