/** Who has which call when the simulation starts, and when each elevator is through with
    its initial move. */
module InitialCalls {
  import opened Text
  import opened Shaft
  import opened SimElevator
  import opened Simulation
  import opened SimRuns

  predicate StandsAt(s: LocalElevatorState, f: int) {
    s.behaviour != Moving && s.floor == f
  }

  /** Of the elevators that stand at the floor, the one with the greatest id. */
  predicate LastThere(from: ElevatorStates, f: int, id: string) {
    && id in from && StandsAt(from[id], f)
    && forall other :: other in from && StandsAt(from[other], f) ==> other == id || Less(other, id)
  }

  /** An active call belongs to the last elevator at its floor, if one stands there, and
      every other call to none. */
  predicate WithLastThere(from: ElevatorStates, f: int, active: bool, r: Req) {
    && r.active == active
    && if active && exists id :: id in from && StandsAt(from[id], f) then LastThere(from, f, r.assignedTo)
       else r.assignedTo == ""
  }

  // ----- the moves, one after the other -----

  /** The last of the first `n` elevators at the floor, or -1. */
  function LastOf(first: seq<SimState>, n: nat, f: int): (last: int)
    requires n <= |first|
    ensures -1 <= last < n
    ensures last >= 0 ==> StandsAt(first[last].state, f)
    ensures forall j :: last < j < n ==> !StandsAt(first[j].state, f)
  {
    if n == 0 then -1
    else if StandsAt(first[n - 1].state, f) then n - 1
    else LastOf(first, n - 1, f)
  }

  predicate HadByLast(first: seq<SimState>, n: nat, f: int, active: bool, r: Req)
    requires n <= |first|
  {
    && r.active == active
    && r.assignedTo == if active && LastOf(first, n, f) >= 0 then first[LastOf(first, n, f)].id else ""
  }

  predicate RowHadByLast(first: seq<SimState>, n: nat, f: int, calls: HallCalls, row: FloorReqs)
    requires n <= |first|
  {
    HadByLast(first, n, f, calls.up, row.up) && HadByLast(first, n, f, calls.down, row.down)
  }

  lemma OneMove(first: seq<SimState>, n: nat, f: int, calls: HallCalls, reqs: seq<FloorReqs>)
    requires n < |first| && 0 <= f < |reqs| && InShaft(first[n], |reqs|)
    requires RowHadByLast(first, n, f, calls, reqs[f])
    ensures RowHadByLast(first, n + 1, f, calls, InitialReqs(first[n], reqs)[f])
  {
  }

  lemma {:induction false} AfterMoves(cfg: SimConfig, first: seq<SimState>, hallReqs: seq<HallCalls>, n: nat, f: int)
    requires n <= |first| && 0 <= f < |hallReqs|
    requires forall j :: 0 <= j < |first| ==> InShaft(first[j], |hallReqs|)
    ensures RowHadByLast(first, n, f, hallReqs[f], InitialMoves(cfg, first, ToReq(hallReqs), n).reqs[f])
  {
    if n > 0 {
      AfterMoves(cfg, first, hallReqs, n - 1, f);
      OneMove(first, n - 1, f, hallReqs[f], InitialMoves(cfg, first, ToReq(hallReqs), n - 1).reqs);
    }
  }

  /** The elevators are in the order of their ids, so that the last is the greatest. */
  lemma LastIsGreatest(first: seq<SimState>, from: ElevatorStates, f: int, active: bool, r: Req)
    requires InitialList(first, from) && HadByLast(first, |first|, f, active, r)
    ensures WithLastThere(from, f, active, r)
  {
    var last := LastOf(first, |first|, f);
    forall id | id in from && StandsAt(from[id], f)
      ensures last >= 0 && (id == first[last].id || Less(id, first[last].id))
    {
      assert id in Ids(first);
      var s :| s in first && s.id == id;
      var j :| 0 <= j < |first| && first[j] == s;
      assert j == last || j < last;
    }
  }

  /** After the initial moves every active call at a floor where an elevator stands belongs
      to the one with the greatest id there, and no other call to anybody. */
  lemma StartCalls(cfg: SimConfig, hallReqs: seq<HallCalls>, from: ElevatorStates, c: Conf, f: int)
    requires Contract(hallReqs, from) && StartOf(cfg, hallReqs, from, c) && 0 <= f < |hallReqs|
    ensures |c.reqs| == |hallReqs|
    ensures WithLastThere(from, f, hallReqs[f].up, c.reqs[f].up)
    ensures WithLastThere(from, f, hallReqs[f].down, c.reqs[f].down)
  {
    var first :| InitialList(first, from) && StartFrom(cfg, hallReqs, from, first, c);
    InitialFacts(first, from, hallReqs);
    AfterMoves(cfg, first, hallReqs, |first|, f);
    LastIsGreatest(first, from, f, hallReqs[f].up, c.reqs[f].up);
    LastIsGreatest(first, from, f, hallReqs[f].down, c.reqs[f].down);
  }

  // ----- how long they take -----

  /** The calls of a floor that are active. */
  function CallsOf(calls: HallCalls): nat {
    (if calls.up then 1 else 0) + (if calls.down then 1 else 0)
  }

  /** A moving elevator has half a floor to go and is then there. One that stands takes the
      door interval for each active call of its floor, and half of it before that if its
      door is open; it stays as it is. Times are in units of 100 nanoseconds. */
  predicate MovedInitially(cfg: SimConfig, calls: seq<HallCalls>, before: SimState, after: SimState)
    requires 0 <= before.state.floor < |calls|
  {
    var s, floor := before.state, before.state.floor;
    after.id == before.id &&
    if s.behaviour == Moving then
      && after.state == s.(floor := if s.direction == Up then floor + 1
                                    else if s.direction == Down then floor - 1 else floor)
      && after.time == before.time + 5_000 * cfg.travelDuration
    else
      && after.state == s
      && after.time == before.time + (if s.behaviour == DoorOpen then 5_000 * cfg.doorOpenDuration else 0)
                       + CallsOf(calls[floor]) * (10_000 * cfg.doorOpenDuration)
  }

  lemma OneMoveTakes(cfg: SimConfig, calls: seq<HallCalls>, s: SimState, reqs: seq<FloorReqs>)
    requires InShaft(s, |reqs|) && |calls| == |reqs|
    requires forall f :: 0 <= f < |reqs| ==> reqs[f].up.active == calls[f].up && reqs[f].down.active == calls[f].down
    ensures MovedInitially(cfg, calls, s, InitialState(cfg, s, reqs))
  {
  }

  lemma {:induction false} MovesTake(cfg: SimConfig, first: seq<SimState>, hallReqs: seq<HallCalls>, n: nat, j: nat)
    requires j < n <= |first| && forall i :: 0 <= i < |first| ==> InShaft(first[i], |hallReqs|)
    ensures MovedInitially(cfg, hallReqs, first[j], InitialMoves(cfg, first, ToReq(hallReqs), n).states[j])
  {
    if j < n - 1 {
      MovesTake(cfg, first, hallReqs, n - 1, j);
    } else {
      var c := InitialMoves(cfg, first, ToReq(hallReqs), j);
      forall f | 0 <= f < |hallReqs|
        ensures c.reqs[f].up.active == hallReqs[f].up && c.reqs[f].down.active == hallReqs[f].down
      {
        AfterMoves(cfg, first, hallReqs, j, f);
      }
      OneMoveTakes(cfg, hallReqs, first[j], c.reqs);
    }
  }

  /** One elevator for each id, in the order of the ids, a microsecond apart. */
  ghost predicate InOrderOfIds(first: seq<SimState>, from: ElevatorStates) {
    && (forall id :: id in from <==> exists j :: 0 <= j < |first| && first[j].id == id)
    && (forall i, j :: 0 <= i < j < |first| ==> Less(first[i].id, first[j].id))
    && (forall j :: 0 <= j < |first| && first[j].id in from ==>
          first[j].state == from[first[j].id] && first[j].time == 10 * j)
  }

  lemma InitialOrder(first: seq<SimState>, from: ElevatorStates)
    requires InitialList(first, from)
    ensures InOrderOfIds(first, from)
  {
    forall id | id in from
      ensures exists j :: 0 <= j < |first| && first[j].id == id
    {
      assert id in Ids(first);
      var s :| s in first && s.id == id;
    }
  }

  /** So the simulation starts, each elevator moved as it was. */
  lemma StartTimes(cfg: SimConfig, hallReqs: seq<HallCalls>, from: ElevatorStates, c: Conf)
    returns (first: seq<SimState>)
    requires Contract(hallReqs, from) && StartOf(cfg, hallReqs, from, c)
    ensures InOrderOfIds(first, from) && |c.states| == |first|
    ensures forall j :: 0 <= j < |first| ==>
              0 <= first[j].state.floor < |hallReqs| && MovedInitially(cfg, hallReqs, first[j], c.states[j])
  {
    first :| InitialList(first, from) && StartFrom(cfg, hallReqs, from, first, c);
    InitialOrder(first, from);
    InitialFacts(first, from, hallReqs);
    forall j | 0 <= j < |first|
      ensures 0 <= first[j].state.floor < |hallReqs| && MovedInitially(cfg, hallReqs, first[j], c.states[j])
    {
      MovesTake(cfg, first, hallReqs, |first|, j);
    }
  }
}
