/** The assigner itself: `optimalHallRequests` of `optimal_hall_requests.d`, working in
    place on the arrays of elevators and calls. */
module HallRequestAssigner {
  import opened Text
  import opened Sorting
  import opened Shaft
  import opened SimElevator
  import opened Simulation
  import opened SimProgress
  import opened SimRuns
  import opened LoneElevator
  import opened SimEnds
  import opened SimRules
  import opened InitialCalls

  // ----- initial states -----

  predicate NotAfter(a: string, b: string) {
    a == b || Less(a, b)
  }

  lemma NotAfterOrders()
    ensures TotalPreorder(NotAfter)
  {
    forall x, y
      ensures NotAfter(x, y) || NotAfter(y, x)
    {
      LessTotal(x, y);
    }
    forall x, y, z | NotAfter(x, y) && NotAfter(y, z)
      ensures NotAfter(x, z)
    {
      if Less(x, y) && Less(y, z) {
        LessTransitive(x, y, z);
      }
    }
  }

  method SortedKeys(from: ElevatorStates) returns (ids: seq<string>)
    ensures forall id :: id in ids <==> id in from
    ensures forall i, j :: 0 <= i < j < |ids| ==> Less(ids[i], ids[j])
  {
    var keys: seq<string> := [];
    var rest := from.Keys;
    while rest != {}
      invariant rest <= from.Keys
      invariant multiset(keys) == multiset(from.Keys - rest)
    {
      var key :| key in rest;
      ghost var done := from.Keys - rest;
      rest := rest - {key};
      keys := keys + [key];
      assert from.Keys - rest == done + {key};
      assert multiset(done + {key}) == multiset(done) + multiset{key};
    }
    assert from.Keys - rest == from.Keys;
    ids := SortFunc(keys, NotAfter);
    NotAfterOrders();
    SortFuncOrdered(keys, NotAfter);
    ListedOnce(ids, from.Keys);
  }

  method InitialStates(from: ElevatorStates) returns (states: array<SimState>)
    ensures fresh(states) && InitialList(states[..], from)
  {
    var ids := SortedKeys(from);
    states := new SimState[|ids|](i requires 0 <= i < |ids| reads {} =>
      assert ids[i] in ids; SimState(ids[i], from[ids[i]], i * 10));
    ghost var all := states[..];
    forall id | id in from.Keys
      ensures id in Ids(all)
    {
      var i :| 0 <= i < |ids| && ids[i] == id;
      assert all[i].id == id && all[i] in all;
    }
  }

  // ----- moves in place -----

  method PerformInitialMove(cfg: SimConfig, states: array<SimState>, i: nat, reqs: array<FloorReqs>)
    requires i < states.Length && 0 <= states[i].state.floor < reqs.Length
    modifies states, reqs
    ensures states[..] == old(states[..])[i := InitialState(cfg, old(states[i]), old(reqs[..]))]
    ensures reqs[..] == InitialReqs(old(states[i]), old(reqs[..]))
  {
    var s := states[i];
    var f := s.state.floor;
    if s.state.behaviour == Moving {
      s := s.(state := s.state.(floor := f + Step(s.state.direction)));
      s := s.(time := s.time + HalfOf(cfg.travelDuration));
    } else {
      if s.state.behaviour == DoorOpen {
        s := s.(time := s.time + HalfOf(cfg.doorOpenDuration));
      }
      if reqs[f].up.active {
        reqs[f] := reqs[f].(up := reqs[f].up.(assignedTo := s.id));
        s := s.(time := s.time + Msecs(cfg.doorOpenDuration));
      }
      if reqs[f].down.active {
        reqs[f] := reqs[f].(down := reqs[f].down.(assignedTo := s.id));
        s := s.(time := s.time + Msecs(cfg.doorOpenDuration));
      }
    }
    states[i] := s;
  }

  method PerformSingleMove(cfg: SimConfig, states: array<SimState>, i: nat, reqs: array<FloorReqs>)
    requires i < states.Length && InShaft(states[i], reqs.Length)
    modifies states, reqs
    ensures states[..] == old(states[..])[i := MovedState(cfg, old(states[i]), old(reqs[..]))]
    ensures reqs[..] == MovedReqs(cfg, old(states[i]), old(reqs[..]))
  {
    var s := states[i];
    var f := s.state.floor;
    var e := WithReqs(s.state, reqs[..]);
    ghost var before := reqs[..];
    var opens := false;
    if s.state.behaviour == Moving {
      if ShouldStop(e) {
        s := s.(state := s.state.(behaviour := DoorOpen));
        s := s.(time := s.time + Msecs(cfg.doorOpenDuration));
        opens := true;
      } else {
        s := s.(state := s.state.(floor := f + Step(s.state.direction)));
        s := s.(time := s.time + Msecs(cfg.travelDuration));
      }
    } else {
      s := s.(state := s.state.(direction := ChooseDirection(e)));
      if s.state.direction == Stop {
        if AnyAt(e.requests, e.floor) {
          opens := true;
          s := s.(time := s.time + Msecs(cfg.doorOpenDuration));
          s := s.(state := s.state.(behaviour := DoorOpen));
        } else {
          s := s.(state := s.state.(behaviour := Idle));
        }
      } else {
        s := s.(state := s.state.(behaviour := Moving));
        s := s.(state := s.state.(floor := f + Step(s.state.direction)));
        s := s.(time := s.time + Msecs(cfg.travelDuration));
      }
    }
    if opens {
      // `e` still has the direction from before the move.
      var e2, cleared := ClearReqsAtFloor(e, cfg.clearRequestType);
      if cleared.cab {
        s := s.(state := s.state.(cabRequests := s.state.cabRequests[f := false]));
      }
      reqs[f] := TakeRow(reqs[f], cleared, s.id);
    } else {
      assert TakeRow(before[f], NO_CALLS, s.id) == before[f];
      assert before[f := before[f]] == before;
    }
    states[i] := s;
  }

  // ----- sorting by time -----

  method Swap(a: array<SimState>, i: nat, j: nat)
    requires i < a.Length && j < a.Length
    modifies a
    ensures a[..] == old(a[..])[i := old(a[j])][j := old(a[i])]
    ensures multiset(a[..]) == multiset(old(a[..]))
  {
    a[i], a[j] := a[j], a[i];
  }

  /** `sort!` by time: some rearrangement in order of time, and nothing more. */
  method SortByTime(a: array<SimState>)
    modifies a
    ensures multiset(a[..]) == multiset(old(a[..]))
    ensures SortedUpTo(a[..], a.Length)
  {
    for n := 0 to a.Length
      invariant multiset(a[..]) == multiset(old(a[..]))
      invariant SortedUpTo(a[..], n)
    {
      var least := n;
      for k := n + 1 to a.Length
        invariant n <= least < a.Length
        invariant forall j :: n <= j < k ==> a[least].time <= a[j].time
      {
        if a[k].time < a[least].time {
          least := k;
        }
      }
      Swap(a, n, least);
    }
  }

  // ----- the shortcut -----

  predicate SameButTime(a: seq<SimState>, b: seq<SimState>) {
    |a| == |b| && forall i :: 0 <= i < |a| ==> a[i].id == b[i].id && a[i].state == b[i].state
  }

  lemma {:induction false} OfferedIgnoresTime(r: Req, f: int, a: seq<SimState>, b: seq<SimState>)
    requires SameButTime(a, b)
    ensures Offered(r, f, a) == Offered(r, f, b)
  {
    if a != [] {
      OfferedIgnoresTime(r, f, a[..|a| - 1], b[..|b| - 1]);
    }
  }

  /** Elevator `i` takes the call when it is offered in turn. */
  predicate TakesOffer(r: Req, f: int, states: seq<SimState>, i: int)
    requires 0 <= i < |states|
  {
    IsUnassigned(Offered(r, f, states[..i])) && states[i].state.floor == f && !AnyCab(states[i].state)
  }

  /** An offered call costs those that take it the door interval. */
  function AfterOffer(cfg: SimConfig, r: Req, f: int, states: seq<SimState>): (after: seq<SimState>)
    ensures SameButTime(states, after)
  {
    seq(|states|, i requires 0 <= i < |states| =>
          if TakesOffer(r, f, states, i) then states[i].(time := states[i].time + Msecs(cfg.doorOpenDuration))
          else states[i])
  }

  /** The elevator that takes the call is later by the door interval, and no other is. */
  lemma OfferTakesTime(cfg: SimConfig, r: Req, f: int, states: seq<SimState>, i: nat)
    requires i < |states| && Free(r) && states[i].id != ""
    requires states[i].state.floor == f && !AnyCab(states[i].state)
    requires forall j :: 0 <= j < i ==> states[j].state.floor != f || AnyCab(states[j].state)
    ensures AfterOffer(cfg, r, f, states) ==
            states[i := states[i].(time := states[i].time + 10_000 * cfg.doorOpenDuration)]
  {
    forall j | 0 <= j < |states|
      ensures TakesOffer(r, f, states, j) <==> j == i
    {
      if j == i {
        NobodyThere(r, f, states[..i]);
      } else if j > i {
        OfferedToFirst(r, f, states[..j], i);
      }
    }
  }

  /** The elevators when the calls of the first `n` floors have been offered. */
  function AfterOffers(cfg: SimConfig, reqs: seq<FloorReqs>, states: seq<SimState>, n: nat): (after: seq<SimState>)
    requires n <= |reqs|
    ensures SameButTime(states, after)
  {
    if n == 0 then states
    else
      var row := reqs[n - 1];
      AfterOffer(cfg, row.down, n - 1, AfterOffer(cfg, row.up, n - 1, AfterOffers(cfg, reqs, states, n - 1)))
  }

  /** The innermost loop: one call is offered to the elevators in turn. */
  method OfferCall(cfg: SimConfig, states: array<SimState>, f: nat, r0: Req) returns (r: Req)
    modifies states
    ensures r == Offered(r0, f, old(states[..]))
    ensures states[..] == AfterOffer(cfg, r0, f, old(states[..]))
  {
    r := r0;
    ghost var all := states[..];
    for i := 0 to states.Length
      invariant forall j :: 0 <= j < i ==> states[j] == AfterOffer(cfg, r0, f, all)[j]
      invariant forall j :: i <= j < states.Length ==> states[j] == all[j]
      invariant r == Offered(r0, f, all[..i])
    {
      assert all[..i + 1][..i] == all[..i];
      if IsUnassigned(r) {
        if states[i].state.floor == f && !AnyCab(states[i].state) {
          r := r.(assignedTo := states[i].id);
          states[i] := states[i].(time := states[i].time + Msecs(cfg.doorOpenDuration));
        }
      }
    }
    assert all[..states.Length] == all;
  }

  method AssignImmediate(cfg: SimConfig, states: array<SimState>, reqs: array<FloorReqs>)
    modifies states, reqs
    ensures reqs[..] == AssignedImmediately(old(reqs[..]), old(states[..]))
    ensures states[..] == AfterOffers(cfg, old(reqs[..]), old(states[..]), reqs.Length)
  {
    ghost var table, all := reqs[..], states[..];
    for f := 0 to reqs.Length
      invariant states[..] == AfterOffers(cfg, table, all, f)
      invariant forall g :: 0 <= g < f ==> reqs[g] == AssignedImmediately(table, all)[g]
      invariant forall g :: f <= g < reqs.Length ==> reqs[g] == table[g]
    {
      OfferedIgnoresTime(reqs[f].up, f, all, states[..]);
      var up := OfferCall(cfg, states, f, reqs[f].up);
      reqs[f] := reqs[f].(up := up);
      OfferedIgnoresTime(reqs[f].down, f, all, states[..]);
      var down := OfferCall(cfg, states, f, reqs[f].down);
      reqs[f] := reqs[f].(down := down);
    }
  }

  // ----- the simulation -----

  /** The main loop is a run of turns up to one that ends it; it ends, every call it
      finds assigned keeps its elevator, and every active call gets one of the given. */
  method Simulate(cfg: SimConfig, states: array<SimState>, reqs: array<FloorReqs>, ghost ids: set<string>)
    requires EndInv(cfg, states[..], reqs[..], ids)
    modifies states, reqs
    ensures exists tr, c :: TurnsTo(cfg, tr, old(Conf(states[..], reqs[..])), c) && Ends(c, reqs[..])
    ensures Keeps(old(reqs[..]), reqs[..])
    ensures AllTaken(reqs[..], ids)
  {
    ghost var start := Conf(states[..], reqs[..]);
    ghost var tr := [start];
    while true
      invariant EndInv(cfg, states[..], reqs[..], ids)
      invariant Keeps(start.reqs, reqs[..])
      invariant TurnsTo(cfg, tr, start, Conf(states[..], reqs[..]))
      decreases First(states[..], reqs[..]), Second(states[..], reqs[..]), Third(states[..], reqs[..])
    {
      ghost var c := Conf(states[..], reqs[..]);
      SortByTime(states);
      ghost var sorted := states[..];
      EndSort(cfg, c.states, sorted, c.reqs, ids);
      EndNames(cfg, sorted, c.reqs, ids);
      var done := true;
      if AnyUnassigned(reqs[..]) {
        done := false;
      }
      if UnvisitedAreImmediatelyAssignable(reqs[..], states[..]) {
        ShortcutTakesAll(c.reqs, sorted, ids);
        ImmediateKeeps(c.reqs, sorted);
        KeepsTransitive(start.reqs, c.reqs, AssignedImmediately(c.reqs, sorted));
        AssignImmediate(cfg, states, reqs);
        assert EndsBy(c, sorted, reqs[..]);
        return;
      }
      if done {
        NoneLeft(c.reqs, ids);
        assert EndsBy(c, sorted, reqs[..]);
        return;
      }
      EndStep(cfg, sorted, c.reqs, ids);
      KeepsTransitive(start.reqs, c.reqs, MovedReqs(cfg, sorted[0], c.reqs));
      PerformSingleMove(cfg, states, 0, reqs);
      ghost var d := Conf(states[..], reqs[..]);
      assert TurnBy(cfg, c, sorted, d);
      TurnsOneMore(cfg, tr, start, c, d);
      tr := tr + [d];
    }
  }

  // ----- the result -----

  function CabColumn(cfg: SimConfig, s: LocalElevatorState, f: int): seq<bool>
    requires 0 <= f < |s.cabRequests|
  {
    if cfg.includeCab then [s.cabRequests[f]] else []
  }

  function Owns(r: Req, id: string): bool {
    r.active && r.assignedTo == id
  }

  /** An elevator's row of the result once the first `done` of a floor's two calls
      have been entered. */
  function ResultRow(cfg: SimConfig, s: LocalElevatorState, row: FloorReqs, id: string, f: int, done: int): seq<bool>
    requires 0 <= f < |s.cabRequests|
  {
    [done >= 1 && Owns(row.up, id), done >= 2 && Owns(row.down, id)] + CabColumn(cfg, s, f)
  }

  /** An elevator's matrix with all floors below `f` entered and `done` calls of floor `f`. */
  predicate MatrixOf(cfg: SimConfig, s: LocalElevatorState, reqs: seq<FloorReqs>, id: string,
                     m: seq<seq<bool>>, f: int, done: int)
    requires |s.cabRequests| == |reqs|
  {
    && |m| == |reqs|
    && forall g :: 0 <= g < |m| ==>
         m[g] == ResultRow(cfg, s, reqs[g], id, g, if g < f then 2 else if g == f then done else 0)
  }

  ghost predicate ResultOf(cfg: SimConfig, from: ElevatorStates, reqs: seq<FloorReqs>,
                           result: map<string, seq<seq<bool>>>, f: int, done: int)
    requires forall id :: id in from ==> |from[id].cabRequests| == |reqs|
  {
    result.Keys == from.Keys && forall id :: id in from ==> MatrixOf(cfg, from[id], reqs, id, result[id], f, done)
  }

  method EmptyResult(cfg: SimConfig, from: ElevatorStates, ghost reqs: seq<FloorReqs>, n: nat)
    returns (result: map<string, seq<seq<bool>>>)
    requires n == |reqs| && forall id :: id in from ==> |from[id].cabRequests| == n
    ensures ResultOf(cfg, from, reqs, result, 0, 0)
  {
    result := map[];
    var rest := from.Keys;
    while rest != {}
      invariant rest <= from.Keys && result.Keys == from.Keys - rest
      invariant forall id :: id in result ==> MatrixOf(cfg, from[id], reqs, id, result[id], 0, 0)
    {
      var id :| id in rest;
      rest := rest - {id};
      var s := from[id];
      var blank := seq(n, f requires 0 <= f < n => [false, false] + CabColumn(cfg, s, f));
      result := result[id := blank];
    }
  }

  function Marked(m: seq<seq<bool>>, f: int, c: int): seq<seq<bool>>
    requires 0 <= f < |m| && 0 <= c < |m[f]|
  {
    m[f := m[f][c := true]]
  }

  method Enter(result0: map<string, seq<seq<bool>>>, r: Req, f: nat, c: nat)
    returns (result: map<string, seq<seq<bool>>>)
    requires r.active ==> r.assignedTo in result0
    requires forall id :: id in result0 ==> f < |result0[id]| && c < |result0[id][f]|
    ensures result.Keys == result0.Keys
    ensures forall id :: id in result0 ==>
              result[id] == if Owns(r, id) then Marked(result0[id], f, c) else result0[id]
  {
    result := result0;
    if r.active {
      var id := r.assignedTo;
      result := result[id := Marked(result[id], f, c)];
    }
  }

  lemma EnterOne(cfg: SimConfig, s: LocalElevatorState, reqs: seq<FloorReqs>, id: string, m: seq<seq<bool>>,
                 f: int, c: int)
    requires |s.cabRequests| == |reqs| && 0 <= f < |reqs| && 0 <= c < 2 && MatrixOf(cfg, s, reqs, id, m, f, c)
    ensures c < |m[f]|
    ensures var r := if c == 0 then reqs[f].up else reqs[f].down;
            MatrixOf(cfg, s, reqs, id, if Owns(r, id) then Marked(m, f, c) else m, f, c + 1)
  {
    var row := m[f];
    assert row == ResultRow(cfg, s, reqs[f], id, f, c);
    assert row[c := true] == [c == 0 || row[0], c == 1 || row[1]] + CabColumn(cfg, s, f);
  }

  lemma NextFloor(cfg: SimConfig, s: LocalElevatorState, reqs: seq<FloorReqs>, id: string, m: seq<seq<bool>>, f: int)
    requires |s.cabRequests| == |reqs| && MatrixOf(cfg, s, reqs, id, m, f, 2)
    ensures MatrixOf(cfg, s, reqs, id, m, f + 1, 0)
  {
  }

  lemma FloorEntered(cfg: SimConfig, from: ElevatorStates, reqs: seq<FloorReqs>,
                     result: map<string, seq<seq<bool>>>, f: int)
    requires forall id :: id in from ==> |from[id].cabRequests| == |reqs|
    requires ResultOf(cfg, from, reqs, result, f, 2)
    ensures ResultOf(cfg, from, reqs, result, f + 1, 0)
  {
    forall id | id in from
      ensures MatrixOf(cfg, from[id], reqs, id, result[id], f + 1, 0)
    {
      NextFloor(cfg, from[id], reqs, id, result[id], f);
    }
  }

  method EnterCall(cfg: SimConfig, from: ElevatorStates, ghost reqs: seq<FloorReqs>, r: Req,
                   result0: map<string, seq<seq<bool>>>, f: nat, c: nat)
    returns (result: map<string, seq<seq<bool>>>)
    requires forall id :: id in from ==> |from[id].cabRequests| == |reqs|
    requires f < |reqs| && c < 2 && ResultOf(cfg, from, reqs, result0, f, c)
    requires r == (if c == 0 then reqs[f].up else reqs[f].down) && (r.active ==> r.assignedTo in from)
    ensures ResultOf(cfg, from, reqs, result, f, c + 1)
  {
    forall id | id in from
      ensures c < |result0[id][f]|
      ensures var m := if Owns(r, id) then Marked(result0[id], f, c) else result0[id];
              MatrixOf(cfg, from[id], reqs, id, m, f, c + 1)
    {
      EnterOne(cfg, from[id], reqs, id, result0[id], f, c);
    }
    result := Enter(result0, r, f, c);
  }

  /** The inner loop: both calls of a floor. */
  method EnterFloor(cfg: SimConfig, from: ElevatorStates, ghost reqs: seq<FloorReqs>, row: FloorReqs,
                    result0: map<string, seq<seq<bool>>>, f: nat)
    returns (result: map<string, seq<seq<bool>>>)
    requires forall id :: id in from ==> |from[id].cabRequests| == |reqs|
    requires f < |reqs| && row == reqs[f] && ResultOf(cfg, from, reqs, result0, f, 0)
    requires (row.up.active ==> row.up.assignedTo in from) && (row.down.active ==> row.down.assignedTo in from)
    ensures ResultOf(cfg, from, reqs, result, f + 1, 0)
  {
    result := EnterCall(cfg, from, reqs, row.up, result0, f, 0);
    result := EnterCall(cfg, from, reqs, row.down, result, f, 1);
    FloorEntered(cfg, from, reqs, result, f);
  }

  method EnterCalls(cfg: SimConfig, from: ElevatorStates, reqs: array<FloorReqs>)
    returns (result: map<string, seq<seq<bool>>>)
    requires AllTaken(reqs[..], from.Keys)
    requires forall id :: id in from ==> |from[id].cabRequests| == reqs.Length
    ensures ResultOf(cfg, from, reqs[..], result, reqs.Length, 0)
  {
    ghost var table := reqs[..];
    result := EmptyResult(cfg, from, table, reqs.Length);
    for f := 0 to reqs.Length
      invariant ResultOf(cfg, from, table, result, f, 0)
    {
      result := EnterFloor(cfg, from, table, reqs[f], result, f);
    }
  }

  /** Call `c` of floor `f` is in the matrix of exactly one elevator if it is active
      and of none if it is not. */
  ghost predicate GoesToOne(result: map<string, seq<seq<bool>>>, active: bool, f: int, c: int)
    requires forall id :: id in result ==> 0 <= f < |result[id]| && 0 <= c < |result[id][f]|
  {
    && (active <==> exists id :: id in result && result[id][f][c])
    && (forall id, other :: id in result && other in result && result[id][f][c] && result[other][f][c] ==> id == other)
  }

  method PerformInitialMoves(cfg: SimConfig, states: array<SimState>, reqs: array<FloorReqs>)
    requires forall j :: 0 <= j < states.Length ==> InShaft(states[j], reqs.Length)
    modifies states, reqs
    ensures Conf(states[..], reqs[..]) == InitialMoves(cfg, old(states[..]), old(reqs[..]), states.Length)
  {
    ghost var first, table := states[..], reqs[..];
    for i := 0 to states.Length
      invariant Conf(states[..], reqs[..]) == InitialMoves(cfg, first, table, i)
    {
      assert states[..][i] == first[i];
      PerformInitialMove(cfg, states, i, reqs);
    }
  }

  /** The elevators and the table after the initial moves. */
  method Prepare(cfg: SimConfig, hallReqs: seq<HallCalls>, elevatorStates: ElevatorStates)
    returns (states: array<SimState>, reqs: array<FloorReqs>)
    requires Contract(hallReqs, elevatorStates)
    ensures fresh(states) && fresh(reqs)
    ensures StartOf(cfg, hallReqs, elevatorStates, Conf(states[..], reqs[..]))
  {
    var table := ToReq(hallReqs);
    reqs := new FloorReqs[|table|](f requires 0 <= f < |table| reads {} => table[f]);
    states := InitialStates(elevatorStates);
    ghost var first := states[..];
    InitialFacts(first, elevatorStates, hallReqs);
    assert reqs[..] == table;
    PerformInitialMoves(cfg, states, reqs);
    assert StartFrom(cfg, hallReqs, elevatorStates, first, Conf(states[..], reqs[..]));
  }

  ghost predicate Shaped(cfg: SimConfig, n: int, from: ElevatorStates, result: map<string, seq<seq<bool>>>)
    requires forall id :: id in from ==> |from[id].cabRequests| == n
  {
    && result.Keys == from.Keys
    && forall id :: id in result ==>
         && |result[id]| == n
         && forall f :: 0 <= f < n ==>
              && |result[id][f]| == (if cfg.includeCab then 3 else 2)
              && (cfg.includeCab ==> result[id][f][2] == from[id].cabRequests[f])
  }

  /** The result shows who has each call in a table that a run of the loop can leave. */
  ghost predicate Simulated(cfg: SimConfig, hallReqs: seq<HallCalls>, from: ElevatorStates,
                            result: map<string, seq<seq<bool>>>)
    requires Contract(hallReqs, from)
  {
    exists start, tr, last, table ::
      StartOf(cfg, hallReqs, from, start) && TurnsTo(cfg, tr, start, last) && Ends(last, table) &&
      |table| == |hallReqs| && ResultOf(cfg, from, table, result, |table|, 0)
  }

  // ----- calls at floors where elevators stand -----

  lemma OnlyOneIsLast(from: ElevatorStates, f: int, a: string, b: string)
    requires LastThere(from, f, a) && LastThere(from, f, b)
    ensures a == b
  {
    if Less(a, b) {
      LessAsymmetric(a, b);
    }
  }

  /** An elevator that is the last at its floor has an active call there from the start to
      the end. */
  lemma StandingKeepsCall(from: ElevatorStates, f: int, id: string, active: bool, before: Req, after: Req)
    requires WithLastThere(from, f, active, before) && KeepsCall(before, after)
    requires LastThere(from, f, id) && id != "" && active
    ensures Owns(after, id)
  {
    OnlyOneIsLast(from, f, id, before.assignedTo);
  }

  /** The result shows it. */
  ghost predicate StandingGet(hallReqs: seq<HallCalls>, from: ElevatorStates, result: map<string, seq<seq<bool>>>)
    requires forall id :: id in from ==> id in result && |result[id]| == |hallReqs|
    requires forall id, f :: id in from && 0 <= f < |hallReqs| ==> |result[id][f]| >= 2
  {
    forall f, id :: 0 <= f < |hallReqs| && LastThere(from, f, id) && id != "" ==>
      (hallReqs[f].up ==> result[id][f][0]) && (hallReqs[f].down ==> result[id][f][1])
  }

  lemma StandingOwns(cfg: SimConfig, hallReqs: seq<HallCalls>, from: ElevatorStates, start: Conf,
                     reqs: seq<FloorReqs>, f: int, id: string)
    requires Contract(hallReqs, from) && StartOf(cfg, hallReqs, from, start) && Keeps(start.reqs, reqs)
    requires 0 <= f < |hallReqs| == |reqs| && LastThere(from, f, id) && id != ""
    ensures (hallReqs[f].up ==> Owns(reqs[f].up, id)) && (hallReqs[f].down ==> Owns(reqs[f].down, id))
  {
    StartCalls(cfg, hallReqs, from, start, f);
    assert KeepsCall(start.reqs[f].up, reqs[f].up) && KeepsCall(start.reqs[f].down, reqs[f].down);
    if hallReqs[f].up {
      StandingKeepsCall(from, f, id, true, start.reqs[f].up, reqs[f].up);
    }
    if hallReqs[f].down {
      StandingKeepsCall(from, f, id, true, start.reqs[f].down, reqs[f].down);
    }
  }

  lemma StandingGetCalls(cfg: SimConfig, hallReqs: seq<HallCalls>, from: ElevatorStates, start: Conf,
                         reqs: seq<FloorReqs>, result: map<string, seq<seq<bool>>>)
    requires Contract(hallReqs, from) && StartOf(cfg, hallReqs, from, start) && Keeps(start.reqs, reqs)
    requires |reqs| == |hallReqs| && ResultOf(cfg, from, reqs, result, |reqs|, 0)
    ensures forall id :: id in from ==> id in result && |result[id]| == |hallReqs|
    ensures forall id, f :: id in from && 0 <= f < |hallReqs| ==> |result[id][f]| >= 2
    ensures StandingGet(hallReqs, from, result)
  {
    forall id, f | id in from && 0 <= f < |hallReqs|
      ensures result[id][f] == ResultRow(cfg, from[id], reqs[f], id, f, 2)
    {
      assert MatrixOf(cfg, from[id], reqs, id, result[id], |reqs|, 0);
    }
    forall f, id | 0 <= f < |hallReqs| && LastThere(from, f, id) && id != ""
      ensures (hallReqs[f].up ==> result[id][f][0]) && (hallReqs[f].down ==> result[id][f][1])
    {
      StandingOwns(cfg, hallReqs, from, start, reqs, f, id);
    }
  }

  /** The assignment is what the simulation comes to, and a partition of the active
      hall calls among the elevators; an active call at a floor where elevators stand goes
      to the one with the greatest id there. */
  method OptimalHallRequests(cfg: SimConfig, hallReqs: seq<HallCalls>, elevatorStates: ElevatorStates)
    returns (result: map<string, seq<seq<bool>>>)
    requires Contract(hallReqs, elevatorStates) && CanEnd(cfg, hallReqs, elevatorStates)
    ensures Simulated(cfg, hallReqs, elevatorStates, result)
    ensures Shaped(cfg, |hallReqs|, elevatorStates, result)
    ensures forall f :: 0 <= f < |hallReqs| ==>
              GoesToOne(result, hallReqs[f].up, f, 0) && GoesToOne(result, hallReqs[f].down, f, 1)
    ensures StandingGet(hallReqs, elevatorStates, result)
  {
    var states, reqs := Prepare(cfg, hallReqs, elevatorStates);
    ghost var initial := reqs[..];
    ghost var start := Conf(states[..], initial);
    StartEnds(cfg, hallReqs, elevatorStates, start);
    Simulate(cfg, states, reqs, elevatorStates.Keys);
    result := EnterCalls(cfg, elevatorStates, reqs);
    ResultIsPartition(cfg, elevatorStates, hallReqs, initial, reqs[..], result);
    StandingGetCalls(cfg, hallReqs, elevatorStates, start, reqs[..], result);
    ghost var tr, last :| TurnsTo(cfg, tr, start, last) && Ends(last, reqs[..]);
    assert StartOf(cfg, hallReqs, elevatorStates, start);
  }

  lemma ResultIsPartition(cfg: SimConfig, from: ElevatorStates, hallReqs: seq<HallCalls>,
                          initial: seq<FloorReqs>, reqs: seq<FloorReqs>, result: map<string, seq<seq<bool>>>)
    requires Contract(hallReqs, from) && TableOf(initial, hallReqs, from.Keys)
    requires Keeps(initial, reqs) && AllTaken(reqs, from.Keys)
    requires ResultOf(cfg, from, reqs, result, |reqs|, 0)
    ensures Shaped(cfg, |hallReqs|, from, result)
    ensures forall f :: 0 <= f < |hallReqs| ==>
              GoesToOne(result, hallReqs[f].up, f, 0) && GoesToOne(result, hallReqs[f].down, f, 1)
  {
    forall id, f | id in result && 0 <= f < |reqs|
      ensures result[id][f] == ResultRow(cfg, from[id], reqs[f], id, f, 2)
    {
      assert MatrixOf(cfg, from[id], reqs, id, result[id], |reqs|, 0);
    }
    forall f | 0 <= f < |hallReqs|
      ensures GoesToOne(result, hallReqs[f].up, f, 0) && GoesToOne(result, hallReqs[f].down, f, 1)
    {
      assert KeepsCall(initial[f].up, reqs[f].up) && KeepsCall(initial[f].down, reqs[f].down);
      assert WellAssigned(initial[f].up, hallReqs[f].up, from.Keys);
      assert WellAssigned(initial[f].down, hallReqs[f].down, from.Keys);
      OneOwner(result, reqs[f].up, f, 0);
      OneOwner(result, reqs[f].down, f, 1);
    }
  }

  lemma OneOwner(result: map<string, seq<seq<bool>>>, r: Req, f: int, c: int)
    requires forall id :: id in result ==> 0 <= f < |result[id]| && 0 <= c < |result[id][f]|
    requires forall id :: id in result ==> result[id][f][c] == Owns(r, id)
    requires r.active ==> r.assignedTo in result
    ensures GoesToOne(result, r.active, f, c)
  {
    if r.active {
      assert result[r.assignedTo][f][c];
    }
  }
}
