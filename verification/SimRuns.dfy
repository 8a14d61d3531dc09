/** Runs of the assigner: the start that its contract allows, the turns of its main
    loop with any order among equal times, and what every turn keeps and lowers. */
module SimRuns {
  import opened Text
  import opened Sorting
  import opened Shaft
  import opened SimElevator
  import opened Simulation
  import opened SimProgress

  type ElevatorStates = map<string, LocalElevatorState>

  /** The `in` contract. */
  predicate Contract(hallReqs: seq<HallCalls>, elevatorStates: ElevatorStates) {
    var numFloors := |hallReqs|;
    && elevatorStates != map[]
    && (forall id :: id in elevatorStates ==>
          && |elevatorStates[id].cabRequests| == numFloors
          && 0 <= elevatorStates[id].floor < numFloors
          && (elevatorStates[id].behaviour == Moving ==>
                0 <= elevatorStates[id].floor + Step(elevatorStates[id].direction) < numFloors))
  }

  /** An id other than "", which the assigner takes for no id; when "" is among the
      ids, the durations must be positive. */
  predicate HasName(cfg: SimConfig, ids: set<string>) {
    && (exists id :: id in ids && id != "")
    && ("" in ids ==> cfg.doorOpenDuration > 0 && cfg.travelDuration > 0)
  }

  ghost function Ids(states: seq<SimState>): set<string> {
    set s | s in states :: s.id
  }

  /** One elevator per id, in the order of their ids, a microsecond apart. */
  ghost predicate InitialList(states: seq<SimState>, from: ElevatorStates) {
    && Ids(states) == from.Keys
    && (forall i :: 0 <= i < |states| ==> states[i].id in from && states[i].state == from[states[i].id])
    && (forall i :: 0 <= i < |states| ==> states[i].time == i * 10)
    && (forall i, j :: 0 <= i < j < |states| ==> Less(states[i].id, states[j].id))
  }

  predicate SortedUpTo(s: seq<SimState>, n: int)
    requires 0 <= n <= |s|
  {
    forall i, j :: 0 <= i < j < |s| && i < n ==> s[i].time <= s[j].time
  }

  // ----- what every turn keeps -----

  lemma IdsUnique(states: seq<SimState>)
    requires forall i, j :: 0 <= i < j < |states| ==> Less(states[i].id, states[j].id)
    ensures UniqueIds(states)
  {
    forall i, j | 0 <= i < j < |states|
      ensures states[i].id != states[j].id
    {
      LessIrreflexive(states[i].id);
    }
  }

  /** What sorting leaves as it was. */
  lemma SortedSame(a: seq<SimState>, b: seq<SimState>, floors: int, cfg: SimConfig)
    requires multiset(a) == multiset(b) && UniqueIds(a) && AllSound(a, floors) && CanFinish(cfg, a)
    ensures UniqueIds(b) && AllSound(b, floors) && CanFinish(cfg, b) && Ids(b) == Ids(a) && |b| == |a|
  {
    SameElements(a, b);
    assert Ids(b) == Ids(a);
    forall i, j | 0 <= i < j < |b|
      ensures b[i].id != b[j].id
    {
      if b[i] == b[j] {
        Twice(b, i, j);
        OnceStays(a, b[i]);
      }
      assert b[i] in a && b[j] in a;
    }
    forall i | 0 <= i < |b|
      ensures Sound(b[i], floors)
    {
      assert b[i] in a;
    }
    var n :| 0 <= n < |a| && a[n].id != "";
    assert a[n] in b;
    if m :| 0 <= m < |b| && b[m].id == "" {
      assert b[m] in a;
    }
  }

  lemma TotalsSame(a: seq<SimState>, b: seq<SimState>, reqs: seq<FloorReqs>)
    requires multiset(a) == multiset(b)
    ensures Work(a, reqs) == Work(b, reqs) && Total(Ranks, a, reqs) == Total(Ranks, b, reqs)
    ensures Lag(a, reqs) == Lag(b, reqs)
  {
    TotalPermuted(Cabs, a, b, reqs);
    TotalPermuted(Ranks, a, b, reqs);
    TotalPermuted(Named, a, b, reqs);
    TotalPermuted(NamedTime, a, b, reqs);
    TotalPermuted(BlankTime, a, b, reqs);
  }

  /** What a move leaves as it was. */
  lemma MovedSame(a: seq<SimState>, i: nat, s: SimState, floors: int, cfg: SimConfig)
    requires i < |a| && s.id == a[i].id && Sound(s, floors)
    requires UniqueIds(a) && AllSound(a, floors) && CanFinish(cfg, a)
    ensures var b := a[i := s]; UniqueIds(b) && AllSound(b, floors) && CanFinish(cfg, b) && Ids(b) == Ids(a)
  {
    var b := a[i := s];
    forall j | 0 <= j < |a|
      ensures b[j].id == a[j].id
    {
    }
    SameIds(a, b);
    var n :| 0 <= n < |a| && a[n].id != "";
    assert b[n].id != "";
  }

  lemma SameIds(a: seq<SimState>, b: seq<SimState>)
    requires |a| == |b| && forall j :: 0 <= j < |a| ==> b[j].id == a[j].id
    ensures Ids(a) == Ids(b)
  {
    forall id
      ensures id in Ids(a) <==> id in Ids(b)
    {
      if id in Ids(a) {
        var j :| 0 <= j < |a| && a[j].id == id;
        assert b[j] in b;
      }
      if id in Ids(b) {
        var j :| 0 <= j < |b| && b[j].id == id;
        assert a[j] in a;
      }
    }
  }

  /** Assigned ids are among the given ones. */
  predicate NamesFrom(reqs: seq<FloorReqs>, ids: set<string>) {
    forall f :: 0 <= f < |reqs| ==>
      (reqs[f].up.assignedTo == "" || reqs[f].up.assignedTo in ids) &&
      (reqs[f].down.assignedTo == "" || reqs[f].down.assignedTo in ids)
  }

  /** Every active call has one of the given elevators. */
  predicate AllTaken(reqs: seq<FloorReqs>, ids: set<string>) {
    forall f :: 0 <= f < |reqs| ==>
      (reqs[f].up.active ==> reqs[f].up.assignedTo in ids) &&
      (reqs[f].down.active ==> reqs[f].down.assignedTo in ids)
  }

  lemma MoveNames(cfg: SimConfig, s: SimState, reqs: seq<FloorReqs>, ids: set<string>)
    requires InShaft(s, |reqs|) && NamesFrom(reqs, ids) && s.id in ids
    ensures NamesFrom(MovedReqs(cfg, s, reqs), ids)
  {
  }

  lemma ShortcutTakesAll(reqs: seq<FloorReqs>, states: seq<SimState>, ids: set<string>)
    requires UnvisitedAreImmediatelyAssignable(reqs, states) && NamesFrom(reqs, ids) && Ids(states) == ids
    ensures AllTaken(AssignedImmediately(reqs, states), ids)
  {
    forall i | 0 <= i < |states|
      ensures states[i].id in ids
    {
      assert states[i] in states;
    }
    ImmediateKeeps(reqs, states);
    forall f | 0 <= f < |reqs|
      ensures reqs[f].up.active ==> Offered(reqs[f].up, f, states).assignedTo in ids
      ensures reqs[f].down.active ==> Offered(reqs[f].down, f, states).assignedTo in ids
    {
      if reqs[f].up.active {
        OfferedIsTaken(reqs[f].up, f, states, ids);
      }
      if reqs[f].down.active {
        OfferedIsTaken(reqs[f].down, f, states, ids);
      }
    }
  }

  lemma NoneLeft(reqs: seq<FloorReqs>, ids: set<string>)
    requires !AnyUnassigned(reqs) && NamesFrom(reqs, ids)
    ensures AllTaken(reqs, ids)
  {
    forall f | 0 <= f < |reqs|
      ensures !IsUnassigned(reqs[f].up) && !IsUnassigned(reqs[f].down)
    {
    }
  }

  /** What holds whenever the loop comes round. */
  ghost predicate LoopInv(cfg: SimConfig, states: seq<SimState>, reqs: seq<FloorReqs>, ids: set<string>) {
    && UniqueIds(states) && AllSound(states, |reqs|) && CanFinish(cfg, states)
    && Ids(states) == ids && NamesFrom(reqs, ids)
  }

  lemma SortStep(cfg: SimConfig, a: seq<SimState>, b: seq<SimState>, reqs: seq<FloorReqs>, ids: set<string>)
    requires LoopInv(cfg, a, reqs, ids) && multiset(a) == multiset(b)
    ensures LoopInv(cfg, b, reqs, ids)
    ensures Work(a, reqs) == Work(b, reqs) && Total(Ranks, a, reqs) == Total(Ranks, b, reqs)
    ensures Lag(a, reqs) == Lag(b, reqs)
  {
    SortedSame(a, b, |reqs|, cfg);
    TotalsSame(a, b, reqs);
  }

  lemma MoveStep(cfg: SimConfig, states: seq<SimState>, reqs: seq<FloorReqs>, ids: set<string>)
    requires LoopInv(cfg, states, reqs, ids) && AnyUnassigned(reqs) && SortedUpTo(states, |states|)
    ensures |states| > 0 && InShaft(states[0], |reqs|)
    ensures var after, table := states[0 := MovedState(cfg, states[0], reqs)], MovedReqs(cfg, states[0], reqs);
            LoopInv(cfg, after, table, ids) && Keeps(reqs, table) && Lower(states, reqs, after, table)
  {
    var s := states[0];
    assert s in states;
    assert LeastTime(states, 0);
    MoveIsSound(cfg, s, reqs);
    MovedSame(states, 0, MovedState(cfg, s, reqs), |reqs|, cfg);
    MoveKeeps(cfg, s, reqs);
    MoveNames(cfg, s, reqs, ids);
    MoveLowers(cfg, states, reqs, 0);
  }

  lemma InitialFacts(first: seq<SimState>, from: ElevatorStates, hallReqs: seq<HallCalls>)
    requires InitialList(first, from) && Contract(hallReqs, from)
    ensures forall j :: 0 <= j < |first| ==>
              && InShaft(first[j], |hallReqs|) && first[j].id in from
              && (first[j].state.behaviour == Moving ==>
                    0 <= first[j].state.floor + Step(first[j].state.direction) < |hallReqs|)
  {
  }

  lemma InitialTable(s: SimState, reqs: seq<FloorReqs>, hallReqs: seq<HallCalls>, ids: set<string>)
    requires InShaft(s, |reqs|) && TableOf(reqs, hallReqs, ids) && s.id in ids
    ensures TableOf(InitialReqs(s, reqs), hallReqs, ids)
  {
  }

  lemma StartsLoop(cfg: SimConfig, first: seq<SimState>, states: seq<SimState>, reqs: seq<FloorReqs>,
                   hallReqs: seq<HallCalls>, ids: set<string>)
    requires |states| == |first| && UniqueIds(first) && Ids(first) == ids && HasName(cfg, ids)
    requires forall j :: 0 <= j < |states| ==> states[j].id == first[j].id && Sound(states[j], |reqs|)
    requires TableOf(reqs, hallReqs, ids)
    ensures LoopInv(cfg, states, reqs, ids)
  {
    SameIds(first, states);
    var id :| id in ids && id != "";
    var j :| 0 <= j < |states| && states[j].id == id;
    if m :| 0 <= m < |states| && states[m].id == "" {
      assert states[m] in states;
      assert "" in Ids(states);
    }
  }

  // ----- the start -----

  /** The first `n` elevators have made their initial moves, one after the other. */
  function InitialMoves(cfg: SimConfig, first: seq<SimState>, table: seq<FloorReqs>, n: nat): (c: Conf)
    requires n <= |first| && forall j :: 0 <= j < |first| ==> InShaft(first[j], |table|)
    ensures |c.states| == |first| && |c.reqs| == |table|
    ensures forall j :: n <= j < |first| ==> c.states[j] == first[j]
  {
    if n == 0 then Conf(first, table)
    else
      var c := InitialMoves(cfg, first, table, n - 1);
      var s := first[n - 1];
      Conf(c.states[n - 1 := InitialState(cfg, s, c.reqs)], InitialReqs(s, c.reqs))
  }

  datatype Conf = Conf(states: seq<SimState>, reqs: seq<FloorReqs>)

  ghost predicate StartOf(cfg: SimConfig, hallReqs: seq<HallCalls>, from: ElevatorStates, c: Conf)
    requires Contract(hallReqs, from)
  {
    exists first :: InitialList(first, from) && StartFrom(cfg, hallReqs, from, first, c)
  }

  ghost predicate StartFrom(cfg: SimConfig, hallReqs: seq<HallCalls>, from: ElevatorStates, first: seq<SimState>,
                            c: Conf)
    requires Contract(hallReqs, from) && InitialList(first, from)
  {
    InitialFacts(first, from, hallReqs);
    c == InitialMoves(cfg, first, ToReq(hallReqs), |first|)
  }

  lemma {:induction false} InitialMovesTable(cfg: SimConfig, first: seq<SimState>, hallReqs: seq<HallCalls>,
                                             ids: set<string>, n: nat)
    requires n <= |first| && forall j :: 0 <= j < |first| ==> InShaft(first[j], |hallReqs|) && first[j].id in ids
    ensures TableOf(InitialMoves(cfg, first, ToReq(hallReqs), n).reqs, hallReqs, ids)
  {
    if n > 0 {
      InitialMovesTable(cfg, first, hallReqs, ids, n - 1);
      InitialTable(first[n - 1], InitialMoves(cfg, first, ToReq(hallReqs), n - 1).reqs, hallReqs, ids);
    }
  }

  lemma {:induction false} InitialMovesStates(cfg: SimConfig, first: seq<SimState>, table: seq<FloorReqs>, n: nat)
    requires n <= |first| && forall j :: 0 <= j < |first| ==>
               && InShaft(first[j], |table|)
               && (first[j].state.behaviour == Moving ==>
                     0 <= first[j].state.floor + Step(first[j].state.direction) < |table|)
    ensures var c := InitialMoves(cfg, first, table, n);
            && (forall j :: 0 <= j < n ==> Sound(c.states[j], |table|))
            && (forall j :: 0 <= j < |first| ==> c.states[j].id == first[j].id)
  {
    if n > 0 {
      InitialMovesStates(cfg, first, table, n - 1);
      InitialIsSound(cfg, first[n - 1], InitialMoves(cfg, first, table, n - 1).reqs);
    }
  }

  /** The loop starts with the table of the buttons and, if some id is a name, with
      its invariant. */
  lemma StartHolds(cfg: SimConfig, hallReqs: seq<HallCalls>, from: ElevatorStates, first: seq<SimState>, c: Conf)
    requires Contract(hallReqs, from) && InitialList(first, from) && StartFrom(cfg, hallReqs, from, first, c)
    ensures TableOf(c.reqs, hallReqs, from.Keys)
    ensures HasName(cfg, from.Keys) ==> LoopInv(cfg, c.states, c.reqs, from.Keys)
  {
    InitialFacts(first, from, hallReqs);
    InitialMovesTable(cfg, first, hallReqs, from.Keys, |first|);
    InitialMovesStates(cfg, first, ToReq(hallReqs), |first|);
    IdsUnique(first);
    if HasName(cfg, from.Keys) {
      StartsLoop(cfg, first, c.states, c.reqs, hallReqs, from.Keys);
    }
  }

  // ----- turns -----

  /** One turn of the loop that does not end it: with the elevators in some order of
      time, the first one moves. */
  ghost predicate Turn(cfg: SimConfig, c: Conf, d: Conf) {
    exists sorted :: TurnBy(cfg, c, sorted, d)
  }

  ghost predicate TurnBy(cfg: SimConfig, c: Conf, sorted: seq<SimState>, d: Conf) {
    && multiset(sorted) == multiset(c.states) && SortedUpTo(sorted, |sorted|)
    && GoesOn(c.reqs, sorted)
    && sorted != [] && InShaft(sorted[0], |c.reqs|)
    && d == Conf(sorted[0 := MovedState(cfg, sorted[0], c.reqs)], MovedReqs(cfg, sorted[0], c.reqs))
  }

  /** The turn that ends the loop, and the table it leaves. */
  ghost predicate Ends(c: Conf, reqs: seq<FloorReqs>) {
    exists sorted :: EndsBy(c, sorted, reqs)
  }

  ghost predicate EndsBy(c: Conf, sorted: seq<SimState>, reqs: seq<FloorReqs>) {
    && multiset(sorted) == multiset(c.states) && SortedUpTo(sorted, |sorted|)
    && if UnvisitedAreImmediatelyAssignable(c.reqs, sorted) then reqs == AssignedImmediately(c.reqs, sorted)
       else !AnyUnassigned(c.reqs) && reqs == c.reqs
  }

  ghost predicate TurnsTo(cfg: SimConfig, tr: seq<Conf>, c: Conf, d: Conf) {
    tr != [] && tr[0] == c && tr[|tr| - 1] == d && forall i :: 0 <= i < |tr| - 1 ==> Turn(cfg, tr[i], tr[i + 1])
  }

  lemma TurnsOneMore(cfg: SimConfig, tr: seq<Conf>, c: Conf, d: Conf, e: Conf)
    requires TurnsTo(cfg, tr, c, d) && Turn(cfg, d, e)
    ensures TurnsTo(cfg, tr + [e], c, e)
  {
    var more := tr + [e];
    forall i | 0 <= i < |more| - 1
      ensures Turn(cfg, more[i], more[i + 1])
    {
      if i < |tr| - 1 {
        assert Turn(cfg, tr[i], tr[i + 1]);
      }
    }
  }
}
