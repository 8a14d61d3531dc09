/** A single elevator whose id is "": the assigner takes every call it gives it for
    unassigned, so that the calls stay on the table and only its cab calls get done. */
module LoneElevator {
  import opened Shaft
  import opened SimElevator
  import opened Simulation
  import opened SimProgress
  import opened SimRuns

  // ----- what is on the table -----

  predicate AnyActive(row: FloorReqs) {
    row.up.active || row.down.active
  }

  predicate NoCalls(reqs: seq<FloorReqs>) {
    forall f :: 0 <= f < |reqs| ==> !AnyActive(reqs[f])
  }

  /** One hall call in all, at floor `f`. */
  predicate OnlyCallAt(reqs: seq<FloorReqs>, f: int) {
    && 0 <= f < |reqs| && AnyActive(reqs[f]) && !(reqs[f].up.active && reqs[f].down.active)
    && forall g :: 0 <= g < |reqs| && g != f ==> !AnyActive(reqs[g])
  }

  predicate Unnamed(reqs: seq<FloorReqs>) {
    forall f :: 0 <= f < |reqs| ==> reqs[f].up.assignedTo == "" && reqs[f].down.assignedTo == ""
  }

  predicate CabAbove(cabs: seq<bool>, floor: int) {
    exists c :: floor < c < |cabs| && 0 <= c && cabs[c]
  }

  predicate CabBelow(cabs: seq<bool>, floor: int) {
    exists c :: 0 <= c < floor && c < |cabs| && cabs[c]
  }

  predicate CabHere(cabs: seq<bool>, floor: int) {
    0 <= floor < |cabs| && cabs[floor]
  }

  lemma CabsShift(cabs: seq<bool>, g: int)
    ensures CabBelow(cabs, g + 1) <==> CabBelow(cabs, g) || CabHere(cabs, g)
    ensures 0 <= g ==> (CabAbove(cabs, g - 1) <==> CabAbove(cabs, g) || CabHere(cabs, g))
  {
    if CabHere(cabs, g) {
      assert cabs[g];
    }
  }

  lemma CabsCleared(cabs: seq<bool>, g: int)
    requires 0 <= g < |cabs|
    ensures forall f :: f <= g ==> (CabBelow(cabs[g := false], f) <==> CabBelow(cabs, f))
    ensures CabAbove(cabs[g := false], g) <==> CabAbove(cabs, g)
    ensures !CabHere(cabs[g := false], g)
  {
    var after := cabs[g := false];
    forall c | 0 <= c < |cabs| && c != g
      ensures after[c] == cabs[c]
    {
    }
  }

  lemma CabsAround(s: LocalElevatorState, g: int)
    requires 0 <= g < |s.cabRequests|
    ensures AnyCab(s) <==> CabBelow(s.cabRequests, g) || CabHere(s.cabRequests, g) || CabAbove(s.cabRequests, g)
  {
    if AnyCab(s) {
      var c :| 0 <= c < |s.cabRequests| && s.cabRequests[c];
      assert c < g || c == g || c > g;
    }
  }

  /** What the elevator sees: its cab calls and the one hall call. */
  predicate SeesOnly(s: SimState, reqs: seq<FloorReqs>, f: int) {
    var e, cabs, g := WithReqs(s.state, reqs), s.state.cabRequests, s.state.floor;
    && (AnyAbove(e.requests, g) <==> f > g || CabAbove(cabs, g))
    && (AnyBelow(e.requests, g) <==> f < g || CabBelow(cabs, g))
    && (AnyAt(e.requests, g) <==> f == g || CabHere(cabs, g))
  }

  lemma Views(s: SimState, reqs: seq<FloorReqs>, f: int)
    requires InShaft(s, |reqs|) && OnlyCallAt(reqs, f) && Unnamed(reqs)
    ensures SeesOnly(s, reqs, f)
  {
    var rows, cabs, g := WithReqs(s.state, reqs).requests, s.state.cabRequests, s.state.floor;
    forall h | 0 <= h < |reqs|
      ensures Any(rows[h]) <==> h == f || cabs[h]
    {
    }
    assert Any(rows[f]);
    if CabAbove(cabs, g) {
      var c :| g < c < |cabs| && 0 <= c && cabs[c];
      assert Any(rows[c]);
    }
    if CabBelow(cabs, g) {
      var c :| 0 <= c < g && c < |cabs| && cabs[c];
      assert Any(rows[c]);
    }
  }

  // ----- whether it ever gets done -----

  predicate Stands(s: SimState) {
    s.state.behaviour != Moving
  }

  /** On its way down to the call, or at it, with no cab call below the call but some
      that it will still have behind it when it gets there: it will stand there for ever. */
  predicate Doomed(s: SimState, f: int) {
    var cabs, g := s.state.cabRequests, s.state.floor;
    && f <= g && s.state.direction != Up && !CabBelow(cabs, f)
    && (CabAbove(cabs, g) || (CabHere(cabs, g) && Stands(s) && f < g))
  }

  /** No hall call at all, or one that the elevator gets to with its cab calls done. */
  predicate Finishes(s: SimState, reqs: seq<FloorReqs>) {
    NoCalls(reqs) || exists f :: 0 <= f < |reqs| && OnlyCallAt(reqs, f) && !Doomed(s, f)
  }

  /** The loop goes on except without calls and with a done elevator at its only call. */
  lemma GoesOnExactly(s: SimState, reqs: seq<FloorReqs>)
    requires InShaft(s, |reqs|) && Unnamed(reqs)
    ensures NoCalls(reqs) ==> !AnyUnassigned(reqs)
    ensures forall f :: OnlyCallAt(reqs, f) ==> (GoesOn(reqs, [s]) <==> AnyCab(s.state) || s.state.floor != f)
    ensures !NoCalls(reqs) && (forall f :: !OnlyCallAt(reqs, f)) ==> GoesOn(reqs, [s])
  {
    var one := [s];
    assert one[0] == s;
    forall f | OnlyCallAt(reqs, f)
      ensures GoesOn(reqs, one) <==> AnyCab(s.state) || s.state.floor != f
    {
      assert IsUnassigned(reqs[f].up) || IsUnassigned(reqs[f].down);
      if s.state.floor == f && !AnyCab(s.state) {
        assert FreeAt(one, f);
      }
    }
    if !NoCalls(reqs) && forall f :: !OnlyCallAt(reqs, f) {
      ManyCallsGoOn(s, reqs);
    }
  }

  lemma NotBoth(s: SimState, f: int, g: int)
    requires f != g
    ensures !FreeAt([s], f) || !FreeAt([s], g)
  {
  }

  lemma ManyCallsGoOn(s: SimState, reqs: seq<FloorReqs>)
    requires Unnamed(reqs) && !NoCalls(reqs) && forall f :: !OnlyCallAt(reqs, f)
    ensures GoesOn(reqs, [s])
  {
    var f :| 0 <= f < |reqs| && AnyActive(reqs[f]);
    assert IsUnassigned(reqs[f].up) || IsUnassigned(reqs[f].down);
    assert !OnlyCallAt(reqs, f);
    if !(reqs[f].up.active && reqs[f].down.active) {
      var g :| 0 <= g < |reqs| && g != f && AnyActive(reqs[g]);
      assert IsUnassigned(reqs[g].up) || IsUnassigned(reqs[g].down);
      NotBoth(s, f, g);
    }
  }

  // ----- one move -----

  lemma MoveKeepsTable(cfg: SimConfig, s: SimState, reqs: seq<FloorReqs>)
    requires InShaft(s, |reqs|) && s.id == ""
    ensures MovedReqs(cfg, s, reqs) == reqs
  {
    TakingHall(cfg, s, reqs);
  }

  /** The cab call of the floor is done exactly when the move opens the door. */
  lemma CabTaken(cfg: SimConfig, s: SimState, reqs: seq<FloorReqs>)
    requires InShaft(s, |reqs|)
    ensures Taken(cfg, s, reqs).cab <==> Opens(s, reqs) && CabHere(s.state.cabRequests, s.state.floor)
    ensures MovedState(cfg, s, reqs).state.cabRequests ==
            if Opens(s, reqs) then s.state.cabRequests[s.state.floor := false] else s.state.cabRequests
  {
    var cabs, g := s.state.cabRequests, s.state.floor;
    if Opens(s, reqs) && !CabHere(cabs, g) {
      assert cabs[g := false] == cabs;
    }
  }

  /** How far the elevator is from its next cab call or, without any, from its end:
      down with something below, up with nothing above, up with something above, and
      then what turns round first. */
  function LoneRank(s: SimState, reqs: seq<FloorReqs>): int {
    var e, g, n := WithReqs(s.state, reqs), s.state.floor, |reqs|;
    var m := if s.state.behaviour == Moving then 1 else 0;
    if s.state.behaviour == Moving && s.state.direction == Stop then 6 * n + 20
    else if s.state.direction == Up then
      if AnyAbove(e.requests, g) then 2 * n + 5 + 2 * (n - g) + m else 2 * n + 2 + m
    else if AnyBelow(e.requests, g) || (m == 1 && AnyAt(e.requests, g)) then 2 * g + m
    else 6 * n + 10 + m
  }

  lemma LoneRankRange(s: SimState, reqs: seq<FloorReqs>)
    requires Sound(s, |reqs|)
    ensures LoneRank(s, reqs) >= 0
  {
  }

  /** A move does a cab call or comes nearer. */
  predicate LoneLower(s: SimState, t: SimState, reqs: seq<FloorReqs>) {
    CabWork(t.state.cabRequests) < CabWork(s.state.cabRequests) ||
    (CabWork(t.state.cabRequests) == CabWork(s.state.cabRequests) && LoneRank(t, reqs) < LoneRank(s, reqs))
  }

  /** The one call is at `f`, and the loop still goes on. */
  predicate Busy(s: SimState, reqs: seq<FloorReqs>, f: int) {
    Sound(s, |reqs|) && OnlyCallAt(reqs, f) && Unnamed(reqs) && (AnyCab(s.state) || s.state.floor != f)
  }

  /** What a move makes of the cab calls: that of the floor is done when it stops. */
  predicate CabsMoved(s: SimState, t: SimState, reqs: seq<FloorReqs>, f: int)
    requires InShaft(s, |reqs|)
  {
    var cabs, after, g := s.state.cabRequests, t.state.cabRequests, s.state.floor;
    && (Opens(s, reqs) && CabHere(cabs, g) ==> CabWork(after) < CabWork(cabs))
    && (!(Opens(s, reqs) && CabHere(cabs, g)) ==> after == cabs)
    && (CabBelow(after, f) ==> CabBelow(cabs, f)) && (f <= g && CabBelow(cabs, f) ==> CabBelow(after, f))
    && (t.state.floor == g ==> (CabAbove(after, g) <==> CabAbove(cabs, g)))
    && (Opens(s, reqs) ==> t.state.floor == g && !CabHere(after, g))
  }

  lemma MoveFacts(cfg: SimConfig, s: SimState, reqs: seq<FloorReqs>, f: int)
    requires Sound(s, |reqs|)
    ensures Sound(MovedState(cfg, s, reqs), |reqs|) && CabsMoved(s, MovedState(cfg, s, reqs), reqs, f)
  {
    var t, cabs, g := MovedState(cfg, s, reqs), s.state.cabRequests, s.state.floor;
    MoveIsSound(cfg, s, reqs);
    CabTaken(cfg, s, reqs);
    TakingCab(cfg, s, reqs);
    CabsCleared(cabs, g);
    if CabBelow(t.state.cabRequests, f) {
      var c :| 0 <= c < f && c < |cabs| && t.state.cabRequests[c];
      assert cabs[c];
    }
  }

  /** Cab calls as seen from a floor and from its neighbours. */
  predicate CabsNear(cabs: seq<bool>, g: int) {
    && (CabBelow(cabs, g) <==> CabBelow(cabs, g - 1) || CabHere(cabs, g - 1))
    && (CabBelow(cabs, g + 1) <==> CabBelow(cabs, g) || CabHere(cabs, g))
    && (CabAbove(cabs, g - 1) <==> CabAbove(cabs, g) || CabHere(cabs, g))
    && (CabAbove(cabs, g) <==> CabAbove(cabs, g + 1) || CabHere(cabs, g + 1))
  }

  /** All that the cases of a move rest on. */
  lemma Surroundings(cfg: SimConfig, s: SimState, reqs: seq<FloorReqs>, f: int)
    requires Busy(s, reqs, f)
    ensures var t, cabs, g := MovedState(cfg, s, reqs), s.state.cabRequests, s.state.floor;
            && Sound(t, |reqs|) && CabsMoved(s, t, reqs, f) && SeesOnly(s, reqs, f) && SeesOnly(t, reqs, f)
            && CabsNear(cabs, g) && (CabBelow(cabs, g) || CabHere(cabs, g) || CabAbove(cabs, g) || g != f)
  {
    var g := s.state.floor;
    MoveFacts(cfg, s, reqs, f);
    Views(s, reqs, f);
    Views(MovedState(cfg, s, reqs), reqs, f);
    CabsAround(s.state, g);
    CabsShift(s.state.cabRequests, g);
    CabsShift(s.state.cabRequests, g - 1);
    CabsShift(s.state.cabRequests, g + 1);
  }

  lemma MovingKeepsDoom(cfg: SimConfig, s: SimState, reqs: seq<FloorReqs>, f: int)
    requires Busy(s, reqs, f) && !Stands(s)
    ensures Doomed(s, f) <==> Doomed(MovedState(cfg, s, reqs), f)
  {
    Surroundings(cfg, s, reqs, f);
  }

  lemma StandingKeepsDoom(cfg: SimConfig, s: SimState, reqs: seq<FloorReqs>, f: int)
    requires Busy(s, reqs, f) && Stands(s)
    ensures Doomed(s, f) <==> Doomed(MovedState(cfg, s, reqs), f)
  {
    Surroundings(cfg, s, reqs, f);
  }

  lemma MovingUpLowers(cfg: SimConfig, s: SimState, reqs: seq<FloorReqs>, f: int)
    requires Busy(s, reqs, f) && !Stands(s) && s.state.direction == Up
    ensures LoneLower(s, MovedState(cfg, s, reqs), reqs)
  {
    Surroundings(cfg, s, reqs, f);
  }

  lemma MovingDownLowers(cfg: SimConfig, s: SimState, reqs: seq<FloorReqs>, f: int)
    requires Busy(s, reqs, f) && !Stands(s) && s.state.direction == Down && !Doomed(s, f)
    ensures LoneLower(s, MovedState(cfg, s, reqs), reqs)
  {
    Surroundings(cfg, s, reqs, f);
  }

  lemma MovingStopLowers(cfg: SimConfig, s: SimState, reqs: seq<FloorReqs>, f: int)
    requires Busy(s, reqs, f) && !Stands(s) && s.state.direction == Stop
    ensures LoneLower(s, MovedState(cfg, s, reqs), reqs)
  {
    Surroundings(cfg, s, reqs, f);
  }

  lemma StandingUpLowers(cfg: SimConfig, s: SimState, reqs: seq<FloorReqs>, f: int)
    requires Busy(s, reqs, f) && Stands(s) && s.state.direction == Up
    ensures LoneLower(s, MovedState(cfg, s, reqs), reqs)
  {
    Surroundings(cfg, s, reqs, f);
  }

  lemma StandingDownLowers(cfg: SimConfig, s: SimState, reqs: seq<FloorReqs>, f: int)
    requires Busy(s, reqs, f) && Stands(s) && s.state.direction != Up && !Doomed(s, f)
    ensures LoneLower(s, MovedState(cfg, s, reqs), reqs)
  {
    Surroundings(cfg, s, reqs, f);
  }

  /** A move that the loop makes keeps whether the elevator is doomed, and if it is not,
      lowers its measure. */
  lemma BusyMove(cfg: SimConfig, s: SimState, reqs: seq<FloorReqs>, f: int)
    requires Busy(s, reqs, f)
    ensures Doomed(s, f) <==> Doomed(MovedState(cfg, s, reqs), f)
    ensures !Doomed(s, f) ==> LoneLower(s, MovedState(cfg, s, reqs), reqs)
  {
    if Stands(s) {
      StandingKeepsDoom(cfg, s, reqs, f);
    } else {
      MovingKeepsDoom(cfg, s, reqs, f);
    }
    if !Doomed(s, f) {
      match s.state.direction
      case Up =>
        if Stands(s) {
          StandingUpLowers(cfg, s, reqs, f);
        } else {
          MovingUpLowers(cfg, s, reqs, f);
        }
      case _ =>
        if Stands(s) {
          StandingDownLowers(cfg, s, reqs, f);
        } else if s.state.direction == Down {
          MovingDownLowers(cfg, s, reqs, f);
        } else {
          MovingStopLowers(cfg, s, reqs, f);
        }
    }
  }

  // ----- turns of the loop -----

  /** What holds whenever the loop comes round with such an elevator alone. */
  predicate LoneInv(states: seq<SimState>, reqs: seq<FloorReqs>) {
    |states| == 1 && states[0].id == "" && Sound(states[0], |reqs|) && Unnamed(reqs)
  }

  lemma SingleOrder(s: SimState, sorted: seq<SimState>)
    requires multiset(sorted) == multiset([s])
    ensures sorted == [s]
  {
    assert |multiset(sorted)| == 1;
    assert sorted[0] in multiset([s]);
  }

  /** A turn, with nothing to choose: the elevator moves and the table stays. */
  lemma LoneTurn(cfg: SimConfig, c: Conf, d: Conf)
    requires LoneInv(c.states, c.reqs)
    ensures Turn(cfg, c, d) <==>
            GoesOn(c.reqs, c.states) && d == Conf([MovedState(cfg, c.states[0], c.reqs)], c.reqs)
  {
    var s := c.states[0];
    assert c.states == [s];
    MoveKeepsTable(cfg, s, c.reqs);
    assert [s][0 := MovedState(cfg, s, c.reqs)] == [MovedState(cfg, s, c.reqs)];
    if Turn(cfg, c, d) {
      var sorted :| TurnBy(cfg, c, sorted, d);
      SingleOrder(s, sorted);
    }
    if GoesOn(c.reqs, c.states) && d == Conf([MovedState(cfg, s, c.reqs)], c.reqs) {
      assert TurnBy(cfg, c, c.states, d);
    }
  }

  /** Each move the loop makes keeps whether the elevator finishes, and if it does,
      lowers its measure. */
  lemma LoneMove(cfg: SimConfig, s: SimState, reqs: seq<FloorReqs>)
    requires Sound(s, |reqs|) && Unnamed(reqs) && s.id == "" && GoesOn(reqs, [s])
    ensures var t := MovedState(cfg, s, reqs);
            && Sound(t, |reqs|) && t.id == "" && (Finishes(s, reqs) <==> Finishes(t, reqs))
            && (Finishes(s, reqs) ==> LoneLower(s, t, reqs))
  {
    var t := MovedState(cfg, s, reqs);
    MoveIsSound(cfg, s, reqs);
    GoesOnExactly(s, reqs);
    forall f | 0 <= f < |reqs| && OnlyCallAt(reqs, f)
      ensures Doomed(s, f) <==> Doomed(t, f)
      ensures !Doomed(s, f) ==> LoneLower(s, t, reqs)
    {
      BusyMove(cfg, s, reqs, f);
    }
  }

  /** What does not finish goes on. */
  lemma UnfinishedGoesOn(s: SimState, reqs: seq<FloorReqs>)
    requires Sound(s, |reqs|) && Unnamed(reqs) && !Finishes(s, reqs)
    ensures GoesOn(reqs, [s])
  {
    GoesOnExactly(s, reqs);
    if f :| 0 <= f < |reqs| && OnlyCallAt(reqs, f) {
      CabsAround(s.state, s.state.floor);
    }
  }

  lemma LoneMeasureRange(s: SimState, reqs: seq<FloorReqs>)
    requires Sound(s, |reqs|)
    ensures CabWork(s.state.cabRequests) >= 0 && LoneRank(s, reqs) >= 0
  {
    LoneRankRange(s, reqs);
  }

  // ----- the start -----

  /** The elevator after its initial move. */
  function LoneStart(cfg: SimConfig, hallReqs: seq<HallCalls>, local: LocalElevatorState): SimState
    requires 0 <= local.floor < |hallReqs|
  {
    InitialState(cfg, SimState("", local, 0), ToReq(hallReqs))
  }

  /** The inputs on which such an elevator alone gets done. */
  predicate LoneEnds(cfg: SimConfig, hallReqs: seq<HallCalls>, from: ElevatorStates)
    requires Contract(hallReqs, from) && "" in from
  {
    Finishes(LoneStart(cfg, hallReqs, from[""]), ToReq(hallReqs))
  }

  lemma LoneList(first: seq<SimState>, from: ElevatorStates)
    requires InitialList(first, from) && from.Keys == {""}
    ensures first == [SimState("", from[""], 0)]
  {
    IdsUnique(first);
    assert "" in Ids(first);
    forall i | 0 <= i < |first|
      ensures first[i].id == ""
    {
    }
    TwoDiffer(first);
  }

  lemma TwoDiffer(states: seq<SimState>)
    requires UniqueIds(states)
    ensures |states| > 1 ==> states[0].id != states[1].id
  {
  }

  lemma LoneFirst(from: ElevatorStates)
    requires from.Keys == {""}
    ensures InitialList([SimState("", from[""], 0)], from)
  {
    var first := [SimState("", from[""], 0)];
    assert first[0] in first;
    assert Ids(first) == {""};
  }

  lemma LoneStartTable(s: SimState, hallReqs: seq<HallCalls>)
    requires InShaft(s, |hallReqs|) && s.id == ""
    ensures InitialReqs(s, ToReq(hallReqs)) == ToReq(hallReqs) && Unnamed(ToReq(hallReqs))
  {
    var table, f := ToReq(hallReqs), s.state.floor;
    assert TakeRow(table[f], Calls(table[f].up.active, table[f].down.active, false), "") == table[f];
    assert table[f := table[f]] == table;
  }

  /** There is one start, with the table of the buttons. */
  lemma LoneStartsExactly(cfg: SimConfig, hallReqs: seq<HallCalls>, from: ElevatorStates, c: Conf)
    requires Contract(hallReqs, from) && from.Keys == {""}
    ensures StartOf(cfg, hallReqs, from, c) <==>
            c == Conf([LoneStart(cfg, hallReqs, from[""])], ToReq(hallReqs))
    ensures LoneInv([LoneStart(cfg, hallReqs, from[""])], ToReq(hallReqs))
  {
    var s, table := SimState("", from[""], 0), ToReq(hallReqs);
    LoneFirst(from);
    LoneStartTable(s, hallReqs);
    InitialFacts([s], from, hallReqs);
    InitialIsSound(cfg, s, table);
    LoneMoves(cfg, s, table);
    if StartOf(cfg, hallReqs, from, c) {
      var first :| InitialList(first, from) && StartFrom(cfg, hallReqs, from, first, c);
      LoneList(first, from);
    }
    assert StartFrom(cfg, hallReqs, from, [s], InitialMoves(cfg, [s], table, 1));
  }

  lemma LoneMoves(cfg: SimConfig, s: SimState, table: seq<FloorReqs>)
    requires InShaft(s, |table|)
    ensures InitialMoves(cfg, [s], table, 1) == Conf([InitialState(cfg, s, table)], InitialReqs(s, table))
  {
    assert InitialMoves(cfg, [s], table, 0) == Conf([s], table);
    assert [s][0 := InitialState(cfg, s, table)] == [InitialState(cfg, s, table)];
  }
}
