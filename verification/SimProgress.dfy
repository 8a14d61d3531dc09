/** Why the simulation ends: the measure that every move made while a call is
    unassigned takes down, and the one set of ids for which it need not end. */
module SimProgress {
  import opened Shaft
  import opened SimElevator
  import opened Simulation

  // ----- outstanding work -----

  function One(b: bool): nat {
    if b then 1 else 0
  }

  function RowWork(row: FloorReqs): nat {
    One(IsUnassigned(row.up)) + One(IsUnassigned(row.down))
  }

  /** Unassigned hall calls. */
  function HallWork(reqs: seq<FloorReqs>): nat {
    if reqs == [] then 0 else RowWork(reqs[0]) + HallWork(reqs[1..])
  }

  /** Cab calls left. */
  function CabWork(cabs: seq<bool>): nat {
    if cabs == [] then 0 else One(cabs[0]) + CabWork(cabs[1..])
  }

  lemma {:induction false} HallWorkUpdate(reqs: seq<FloorReqs>, f: nat, row: FloorReqs)
    requires f < |reqs|
    ensures HallWork(reqs[f := row]) == HallWork(reqs) - RowWork(reqs[f]) + RowWork(row)
  {
    var after := reqs[f := row];
    if f == 0 {
      assert after[1..] == reqs[1..];
    } else {
      assert after[1..] == reqs[1..][f - 1 := row];
      HallWorkUpdate(reqs[1..], f - 1, row);
    }
  }

  lemma {:induction false} CabWorkUpdate(cabs: seq<bool>, f: nat)
    requires f < |cabs|
    ensures CabWork(cabs[f := false]) == CabWork(cabs) - One(cabs[f])
  {
    var after := cabs[f := false];
    if f == 0 {
      assert after[1..] == cabs[1..];
    } else {
      assert after[1..] == cabs[1..][f - 1 := false];
      CabWorkUpdate(cabs[1..], f - 1);
    }
  }

  // ----- how far an elevator is from doing some of it -----

  /** Moving with calls ahead or here: floors left that way. Then standing. Farthest:
      moving away from every call. */
  function Rank(s: SimState, reqs: seq<FloorReqs>): int {
    var e := WithReqs(s.state, reqs);
    var n := |reqs|;
    if e.behaviour != Moving then n
    else if e.direction == Stop then n + 1
    else if !AnyAhead(e.requests, e.floor, e.direction) && !AnyAt(e.requests, e.floor) then n + 1
    else if e.direction == Up then n - 1 - e.floor
    else e.floor
  }

  lemma RankRange(s: SimState, reqs: seq<FloorReqs>)
    requires Sound(s, |reqs|)
    ensures 0 <= Rank(s, reqs)
  {
  }

  /** A move that takes no call brings the elevator nearer to one. */
  lemma IdleMoveRanksLower(cfg: SimConfig, s: SimState, reqs: seq<FloorReqs>)
    requires Sound(s, |reqs|) && AnyUnassigned(reqs) && Taken(cfg, s, reqs) == NO_CALLS
    ensures MovedReqs(cfg, s, reqs) == reqs
    ensures MovedState(cfg, s, reqs).state.cabRequests == s.state.cabRequests
    ensures Rank(MovedState(cfg, s, reqs), reqs) < Rank(s, reqs)
  {
    var e := WithReqs(s.state, reqs);
    var t := MovedState(cfg, s, reqs);
    assert TakeRow(reqs[s.state.floor], NO_CALLS, s.id) == reqs[s.state.floor];
    assert reqs[s.state.floor := reqs[s.state.floor]] == reqs;
    SomethingToDo(s, reqs);
    if Opens(s, reqs) {
      NothingCleared(e, cfg.clearRequestType);
    }
    if t.state.behaviour == Moving {
      assert WithReqs(t.state, reqs).requests == e.requests;
      AheadAfterStep(e.requests, e.floor, t.state.direction);
    }
  }

  lemma SomethingToDo(s: SimState, reqs: seq<FloorReqs>)
    requires AnyUnassigned(reqs)
    ensures AnyCalls(WithReqs(s.state, reqs).requests)
    ensures var e := WithReqs(s.state, reqs);
            0 <= e.floor < |reqs| ==>
              AnyAbove(e.requests, e.floor) || AnyAt(e.requests, e.floor) || AnyBelow(e.requests, e.floor)
  {
    var f :| 0 <= f < |reqs| && (IsUnassigned(reqs[f].up) || IsUnassigned(reqs[f].down));
    var rows := WithReqs(s.state, reqs).requests;
    assert Any(rows[f]);
    assert f < s.state.floor || f == s.state.floor || f > s.state.floor;
  }

  lemma AheadAfterStep(rows: seq<Calls>, floor: int, dir: Dirn)
    requires 0 <= floor < |rows| && AnyAhead(rows, floor, dir)
    ensures AnyAhead(rows, floor + Step(dir), dir) || AnyAt(rows, floor + Step(dir))
  {
    if dir == Up {
      var f :| floor < f < |rows| && Any(rows[f]);
      assert f == floor + 1 || f > floor + 1;
    } else {
      var f :| 0 <= f < floor && Any(rows[f]);
      assert f == floor - 1 || f < floor - 1;
    }
  }

  lemma TakenIsThere(cfg: SimConfig, s: SimState, reqs: seq<FloorReqs>)
    requires InShaft(s, |reqs|)
    ensures var taken, row := Taken(cfg, s, reqs), reqs[s.state.floor];
            && (taken.up ==> IsUnassigned(row.up)) && (taken.down ==> IsUnassigned(row.down))
            && (taken.cab ==> s.state.cabRequests[s.state.floor])
  {
  }

  lemma TakeRowWork(row: FloorReqs, taken: Calls, id: string)
    requires (taken.up ==> IsUnassigned(row.up)) && (taken.down ==> IsUnassigned(row.down))
    ensures id == "" ==> TakeRow(row, taken, id) == row
    ensures id != "" ==> RowWork(TakeRow(row, taken, id)) == RowWork(row) - One(taken.up) - One(taken.down)
  {
  }

  /** The hall calls taken are off the table, if the elevator has a name to put to them. */
  lemma TakingHall(cfg: SimConfig, s: SimState, reqs: seq<FloorReqs>)
    requires InShaft(s, |reqs|)
    ensures s.id == "" ==> MovedReqs(cfg, s, reqs) == reqs
    ensures var taken := Taken(cfg, s, reqs);
            s.id != "" ==> HallWork(MovedReqs(cfg, s, reqs)) == HallWork(reqs) - One(taken.up) - One(taken.down)
  {
    var f := s.state.floor;
    var taken := Taken(cfg, s, reqs);
    TakenIsThere(cfg, s, reqs);
    TakeRowWork(reqs[f], taken, s.id);
    HallWorkUpdate(reqs, f, TakeRow(reqs[f], taken, s.id));
    assert reqs[f := reqs[f]] == reqs;
  }

  /** The own cab call taken is done with in any case. */
  lemma TakingCab(cfg: SimConfig, s: SimState, reqs: seq<FloorReqs>)
    requires InShaft(s, |reqs|)
    ensures CabWork(MovedState(cfg, s, reqs).state.cabRequests) ==
            CabWork(s.state.cabRequests) - One(Taken(cfg, s, reqs).cab)
    ensures !Taken(cfg, s, reqs).cab ==> MovedState(cfg, s, reqs).state.cabRequests == s.state.cabRequests
  {
    TakenIsThere(cfg, s, reqs);
    CabWorkUpdate(s.state.cabRequests, s.state.floor);
  }

  // ----- totals over the elevators -----

  datatype Tally = Cabs | Ranks | Named | NamedTime | BlankTime

  function Weight(k: Tally, s: SimState, reqs: seq<FloorReqs>): int {
    match k
    case Cabs => CabWork(s.state.cabRequests)
    case Ranks => if s.id == "" then 0 else Rank(s, reqs)
    case Named => if s.id == "" then 0 else 1
    case NamedTime => if s.id == "" then 0 else s.time
    case BlankTime => if s.id == "" then s.time else 0
  }

  function Total(k: Tally, states: seq<SimState>, reqs: seq<FloorReqs>): int {
    if states == [] then 0 else Weight(k, states[0], reqs) + Total(k, states[1..], reqs)
  }

  lemma {:induction false} TotalUpdate(k: Tally, states: seq<SimState>, reqs: seq<FloorReqs>, i: nat, s: SimState)
    requires i < |states|
    ensures Total(k, states[i := s], reqs) == Total(k, states, reqs) - Weight(k, states[i], reqs) + Weight(k, s, reqs)
  {
    var after := states[i := s];
    if i == 0 {
      assert after[1..] == states[1..];
    } else {
      assert after[1..] == states[1..][i - 1 := s];
      TotalUpdate(k, states[1..], reqs, i - 1, s);
    }
  }

  lemma {:induction false} TotalSplit(k: Tally, a: seq<SimState>, b: seq<SimState>, reqs: seq<FloorReqs>)
    ensures Total(k, a + b, reqs) == Total(k, a, reqs) + Total(k, b, reqs)
  {
    if a == [] {
      assert a + b == b;
    } else {
      assert (a + b)[1..] == a[1..] + b;
      TotalSplit(k, a[1..], b, reqs);
    }
  }

  lemma TotalRemove(k: Tally, b: seq<SimState>, i: nat, reqs: seq<FloorReqs>)
    requires i < |b|
    ensures Total(k, b, reqs) == Weight(k, b[i], reqs) + Total(k, b[..i] + b[i + 1..], reqs)
  {
    assert b == b[..i] + b[i..];
    assert b[i..][1..] == b[i + 1..];
    TotalSplit(k, b[..i], b[i..], reqs);
    TotalSplit(k, b[..i], b[i + 1..], reqs);
  }

  lemma RemoveSame<T>(a: seq<T>, b: seq<T>, i: nat)
    requires multiset(a) == multiset(b) && a != [] && i < |b| && b[i] == a[0]
    ensures multiset(a[1..]) == multiset(b[..i] + b[i + 1..])
  {
    assert a == [a[0]] + a[1..];
    assert b == b[..i] + [b[i]] + b[i + 1..];
    assert multiset(b) == multiset(b[..i] + b[i + 1..]) + multiset{b[i]};
    assert multiset(a) == multiset(a[1..]) + multiset{a[0]};
    assert multiset(a[1..]) == multiset(a) - multiset{a[0]};
    assert multiset(b[..i] + b[i + 1..]) == multiset(b) - multiset{b[i]};
  }

  /** Sorting changes no total. */
  lemma {:induction false} TotalPermuted(k: Tally, a: seq<SimState>, b: seq<SimState>, reqs: seq<FloorReqs>)
    requires multiset(a) == multiset(b)
    ensures Total(k, a, reqs) == Total(k, b, reqs)
  {
    if a == [] {
      assert |multiset(b)| == 0;
    } else {
      assert a[0] in multiset(a);
      var i :| 0 <= i < |b| && b[i] == a[0];
      RemoveSame(a, b, i);
      TotalRemove(k, b, i, reqs);
      TotalPermuted(k, a[1..], b[..i] + b[i + 1..], reqs);
    }
  }

  // ----- the measure -----

  function Work(states: seq<SimState>, reqs: seq<FloorReqs>): int {
    HallWork(reqs) + Total(Cabs, states, reqs)
  }

  /** How far the elevator without a name lags behind the others in simulated time. */
  function Lag(states: seq<SimState>, reqs: seq<FloorReqs>): int {
    Total(NamedTime, states, reqs) - Total(Named, states, reqs) * Total(BlankTime, states, reqs)
  }

  /** Less work, or as much and nearer to doing it. */
  ghost predicate Nearer(states: seq<SimState>, reqs: seq<FloorReqs>, after: seq<SimState>, table: seq<FloorReqs>) {
    Work(after, table) < Work(states, reqs) ||
    (Work(after, table) == Work(states, reqs) && Total(Ranks, after, table) < Total(Ranks, states, reqs))
  }

  /** The lexicographic measure goes down, from a bound that it cannot pass. */
  ghost predicate Lower(states: seq<SimState>, reqs: seq<FloorReqs>, after: seq<SimState>, table: seq<FloorReqs>) {
    && Work(states, reqs) >= 0 && Total(Ranks, states, reqs) >= 0
    && (Nearer(states, reqs, after, table) ||
        (Work(after, table) == Work(states, reqs) && Total(Ranks, after, table) == Total(Ranks, states, reqs) &&
         0 <= Lag(states, reqs) && Lag(after, table) < Lag(states, reqs)))
  }

  predicate LeastTime(states: seq<SimState>, i: int)
    requires 0 <= i < |states|
  {
    forall j :: 0 <= j < |states| ==> states[i].time <= states[j].time
  }

  ghost predicate UniqueIds(states: seq<SimState>) {
    forall i, j :: 0 <= i < j < |states| ==> states[i].id != states[j].id
  }

  predicate AllSound(states: seq<SimState>, floors: int) {
    forall i :: 0 <= i < |states| ==> Sound(states[i], floors)
  }

  /** Some elevator has a name; and if one has not, the durations are positive. */
  predicate CanFinish(cfg: SimConfig, states: seq<SimState>) {
    && (exists i :: 0 <= i < |states| && states[i].id != "")
    && ((exists i :: 0 <= i < |states| && states[i].id == "") ==> cfg.doorOpenDuration > 0 && cfg.travelDuration > 0)
  }

  lemma {:induction false} NamedBounds(states: seq<SimState>, reqs: seq<FloorReqs>, t: int)
    requires forall j :: 0 <= j < |states| ==> t <= states[j].time
    ensures 0 <= Total(Named, states, reqs)
    ensures (exists j :: 0 <= j < |states| && states[j].id != "") ==> 1 <= Total(Named, states, reqs)
    ensures Total(Named, states, reqs) * t <= Total(NamedTime, states, reqs)
  {
    if states != [] {
      NamedBounds(states[1..], reqs, t);
      if j :| 0 <= j < |states| && states[j].id != "" {
        if j > 0 { assert states[1..][j - 1].id != ""; }
      }
      var n := Total(Named, states[1..], reqs);
      assert (n + 1) * t == n * t + t;
    }
  }

  lemma {:induction false} BlankAlone(states: seq<SimState>, reqs: seq<FloorReqs>, i: nat)
    requires i < |states| && UniqueIds(states) && states[i].id == ""
    ensures Total(BlankTime, states, reqs) == states[i].time
  {
    if i == 0 {
      NoBlank(states[1..], reqs);
    } else {
      assert UniqueIds(states[1..]);
      BlankAlone(states[1..], reqs, i - 1);
    }
  }

  lemma {:induction false} NoBlank(states: seq<SimState>, reqs: seq<FloorReqs>)
    requires forall j :: 0 <= j < |states| ==> states[j].id != ""
    ensures Total(BlankTime, states, reqs) == 0
  {
    if states != [] {
      NoBlank(states[1..], reqs);
    }
  }

  /** A named elevator's move lowers the work, or leaves it and lowers the ranks. */
  lemma NamedMoveLowers(cfg: SimConfig, states: seq<SimState>, reqs: seq<FloorReqs>, i: nat)
    requires i < |states| && Sound(states[i], |reqs|) && AnyUnassigned(reqs) && states[i].id != ""
    ensures Nearer(states, reqs, states[i := MovedState(cfg, states[i], reqs)], MovedReqs(cfg, states[i], reqs))
  {
    var s := states[i];
    var t := MovedState(cfg, s, reqs);
    TakingHall(cfg, s, reqs);
    TakingCab(cfg, s, reqs);
    CabsIgnoreTable(states[i := t], reqs, MovedReqs(cfg, s, reqs));
    TotalUpdate(Cabs, states, reqs, i, t);
    if Taken(cfg, s, reqs) == NO_CALLS {
      IdleMoveRanksLower(cfg, s, reqs);
      MoveIsSound(cfg, s, reqs);
      TotalUpdate(Ranks, states, reqs, i, t);
    }
  }

  lemma {:induction false} CabsIgnoreTable(states: seq<SimState>, a: seq<FloorReqs>, b: seq<FloorReqs>)
    ensures Total(Cabs, states, a) == Total(Cabs, states, b)
  {
    if states != [] {
      CabsIgnoreTable(states[1..], a, b);
    }
  }

  lemma BlankLag(states: seq<SimState>, reqs: seq<FloorReqs>, i: nat, t: SimState)
    requires i < |states| && UniqueIds(states) && LeastTime(states, i)
    requires states[i].id == "" == t.id && states[i].time < t.time
    requires exists j :: 0 <= j < |states| && states[j].id != ""
    ensures Lag(states, reqs) >= 0 && Lag(states[i := t], reqs) < Lag(states, reqs)
  {
    var s := states[i];
    TotalUpdate(Named, states, reqs, i, t);
    TotalUpdate(NamedTime, states, reqs, i, t);
    BlankAlone(states, reqs, i);
    BlankAlone(states[i := t], reqs, i);
    NamedBounds(states, reqs, s.time);
    LaterLag(Total(NamedTime, states, reqs), Total(Named, states, reqs), s.time, t.time);
  }

  /** The elevator without a name can do no hall work, but its move takes time, so
      that the others' turn comes. */
  lemma BlankMoveLowers(cfg: SimConfig, states: seq<SimState>, reqs: seq<FloorReqs>, i: nat)
    requires i < |states| && Sound(states[i], |reqs|) && AnyUnassigned(reqs) && states[i].id == ""
    requires UniqueIds(states) && CanFinish(cfg, states) && LeastTime(states, i)
    requires Work(states, reqs) >= 0 && Total(Ranks, states, reqs) >= 0
    ensures Lower(states, reqs, states[i := MovedState(cfg, states[i], reqs)], MovedReqs(cfg, states[i], reqs))
  {
    var s := states[i];
    var t := MovedState(cfg, s, reqs);
    SomethingToDo(s, reqs);
    MoveTakesTime(cfg, s, reqs);
    MoveIsSound(cfg, s, reqs);
    BlankLag(states, reqs, i, t);
    TakingHall(cfg, s, reqs);
    TakingCab(cfg, s, reqs);
    TotalUpdate(Cabs, states, reqs, i, t);
    TotalUpdate(Ranks, states, reqs, i, t);
  }

  lemma LaterLag(sum: int, n: int, t0: int, t1: int)
    requires n >= 1 && t0 < t1 && n * t0 <= sum
    ensures 0 <= sum - n * t0 && sum - n * t1 < sum - n * t0
  {
    assert n * (t1 - t0) >= 1;
  }

  lemma {:induction false} RanksNotNegative(states: seq<SimState>, reqs: seq<FloorReqs>)
    requires AllSound(states, |reqs|)
    ensures Total(Ranks, states, reqs) >= 0 && Total(Cabs, states, reqs) >= 0
  {
    if states != [] {
      RankRange(states[0], reqs);
      RanksNotNegative(states[1..], reqs);
    }
  }

  /** Every move the loop makes, by an elevator of least time, lowers the measure. */
  lemma MoveLowers(cfg: SimConfig, states: seq<SimState>, reqs: seq<FloorReqs>, i: nat)
    requires i < |states| && AllSound(states, |reqs|) && AnyUnassigned(reqs)
    requires UniqueIds(states) && CanFinish(cfg, states) && LeastTime(states, i)
    ensures Lower(states, reqs, states[i := MovedState(cfg, states[i], reqs)], MovedReqs(cfg, states[i], reqs))
  {
    RanksNotNegative(states, reqs);
    if states[i].id == "" {
      BlankMoveLowers(cfg, states, reqs, i);
    } else {
      NamedMoveLowers(cfg, states, reqs, i);
    }
  }
}
