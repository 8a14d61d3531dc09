/** The inputs on which the assigner ends. */
module SimEnds {
  import opened Text
  import opened Shaft
  import opened SimElevator
  import opened Simulation
  import opened SimProgress
  import opened SimRuns
  import opened LoneElevator

  /** Some elevator has a name (and if one has not, the durations are positive), or the
      only one there is gets done without. */
  predicate CanEnd(cfg: SimConfig, hallReqs: seq<HallCalls>, from: ElevatorStates)
    requires Contract(hallReqs, from)
  {
    HasName(cfg, from.Keys) || (from.Keys == {""} && LoneEnds(cfg, hallReqs, from))
  }

  // ----- one invariant and one measure for both -----

  ghost predicate EndInv(cfg: SimConfig, states: seq<SimState>, reqs: seq<FloorReqs>, ids: set<string>) {
    LoopInv(cfg, states, reqs, ids) || (ids == {""} && LoneInv(states, reqs) && Finishes(states[0], reqs))
  }

  predicate IsLone(states: seq<SimState>) {
    |states| == 1 && states[0].id == ""
  }

  function First(states: seq<SimState>, reqs: seq<FloorReqs>): int {
    if IsLone(states) then CabWork(states[0].state.cabRequests) else Work(states, reqs)
  }

  function Second(states: seq<SimState>, reqs: seq<FloorReqs>): int {
    if IsLone(states) then LoneRank(states[0], reqs) else Total(Ranks, states, reqs)
  }

  function Third(states: seq<SimState>, reqs: seq<FloorReqs>): int {
    if IsLone(states) then 0 else Lag(states, reqs)
  }

  /** The lexicographic measure goes down, from a bound that it cannot pass. */
  ghost predicate Down(states: seq<SimState>, reqs: seq<FloorReqs>, after: seq<SimState>, table: seq<FloorReqs>) {
    && First(states, reqs) >= 0 && Second(states, reqs) >= 0
    && (First(after, table) < First(states, reqs) ||
        (First(after, table) == First(states, reqs) &&
         (Second(after, table) < Second(states, reqs) ||
          (Second(after, table) == Second(states, reqs) &&
           0 <= Third(states, reqs) && Third(after, table) < Third(states, reqs)))))
  }

  lemma NamedIsNotLone(cfg: SimConfig, states: seq<SimState>, reqs: seq<FloorReqs>, ids: set<string>)
    requires LoopInv(cfg, states, reqs, ids)
    ensures !IsLone(states)
  {
  }

  lemma LoneNames(states: seq<SimState>, reqs: seq<FloorReqs>)
    requires LoneInv(states, reqs)
    ensures NamesFrom(reqs, {""}) && Ids(states) == {""}
  {
    assert states[0] in states;
    assert forall s :: s in states ==> s == states[0];
  }

  lemma EndNames(cfg: SimConfig, states: seq<SimState>, reqs: seq<FloorReqs>, ids: set<string>)
    requires EndInv(cfg, states, reqs, ids)
    ensures NamesFrom(reqs, ids) && Ids(states) == ids
  {
    if !LoopInv(cfg, states, reqs, ids) {
      LoneNames(states, reqs);
    }
  }

  lemma EndSort(cfg: SimConfig, a: seq<SimState>, b: seq<SimState>, reqs: seq<FloorReqs>, ids: set<string>)
    requires EndInv(cfg, a, reqs, ids) && multiset(a) == multiset(b)
    ensures EndInv(cfg, b, reqs, ids)
    ensures First(a, reqs) == First(b, reqs) && Second(a, reqs) == Second(b, reqs) && Third(a, reqs) == Third(b, reqs)
  {
    if LoopInv(cfg, a, reqs, ids) {
      SortStep(cfg, a, b, reqs, ids);
      NamedIsNotLone(cfg, a, reqs, ids);
      NamedIsNotLone(cfg, b, reqs, ids);
    } else {
      assert a == [a[0]];
      SingleOrder(a[0], b);
    }
  }

  lemma LoneStep(cfg: SimConfig, states: seq<SimState>, reqs: seq<FloorReqs>)
    requires LoneInv(states, reqs) && Finishes(states[0], reqs) && GoesOn(reqs, states)
    ensures var after, table := states[0 := MovedState(cfg, states[0], reqs)], MovedReqs(cfg, states[0], reqs);
            LoneInv(after, table) && Finishes(after[0], table) && table == reqs && Down(states, reqs, after, table)
  {
    var s := states[0];
    assert states == [s];
    MoveKeepsTable(cfg, s, reqs);
    LoneMove(cfg, s, reqs);
    LoneMeasureRange(s, reqs);
  }

  /** Every move the loop makes keeps the invariant and all assignments, and lowers the
      measure. */
  lemma EndStep(cfg: SimConfig, states: seq<SimState>, reqs: seq<FloorReqs>, ids: set<string>)
    requires EndInv(cfg, states, reqs, ids) && GoesOn(reqs, states) && SortedUpTo(states, |states|)
    ensures |states| > 0 && InShaft(states[0], |reqs|)
    ensures var after, table := states[0 := MovedState(cfg, states[0], reqs)], MovedReqs(cfg, states[0], reqs);
            EndInv(cfg, after, table, ids) && Keeps(reqs, table) && Down(states, reqs, after, table)
  {
    if LoopInv(cfg, states, reqs, ids) {
      MoveStep(cfg, states, reqs, ids);
      NamedIsNotLone(cfg, states, reqs, ids);
      var after, table := states[0 := MovedState(cfg, states[0], reqs)], MovedReqs(cfg, states[0], reqs);
      NamedIsNotLone(cfg, after, table, ids);
    } else {
      LoneStep(cfg, states, reqs);
    }
  }

  /** What the loop starts with. */
  lemma StartEnds(cfg: SimConfig, hallReqs: seq<HallCalls>, from: ElevatorStates, c: Conf)
    requires Contract(hallReqs, from) && CanEnd(cfg, hallReqs, from) && StartOf(cfg, hallReqs, from, c)
    ensures EndInv(cfg, c.states, c.reqs, from.Keys) && TableOf(c.reqs, hallReqs, from.Keys)
  {
    var first :| InitialList(first, from) && StartFrom(cfg, hallReqs, from, first, c);
    StartHolds(cfg, hallReqs, from, first, c);
    if !HasName(cfg, from.Keys) {
      LoneStartsExactly(cfg, hallReqs, from, c);
    }
  }

  // ----- runs that end -----

  ghost predicate Endless(cfg: SimConfig, run: nat -> Conf) {
    forall k: nat :: Turn(cfg, run(k), run(k + 1))
  }

  lemma TurnGoesDown(cfg: SimConfig, c: Conf, d: Conf, ids: set<string>)
    requires EndInv(cfg, c.states, c.reqs, ids) && Turn(cfg, c, d)
    ensures EndInv(cfg, d.states, d.reqs, ids) && Down(c.states, c.reqs, d.states, d.reqs)
  {
    var sorted :| TurnBy(cfg, c, sorted, d);
    EndSort(cfg, c.states, sorted, c.reqs, ids);
    EndStep(cfg, sorted, c.reqs, ids);
  }

  datatype Level = Level(first: int, second: int, third: int)

  function LevelOf(c: Conf): Level {
    Level(First(c.states, c.reqs), Second(c.states, c.reqs), Third(c.states, c.reqs))
  }

  predicate Below(b: Level, a: Level) {
    && a.first >= 0 && a.second >= 0
    && (b.first < a.first ||
        (b.first == a.first &&
         (b.second < a.second || (b.second == a.second && 0 <= a.third && b.third < a.third))))
  }

  /** No sequence of levels goes down for ever. */
  lemma {:induction false} LevelsRunOut(levels: nat -> Level, k: nat, a: int, b: int, l: int) returns (n: nat)
    requires levels(k) == Level(a, b, l)
    ensures !Below(levels(n + 1), levels(n))
    decreases a, b, l
  {
    var next := levels(k + 1);
    if Below(next, levels(k)) {
      n := LevelsRunOut(levels, k + 1, next.first, next.second, next.third);
    } else {
      n := k;
    }
  }

  lemma TurnGoesBelow(cfg: SimConfig, c: Conf, d: Conf, ids: set<string>)
    requires EndInv(cfg, c.states, c.reqs, ids) && Turn(cfg, c, d)
    ensures EndInv(cfg, d.states, d.reqs, ids) && Below(LevelOf(d), LevelOf(c))
  {
    TurnGoesDown(cfg, c, d, ids);
  }

  lemma {:induction false} EndlessKeeps(cfg: SimConfig, run: nat -> Conf, k: nat, ids: set<string>)
    requires Endless(cfg, run) && EndInv(cfg, run(0).states, run(0).reqs, ids)
    ensures EndInv(cfg, run(k).states, run(k).reqs, ids)
  {
    if k > 0 {
      EndlessKeeps(cfg, run, k - 1, ids);
      TurnGoesBelow(cfg, run(k - 1), run(k), ids);
    }
  }

  lemma EndlessDescends(cfg: SimConfig, run: nat -> Conf, k: nat, ids: set<string>)
    requires Endless(cfg, run) && EndInv(cfg, run(0).states, run(0).reqs, ids)
    ensures Below(LevelOf(run(k + 1)), LevelOf(run(k)))
  {
    EndlessKeeps(cfg, run, k, ids);
    TurnGoesBelow(cfg, run(k), run(k + 1), ids);
  }

  lemma EndsWhereItCan(cfg: SimConfig, hallReqs: seq<HallCalls>, from: ElevatorStates, run: nat -> Conf)
    requires Contract(hallReqs, from) && CanEnd(cfg, hallReqs, from) && StartOf(cfg, hallReqs, from, run(0))
    ensures !Endless(cfg, run)
  {
    StartEnds(cfg, hallReqs, from, run(0));
    var levels := (k: nat) => LevelOf(run(k));
    var start := levels(0);
    var n := LevelsRunOut(levels, 0, start.first, start.second, start.third);
    if Endless(cfg, run) {
      EndlessDescends(cfg, run, n, from.Keys);
    }
  }

  // ----- runs that do not -----

  predicate Unfinished(c: Conf) {
    LoneInv(c.states, c.reqs) && !Finishes(c.states[0], c.reqs)
  }

  lemma UnfinishedTurns(cfg: SimConfig, c: Conf)
    requires Unfinished(c)
    ensures var d := Conf([MovedState(cfg, c.states[0], c.reqs)], c.reqs); Unfinished(d) && Turn(cfg, c, d)
  {
    assert c.states == [c.states[0]];
    UnfinishedGoesOn(c.states[0], c.reqs);
    LoneMove(cfg, c.states[0], c.reqs);
    LoneTurn(cfg, c, Conf([MovedState(cfg, c.states[0], c.reqs)], c.reqs));
  }

  ghost function Unending(cfg: SimConfig, c: Conf, k: nat): (d: Conf)
    requires Unfinished(c)
    ensures Unfinished(d)
  {
    if k == 0 then c
    else
      var b := Unending(cfg, c, k - 1);
      UnfinishedTurns(cfg, b);
      Conf([MovedState(cfg, b.states[0], b.reqs)], b.reqs)
  }

  lemma UnendingTurns(cfg: SimConfig, c: Conf, k: nat)
    requires Unfinished(c)
    ensures Turn(cfg, Unending(cfg, c, k), Unending(cfg, c, k + 1))
  {
    UnfinishedTurns(cfg, Unending(cfg, c, k));
  }

  lemma UnfinishedNeverEnds(cfg: SimConfig, c: Conf) returns (run: nat -> Conf)
    requires Unfinished(c)
    ensures run(0) == c && Endless(cfg, run)
  {
    run := (k: nat) => Unending(cfg, c, k);
    forall k: nat
      ensures Turn(cfg, run(k), run(k + 1))
    {
      UnendingTurns(cfg, c, k);
    }
  }

  lemma LoneNeverEnds(cfg: SimConfig, hallReqs: seq<HallCalls>, from: ElevatorStates) returns (run: nat -> Conf)
    requires Contract(hallReqs, from) && from.Keys == {""} && !LoneEnds(cfg, hallReqs, from)
    ensures StartOf(cfg, hallReqs, from, run(0)) && Endless(cfg, run)
  {
    var c := Conf([LoneStart(cfg, hallReqs, from[""])], ToReq(hallReqs));
    LoneStartsExactly(cfg, hallReqs, from, c);
    run := UnfinishedNeverEnds(cfg, c);
  }

  // ----- exactly where it ends -----

  ghost predicate RunsForEver(cfg: SimConfig, hallReqs: seq<HallCalls>, from: ElevatorStates)
    requires Contract(hallReqs, from)
  {
    exists run: nat -> Conf :: StartOf(cfg, hallReqs, from, run(0)) && Endless(cfg, run)
  }

  /** On an input that the contract allows, the main loop ends, whatever the order among
      equal times, exactly when some elevator has a name or the only one gets done
      without. The durations matter only where an elevator without a name is one of
      several: there they have to be positive. */
  lemma EndsExactly(cfg: SimConfig, hallReqs: seq<HallCalls>, from: ElevatorStates)
    requires Contract(hallReqs, from)
    requires ("" in from ==> cfg.doorOpenDuration > 0 && cfg.travelDuration > 0) || from.Keys == {""}
    ensures CanEnd(cfg, hallReqs, from) <==> !RunsForEver(cfg, hallReqs, from)
  {
    if CanEnd(cfg, hallReqs, from) {
      forall run: nat -> Conf | StartOf(cfg, hallReqs, from, run(0))
        ensures !Endless(cfg, run)
      {
        EndsWhereItCan(cfg, hallReqs, from, run);
      }
    } else {
      NoNameIsBlank(cfg, from);
      var run := LoneNeverEnds(cfg, hallReqs, from);
    }
  }

  lemma NoNameIsBlank(cfg: SimConfig, from: ElevatorStates)
    requires from != map[] && !HasName(cfg, from.Keys)
    requires ("" in from ==> cfg.doorOpenDuration > 0 && cfg.travelDuration > 0) || from.Keys == {""}
    ensures from.Keys == {""}
  {
    if forall id :: id in from.Keys ==> id == "" {
      assert from.Keys == {""} by {
        var id :| id in from.Keys;
      }
    }
  }

  const ONE_FLOOR := [HallCalls(true, true)]
  const NO_NAME: ElevatorStates := map["" := LocalElevatorState(Idle, 0, Stop, [false])]

  /** With "" as the only id it need not end: one floor with both hall calls and an idle
      elevator there. */
  lemma BlankNeverEnds(cfg: SimConfig)
    ensures Contract(ONE_FLOOR, NO_NAME) && RunsForEver(cfg, ONE_FLOOR, NO_NAME)
  {
    assert "" in NO_NAME;
    assert !OnlyCallAt(ToReq(ONE_FLOOR), 0) && AnyActive(ToReq(ONE_FLOOR)[0]);
    var run := LoneNeverEnds(cfg, ONE_FLOOR, NO_NAME);
  }

  /** For a set of ids, it ends on every input that the contract allows exactly when some
      id is not empty. */
  lemma IdsEndExactly(cfg: SimConfig, ids: set<string>)
    requires ids != {} && cfg.doorOpenDuration > 0 && cfg.travelDuration > 0
    ensures (exists id :: id in ids && id != "") <==>
            forall hallReqs, from: ElevatorStates :: from.Keys == ids && Contract(hallReqs, from) ==>
              !RunsForEver(cfg, hallReqs, from)
  {
    if exists id :: id in ids && id != "" {
      forall hallReqs, from: ElevatorStates | from.Keys == ids && Contract(hallReqs, from)
        ensures !RunsForEver(cfg, hallReqs, from)
      {
        EndsExactly(cfg, hallReqs, from);
      }
    } else {
      NoNameInIds(ids);
      BlankNeverEnds(cfg);
      assert NO_NAME.Keys == {""};
    }
  }

  lemma NoNameInIds(ids: set<string>)
    requires ids != {} && forall id :: id in ids ==> id == ""
    ensures ids == {""}
  {
    var id :| id in ids;
  }
}
