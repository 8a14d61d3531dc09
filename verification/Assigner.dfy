/** Hall assignment from a view of the live elevators (`internal/assigner/assigner.go`). */
module Assigner {
  import opened Requests
  import opened Peers
  import opened Sorting

  function Abs(n: int): int {
    if n < 0 then -n else n
  }

  function DirTo(from: int, to: int): Direction {
    if to > from then UP else if to < from then DOWN else STOP
  }

  function Cost(state: SoftState, key: RequestKey): int {
    var n := Abs(state.floor - key.floor) * 4;
    match state.behavior
    case DoorOpen => if state.floor == key.floor then n - 1 else n + 2
    case Moving =>
      var dir := DirTo(state.floor, key.floor);
      var turn := if dir != STOP && dir != state.direction then 3 else 0;
      var against := if key.direction != STOP && key.direction != state.direction then 1 else 0;
      n + turn + against
    case Stuck => n + 10_000
    case Idle => n
    case OtherBehavior(_) => n
  }

  /** `a` comes before `b` by cost, then by elevator id. */
  predicate NoWorse(a: SoftState, b: SoftState, key: RequestKey) {
    Cost(a, key) < Cost(b, key) || (Cost(a, key) == Cost(b, key) && a.id <= b.id)
  }

  ghost predicate Best(states: set<SoftState>, key: RequestKey, s: SoftState) {
    s in states && forall t :: t in states ==> NoWorse(s, t, key)
  }

  lemma {:induction false} BestExists(states: set<SoftState>, key: RequestKey)
    requires states != {}
    ensures exists s :: Best(states, key, s)
  {
    var x :| x in states;
    var rest := states - {x};
    assert states == rest + {x};
    if rest == {} {
      assert Best(states, key, x);
    } else {
      BestExists(rest, key);
      var y :| Best(rest, key, y);
      assert Best(states, key, if NoWorse(x, y, key) then x else y);
    }
  }

  /** A stuck elevator gets no call while another that is not stuck is within 2498
      floors of it. */
  lemma StuckGetsNothing(states: set<SoftState>, key: RequestKey, s: SoftState, t: SoftState)
    requires Best(states, key, s) && t in states && t.behavior != Stuck && Abs(t.floor - key.floor) <= 2498
    ensures s.behavior != Stuck
  {
    assert NoWorse(s, t, key);
  }

  /** The elevator a call goes to. */
  ghost function Winner(states: set<SoftState>, key: RequestKey): int
    requires states != {}
  {
    BestExists(states, key);
    var s :| Best(states, key, s);
    s.id
  }

  lemma WinnerIs(states: set<SoftState>, key: RequestKey, s: SoftState)
    requires Best(states, key, s)
    ensures Winner(states, key) == s.id
  {
    var t :| Best(states, key, t) && t.id == Winner(states, key);
    assert Best(states, key, t);
    assert NoWorse(s, t, key) && NoWorse(t, s, key);
  }

  /** The winner's state, for reasoning about what it costs. */
  lemma WinnerState(states: set<SoftState>, key: RequestKey) returns (s: SoftState)
    requires states != {}
    ensures Best(states, key, s) && s.id == Winner(states, key)
  {
    BestExists(states, key);
    s :| Best(states, key, s) && s.id == Winner(states, key);
  }

  ghost function HallAssignment(cells: Cells, states: set<SoftState>): map<RequestKey, int>
    requires states != {}
  {
    map k | k in cells && cells[k].active && k.kind == HALL :: Winner(states, k)
  }

  ghost function StateSet(states: seq<SoftState>): set<SoftState> {
    set s | s in states
  }

  method Assign(table: RequestTable, states: seq<SoftState>) returns (out: map<RequestKey, int>)
    ensures states == [] ==> out == map[]
    ensures states != [] ==> StateSet(states) != {} && out == HallAssignment(table.cells, StateSet(states))
  {
    out := map[];
    if |states| == 0 {
      return;
    }
    var sorted := SortFunc(states, ById);
    SameElements(states, sorted);
    ghost var all := StateSet(states);
    assert states[0] in all;
    var entries := table.ActiveEntries();
    for i := 0 to |entries|
      invariant forall k :: k in out <==> k.kind == HALL && exists j :: 0 <= j < i && entries[j].key == k
      invariant forall k :: k in out ==> out[k] == Winner(all, k)
    {
      var entry := entries[i];
      if entry.key.kind != HALL {
        continue;
      }
      var bestId := BestId(sorted, entry.key, all);
      out := out[entry.key := bestId];
    }
    EachActiveListed(table.cells, entries, out, all);
  }

  lemma EachActiveListed(cells: Cells, entries: seq<RequestEntry>, out: map<RequestKey, int>, all: set<SoftState>)
    requires Lists(entries, cells, true) && all != {}
    requires forall k :: k in out <==> k.kind == HALL && exists j :: 0 <= j < |entries| && entries[j].key == k
    requires forall k :: k in out ==> out[k] == Winner(all, k)
    ensures out == HallAssignment(cells, all)
  {
    forall k
      ensures k in out <==> k in cells && cells[k].active && k.kind == HALL
    {
      if k in cells && cells[k].active && k.kind == HALL {
        assert RequestEntry(k, cells[k]) in entries;
      }
      if k in out {
        var j :| 0 <= j < |entries| && entries[j].key == k;
        assert entries[j] in entries;
      }
    }
    assert out.Keys == HallAssignment(cells, all).Keys;
  }

  /** The inner loop of `Assign`: one pass over the states. */
  method BestId(states: seq<SoftState>, key: RequestKey, ghost all: set<SoftState>) returns (bestId: int)
    requires states != [] && forall s :: s in states <==> s in all
    ensures all != {} && bestId == Winner(all, key)
  {
    assert states[0] in states;
    bestId := states[0].id;
    var bestCost := Cost(states[0], key);
    ghost var best := states[0];
    for i := 1 to |states|
      invariant best in all && bestId == best.id && bestCost == Cost(best, key)
      invariant forall j :: 0 <= j < i ==> NoWorse(best, states[j], key)
    {
      var state := states[i];
      assert state in states;
      var c := Cost(state, key);
      if c < bestCost || (c == bestCost && state.id < bestId) {
        bestId, bestCost := state.id, c;
        best := state;
      }
    }
    assert Best(all, key, best);
    WinnerIs(all, key, best);
  }
}
