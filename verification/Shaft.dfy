/** Directions and the matrix of calls shared by the single-elevator machine and
    the simulation-based assigner. */
module Shaft {

  datatype Dirn = Down | Stop | Up

  /** One floor's row `[3]bool`: hall up, hall down, cab. */
  datatype Calls = Calls(up: bool, down: bool, cab: bool)

  const NO_CALLS := Calls(false, false, false)

  predicate Any(c: Calls) {
    c.up || c.down || c.cab
  }

  function RowCount(c: Calls): nat {
    (if c.up then 1 else 0) + (if c.down then 1 else 0) + (if c.cab then 1 else 0)
  }

  function Count(rows: seq<Calls>): nat {
    if rows == [] then 0 else RowCount(rows[0]) + Count(rows[1..])
  }

  lemma {:induction false} CountUpdate(rows: seq<Calls>, f: nat, row: Calls)
    requires f < |rows|
    ensures Count(rows[f := row]) == Count(rows) - RowCount(rows[f]) + RowCount(row)
  {
    var after := rows[f := row];
    if f == 0 {
      assert after[1..] == rows[1..];
    } else {
      assert after[1..] == rows[1..][f - 1 := row];
      CountUpdate(rows[1..], f - 1, row);
    }
  }

  predicate AnyAbove(rows: seq<Calls>, floor: int) {
    exists f :: floor < f < |rows| && 0 <= f && Any(rows[f])
  }

  predicate AnyBelow(rows: seq<Calls>, floor: int) {
    exists f :: 0 <= f < floor && f < |rows| && Any(rows[f])
  }

  predicate AnyAt(rows: seq<Calls>, floor: int) {
    0 <= floor < |rows| && Any(rows[floor])
  }

  predicate AnyCalls(rows: seq<Calls>) {
    exists f :: 0 <= f < |rows| && Any(rows[f])
  }

  /** Calls strictly the way one is heading. */
  predicate AnyAhead(rows: seq<Calls>, floor: int, dir: Dirn) {
    match dir
    case Up => AnyAbove(rows, floor)
    case Down => AnyBelow(rows, floor)
    case Stop => false
  }
}
