/** The travel-time estimate of `hallassigner/hallassigner.go` and its closed form. */
module HallCost {
  import opened Shaft

  /** The up and down runs of a shaft of `n` floors laid end to end in a circle. */
  function Position(n: int, floor: int, dir: Dirn): int {
    if dir == Down then 2 * n - 1 - floor else floor
  }

  /** Steps forward on that circle; a turn at an end floor is a step. */
  function Ahead(n: int, from: int, to: int): int {
    if to >= from then to - from else to - from + 2 * n
  }

  function CallDir(up: bool): Dirn {
    if up then Up else Down
  }

  /** Estimated time from a floor and direction: two units a step, and a stopped car
      away from the call first takes a step to turn towards it. */
  function Travel(n: int, floor: int, dir: Dirn, target: int, up: bool): int {
    if dir == Stop then
      if floor == target then 0
      else
        var towards := if target > floor then Up else Down;
        2 + 2 * Ahead(n, Position(n, floor, towards), Position(n, target, CallDir(up)))
    else 2 * Ahead(n, Position(n, floor, dir), Position(n, target, CallDir(up)))
  }

  /** The whole estimate: door penalty plus travel, cut off above 100. */
  function Estimate(n: int, doorOpen: bool, floor: int, dir: Dirn, target: int, up: bool): int {
    var penalty := if doorOpen then 1 else 0;
    var full := penalty + Travel(n, floor, dir, target, up);
    if full <= 100 then full else 102 - penalty
  }

  function MoveFloor(n: int, d: int, dir: Dirn): int {
    if dir == Up && d < n - 1 then d + 1
    else if dir == Down && d > 0 then d - 1
    else d
  }

  function MoveDir(n: int, d: int, dir: Dirn, target: int): Dirn {
    if dir == Up then (if d < n - 1 then Up else Down)
    else if dir == Down then (if d > 0 then Down else Up)
    else if target > d then Up else Down
  }

  predicate There(d: int, dir: Dirn, target: int, up: bool) {
    d == target && (dir == CallDir(up) || dir == Stop)
  }

  /** A move that is not yet there takes one step off the way. */
  lemma MoveShortens(n: int, d: int, dir: Dirn, target: int, up: bool)
    requires 0 <= d < n && 0 <= target < n && !There(d, dir, target, up)
    ensures 0 <= MoveFloor(n, d, dir) < n
    ensures Travel(n, MoveFloor(n, d, dir), MoveDir(n, d, dir, target), target, up) + 2 == Travel(n, d, dir, target, up)
  {
  }

  lemma TravelFacts(n: int, d: int, dir: Dirn, target: int, up: bool)
    requires 0 <= d < n && 0 <= target < n
    ensures 0 <= Travel(n, d, dir, target, up) <= 4 * n
  {
  }

  lemma Arrived(n: int, d: int, dir: Dirn, target: int, up: bool)
    requires There(d, dir, target, up)
    ensures Travel(n, d, dir, target, up) == 0
  {
  }

  /** The switch inside the loop. */
  method Advance(n: int, floor: int, direction: Dirn, target: int) returns (d: int, dir: Dirn)
    ensures d == MoveFloor(n, floor, direction) && dir == MoveDir(n, floor, direction, target)
  {
    d, dir := floor, direction;
    if dir == Up {
      if d < n - 1 {
        d := d + 1;
      } else {
        dir := Down;
      }
    } else if dir == Down {
      if d > 0 {
        d := d - 1;
      } else {
        dir := Up;
      }
    } else {
      if target > d {
        dir := Up;
      } else {
        dir := Down;
      }
    }
  }

  /** After `steps` turns of the loop the car is on its way, by as much as it has cost. */
  predicate Underway(n: int, full: int, penalty: int, steps: int, d: int, dir: Dirn, target: int, up: bool) {
    && 0 <= d < n && 0 <= target < n && 0 <= penalty <= 1 && steps >= 0
    && full == penalty + 2 * steps + Travel(n, d, dir, target, up)
  }

  lemma Arrives(n: int, full: int, penalty: int, steps: int, d: int, dir: Dirn, target: int, up: bool)
    requires Underway(n, full, penalty, steps, d, dir, target, up) && There(d, dir, target, up)
    ensures full == penalty + 2 * steps
  {
    Arrived(n, d, dir, target, up);
  }

  lemma GivesUp(n: int, full: int, penalty: int, steps: int, d: int, dir: Dirn, target: int, up: bool)
    requires Underway(n, full, penalty, steps, d, dir, target, up)
    requires penalty + 2 * (steps - 1) <= 100 < penalty + 2 * steps
    ensures full > 100 && penalty + 2 * steps == 102 - penalty
  {
    TravelFacts(n, d, dir, target, up);
  }

  lemma Onward(n: int, full: int, penalty: int, steps: int, d: int, dir: Dirn, target: int, up: bool)
    requires Underway(n, full, penalty, steps, d, dir, target, up) && !There(d, dir, target, up)
    ensures Underway(n, full, penalty, steps + 1, MoveFloor(n, d, dir), MoveDir(n, d, dir, target), target, up)
  {
    MoveShortens(n, d, dir, target, up);
  }

  /** The loop as it stands; the cost is the closed form for every shaft and every
      car and call inside it. */
  method Cost(n: int, doorOpen: bool, floor: int, direction: Dirn, target: int, up: bool) returns (duration: int)
    ensures 0 <= floor < n && 0 <= target < n ==> duration == Estimate(n, doorOpen, floor, direction, target, up)
  {
    var d := floor;
    var dir := direction;
    duration := 0;
    if doorOpen {
      duration := duration + 1;
    }
    ghost var penalty := duration;
    ghost var inside := 0 <= floor < n && 0 <= target < n;
    ghost var full := penalty + Travel(n, floor, direction, target, up);
    ghost var steps := 0;
    while true
      invariant 0 <= duration == penalty + 2 * steps <= 100
      invariant inside ==> Underway(n, full, penalty, steps, d, dir, target, up)
      decreases 100 - duration
    {
      if d == target {
        if dir == CallDir(up) {
          if inside {
            Arrives(n, full, penalty, steps, d, dir, target, up);
          }
          return;
        } else if dir == Stop {
          if inside {
            Arrives(n, full, penalty, steps, d, dir, target, up);
          }
          return;
        }
      }
      if inside {
        Onward(n, full, penalty, steps, d, dir, target, up);
      }
      d, dir := Advance(n, d, dir, target);
      duration := duration + 2;
      steps := steps + 1;
      if duration > 100 {
        break;
      }
    }
    if inside {
      GivesUp(n, full, penalty, steps, d, dir, target, up);
    }
  }

  /** In a shaft of up to 24 floors the cut-off is out of reach and the estimate is
      at most `4n + 1`. */
  lemma CutOffOutOfReach(n: int, doorOpen: bool, floor: int, dir: Dirn, target: int, up: bool)
    requires 0 <= floor < n <= 24 && 0 <= target < n
    ensures Estimate(n, doorOpen, floor, dir, target, up) ==
            (if doorOpen then 1 else 0) + Travel(n, floor, dir, target, up) <= 4 * n + 1
  {
    TravelFacts(n, floor, dir, target, up);
  }

  // ----- the estimate, way by way -----

  /** Floors passed and turns made at the ends of the shaft, from a car under way to a call
      for a direction. */
  function Steps(n: int, floor: int, goesUp: bool, target: int, up: bool): int {
    if goesUp then
      if !up then (n - 1 - floor) + 1 + (n - 1 - target)
      else if target >= floor then target - floor
      else (n - 1 - floor) + 1 + (n - 1) + 1 + target
    else
      if up then floor + 1 + target
      else if target <= floor then floor - target
      else floor + 1 + (n - 1) + 1 + (n - 1 - target)
  }

  /** What the estimate says: one for an open door, and two for every step. A car under way
      goes on to the end of the shaft before it turns; one at rest is there, or turns towards
      the call in a step of its own. Beyond 100 the loop gives up at 102, or 101 with the
      door open. */
  lemma EstimateSays(n: int, doorOpen: bool, floor: int, dir: Dirn, target: int, up: bool)
    requires 0 <= floor < n && 0 <= target < n
    ensures var steps := match dir
                         case Up => Steps(n, floor, true, target, up)
                         case Down => Steps(n, floor, false, target, up)
                         case Stop => if floor == target then 0 else 1 + Steps(n, floor, target > floor, target, up);
            var all := 2 * steps + if doorOpen then 1 else 0;
            Estimate(n, doorOpen, floor, dir, target, up) ==
              if all <= 100 then all else if doorOpen then 101 else 102
  {
  }
}
