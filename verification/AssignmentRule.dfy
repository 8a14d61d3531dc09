/** Which of the live cars takes a hall call: the rule that the assigner's costs amount to,
    in terms of where the cars are and what they do. */
module AssignmentRule {
  import opened Requests
  import opened Peers
  import opened Assigner
  import opened ControllerModel
  import opened ControllerSafety
  import opened ControllerStops

  /** What a car does, as far as it matters to a call, the better the earlier. */
  datatype Manner =
    | OpenHere
    | Ready
    | ComingAgainst
    | OpenElsewhere
    | LeavingWith
    | LeavingAgainst
    | OutOfOrder

  /** The car moves away from the call's floor, or moves in no direction at all. */
  predicate Leaves(s: SoftState, key: RequestKey) {
    || (key.floor > s.floor && s.direction != UP)
    || (key.floor < s.floor && s.direction != DOWN)
  }

  /** The call is for the direction other than the car's. */
  predicate Against(s: SoftState, key: RequestKey) {
    key.direction != STOP && key.direction != s.direction
  }

  function MannerOf(s: SoftState, key: RequestKey): Manner {
    match s.behavior
    case Stuck => OutOfOrder
    case DoorOpen => if s.floor == key.floor then OpenHere else OpenElsewhere
    case Moving =>
      if Leaves(s, key) then (if Against(s, key) then LeavingAgainst else LeavingWith)
      else if Against(s, key) then ComingAgainst
      else Ready
    case Idle => Ready
    case OtherBehavior(_) => Ready
  }

  function Distance(s: SoftState, key: RequestKey): nat {
    if s.floor >= key.floor then s.floor - key.floor else key.floor - s.floor
  }

  /** What a manner is worth, in quarters of a floor. */
  function Quarters(m: Manner): int {
    match m
    case OpenHere => -1
    case Ready => 0
    case ComingAgainst => 1
    case OpenElsewhere => 2
    case LeavingWith => 3
    case LeavingAgainst => 4
    case OutOfOrder => 10_000
  }

  /** `a` takes the call before `b`: it is as good, distance and manner together, and
      where they are equal its id is the lower. */
  predicate Before(a: SoftState, b: SoftState, key: RequestKey) {
    var da := 4 * Distance(a, key) + Quarters(MannerOf(a, key));
    var db := 4 * Distance(b, key) + Quarters(MannerOf(b, key));
    da < db || (da == db && a.id <= b.id)
  }

  predicate UniqueIds(states: set<SoftState>) {
    forall s, t :: s in states && t in states && s.id == t.id ==> s == t
  }

  /** The cost adds up from distance and manner. */
  lemma CostAddsUp(s: SoftState, key: RequestKey)
    ensures Cost(s, key) == 4 * Distance(s, key) + Quarters(MannerOf(s, key))
  {
  }

  lemma RankedBefore(a: SoftState, b: SoftState, key: RequestKey)
    ensures NoWorse(a, b, key) <==> Before(a, b, key)
  {
    CostAddsUp(a, key);
    CostAddsUp(b, key);
  }

  /** The call goes to the car that comes before all others. */
  lemma TakesExactly(states: set<SoftState>, key: RequestKey, s: SoftState)
    requires UniqueIds(states) && s in states
    ensures Winner(states, key) == s.id <==> forall t :: t in states ==> Before(s, t, key)
  {
    forall a, b
      ensures NoWorse(a, b, key) <==> Before(a, b, key)
    {
      RankedBefore(a, b, key);
    }
    if forall t :: t in states ==> Before(s, t, key) {
      assert Best(states, key, s);
      WinnerIs(states, key, s);
    }
    var w := WinnerState(states, key);
    assert w in states;
  }

  /** A controller takes an active hall call for its own exactly if its car comes before
      those of all peers it tracks. */
  lemma OwnExactly(s: Ctl, floor: int, dir: Direction)
    requires IdentityInv(s)
    ensures Hall(s, floor, dir, Assignments(s)) <==>
            && Active(s.rep.cells, HallKey(floor, dir))
            && forall id :: id in s.peers ==> Before(s.car, s.peers[id].state, HallKey(floor, dir))
  {
    var states, key := Live(s.peers, s.car), HallKey(floor, dir);
    HallMeans(s, floor, dir);
    assert s.car in states;
    forall x, y | x in states && y in states && x.id == y.id
      ensures x == y
    {
    }
    TakesExactly(states, key, s.car);
    if forall id :: id in s.peers ==> Before(s.car, s.peers[id].state, key) {
      forall t | t in states
        ensures Before(s.car, t, key)
      {
      }
    } else {
      var id :| id in s.peers && !Before(s.car, s.peers[id].state, key);
      assert s.peers[id].state in states;
    }
  }

  // ----- what the rule comes to -----

  function Place(m: Manner): nat {
    match m
    case OpenHere => 0
    case Ready => 1
    case ComingAgainst => 2
    case OpenElsewhere => 3
    case LeavingWith => 4
    case LeavingAgainst => 5
    case OutOfOrder => 6
  }

  /** At equal distance the manner decides, and the id between equal manners. */
  lemma AtEqualDistance(states: set<SoftState>, key: RequestKey, a: SoftState, b: SoftState)
    requires states == {a, b} && a.id != b.id && Distance(a, key) == Distance(b, key)
    ensures var pa, pb := Place(MannerOf(a, key)), Place(MannerOf(b, key));
            Winner(states, key) == a.id <==> pa < pb || (pa == pb && a.id < b.id)
  {
    TakesExactly(states, key, a);
  }

  /** Of two cars in order, one that is a floor nearer takes the call whatever the two are
      doing, but for one case: leaving, and with the call against it, it is only as good as
      a car that is ready one floor further off. */
  lemma NearerTakes(states: set<SoftState>, key: RequestKey, a: SoftState, b: SoftState)
    requires states == {a, b} && a.id != b.id && Distance(a, key) < Distance(b, key)
    requires MannerOf(a, key) != OutOfOrder
    ensures Winner(states, key) == a.id <==>
            !(MannerOf(a, key) == LeavingAgainst && MannerOf(b, key) == Ready && a.id > b.id &&
              Distance(b, key) == Distance(a, key) + 1)
  {
    TakesExactly(states, key, a);
  }

  /** A car out of order takes a call from one in order only if that is farther by more
      than 2500 floors, less what its manner costs. */
  lemma OutOfOrderTakes(states: set<SoftState>, key: RequestKey, a: SoftState, b: SoftState)
    requires states == {a, b} && a.id != b.id
    requires MannerOf(a, key) == OutOfOrder && MannerOf(b, key) != OutOfOrder
    ensures var further := 4 * (Distance(b, key) - Distance(a, key)) + Quarters(MannerOf(b, key));
            Winner(states, key) == a.id <==> further > 10_000 || (further == 10_000 && a.id < b.id)
  {
    TakesExactly(states, key, a);
  }
}
