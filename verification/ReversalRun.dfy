/** A run in which the second call of a floor where the car turns gets no interval: its
    peer times out while the door is open, and with it goes what the peer was to serve. */
module ReversalRun {
  import opened Text
  import opened Versions
  import opened Requests
  import opened Merge
  import opened Replicas
  import opened Peers
  import opened Assigner
  import opened ControllerModel
  import opened ControllerSafety
  import opened ControllerStops
  import opened ControllerRouting
  import opened ControllerDoors
  import opened StarvedRun

  const UP_HERE := HallKey(1, UP)
  const DOWN_HERE := HallKey(1, DOWN)
  const DOWN_THERE := HallKey(3, DOWN)
  const CALLS := [
    RequestEntry(UP_HERE, RequestCell(true, Version(1, 2, "b"))),
    RequestEntry(DOWN_HERE, RequestCell(true, Version(2, 2, "b"))),
    RequestEntry(DOWN_THERE, RequestCell(true, Version(3, 2, "b")))]
  const PEER := SoftState(2, "b", 3, STOP, Idle, false, false)
  const TOLD := Snapshot(PEER, CALLS)

  predicate KeysKnown(cells: Cells) {
    cells.Keys == {UP_HERE, DOWN_HERE, DOWN_THERE} && Active(cells, DOWN_HERE) && Active(cells, DOWN_THERE)
  }

  ghost predicate Known(s: Ctl) {
    && Inv(s) && s.cfg == LIFT && s.peers == map[2 := Peer(PEER, 0)]
    && KeysKnown(s.rep.cells)
  }

  lemma AddsCall(cells: Cells, e: RequestEntry)
    requires e.key !in cells && e.cell.version.counter > 0
    ensures MergeOne(cells, e) == cells[e.key := e.cell]
  {
    NewerThanZero(e.cell.version);
  }

  lemma CallsArrive()
    ensures var cells := MergeAll(map[], CALLS); KeysKnown(cells) && Active(cells, UP_HERE)
  {
    var first, second := CALLS[..1], CALLS[..2];
    assert CALLS[..|CALLS| - 1] == second && second[..|second| - 1] == first && first[..|first| - 1] == [];
    AddsCall(map[], CALLS[0]);
    var one := MergeAll(map[], first);
    assert one == MergeOne(MergeAll(map[], []), CALLS[0]);
    AddsCall(one, CALLS[1]);
    var two := MergeAll(map[], second);
    assert two == MergeOne(one, CALLS[1]);
    AddsCall(two, CALLS[2]);
  }

  /** A call is the car's own if the peer is no nearer. */
  lemma OwnIfNoDearer(s: Ctl, floor: int, dir: Direction)
    requires IdentityInv(s) && s.cfg == LIFT && s.peers == map[2 := Peer(PEER, 0)]
    ensures Hall(s, floor, dir, Assignments(s)) <==>
            var key := HallKey(floor, dir); Active(s.rep.cells, key) && Cost(s.car, key) <= Cost(PEER, key)
  {
    var key := HallKey(floor, dir);
    HallMeans(s, floor, dir);
    SelfWins(s, key);
    assert s.peers[2].state == PEER;
    assert PEER in Live(s.peers, s.car) && s.car in Live(s.peers, s.car);
    forall t | t in Live(s.peers, s.car)
      ensures t == s.car || t == PEER
    {
    }
  }

  /** The peer's call is its own, whatever the car does at the floors below. */
  lemma ServesOnlyHere(s: Ctl, floor: int)
    requires IdentityInv(s) && s.cfg == LIFT && s.peers == map[2 := Peer(PEER, 0)] && KeysKnown(s.rep.cells)
    requires s.car.floor <= 1 && s.car.behavior in {Idle, Moving, DoorOpen}
    requires CanServe(s, floor, Assignments(s))
    ensures floor == 1
  {
    assert CabKey(1, floor).kind != UP_HERE.kind;
    OwnIfNoDearer(s, floor, UP);
    OwnIfNoDearer(s, floor, DOWN);
  }

  /** On its way up to the two calls of floor 1. */
  ghost predicate Coming(s: Ctl) {
    && Known(s) && Active(s.rep.cells, UP_HERE) && s.car.floor == 0
    && s.car.behavior == Moving && s.car.direction == UP && s.travelDir == UP && !s.car.obstruction
  }

  lemma PlansUp(s: Ctl)
    requires IdentityInv(s) && MotionInv(s) && s.cfg == LIFT && s.peers == map[2 := Peer(PEER, 0)]
    requires KeysKnown(s.rep.cells) && Active(s.rep.cells, UP_HERE)
    requires s.car.floor == 0 && s.car.behavior == Idle && !s.car.obstruction
    ensures Coming(Plan(s, 0))
  {
    var a := Assignments(s);
    if CanServe(s, 0, a) {
      ServesOnlyHere(s, 0);
    }
    OwnIfNoDearer(s, 1, UP);
    assert InReach(s, a, 1);
    NextDirServes(s, a);
    forall f | InReach(s, a, f)
      ensures f == 1
    {
      ServesOnlyHere(s, f);
    }
    PlanKeeps(s, 0);
  }

  lemma Informed(s: Ctl)
    requires s == Initial(LIFT, 0)
    ensures var told := s.(rep := Received(s.rep, CALLS), peers := Observed(s.peers, PEER, 0));
            && IdentityInv(told) && MotionInv(told) && told.cfg == LIFT && told.peers == map[2 := Peer(PEER, 0)]
            && KeysKnown(told.rep.cells) && Active(told.rep.cells, UP_HERE)
  {
    CallsArrive();
    ObserveAllMax(s.rep.clock, CALLS);
  }

  lemma FirstNews(s: Ctl)
    requires s == Initial(LIFT, 0)
    ensures Coming(ApplyRemote(s, 0, TOLD))
  {
    var told := s.(rep := Received(s.rep, CALLS), peers := Observed(s.peers, PEER, 0));
    Informed(s);
    PlansUp(told);
    assert NewsIn(s.peers, PEER);
  }

  lemma ReachComing() returns (t: Ctl)
    ensures Reached(1, t) && Coming(t)
  {
    var s := Initial(LIFT, 0);
    InitialInv(LIFT, 0);
    assert Run([s], []) && [s][0] == s;
    FirstNews(s);
    t := ApplyRemote(s, 0, TOLD);
    ReachNext(0, s, Remote(0, TOLD), t);
  }

  /** Both calls of the floor are the car's own there, and that above is not. */
  lemma ComesToTurn(s: Ctl)
    requires Coming(s)
    ensures TurnsHere(Arrived(s, SECOND, 1), UP)
  {
    var arrived := Arrived(s, SECOND, 1);
    OwnIfNoDearer(arrived, 1, UP);
    OwnIfNoDearer(arrived, 1, DOWN);
    if AnyAbove(arrived, 1, Assignments(arrived)) {
      var f :| 1 < f < 4 && CanServe(arrived, f, Assignments(arrived));
      ServesOnlyHere(arrived, f);
    }
  }

  /** The door open for the call up, with the call down and the peer's left. */
  ghost predicate OpenAtTurn(t: Ctl) {
    && Known(t) && AtTurn(t, 1, UP, 4 * SECOND) && t.travelDir == UP && !t.car.obstruction
  }

  lemma StopParts(s: Ctl, arrived: Ctl)
    requires Coming(s) && arrived == Arrived(s, SECOND, 1)
    requires PickDoorDir(Opened(arrived), Assignments(Opened(arrived)), UP) == UP
    ensures var t := Open(arrived, SECOND, UP);
            && t.cfg == LIFT && t.peers == s.peers && t.travelDir == UP && !t.car.obstruction
            && KeysKnown(t.rep.cells)
  {
    var o := Opened(arrived);
    OpenParts(arrived, SECOND, UP);
    assert CabKey(1, 1).kind != UP_HERE.kind && CabKey(1, 1) !in s.rep.cells;
    assert ClearFloor(o, UP).rep == SetCell(s.rep, UP_HERE, false);
  }

  lemma StopLeaves(s: Ctl)
    requires Coming(s)
    ensures OpenAtTurn(HandleFloor(s, SECOND, 1))
  {
    var arrived := Arrived(s, SECOND, 1);
    ComesToTurn(s);
    StopAtTurn(s, SECOND, 1);
    StopOpens(s, SECOND, 1);
    TurnPicks(arrived, UP);
    StopParts(s, arrived);
    FloorKeeps(s, SECOND, 1);
  }

  // ----- the peer times out -----

  lemma AloneSeesAbove(u: Ctl)
    requires IdentityInv(u) && u.peers == map[] && u.cfg == LIFT && KeysKnown(u.rep.cells)
    ensures AnyAbove(u, 1, Assignments(u)) && (Hall(u, 1, UP, Assignments(u)) ==> Active(u.rep.cells, UP_HERE))
    ensures Hall(u, 1, DOWN, Assignments(u))
  {
    LoneCarServes(u, 1, UP);
    LoneCarServes(u, 1, DOWN);
    LoneCarServes(u, 3, DOWN);
    assert CanServe(u, 3, Assignments(u));
  }

  lemma StarvesAlone(u: Ctl)
    requires Inv(u) && u.peers == map[] && u.cfg == LIFT && KeysKnown(u.rep.cells) && !Active(u.rep.cells, UP_HERE)
    requires u.car.floor == 1 && u.car.behavior == DoorOpen && u.doorDir == UP && u.travelDir == UP
    ensures Starved(u)
  {
    AloneSeesAbove(u);
    AloneSeesAbove(Opened(u));
    assert CabKey(1, 1).kind != UP_HERE.kind;
    assert !Cab(u, 1);
  }

  /** What is left when the peer has timed out: the call above is the car's own now. */
  lemma PeerGone(t: Ctl)
    requires OpenAtTurn(t)
    ensures var u := t.(peers := map[]);
            Looked(t, Tick(4 * SECOND)) == u && Starved(u) && Active(u.rep.cells, DOWN_HERE)
    ensures Acts(t, Tick(4 * SECOND)) && HandleTick(t, 4 * SECOND) == DoorStep(t.(peers := map[]), 4 * SECOND)
  {
    assert Expired(t.peers, SECOND, 4 * SECOND) == map[];
    ActsSteps(t, Tick(4 * SECOND));
    StarvesAlone(t.(peers := map[]));
  }

  /** The tick at the deadline: the door is not extended, and the car is starved. */
  lemma TickStarves(s: Ctl)
    requires OpenAtTurn(s)
    ensures var ev, t := Tick(4 * SECOND), HandleTick(s, 4 * SECOND);
            Acts(s, ev) && !Extends(s, ev) && Starved(t) && Active(t.rep.cells, DOWN_HERE)
  {
    PeerGone(s);
    UnservingDoor(s.(peers := map[]), 4 * SECOND);
  }

  lemma ReachAtTurn() returns (t: Ctl)
    ensures Reached(2, t) && OpenAtTurn(t)
  {
    var s := ReachComing();
    StopLeaves(s);
    t := HandleFloor(s, SECOND, 1);
    ReachNext(1, s, Event.Floor(SECOND, 1), t);
  }

  /** With the durations of the program: the peer is heard of at 0, the car stops at
      floor 1 after one second and opens for the call up; three seconds later the door
      does not stay open for the call down. The car closes it, opens it again for
      nothing, and never serves that call (`ControllerStops.StarvedForever`). */
  lemma SecondCallGetsNoInterval() returns (s: Ctl, t: Ctl)
    ensures Reached(2, s) && AtTurn(s, 1, UP, 4 * SECOND)
    ensures Acts(s, Tick(4 * SECOND)) && !Extends(s, Tick(4 * SECOND))
    ensures Next(s, Tick(4 * SECOND), t) && Reached(3, t) && Starved(t) && Active(t.rep.cells, HallKey(1, DOWN))
  {
    s := ReachAtTurn();
    TickStarves(s);
    t := HandleTick(s, 4 * SECOND);
    ReachNext(2, s, Tick(4 * SECOND), t);
  }
}
