/** A run that ends in a call that is never served: a car on its way up, already past
    a floor's sensor, learns of a call to go down there, opens its door without
    clearing it, and loses its only peer. */
module StarvedRun {
  import opened Text
  import opened Versions
  import opened Requests
  import opened Merge
  import opened Replicas
  import opened Peers
  import opened Assigner
  import opened ControllerModel
  import opened ControllerSafety
  import opened ControllerStops
  import opened ControllerRouting
  import opened ControllerDoors

  const LIFT := Config(1, "a", 4, 0, 3 * SECOND, SECOND, 5 * SECOND)
  const CALL := RequestEntry(HallKey(1, DOWN), RequestCell(true, Version(1, 2, "b")))
  const NEWS := Snapshot(SoftState(2, "b", 0, STOP, Stuck, false, false), [CALL])

  /** On the way up to the third floor's cab call, and nothing else to do. */
  ghost predicate Rising(s: Ctl, floor: int) {
    && Inv(s) && s.cfg == LIFT && s.peers == map[] && s.car.floor == floor
    && s.car.behavior == Moving && s.car.direction == UP && s.travelDir == UP
    && s.rep.cells.Keys == {CabKey(1, 3)} && Active(s.rep.cells, CabKey(1, 3))
  }

  lemma OnlyCab(s: Ctl, a: map<RequestKey, int>, floor: int)
    requires s.cfg.id == 1 && s.rep.cells.Keys == {CabKey(1, 3)} && Active(s.rep.cells, CabKey(1, 3))
    ensures CanServe(s, floor, a) <==> floor == 3
  {
    assert HallKey(floor, UP).kind != CabKey(1, 3).kind;
    assert HallKey(floor, DOWN).kind != CabKey(1, 3).kind;
  }

  lemma Departs(s: Ctl)
    requires Inv(s) && s.ready && s.cfg == LIFT && s.peers == map[] && s.car.floor == 0
    requires s.car.behavior == Idle && s.rep.cells == map[]
    ensures Rising(HandleButton(s, 0, ButtonCab, 3), 0)
  {
    var p := s.(rep := SetCell(s.rep, CabKey(1, 3), true));
    var a := Assignments(p);
    OnlyCab(p, a, 0);
    OnlyCab(p, a, 3);
    NextDirServes(p, a);
    forall f | InReach(p, a, f)
      ensures f == 3
    {
      OnlyCab(p, a, f);
    }
    assert InReach(p, a, 3);
    PressKeeps(s, 0, ButtonCab, 3);
  }

  lemma Passes(s: Ctl)
    requires Rising(s, 0)
    ensures Rising(HandleFloor(s, SECOND, 1), 1)
  {
    var arrived := Arrived(s, SECOND, 1);
    OnlyCab(arrived, Assignments(arrived), 1);
    assert !StopsAt(s, SECOND, 1);
    FloorKeeps(s, SECOND, 1);
  }

  ghost predicate TwoCalls(cells: Cells) {
    cells.Keys == {CabKey(1, 3), CALL.key} && Active(cells, CabKey(1, 3)) && Active(cells, CALL.key)
  }

  /** What the car knows once the snapshot is in. */
  ghost predicate Informed(s: Ctl) {
    TwoCalls(s.rep.cells) && s.peers == map[2 := Peer(NEWS.soft, SECOND)]
  }

  lemma Learns(s: Ctl)
    requires Rising(s, 1)
    ensures var told := s.(rep := Received(s.rep, [CALL]), peers := Observed(s.peers, NEWS.soft, SECOND));
            && Informed(told) && IdentityInv(told) && ApplyRemote(s, SECOND, NEWS) == Plan(told, SECOND)
  {
    NewerThanZero(CALL.cell.version);
    assert [CALL][..0] == [];
    assert MergeAll(s.rep.cells, [CALL]) == MergeOne(MergeAll(s.rep.cells, [CALL][..0]), CALL);
    assert CALL.key.kind != CabKey(1, 3).kind;
    assert CALL.key !in s.rep.cells;
    ObserveAllMax(s.rep.clock, [CALL]);
  }

  /** The call is the car's own: its peer is stuck. */
  lemma OwnCall(s: Ctl)
    requires IdentityInv(s) && s.cfg == LIFT && Informed(s) && s.car.floor == 1
    requires s.car.behavior == Moving || s.car.behavior == DoorOpen || s.car.behavior == Idle
    ensures Hall(s, 1, DOWN, Assignments(s))
  {
    HallMeans(s, 1, DOWN);
    SelfWins(s, CALL.key);
    assert Cost(s.car, CALL.key) <= 1 && Cost(NEWS.soft, CALL.key) == 10_004;
    forall t | t in Live(s.peers, s.car)
      ensures t == s.car || t == NEWS.soft
    {
    }
  }

  /** The door open for nothing, with the call still active. */
  ghost predicate OpenInVain(t: Ctl) {
    && Inv(t) && t.cfg == LIFT && Informed(t) && t.car.floor == 1
    && t.car.behavior == DoorOpen && t.doorDir == STOP && t.travelDir == UP && DueAt(t, SECOND + 3 * SECOND)
  }

  lemma PicksNothing(s: Ctl)
    requires IdentityInv(s) && s.cfg == LIFT && Informed(s) && s.car.floor == 1
    ensures PickDoorDir(Opened(s), Assignments(Opened(s)), UP) == STOP
  {
    var o := Opened(s);
    assert HallKey(1, UP) !in s.rep.cells;
    assert Cab(o, 3);
    assert CanServe(o, 3, Assignments(o));
  }

  lemma OpensInVain(s: Ctl)
    requires IdentityInv(s) && MotionInv(s) && s.cfg == LIFT && Informed(s) && s.car.floor == 1
    requires s.car.behavior == Moving && s.travelDir == UP
    ensures OpenInVain(Plan(s, SECOND))
  {
    OwnCall(s);
    PicksNothing(s);
    OpenParts(s, SECOND, UP);
    assert CabKey(1, 1) !in s.rep.cells;
    assert ClearFloor(Opened(s), STOP).rep == s.rep;
    PlanKeeps(s, SECOND);
  }

  lemma LosesPeer(t: Ctl)
    requires OpenInVain(t)
    ensures Starved(HandleTick(t, 3 * SECOND))
  {
    assert Expired(t.peers, SECOND, 3 * SECOND) == map[];
    TickKeeps(t, 3 * SECOND);
    LeftAlone(t);
    AloneStarved(HandleTick(t, 3 * SECOND));
  }

  lemma LeftAlone(t: Ctl)
    requires OpenInVain(t)
    ensures var u := HandleTick(t, 3 * SECOND);
            && u.peers == map[] && u.rep == t.rep && u.car == t.car && u.cfg == t.cfg
            && u.travelDir == t.travelDir && u.doorDir == t.doorDir
  {
    assert Expired(t.peers, SECOND, 3 * SECOND) == map[];
  }

  lemma AloneStarved(u: Ctl)
    requires Inv(u) && u.peers == map[] && u.cfg == LIFT && TwoCalls(u.rep.cells) && u.car.floor == 1
    requires u.car.behavior == DoorOpen && u.doorDir == STOP && u.travelDir == UP
    ensures Starved(u)
  {
    LoneCarServes(u, 1, DOWN);
    LoneCarServes(Opened(u), 1, UP);
    assert CabKey(1, 1) !in u.rep.cells && HallKey(1, UP) !in u.rep.cells;
    assert Cab(Opened(u), 3);
    assert CanServe(Opened(u), 3, Assignments(Opened(u)));
  }

  // ----- the run, event by event -----

  ghost predicate Reached(n: nat, t: Ctl) {
    exists tr, evs :: Run(tr, evs) && |evs| == n && tr[n] == t
  }

  lemma RunNext(tr: seq<Ctl>, evs: seq<Event>, ev: Event, t: Ctl)
    requires Run(tr, evs) && Next(tr[|evs|], ev, t)
    ensures Run(tr + [t], evs + [ev])
  {
    var more, moreEvs := tr + [t], evs + [ev];
    forall i | 0 <= i < |moreEvs|
      ensures Next(more[i], moreEvs[i], more[i + 1])
    {
      if i < |evs| {
        assert Next(tr[i], evs[i], tr[i + 1]);
      }
    }
  }

  lemma ReachNext(n: nat, s: Ctl, ev: Event, t: Ctl)
    requires Reached(n, s) && Next(s, ev, t)
    ensures Reached(n + 1, t)
  {
    var tr, evs :| Run(tr, evs) && |evs| == n && tr[n] == s;
    RunNext(tr, evs, ev, t);
    assert (tr + [t])[n + 1] == t;
  }

  lemma ReachReady() returns (t: Ctl)
    ensures Reached(1, t) && Inv(t) && t.ready && t.cfg == LIFT && t.peers == map[] && t.car.floor == 0
    ensures t.car.behavior == Idle && t.rep.cells == map[]
  {
    var s := Initial(LIFT, 0);
    InitialInv(LIFT, 0);
    assert Run([s], []) && [s][0] == s;
    t := s.(ready := true);
    ReachNext(0, s, EnableButtons, t);
  }

  lemma ReachDeparted() returns (t: Ctl)
    ensures Reached(2, t) && Rising(t, 0)
  {
    var s := ReachReady();
    Departs(s);
    t := HandleButton(s, 0, ButtonCab, 3);
    ReachNext(1, s, Press(0, ButtonCab, 3), t);
  }

  lemma ReachPassed() returns (t: Ctl)
    ensures Reached(3, t) && Rising(t, 1)
  {
    var s := ReachDeparted();
    Passes(s);
    t := HandleFloor(s, SECOND, 1);
    ReachNext(2, s, Event.Floor(SECOND, 1), t);
  }

  lemma ReachOpen() returns (t: Ctl)
    ensures Reached(4, t) && OpenInVain(t)
  {
    var s := ReachPassed();
    Learns(s);
    OpensInVain(s.(rep := Received(s.rep, [CALL]), peers := Observed(s.peers, NEWS.soft, SECOND)));
    t := ApplyRemote(s, SECOND, NEWS);
    ReachNext(3, s, Remote(SECOND, NEWS), t);
  }

  /** A state in which the car starves a call for ever (`StarvedForever`) is reached
      from the start in five events. */
  lemma StarvedIsReachable() returns (t: Ctl)
    ensures Reached(5, t) && Starved(t) && Active(t.rep.cells, HallKey(1, DOWN))
  {
    var s := ReachOpen();
    LosesPeer(s);
    t := HandleTick(s, 3 * SECOND);
    ReachNext(4, s, Tick(3 * SECOND), t);
  }

  // ----- a freed doorway that does not let the door close -----

  /** The doorway becomes free when the deadline has passed, and the door stays open:
      the car closes it and opens again for the call it does not clear. */
  lemma FreedInVain(t: Ctl, now: int)
    requires OpenInVain(t.(car := t.car.(obstruction := false))) && now >= 4 * SECOND
    ensures HandleObstruction(t, now, false).car.doorOpen
  {
    var free := t.(car := t.car.(obstruction := false));
    assert DoorDue(free, now) && NextDoorDir(free, Assignments(free)) == None;
    OwnCall(Closed(free));
    assert CanServe(Closed(free), 1, Assignments(Closed(free)));
  }

  /** A run after which a doorway freed past the deadline leaves the door open. */
  lemma FreedDoorStaysOpen() returns (s: Ctl, t: Ctl)
    ensures Reached(5, s) && s.car.doorOpen && s.car.obstruction && DueAt(s, 4 * SECOND)
    ensures Next(s, Obstruction(4 * SECOND, false), t) && Reached(6, t) && t.car.doorOpen
  {
    var open := ReachOpen();
    s := HandleObstruction(open, 2 * SECOND, true);
    ReachNext(4, open, Obstruction(2 * SECOND, true), s);
    BlockedInVain(open, 2 * SECOND);
    FreedInVain(s, 4 * SECOND);
    t := HandleObstruction(s, 4 * SECOND, false);
    ReachNext(5, s, Obstruction(4 * SECOND, false), t);
  }

  lemma BlockedInVain(t: Ctl, now: int)
    requires OpenInVain(t)
    ensures var s := HandleObstruction(t, now, true);
            && s.car.doorOpen && s.car.obstruction && DueAt(s, 4 * SECOND)
            && OpenInVain(s.(car := s.car.(obstruction := false)))
  {
    ObstructionKeeps(t, now, true);
  }
}
