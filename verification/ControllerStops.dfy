/** Why a stop the controller decides on clears a call although deciding changes
    the soft state the decision rests on, and when an opening clears nothing. */
module ControllerStops {
  import opened Text
  import opened Requests
  import opened Replicas
  import opened Peers
  import opened Assigner
  import opened ControllerModel
  import opened ControllerSafety

  // ----- the assignment before and after the door opens -----

  lemma LiveParts(s: Ctl, t: SoftState)
    requires IdentityInv(s) && t in Live(s.peers, s.car) && t != s.car
    ensures t.id != s.cfg.id && forall car :: t in Live(s.peers, car)
  {
  }

  lemma HallMeans(s: Ctl, floor: int, dir: Direction)
    ensures Hall(s, floor, dir, Assignments(s)) <==>
            Active(s.rep.cells, HallKey(floor, dir)) && Winner(Live(s.peers, s.car), HallKey(floor, dir)) == s.cfg.id
  {
  }

  /** The own car wins exactly when no peer is as good. */
  lemma SelfWins(s: Ctl, key: RequestKey)
    requires IdentityInv(s)
    ensures Winner(Live(s.peers, s.car), key) == s.cfg.id <==> Best(Live(s.peers, s.car), key, s.car)
  {
    var states := Live(s.peers, s.car);
    var w := WinnerState(states, key);
    assert w in states;
    if w != s.car {
      LiveParts(s, w);
    }
    if Best(states, key, s.car) {
      WinnerIs(states, key, s.car);
    }
  }

  /** A call at the car's floor that was its own stays its own when the door opens. */
  lemma KeepsCallHere(s: Ctl, key: RequestKey)
    requires IdentityInv(s) && key.floor == s.car.floor && s.car.behavior != DoorOpen
    requires Winner(Live(s.peers, s.car), key) == s.cfg.id
    ensures Winner(Live(s.peers, Opened(s).car), key) == s.cfg.id
  {
    SelfWins(s, key);
    var o := Opened(s);
    var states := Live(o.peers, o.car);
    assert Cost(o.car, key) == -1 && Cost(s.car, key) >= 0;
    forall t | t in states
      ensures NoWorse(o.car, t, key)
    {
      if t != o.car {
        LiveParts(o, t);
        assert t in Live(s.peers, s.car);
      }
    }
    assert o.car in states;
    assert Best(states, key, o.car);
    SelfWins(o, key);
  }

  /** A call ahead of a moving car does not become its own when the door opens. */
  lemma GainsNoCallAhead(s: Ctl, key: RequestKey)
    requires IdentityInv(s) && s.car.behavior == Moving
    requires DirTo(s.car.floor, key.floor) == s.car.direction != STOP
    requires Winner(Live(s.peers, Opened(s).car), key) == s.cfg.id
    ensures Winner(Live(s.peers, s.car), key) == s.cfg.id
  {
    var o := Opened(s);
    SelfWins(o, key);
    var states := Live(s.peers, s.car);
    assert Cost(s.car, key) < Cost(o.car, key);
    forall t | t in states
      ensures NoWorse(s.car, t, key)
    {
      if t != s.car {
        LiveParts(s, t);
        assert t in Live(o.peers, o.car);
        assert NoWorse(o.car, t, key);
      }
    }
    assert s.car in states;
    assert Best(states, key, s.car);
    SelfWins(s, key);
  }

  lemma HallStaysHere(s: Ctl, dir: Direction)
    requires IdentityInv(s) && s.car.behavior != DoorOpen
    requires Hall(s, s.car.floor, dir, Assignments(s))
    ensures Hall(Opened(s), s.car.floor, dir, Assignments(Opened(s)))
  {
    HallMeans(s, s.car.floor, dir);
    HallMeans(Opened(s), s.car.floor, dir);
    KeepsCallHere(s, HallKey(s.car.floor, dir));
  }

  lemma HallAheadWasThere(s: Ctl, floor: int, dir: Direction)
    requires IdentityInv(s) && s.car.behavior == Moving && DirTo(s.car.floor, floor) == s.car.direction != STOP
    requires Hall(Opened(s), floor, dir, Assignments(Opened(s)))
    ensures Hall(s, floor, dir, Assignments(s))
  {
    HallMeans(s, floor, dir);
    HallMeans(Opened(s), floor, dir);
    GainsNoCallAhead(s, HallKey(floor, dir));
  }

  lemma ServeAheadWasThere(s: Ctl, floor: int)
    requires IdentityInv(s) && s.car.behavior == Moving && DirTo(s.car.floor, floor) == s.car.direction != STOP
    requires CanServe(Opened(s), floor, Assignments(Opened(s)))
    ensures CanServe(s, floor, Assignments(s))
  {
    var a := Assignments(Opened(s));
    if Hall(Opened(s), floor, UP, a) {
      HallAheadWasThere(s, floor, UP);
    } else if Hall(Opened(s), floor, DOWN, a) {
      HallAheadWasThere(s, floor, DOWN);
    }
  }

  /** Nothing ahead of a moving car stays nothing ahead when its door opens. */
  lemma NothingAheadStays(s: Ctl)
    requires IdentityInv(s) && s.car.behavior == Moving
    ensures s.car.direction == UP && !AnyAbove(s, s.car.floor, Assignments(s)) ==>
              !AnyAbove(Opened(s), s.car.floor, Assignments(Opened(s)))
    ensures s.car.direction == DOWN && !AnyBelow(s, s.car.floor, Assignments(s)) ==>
              !AnyBelow(Opened(s), s.car.floor, Assignments(Opened(s)))
  {
    var o := Opened(s);
    var a := Assignments(o);
    if s.car.direction == UP && AnyAbove(o, s.car.floor, a) {
      var f :| s.car.floor < f < s.cfg.floors && CanServe(o, f, a);
      ServeAheadWasThere(s, f);
    }
    if s.car.direction == DOWN && AnyBelow(o, s.car.floor, a) {
      var f :| 0 <= f < s.car.floor && CanServe(o, f, a);
      ServeAheadWasThere(s, f);
    }
  }

  // ----- what an opening clears -----

  lemma ClearFloorClears(s: Ctl, dir: Direction, key: RequestKey)
    ensures Active(ClearFloor(s, dir).rep.cells, key) <==>
            Active(s.rep.cells, key) && key != CabKey(s.cfg.id, s.car.floor) &&
            !(dir != STOP && key == HallKey(s.car.floor, dir))
  {
    assert CAB != HALL;
  }

  ghost predicate ClearsSomething(before: Cells, after: Cells) {
    exists key :: Active(before, key) && !Active(after, key)
  }

  lemma OpenClears(s: Ctl, now: int, arrival: Direction)
    ensures var o := Opened(s);
            var dir := PickDoorDir(o, Assignments(o), arrival);
            && (Cab(s, s.car.floor) || dir != STOP <==> ClearsSomething(s.rep.cells, Open(s, now, arrival).rep.cells))
            && (dir != STOP ==> Active(s.rep.cells, HallKey(s.car.floor, dir)))
  {
    var o := Opened(s);
    var dir := PickDoorDir(o, Assignments(o), arrival);
    var after := Open(s, now, arrival).rep.cells;
    assert after == ClearFloor(o, dir).rep.cells;
    ClearFloorClears(o, dir, CabKey(s.cfg.id, s.car.floor));
    ClearFloorClears(o, dir, HallKey(s.car.floor, dir));
    if ClearsSomething(s.rep.cells, after) {
      var key :| Active(s.rep.cells, key) && !Active(after, key);
      ClearFloorClears(o, dir, key);
    }
  }

  /** With the decision taken, the pick after opening finds the call it was taken for. */
  lemma PickAfterStop(s: Ctl)
    requires IdentityInv(s) && InTransit(s) && s.car.direction in {UP, STOP, DOWN}
    requires s.car.direction != STOP ==> s.car.behavior == Moving
    requires ShouldStop(s, s.car.floor, s.car.direction, Assignments(s)) && !Cab(s, s.car.floor)
    ensures PickDoorDir(Opened(s), Assignments(Opened(s)), s.car.direction) != STOP
  {
    var a := Assignments(s);
    if Hall(s, s.car.floor, UP, a) {
      HallStaysHere(s, UP);
    }
    if Hall(s, s.car.floor, DOWN, a) {
      HallStaysHere(s, DOWN);
    }
    if s.car.behavior == Moving {
      NothingAheadStays(s);
    }
  }

  /** Every stop at a floor sensor clears an active call of that floor. */
  lemma StopClears(s: Ctl, now: int, floor: int)
    requires Inv(s) && StopsAt(s, now, floor)
    ensures HandleFloor(s, now, floor).car.behavior == DoorOpen
    ensures ClearsSomething(s.rep.cells, HandleFloor(s, now, floor).rep.cells)
  {
    var arrived := Arrived(s, now, floor);
    assert IdentityInv(arrived) && InTransit(arrived);
    if !Cab(arrived, floor) {
      PickAfterStop(arrived);
    }
    OpenClears(arrived, now, s.car.direction);
  }

  // ----- openings that are not stops -----

  /** The car faces on past its floor: the calls here are only against the way it
      is facing, and there is more to serve that way. */
  ghost predicate FacesOn(s: Ctl) {
    var o := Opened(s);
    var a := Assignments(o);
    || (s.travelDir == UP && !Hall(o, s.car.floor, UP, a) && AnyAbove(o, s.car.floor, a))
    || (s.travelDir == DOWN && !Hall(o, s.car.floor, DOWN, a) && AnyBelow(o, s.car.floor, a))
  }

  /** An opening by `plan` clears something exactly when there is a cab call here or
      the car does not face on past the floor. */
  lemma PlanOpeningClearsExactly(s: Ctl, now: int)
    requires Inv(s) && s.car.behavior != DoorOpen && s.car.behavior != Stuck
    requires CanServe(s, s.car.floor, Assignments(s))
    ensures Plan(s, now).car.behavior == DoorOpen
    ensures ClearsSomething(s.rep.cells, Plan(s, now).rep.cells) <==> Cab(s, s.car.floor) || !FacesOn(s)
  {
    var a := Assignments(s);
    if Hall(s, s.car.floor, UP, a) {
      HallStaysHere(s, UP);
    }
    if Hall(s, s.car.floor, DOWN, a) {
      HallStaysHere(s, DOWN);
    }
    OpenClears(s, now, s.travelDir);
  }

  // ----- calls that are never served -----

  /** The calls here, none of them a cab call, are against the way the car faces, and
      there is more to serve that way; a door that is open turns for none of them. */
  ghost predicate HeldUp(s: Ctl) {
    && !Cab(s, s.car.floor) && FacesOn(s)
    && (s.car.behavior == DoorOpen ==> NextDoorDir(s, Assignments(s)) == None)
  }

  /** A lone car that stands, held up, at a floor with calls. */
  ghost predicate Starved(s: Ctl) {
    && Inv(s) && s.peers == map[] && CanServe(s, s.car.floor, Assignments(s)) && HeldUp(s)
    && (s.car.behavior == Idle || s.car.behavior == DoorOpen)
  }

  lemma LoneCarServes(s: Ctl, floor: int, dir: Direction)
    requires IdentityInv(s) && s.peers == map[]
    ensures Hall(s, floor, dir, Assignments(s)) <==> Active(s.rep.cells, HallKey(floor, dir))
  {
    HallMeans(s, floor, dir);
    assert Live(s.peers, s.car) == {s.car};
    SelfWins(s, HallKey(floor, dir));
  }

  lemma LoneCarsAgree(s: Ctl, t: Ctl, floor: int)
    requires IdentityInv(s) && IdentityInv(t) && s.peers == t.peers == map[]
    requires s.cfg == t.cfg && s.rep.cells == t.rep.cells
    ensures CanServe(s, floor, Assignments(s)) <==> CanServe(t, floor, Assignments(t))
    ensures Hall(s, floor, UP, Assignments(s)) <==> Hall(t, floor, UP, Assignments(t))
    ensures Hall(s, floor, DOWN, Assignments(s)) <==> Hall(t, floor, DOWN, Assignments(t))
  {
    LoneCarServes(s, floor, UP);
    LoneCarServes(s, floor, DOWN);
    LoneCarServes(t, floor, UP);
    LoneCarServes(t, floor, DOWN);
  }

  lemma LoneCarsLook(s: Ctl, t: Ctl)
    requires IdentityInv(s) && IdentityInv(t) && s.peers == t.peers == map[] && s.cfg == t.cfg
    requires s.rep.cells == t.rep.cells && s.car.floor == t.car.floor
    ensures AnyAbove(s, s.car.floor, Assignments(s)) <==> AnyAbove(t, t.car.floor, Assignments(t))
    ensures AnyBelow(s, s.car.floor, Assignments(s)) <==> AnyBelow(t, t.car.floor, Assignments(t))
  {
    forall f
      ensures CanServe(s, f, Assignments(s)) <==> CanServe(t, f, Assignments(t))
    {
      LoneCarsAgree(s, t, f);
    }
  }

  /** What a lone car faces depends only on its table, its floor and its direction. */
  lemma LoneCarsFace(s: Ctl, t: Ctl)
    requires IdentityInv(s) && IdentityInv(t) && s.peers == t.peers == map[] && s.cfg == t.cfg
    requires s.rep.cells == t.rep.cells && s.car.floor == t.car.floor && s.travelDir == t.travelDir
    ensures FacesOn(s) <==> FacesOn(t)
  {
    LoneCarsLook(Opened(s), Opened(t));
    LoneCarsAgree(Opened(s), Opened(t), s.car.floor);
  }

  lemma LoneCarsTurn(s: Ctl, t: Ctl)
    requires IdentityInv(s) && IdentityInv(t) && s.peers == t.peers == map[] && s.cfg == t.cfg
    requires s.rep.cells == t.rep.cells && s.car.floor == t.car.floor && s.doorDir == t.doorDir
    ensures NextDoorDir(s, Assignments(s)) == NextDoorDir(t, Assignments(t))
  {
    LoneCarsLook(s, t);
    LoneCarsAgree(s, t, s.car.floor);
  }

  /** A lone car that clears nothing by waiting: it is under way, or has no calls at its
      floor, or is held up there. */
  ghost predicate Unserving(s: Ctl) {
    && Inv(s) && s.peers == map[]
    && (InTransit(s) || !CanServe(s, s.car.floor, Assignments(s)) || HeldUp(s))
  }

  ghost predicate StillUnserving(s: Ctl, t: Ctl) {
    Unserving(t) && t.rep == s.rep && t.car.floor == s.car.floor && (Starved(s) ==> Starved(t))
  }

  /** What does not matter to such a car. */
  lemma StaysUnserving(s: Ctl, t: Ctl)
    requires Unserving(s) && Inv(t) && t.peers == map[] && t.cfg == s.cfg && t.rep == s.rep
    requires t.car.floor == s.car.floor && t.travelDir == s.travelDir
    requires t.car.behavior == s.car.behavior && t.doorDir == s.doorDir
    ensures StillUnserving(s, t)
  {
    LoneCarsAgree(s, t, s.car.floor);
    LoneCarsFace(s, t);
    LoneCarsTurn(s, t);
  }

  lemma FacingOnPicksNothing(s: Ctl)
    requires FacesOn(s)
    ensures PickDoorDir(Opened(s), Assignments(Opened(s)), s.travelDir) == STOP
  {
  }

  /** A car that is held up opens its door and is held up. */
  lemma StarvedPlan(s: Ctl, now: int)
    requires Starved(s) && s.car.behavior == Idle
    ensures StillUnserving(s, Plan(s, now))
  {
    FacingOnPicksNothing(s);
    PlanKeeps(s, now);
    assert SetCell(s.rep, CabKey(s.cfg.id, s.car.floor), false) == s.rep;
    var t := Plan(s, now);
    LoneCarsAgree(s, t, s.car.floor);
    LoneCarsFace(s, t);
  }

  lemma UnservingPlan(s: Ctl, now: int)
    requires Unserving(s) && s.car.behavior == Idle
    ensures StillUnserving(s, Plan(s, now))
  {
    if CanServe(s, s.car.floor, Assignments(s)) {
      StarvedPlan(s, now);
    } else {
      PlanKeeps(s, now);
      LoneCarsAgree(s, Plan(s, now), s.car.floor);
    }
  }

  lemma UnservingTurnsForNone(s: Ctl, now: int)
    requires Unserving(s) && s.car.behavior == DoorOpen
    ensures DoorStep(s, now) == Plan(Closed(s), now)
  {
    assert NextDoorDir(s, Assignments(s)) == None;
  }

  lemma UnservingCloses(s: Ctl)
    requires Unserving(s) && s.car.behavior == DoorOpen
    ensures StillUnserving(s, Closed(s))
  {
    var c := Closed(s);
    LoneCarsAgree(s, c, s.car.floor);
    LoneCarsFace(s, c);
    assert Inv(c);
  }

  lemma UnservingDoor(s: Ctl, now: int)
    requires Unserving(s) && s.car.behavior == DoorOpen
    ensures StillUnserving(s, DoorStep(s, now))
  {
    UnservingTurnsForNone(s, now);
    UnservingCloses(s);
    UnservingPlan(Closed(s), now);
  }

  lemma UnservingObstruction(s: Ctl, now: int, on: bool)
    requires Unserving(s)
    ensures StillUnserving(s, HandleObstruction(s, now, on))
  {
    var told := s.(car := s.car.(obstruction := on));
    StaysUnserving(s, told);
    if !on && DoorDue(told, now) {
      UnservingDoor(told, now);
    } else {
      StaysUnserving(s, Sync(told));
    }
  }

  lemma UnservingTick(s: Ctl, now: int)
    requires Unserving(s)
    ensures StillUnserving(s, HandleTick(s, now))
  {
    assert s.(peers := Expired(s.peers, s.cfg.peerTimeout, now)) == s;
    if DoorDue(s, now) {
      UnservingDoor(s, now);
    } else if s.car.behavior == Idle {
      UnservingPlan(s, now);
    } else if s.car.behavior == DoorOpen {
      StaysUnserving(s, Sync(s));
    } else {
      TickKeeps(s, now);
    }
  }

  predicate Waits(ev: Event) {
    ev.Tick? || ev.Obstruction?
  }

  /** Time passes and the doorway is blocked and freed, and nothing else happens. */
  ghost predicate Waiting(tr: seq<Ctl>, evs: seq<Event>) {
    |tr| == |evs| + 1 && forall j :: 0 <= j < |evs| ==> Waits(evs[j]) && Next(tr[j], evs[j], tr[j + 1])
  }

  lemma UnservingStep(s: Ctl, ev: Event)
    requires Unserving(s) && Waits(ev)
    ensures StillUnserving(s, Step(s, ev))
  {
    match ev
    case Tick(now) => UnservingTick(s, now);
    case Obstruction(now, on) => UnservingObstruction(s, now, on);
  }

  lemma UnservingNext(tr: seq<Ctl>, evs: seq<Event>, i: nat)
    requires Waiting(tr, evs) && 0 < i <= |evs| && StillUnserving(tr[0], tr[i - 1])
    ensures StillUnserving(tr[0], tr[i])
  {
    UnservingStep(tr[i - 1], evs[i - 1]);
  }

  lemma {:induction false} UnservingForever(tr: seq<Ctl>, evs: seq<Event>, i: nat)
    requires Waiting(tr, evs) && Unserving(tr[0]) && 0 < i <= |evs|
    ensures StillUnserving(tr[0], tr[i])
  {
    if i > 1 {
      UnservingForever(tr, evs, i - 1);
    }
    UnservingNext(tr, evs, i);
  }

  /** A starved car opens and closes its door for ever: as long as only time passes it
      neither serves the calls nor leaves. */
  lemma StarvedForever(tr: seq<Ctl>, evs: seq<Event>, i: nat)
    requires Waiting(tr, evs) && Starved(tr[0]) && 0 < i <= |evs|
    ensures Starved(tr[i]) && tr[i].rep == tr[0].rep && tr[i].car.floor == tr[0].car.floor
  {
    UnservingForever(tr, evs, i);
  }

  /** However long one waits, none of the calls there are is cleared. */
  ghost predicate NeverClears(s: Ctl) {
    forall tr: seq<Ctl>, evs: seq<Event> ::
      Waiting(tr, evs) && tr[0] == s ==> !ClearsSomething(s.rep.cells, tr[|evs|].rep.cells)
  }

  /** The event at which a car that is not held up clears a call: a tick if it is idle,
      and the freeing of the doorway past the deadline if its door is open. */
  lemma NextClears(s: Ctl) returns (ev: Event)
    requires Inv(s) && s.peers == map[] && !Unserving(s)
    ensures Waits(ev) && ClearsSomething(s.rep.cells, Step(s, ev).rep.cells)
  {
    if s.car.behavior == Idle {
      ev := Tick(0);
      assert s.(peers := Expired(s.peers, s.cfg.peerTimeout, 0)) == s;
      PlanOpeningClearsExactly(s, 0);
    } else {
      var now := s.doorDeadline.value;
      ev := Obstruction(now, false);
      var free := s.(car := s.car.(obstruction := false));
      LoneCarsAgree(s, free, s.car.floor);
      LoneCarsFace(s, free);
      LoneCarsTurn(s, free);
      assert HandleObstruction(s, now, false) == DoorStep(free, now);
      DoorClears(free, now);
    }
  }

  lemma DoorClears(s: Ctl, now: int)
    requires Inv(s) && s.peers == map[] && s.car.behavior == DoorOpen && !Unserving(s)
    ensures ClearsSomething(s.rep.cells, DoorStep(s, now).rep.cells)
  {
    match NextDoorDir(s, Assignments(s))
    case Some(dir) =>
      ClearFloorClears(s, dir, HallKey(s.car.floor, dir));
      assert DoorStep(s, now).rep == ClearFloor(s, dir).rep;
    case None =>
      var c := Closed(s);
      LoneCarsAgree(s, c, s.car.floor);
      LoneCarsFace(s, c);
      PlanOpeningClearsExactly(c, now);
  }

  /** A lone car clears none of its calls by waiting, however long, exactly when it is
      under way, or has no call at its floor, or is held up there: none is a cab call, the
      car faces on past the floor, and an open door turns for none of them. */
  lemma StarvedExactly(s: Ctl)
    requires Inv(s) && s.peers == map[]
    ensures NeverClears(s) <==> InTransit(s) || !CanServe(s, s.car.floor, Assignments(s)) || HeldUp(s)
  {
    if Unserving(s) {
      forall tr: seq<Ctl>, evs: seq<Event> | Waiting(tr, evs) && tr[0] == s
        ensures !ClearsSomething(s.rep.cells, tr[|evs|].rep.cells)
      {
        if evs != [] {
          UnservingForever(tr, evs, |evs|);
        }
      }
    } else {
      var ev := NextClears(s);
      assert Waiting([s, Step(s, ev)], [ev]);
    }
  }
}
