/** What becomes of a lone car that is left alone: bounded progress, and exactly when it
    serves all its calls. */
module ControllerLiveness {
  import opened Text
  import opened Requests
  import opened Merge
  import opened Replicas
  import opened Peers
  import opened Assigner
  import opened ControllerModel
  import opened ControllerSafety
  import opened ControllerStops
  import opened ControllerEffects
  import opened LoneCar

  // ----- the events of a car left alone -----

  /** Its doorway is free, it is not stuck, and it moves only towards a call. */
  ghost predicate OnCourse(s: Ctl) {
    && Inv(s) && Alone(s) && !s.car.obstruction && s.car.behavior != Stuck
    && (s.car.behavior == Moving ==> s.car.direction != STOP && Beyond(s, s.car.floor, s.car.direction))
  }

  /** What brings it on: the sensor of the next floor while it moves, a tick past the
      deadline while its door is open, and any tick while it is idle. */
  predicate Proceeds(s: Ctl, ev: Event) {
    match s.car.behavior
    case Moving => ev.Floor? && ev.floor == s.car.floor + s.car.direction
    case DoorOpen => ev.Tick? && DoorDue(s, ev.now)
    case Idle => ev.Tick?
    case _ => false
  }

  /** A tick before the deadline, or one that finds the car under way in time. */
  predicate Early(s: Ctl, ev: Event) {
    && ev.Tick?
    && ((s.car.behavior == DoorOpen && !DoorDue(s, ev.now)) ||
        (s.car.behavior == Moving && ev.now - s.lastMove <= s.cfg.stuckTimeout))
  }

  lemma EarlyChangesNothing(s: Ctl, ev: Event)
    requires OnCourse(s) && Early(s, ev)
    ensures Step(s, ev) == s
  {
    assert s.(peers := Expired(s.peers, s.cfg.peerTimeout, ev.now)) == s;
    assert Sync(s) == s;
  }

  ghost predicate Rests(s: Ctl) {
    Starved(s) || (s.car.behavior == Idle && AllServed(s))
  }

  // ----- one step -----

  /** What a step makes of the car: it rests starved, or it is on its course and nearer to
      rest. */
  ghost predicate Goes(s: Ctl, t: Ctl) {
    && OnCourse(t) && t.cfg == s.cfg && (Doomed(t) <==> Doomed(s))
    && (Starved(t) || Calls(t) < Calls(s) || (Calls(t) == Calls(s) && Left(t) < Left(s)))
  }

  /** The car's calls in its shaft. */
  ghost function OwnCalls(s: Ctl): set<RequestKey> {
    set k | k in s.rep.cells && s.rep.cells[k].active && 0 <= k.floor < s.cfg.floors &&
            k in {CabKey(s.cfg.id, k.floor), HallKey(k.floor, UP), HallKey(k.floor, DOWN)}
  }

  ghost function Calls(s: Ctl): nat {
    |OwnCalls(s)|
  }

  /** How far it is from the next opening, at most. */
  function Left(s: Ctl): int {
    match s.car.behavior
    case Moving => if s.car.direction == UP then s.cfg.floors - 1 - s.car.floor else s.car.floor
    case Idle => s.cfg.floors
    case _ => s.cfg.floors + 1
  }

  lemma FewerCalls(s: Ctl, t: Ctl, key: RequestKey)
    requires s.cfg == t.cfg && key in OwnCalls(s) && !Active(t.rep.cells, key)
    requires forall k :: Active(t.rep.cells, k) ==> Active(s.rep.cells, k)
    ensures Calls(t) < Calls(s)
  {
    forall k | k in OwnCalls(t)
      ensures k in OwnCalls(s) - {key}
    {
      assert Active(t.rep.cells, k);
    }
    SmallerSet(OwnCalls(t), OwnCalls(s) - {key});
  }

  lemma {:induction false} SmallerSet(a: set<RequestKey>, b: set<RequestKey>)
    requires a <= b
    ensures |a| <= |b|
  {
    if a != {} {
      var x :| x in a;
      SmallerSet(a - {x}, b - {x});
    }
  }

  lemma SameCalls(s: Ctl, t: Ctl)
    requires s.cfg == t.cfg && s.rep.cells == t.rep.cells
    ensures Calls(s) == Calls(t)
  {
    assert OwnCalls(s) == OwnCalls(t);
  }

  /** An opening or extension that clears something leaves fewer calls. */
  lemma ClearingLowers(s: Ctl, t: Ctl, o: Ctl, dir: Direction)
    requires s.cfg == t.cfg && o.cfg == s.cfg && o.rep == s.rep && 0 <= o.car.floor < s.cfg.floors
    requires t.rep == ClearFloor(o, dir).rep && dir in {UP, STOP, DOWN}
    requires Cab(s, o.car.floor) || (dir != STOP && Lit(s, o.car.floor, dir))
    ensures Calls(t) < Calls(s)
  {
    forall k
      ensures Active(t.rep.cells, k) <==>
              Active(s.rep.cells, k) && k != CabKey(s.cfg.id, o.car.floor) &&
              !(dir != STOP && k == HallKey(o.car.floor, dir))
    {
      ClearFloorClears(o, dir, k);
    }
    FewerCalls(s, t, if Cab(s, o.car.floor) then CabKey(s.cfg.id, o.car.floor) else HallKey(o.car.floor, dir));
  }

  lemma PlanOpens(s: Ctl, now: int)
    requires Inv(s) && Alone(s) && !s.car.obstruction && s.car.behavior == Idle && Called(s, s.car.floor)
    ensures var t := Plan(s, now);
            OnCourse(t) && t.cfg == s.cfg && (Doomed(t) <==> Doomed(s)) && (Starved(t) || Calls(t) < Calls(s))
  {
    var floor, o, t := s.car.floor, Opened(s), Plan(s, now);
    Sees(s);
    PlanKeeps(s, now);
    OpeningKeepsDoom(s, now);
    if !Cab(s, floor) && FacesOn(s) {
      StarvedPlan(s, now);
    } else {
      var dir := PickDoorDir(o, Assignments(o), s.travelDir);
      assert t.rep == ClearFloor(o, dir).rep;
      PicksCall(s);
      ClearingLowers(s, t, o, dir);
    }
  }

  /** A car that does not face on past its floor opens for a call there. */
  lemma PicksCall(s: Ctl)
    requires Inv(s) && Alone(s) && s.car.behavior == Idle && Called(s, s.car.floor)
    requires Cab(s, s.car.floor) || !FacesOn(s)
    ensures var o := Opened(s);
            var dir := PickDoorDir(o, Assignments(o), s.travelDir);
            && dir in {UP, STOP, DOWN} && (Cab(s, s.car.floor) || (dir != STOP && Lit(s, s.car.floor, dir)))
  {
    var o := Opened(s);
    Sees(o);
    LoneFacesOn(s);
    SameBeyond(s, o, s.car.floor, UP);
    SameBeyond(s, o, s.car.floor, DOWN);
  }

  lemma PlanGoes(s: Ctl, now: int)
    requires Inv(s) && Alone(s) && !s.car.obstruction && s.car.behavior == Idle && !Called(s, s.car.floor)
    requires !AllServed(s)
    ensures var t := Plan(s, now);
            OnCourse(t) && t.cfg == s.cfg && (Doomed(t) <==> Doomed(s)) && Calls(t) == Calls(s) && Left(t) < Left(s)
  {
    var t, dir := Plan(s, now), NextDir(s, Assignments(s));
    Sees(s);
    HeadsFor(s);
    PlanKeeps(s, now);
    assert dir != STOP;
    DepartingKeepsDoom(s, now, dir);
    SameCalls(s, t);
    assert SameElsewhere(s, t, s.car.floor);
    SameBeyond(s, t, s.car.floor, dir);
  }

  lemma PlanRests(s: Ctl, now: int)
    requires Inv(s) && Alone(s) && s.car.behavior == Idle && AllServed(s)
    ensures Plan(s, now) == s
  {
    Sees(s);
    HeadsFor(s);
    assert Halted(s) == s;
  }

  // ----- a tick at an open door -----

  lemma TickActs(s: Ctl, now: int)
    requires OnCourse(s) && s.car.behavior != Moving && (s.car.behavior == DoorOpen ==> DoorDue(s, now))
    ensures HandleTick(s, now) == if s.car.behavior == DoorOpen then DoorStep(s, now) else Plan(s, now)
  {
    assert s.(peers := Expired(s.peers, s.cfg.peerTimeout, now)) == s;
  }

  lemma ExtensionGoes(s: Ctl, now: int)
    requires OnCourse(s) && s.car.behavior == DoorOpen && NextDoorDir(s, Assignments(s)).Some?
    ensures var t := DoorStep(s, now);
            OnCourse(t) && t.cfg == s.cfg && (Doomed(t) <==> Doomed(s)) && Calls(t) < Calls(s)
  {
    var t, dir := DoorStep(s, now), NextDoorDir(s, Assignments(s)).value;
    Sees(s);
    assert t.rep == ClearFloor(s, dir).rep;
    ClearFloorLeaves(s, t, dir);
    ClearingLowers(s, t, s, dir);
    StandingSame(s, t);
  }

  lemma DoorGoes(s: Ctl, now: int)
    requires OnCourse(s) && s.car.behavior == DoorOpen && DoorDue(s, now)
    ensures Goes(s, DoorStep(s, now))
  {
    if NextDoorDir(s, Assignments(s)).Some? {
      ExtensionGoes(s, now);
    } else {
      var c := Closed(s);
      assert Inv(c) && Alone(c);
      SameCalls(s, c);
      StandingSame(s, c);
      if AllServed(c) {
        PlanRests(c, now);
      } else if Called(c, c.car.floor) {
        PlanOpens(c, now);
      } else {
        PlanGoes(c, now);
      }
    }
  }

  lemma IdleGoes(s: Ctl, now: int)
    requires OnCourse(s) && s.car.behavior == Idle && !AllServed(s)
    ensures Goes(s, Plan(s, now))
  {
    if Called(s, s.car.floor) {
      PlanOpens(s, now);
    } else {
      PlanGoes(s, now);
    }
  }

  // ----- the sensor of the next floor -----

  lemma NextFloor(s: Ctl, floor: int, dir: Direction)
    requires dir in {UP, DOWN} && Beyond(s, s.car.floor, dir) && floor == s.car.floor + dir
    ensures 0 <= s.car.floor ==> floor >= 0
    ensures s.car.floor < s.cfg.floors ==> floor < s.cfg.floors
    ensures Called(s, floor) || Beyond(s, floor, dir)
  {
    var f :| 0 <= f < s.cfg.floors && DirTo(s.car.floor, f) == dir && Called(s, f);
    assert f == floor || DirTo(floor, f) == dir;
  }

  lemma StopsFor(s: Ctl, now: int, floor: int, dir: Direction)
    requires Alone(s) && InTransit(s) && s.car.direction == dir && dir in {UP, DOWN} && 0 <= floor < s.cfg.floors
    ensures StopsAt(s, now, floor) <==>
            Cab(s, floor) || Lit(s, floor, dir) || (!Beyond(s, floor, dir) && Lit(s, floor, -dir))
  {
    var arrived := Arrived(s, now, floor);
    Sees(arrived);
    assert SameElsewhere(s, arrived, floor);
    SameBeyond(s, arrived, floor, dir);
  }

  lemma PassingGoes(s: Ctl, now: int)
    requires OnCourse(s) && s.car.behavior == Moving && !StopsAt(s, now, s.car.floor + s.car.direction)
    ensures Goes(s, HandleFloor(s, now, s.car.floor + s.car.direction))
  {
    var dir := s.car.direction;
    var floor := s.car.floor + dir;
    var t := HandleFloor(s, now, floor);
    NextFloor(s, floor, dir);
    StopsFor(s, now, floor, dir);
    FloorKeeps(s, now, floor);
    assert t == Sync(Arrived(s, now, floor));
    SameCalls(s, t);
    assert SameElsewhere(s, t, floor);
    SameBeyond(s, t, floor, dir);
    PassingKeepsDoom(s, t, floor, dir);
  }

  /** Nothing blocks at a floor that is passed. */
  lemma PassingKeepsDoom(s: Ctl, t: Ctl, floor: int, dir: Direction)
    requires dir in {UP, DOWN} && s.cfg == t.cfg && s.rep.cells == t.rep.cells && floor == s.car.floor + dir
    requires s.car.behavior == Moving && t.car.behavior == Moving && s.car.direction == dir && t.car.direction == dir
    requires t.car.floor == floor && !Cab(s, floor) && !Lit(s, floor, dir)
    ensures Doomed(s) <==> Doomed(t)
  {
    forall g, d
      ensures Blocks(s, g, d) <==> Blocks(t, g, d)
    {
      SameBlocksAll(s, t, g, d);
    }
    if BlockedAhead(s, s.car.floor, dir) {
      var g :| 0 <= g < s.cfg.floors && DirTo(s.car.floor, g) == dir && Blocks(s, g, dir);
      assert DirTo(floor, g) == dir && Blocks(t, g, dir);
    }
    if BlockedAhead(t, floor, dir) {
      var g :| 0 <= g < s.cfg.floors && DirTo(floor, g) == dir && Blocks(t, g, dir);
      assert DirTo(s.car.floor, g) == dir && Blocks(s, g, dir);
    }
    if BlockedOnReturn(s, s.car.floor, dir) {
      var g :| 0 <= g < s.cfg.floors && DirTo(s.car.floor, g) != dir && Blocks(s, g, -dir);
      assert DirTo(floor, g) != dir && Blocks(t, g, -dir);
    }
    if BlockedOnReturn(t, floor, dir) {
      var g :| 0 <= g < s.cfg.floors && DirTo(floor, g) != dir && Blocks(t, g, -dir);
      assert g != floor;
      assert DirTo(s.car.floor, g) != dir && Blocks(s, g, -dir);
    }
  }

  lemma SameBlocksAll(s: Ctl, t: Ctl, g: int, dir: Direction)
    requires s.cfg == t.cfg && s.rep.cells == t.rep.cells
    ensures Blocks(s, g, dir) <==> Blocks(t, g, dir)
  {
    if Beyond(s, g, dir) {
      var f :| 0 <= f < s.cfg.floors && DirTo(g, f) == dir && Called(s, f);
      assert Called(t, f);
    }
    if Beyond(t, g, dir) {
      var f :| 0 <= f < s.cfg.floors && DirTo(g, f) == dir && Called(t, f);
      assert Called(s, f);
    }
  }

  /** What blocks ahead blocks at the next floor or further ahead, and what blocks on the
      return is what blocks behind the next floor. */
  lemma AheadSplits(s: Ctl, before: int, floor: int, dir: Direction)
    requires dir in {UP, DOWN} && floor == before + dir && 0 <= floor < s.cfg.floors
    ensures BlockedAhead(s, before, dir) <==> Blocks(s, floor, dir) || BlockedAhead(s, floor, dir)
    ensures BlockedOnReturn(s, before, dir) <==> BlockedAhead(s, floor, -dir)
  {
    if BlockedAhead(s, before, dir) {
      var g :| 0 <= g < s.cfg.floors && DirTo(before, g) == dir && Blocks(s, g, dir);
      assert g == floor || DirTo(floor, g) == dir;
    }
    if BlockedAhead(s, floor, dir) {
      var g :| 0 <= g < s.cfg.floors && DirTo(floor, g) == dir && Blocks(s, g, dir);
      assert DirTo(before, g) == dir;
    }
    if Blocks(s, floor, dir) {
      assert DirTo(before, floor) == dir;
    }
    if BlockedOnReturn(s, before, dir) {
      var g :| 0 <= g < s.cfg.floors && DirTo(before, g) != dir && Blocks(s, g, -dir);
      assert DirTo(floor, g) == -dir;
    }
    if BlockedAhead(s, floor, -dir) {
      var g :| 0 <= g < s.cfg.floors && DirTo(floor, g) == -dir && Blocks(s, g, -dir);
      assert DirTo(before, g) != dir;
    }
  }

  lemma StoppingKeepsDoom(s: Ctl, t: Ctl, floor: int, dir: Direction, pick: Direction)
    requires dir in {UP, DOWN} && floor == s.car.floor + dir && s.car.behavior == Moving && s.car.direction == dir
    requires Alone(t) && t.car.behavior == DoorOpen && t.car.floor == floor && t.travelDir == dir
    requires ClearedAt(s, t, floor, pick)
    requires pick == -dir ==> !Beyond(s, floor, dir)
    requires Cab(s, floor) || Lit(s, floor, dir) || !Beyond(s, floor, dir)
    ensures Doomed(t) <==> Doomed(s)
  {
    AheadSplits(s, s.car.floor, floor, dir);
    HeadsFor(t);
    SameBeyond(s, t, floor, dir);
    SameBeyond(s, t, floor, -dir);
    SameBlockedAhead(s, t, floor, dir);
    SameBlockedAhead(s, t, floor, -dir);
    if !Beyond(s, floor, dir) {
      NothingBlocksAhead(s, floor, dir);
    }
    if !Beyond(s, floor, -dir) {
      NothingBlocksAhead(s, floor, -dir);
    }
  }

  /** The stop picks a call to announce, or has a cab call to clear. */
  lemma StopPicks(s: Ctl, now: int, floor: int, dir: Direction)
    requires OnCourse(s) && s.car.behavior == Moving && s.car.direction == dir && floor == s.car.floor + dir
    requires dir in {UP, DOWN} && 0 <= floor < s.cfg.floors && StopsAt(s, now, floor)
    ensures var o := Opened(Arrived(s, now, floor));
            var pick := PickDoorDir(o, Assignments(o), dir);
            && pick in {UP, STOP, DOWN} && (pick == -dir ==> !Beyond(s, floor, dir))
            && (Cab(s, floor) || (pick != STOP && Lit(s, floor, pick)))
    ensures Cab(s, floor) || Lit(s, floor, dir) || !Beyond(s, floor, dir)
  {
    var o := Opened(Arrived(s, now, floor));
    StopsFor(s, now, floor, dir);
    LonePick(o, dir);
    assert SameElsewhere(s, o, floor);
    SameBeyond(s, o, floor, dir);
  }

  lemma StopLeaves(s: Ctl, now: int, floor: int, dir: Direction, pick: Direction)
    requires Inv(s) && 0 <= floor < s.cfg.floors && StopsAt(s, now, floor) && dir == s.car.direction
    requires var o := Opened(Arrived(s, now, floor)); pick == PickDoorDir(o, Assignments(o), dir)
    ensures var o, t := Opened(Arrived(s, now, floor)), HandleFloor(s, now, floor);
            && t.rep == ClearFloor(o, pick).rep && ClearedAt(s, t, floor, pick)
            && t.car == o.car && t.travelDir == s.travelDir && t.peers == s.peers && t.cfg == s.cfg && Inv(t)
  {
    var o, t := Opened(Arrived(s, now, floor)), HandleFloor(s, now, floor);
    assert t == Open(Arrived(s, now, floor), now, dir);
    FloorKeeps(s, now, floor);
    ClearFloorLeaves(o, t, pick);
  }

  lemma StoppedGoes(s: Ctl, t: Ctl, o: Ctl, floor: int, dir: Direction, pick: Direction)
    requires OnCourse(s) && s.car.behavior == Moving && s.car.direction == dir && floor == s.car.floor + dir
    requires dir in {UP, DOWN} && 0 <= floor < s.cfg.floors && pick in {UP, STOP, DOWN}
    requires o.cfg == s.cfg && o.rep == s.rep && o.car.floor == floor && o.car.behavior == DoorOpen
    requires t.rep == ClearFloor(o, pick).rep && ClearedAt(s, t, floor, pick) && Inv(t) && !t.car.obstruction
    requires t.car == o.car && t.travelDir == s.travelDir && t.peers == s.peers && t.cfg == s.cfg
    requires pick == -dir ==> !Beyond(s, floor, dir)
    requires Cab(s, floor) || (pick != STOP && Lit(s, floor, pick))
    requires Cab(s, floor) || Lit(s, floor, dir) || !Beyond(s, floor, dir)
    ensures Goes(s, t)
  {
    ClearingLowers(s, t, o, pick);
    StoppingKeepsDoom(s, t, floor, dir, pick);
  }

  lemma StopGoes(s: Ctl, now: int, floor: int, dir: Direction)
    requires OnCourse(s) && s.car.behavior == Moving && s.car.direction == dir && floor == s.car.floor + dir
    requires dir in {UP, DOWN} && 0 <= floor < s.cfg.floors && StopsAt(s, now, floor)
    ensures Goes(s, HandleFloor(s, now, floor))
  {
    var t, o := HandleFloor(s, now, floor), Opened(Arrived(s, now, floor));
    var pick := PickDoorDir(o, Assignments(o), dir);
    StopPicks(s, now, floor, dir);
    StopLeaves(s, now, floor, dir, pick);
    StoppedGoes(s, t, o, floor, dir, pick);
  }

  lemma StoppingGoes(s: Ctl, now: int)
    requires OnCourse(s) && s.car.behavior == Moving && StopsAt(s, now, s.car.floor + s.car.direction)
    ensures Goes(s, HandleFloor(s, now, s.car.floor + s.car.direction))
  {
    NextFloor(s, s.car.floor + s.car.direction, s.car.direction);
    StopGoes(s, now, s.car.floor + s.car.direction, s.car.direction);
  }

  // ----- left alone -----

  /** Every event of a car on its course either changes nothing or brings it on: nearer to
      rest, and no nearer to or farther from being held up. */
  lemma Proceeding(s: Ctl, ev: Event)
    requires OnCourse(s) && !Rests(s) && Proceeds(s, ev)
    ensures Goes(s, Step(s, ev))
  {
    match s.car.behavior
    case Moving =>
      if StopsAt(s, ev.now, ev.floor) {
        StoppingGoes(s, ev.now);
      } else {
        PassingGoes(s, ev.now);
      }
    case DoorOpen =>
      TickActs(s, ev.now);
      DoorGoes(s, ev.now);
    case Idle =>
      TickActs(s, ev.now);
      IdleGoes(s, ev.now);
    case _ =>
  }

  /** There is always such an event, until the car rests. */
  lemma CanProceed(s: Ctl) returns (ev: Event)
    requires OnCourse(s)
    ensures Proceeds(s, ev) && (ev.Floor? ==> 0 <= ev.floor < s.cfg.floors)
  {
    match s.car.behavior
    case Moving =>
      NextFloor(s, s.car.floor + s.car.direction, s.car.direction);
      ev := Event.Floor(0, s.car.floor + s.car.direction);
    case DoorOpen => ev := Tick(s.doorDeadline.value);
    case Idle => ev := Tick(0);
    case _ => ev := Tick(0);
  }

  // ----- where a car comes to be alone, and on its course -----

  lemma DepartureSetsCourse(s: Ctl, now: int, dir: Direction)
    requires Alone(s) && !s.car.obstruction && dir == NextDir(s, Assignments(s)) != STOP
    requires Inv(Departed(s, now, dir))
    ensures OnCourse(Departed(s, now, dir))
  {
    var t := Departed(s, now, dir);
    HeadsFor(s);
    assert SameElsewhere(s, t, s.car.floor);
    SameBeyond(s, t, s.car.floor, dir);
  }

  /** Planning puts a lone car on its course, whatever it was doing. */
  lemma PlanSetsCourse(s: Ctl, now: int)
    requires MotionInv(s) && Alone(s) && !s.car.obstruction && s.car.behavior != Stuck
    ensures OnCourse(Plan(s, now)) && Plan(s, now).cfg == s.cfg
  {
    var a := Assignments(s);
    PlanKeeps(s, now);
    if s.car.behavior != DoorOpen && !CanServe(s, s.car.floor, a) && NextDir(s, a) != STOP {
      DepartureSetsCourse(s, now, NextDir(s, a));
    }
  }

  /** When its last peer times out, a car that is not stuck is on its course. */
  lemma LastPeerGone(s: Ctl, now: int)
    requires Inv(s) && 0 <= s.car.floor < s.cfg.floors && !s.car.obstruction && s.car.behavior != Stuck
    requires s.peers != map[] && Expired(s.peers, s.cfg.peerTimeout, now) == map[]
    ensures OnCourse(HandleTick(s, now))
  {
    var t := s.(peers := map[]);
    if s.car.behavior != DoorOpen {
      PlanSetsCourse(t, now);
    } else if DoorDue(t, now) && NextDoorDir(t, Assignments(t)).None? {
      PlanSetsCourse(Closed(t), now);
    } else {
      TickKeeps(s, now);
    }
  }

  lemma StartsOnCourse(raw: Config, now: int)
    requires 0 <= raw.startFloor < WithDefaults(raw).floors
    ensures OnCourse(Initial(raw, now))
  {
  }

  /** From then on it stays on its course through ticks in time, the sensors of the floors
      it comes to, and any presses. */
  lemma StaysOnCourse(s: Ctl, ev: Event)
    requires OnCourse(s) && (Proceeds(s, ev) || Early(s, ev) || ev.Press? || ev.EnableButtons?)
    ensures OnCourse(Step(s, ev)) && Step(s, ev).cfg == s.cfg
  {
    if ev.Press? {
      PlanSetsCourse(s.(rep := SetCell(s.rep, PressedKey(s, ev.button, ev.floor), true)), ev.now);
    } else if ev.EnableButtons? {
      SameBeyond(s, Step(s, ev), s.car.floor, UP);
      SameBeyond(s, Step(s, ev), s.car.floor, DOWN);
    } else if Early(s, ev) {
      EarlyChangesNothing(s, ev);
    } else if Rests(s) {
      RestStays(s, ev);
    } else {
      Proceeding(s, ev);
    }
  }

  lemma RestStays(s: Ctl, ev: Event)
    requires OnCourse(s) && Rests(s) && (Proceeds(s, ev) || Early(s, ev))
    ensures var t := Step(s, ev); OnCourse(t) && t.cfg == s.cfg && Rests(t) && (Starved(t) <==> Starved(s))
  {
    if Early(s, ev) {
      EarlyChangesNothing(s, ev);
    } else if Starved(s) {
      UnservingStep(s, ev);
      StepKeeps(s, ev);
      TickActs(s, ev.now);
      DoorStepDeadline(s, ev.now);
      PlanDeadline(s, ev.now);
    } else {
      TickActs(s, ev.now);
      PlanRests(s, ev.now);
    }
  }

  // ----- runs of a car left alone -----

  ghost predicate NextAlone(tr: seq<Ctl>, evs: seq<Event>, j: nat)
    requires j < |evs| < |tr|
  {
    Next(tr[j], evs[j], tr[j + 1]) && (Proceeds(tr[j], evs[j]) || Early(tr[j], evs[j]))
  }

  /** A car on its course, through events that bring it on and early ticks. */
  ghost predicate LeftAlone(tr: seq<Ctl>, evs: seq<Event>) {
    |tr| == |evs| + 1 && OnCourse(tr[0]) && forall j: nat :: j < |evs| ==> NextAlone(tr, evs, j)
  }

  /** How many of the first `i` events bring it on. */
  ghost function Progress(tr: seq<Ctl>, evs: seq<Event>, i: nat): nat
    requires i <= |evs| < |tr|
  {
    if i == 0 then 0 else Progress(tr, evs, i - 1) + if Proceeds(tr[i - 1], evs[i - 1]) then 1 else 0
  }

  ghost function Potential(s: Ctl): int {
    Calls(s) * (s.cfg.floors + 2) + Left(s)
  }

  lemma LeftRange(s: Ctl)
    requires OnCourse(s)
    ensures 0 <= Left(s) <= s.cfg.floors + 1
  {
  }

  lemma GoingLowers(s: Ctl, t: Ctl)
    requires OnCourse(s) && Goes(s, t) && !Starved(t)
    ensures Potential(t) < Potential(s)
  {
    LeftRange(s);
    LeftRange(t);
    if Calls(t) < Calls(s) {
      Scaled(Calls(t), Calls(s), s.cfg.floors + 2);
    }
  }

  lemma Scaled(a: int, b: int, n: int)
    requires a < b && n >= 0
    ensures a * n + n <= b * n
  {
    assert (a + 1) * n <= b * n;
  }

  /** So far on the way, or at rest. */
  ghost predicate OnTheWay(s: Ctl, t: Ctl, progress: int) {
    && OnCourse(t) && t.cfg == s.cfg
    && (if Rests(t) then Starved(t) <==> Doomed(s)
        else (Doomed(t) <==> Doomed(s)) && Potential(t) + progress <= Potential(s))
  }

  lemma RestIsDoom(t: Ctl)
    requires OnCourse(t) && Rests(t)
    ensures Starved(t) <==> Doomed(t)
  {
    if Starved(t) {
      StarvedIsDoomed(t);
    } else {
      ServedIsNotDoomed(t);
    }
  }

  lemma OnTheWayNext(s: Ctl, t: Ctl, ev: Event, progress: int)
    requires OnTheWay(s, t, progress) && (Proceeds(t, ev) || Early(t, ev))
    ensures OnTheWay(s, Step(t, ev), progress + if Proceeds(t, ev) then 1 else 0)
  {
    var u := Step(t, ev);
    if Rests(t) {
      RestStays(t, ev);
    } else if Proceeds(t, ev) {
      Proceeding(t, ev);
      if Rests(u) {
        RestIsDoom(u);
      } else {
        GoingLowers(t, u);
      }
    } else {
      EarlyChangesNothing(t, ev);
    }
  }

  lemma {:induction false} OnTheWayAt(tr: seq<Ctl>, evs: seq<Event>, i: nat)
    requires LeftAlone(tr, evs) && i <= |evs|
    ensures OnTheWay(tr[0], tr[i], Progress(tr, evs, i))
  {
    if i == 0 {
      if Rests(tr[0]) {
        RestIsDoom(tr[0]);
      }
    } else {
      OnTheWayAt(tr, evs, i - 1);
      assert NextAlone(tr, evs, i - 1);
      OnTheWayNext(tr[0], tr[i - 1], evs[i - 1], Progress(tr, evs, i - 1));
    }
  }

  lemma PotentialRange(s: Ctl)
    requires OnCourse(s)
    ensures 0 <= Potential(s) < (Calls(s) + 1) * (s.cfg.floors + 2)
  {
    LeftRange(s);
    Scaled(Calls(s), Calls(s) + 1, s.cfg.floors + 2);
    assert Calls(s) * (s.cfg.floors + 2) >= 0;
  }

  lemma RestsOneWay(t: Ctl)
    requires OnCourse(t) && Rests(t)
    ensures t.car.behavior == Idle && AllServed(t) <==> !Starved(t)
  {
    if Starved(t) {
      Sees(t);
    }
  }

  lemma EnoughProgress(s: Ctl, t: Ctl, progress: int)
    requires OnCourse(s) && OnTheWay(s, t, progress) && progress >= (Calls(s) + 1) * (s.cfg.floors + 2)
    ensures OnCourse(t) && Rests(t) && (Starved(t) <==> Doomed(s))
  {
    PotentialRange(s);
    PotentialRange(t);
  }

  /** After enough progress. */
  ghost predicate EndsAsDoomed(s: Ctl, t: Ctl) {
    && (t.car.behavior == Idle && AllServed(t) <==> !Doomed(s))
    && (Starved(t) <==> Doomed(s))
  }

  lemma EnoughIsEnd(s: Ctl, t: Ctl, progress: int)
    requires OnCourse(s) && OnTheWay(s, t, progress) && progress >= (Calls(s) + 1) * (s.cfg.floors + 2)
    ensures EndsAsDoomed(s, t)
  {
    EnoughProgress(s, t, progress);
    RestsOneWay(t);
  }

  /** A lone car that is left alone comes to rest within (calls + 1)(floors + 2) sensors
      and ticks that bring it on: idle with all its calls served exactly if it was not
      doomed, and otherwise starved, for ever. */
  lemma ServesAllExactly(tr: seq<Ctl>, evs: seq<Event>, i: nat)
    requires LeftAlone(tr, evs) && i <= |evs|
    requires Progress(tr, evs, i) >= (Calls(tr[0]) + 1) * (tr[0].cfg.floors + 2)
    ensures EndsAsDoomed(tr[0], tr[i])
  {
    OnTheWayAt(tr, evs, i);
    EnoughIsEnd(tr[0], tr[i], Progress(tr, evs, i));
  }
}
