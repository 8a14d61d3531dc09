/** How a lone car sees its calls, where it goes for them, and where it will be held up. */
module LoneCar {
  import opened Text
  import opened Requests
  import opened Merge
  import opened Replicas
  import opened Peers
  import opened Assigner
  import opened ControllerModel
  import opened ControllerSafety
  import opened ControllerStops
  import opened ControllerRouting

  // ----- what a lone car sees -----

  predicate Lit(s: Ctl, floor: int, dir: Direction) {
    Active(s.rep.cells, HallKey(floor, dir))
  }

  predicate Called(s: Ctl, floor: int) {
    Cab(s, floor) || Lit(s, floor, UP) || Lit(s, floor, DOWN)
  }

  predicate AllServed(s: Ctl) {
    forall f :: 0 <= f < s.cfg.floors ==> !Called(s, f)
  }

  /** There is a call in the shaft beyond the floor. */
  predicate Beyond(s: Ctl, floor: int, dir: Direction) {
    exists f :: 0 <= f < s.cfg.floors && DirTo(floor, f) == dir && Called(s, f)
  }

  ghost predicate Alone(s: Ctl) {
    IdentityInv(s) && s.peers == map[] && 0 <= s.car.floor < s.cfg.floors
  }

  lemma SeesAll(s: Ctl)
    requires Alone(s)
    ensures forall f :: CanServe(s, f, Assignments(s)) <==> Called(s, f)
    ensures forall f :: Hall(s, f, UP, Assignments(s)) <==> Lit(s, f, UP)
    ensures forall f :: Hall(s, f, DOWN, Assignments(s)) <==> Lit(s, f, DOWN)
  {
    forall f
      ensures Hall(s, f, UP, Assignments(s)) <==> Lit(s, f, UP)
      ensures Hall(s, f, DOWN, Assignments(s)) <==> Lit(s, f, DOWN)
    {
      LoneCarServes(s, f, UP);
      LoneCarServes(s, f, DOWN);
    }
  }

  /** All that the decisions look at. */
  lemma Sees(s: Ctl)
    requires Alone(s)
    ensures CanServe(s, s.car.floor, Assignments(s)) <==> Called(s, s.car.floor)
    ensures Hall(s, s.car.floor, UP, Assignments(s)) <==> Lit(s, s.car.floor, UP)
    ensures Hall(s, s.car.floor, DOWN, Assignments(s)) <==> Lit(s, s.car.floor, DOWN)
    ensures AnyAbove(s, s.car.floor, Assignments(s)) <==> Beyond(s, s.car.floor, UP)
    ensures AnyBelow(s, s.car.floor, Assignments(s)) <==> Beyond(s, s.car.floor, DOWN)
  {
    SeesAll(s);
    if AnyAbove(s, s.car.floor, Assignments(s)) {
      var f :| s.car.floor < f < s.cfg.floors && CanServe(s, f, Assignments(s));
      assert DirTo(s.car.floor, f) == UP && Called(s, f);
    }
    if AnyBelow(s, s.car.floor, Assignments(s)) {
      var f :| 0 <= f < s.car.floor && CanServe(s, f, Assignments(s));
      assert DirTo(s.car.floor, f) == DOWN && Called(s, f);
    }
  }

  // ----- which way it goes -----

  lemma HeadsFor(s: Ctl)
    requires Alone(s)
    ensures var x := NextDir(s, Assignments(s));
            && x in {UP, STOP, DOWN}
            && (x != STOP ==> Beyond(s, s.car.floor, x))
            && (x == STOP ==> !Beyond(s, s.car.floor, UP) && !Beyond(s, s.car.floor, DOWN))
            && (s.travelDir in {UP, DOWN} && Beyond(s, s.car.floor, s.travelDir) ==> x == s.travelDir)
  {
    var a := Assignments(s);
    SeesAll(s);
    NextDirServes(s, a);
    NextDirRange(s, a);
    Sees(s);
    var x := NextDir(s, a);
    if x != STOP {
      var f :| InReach(s, a, f) && DirTo(s.car.floor, f) == x;
      assert Called(s, f);
    } else {
      forall f | 0 <= f < s.cfg.floors && f != s.car.floor
        ensures !Called(s, f)
      {
        AllInReach(s, a, f);
      }
    }
  }

  /** The same calls at all floors but one. */
  ghost predicate SameElsewhere(s: Ctl, t: Ctl, floor: int) {
    && s.cfg == t.cfg
    && forall f :: f != floor ==>
         && (Cab(s, f) <==> Cab(t, f))
         && (Lit(s, f, UP) <==> Lit(t, f, UP))
         && (Lit(s, f, DOWN) <==> Lit(t, f, DOWN))
  }

  lemma SameBeyond(s: Ctl, t: Ctl, floor: int, dir: Direction)
    requires SameElsewhere(s, t, floor) && dir != STOP
    ensures Beyond(s, floor, dir) <==> Beyond(t, floor, dir)
  {
    if Beyond(s, floor, dir) {
      var f :| 0 <= f < s.cfg.floors && DirTo(floor, f) == dir && Called(s, f);
      assert Called(t, f);
    }
    if Beyond(t, floor, dir) {
      var f :| 0 <= f < s.cfg.floors && DirTo(floor, f) == dir && Called(t, f);
      assert Called(s, f);
    }
  }

  lemma {:induction false} SameSearch(s: Ctl, t: Ctl, upTo: int)
    requires Alone(s) && Alone(t) && s.car.floor == t.car.floor && SameElsewhere(s, t, s.car.floor)
    ensures Search(s, Assignments(s), upTo) == Search(t, Assignments(t), upTo)
  {
    if upTo > 0 {
      SameSearch(s, t, upTo - 1);
      SeesAll(s);
      SeesAll(t);
      if upTo - 1 != s.car.floor {
        assert Called(s, upTo - 1) <==> Called(t, upTo - 1);
      }
    }
  }

  /** Where it goes does not depend on the calls of its floor. */
  lemma SameHeading(s: Ctl, t: Ctl)
    requires Alone(s) && Alone(t) && s.car.floor == t.car.floor && s.travelDir == t.travelDir
    requires SameElsewhere(s, t, s.car.floor)
    ensures NextDir(s, Assignments(s)) == NextDir(t, Assignments(t))
  {
    SameSearch(s, t, s.cfg.floors);
    SameBeyond(s, t, s.car.floor, UP);
    SameBeyond(s, t, s.car.floor, DOWN);
    Sees(s);
    Sees(t);
  }

  // ----- where it will be held up -----

  /** A car that comes by in direction `dir` stops at the floor for a call, and is then
      held up by the call of the other direction. */
  predicate Blocks(s: Ctl, floor: int, dir: Direction) {
    (Cab(s, floor) || Lit(s, floor, dir)) && Lit(s, floor, -dir) && Beyond(s, floor, dir)
  }

  predicate BlockedAhead(s: Ctl, floor: int, dir: Direction) {
    exists g :: 0 <= g < s.cfg.floors && DirTo(floor, g) == dir && Blocks(s, g, dir)
  }

  /** On the way back, from where there is nothing ahead any more. */
  predicate BlockedOnReturn(s: Ctl, floor: int, dir: Direction) {
    exists g :: 0 <= g < s.cfg.floors && DirTo(floor, g) != dir && Blocks(s, g, -dir)
  }

  /** The car stands at a floor with a call against its direction and goes on being
      called in it, or it will come to stand so: on its way to the last call ahead or on
      its way back from there. */
  ghost predicate Doomed(s: Ctl) {
    var floor := s.car.floor;
    if s.car.behavior == Moving then
      BlockedAhead(s, floor, s.car.direction) || BlockedOnReturn(s, floor, s.car.direction)
    else
      var dir := NextDir(s, Assignments(s));
      || (s.travelDir != STOP && Lit(s, floor, -s.travelDir) && Beyond(s, floor, s.travelDir))
      || (dir != STOP && (BlockedAhead(s, floor, dir) || BlockedAhead(s, floor, -dir)))
  }

  lemma SameBlocks(s: Ctl, t: Ctl, floor: int, g: int, dir: Direction)
    requires SameElsewhere(s, t, floor) && DirTo(floor, g) == dir != STOP
    ensures Blocks(s, g, dir) <==> Blocks(t, g, dir)
  {
    if Beyond(s, g, dir) {
      var f :| 0 <= f < s.cfg.floors && DirTo(g, f) == dir && Called(s, f);
      assert Called(t, f);
    }
    if Beyond(t, g, dir) {
      var f :| 0 <= f < s.cfg.floors && DirTo(g, f) == dir && Called(t, f);
      assert Called(s, f);
    }
  }

  lemma SameBlockedAhead(s: Ctl, t: Ctl, floor: int, dir: Direction)
    requires SameElsewhere(s, t, floor) && dir != STOP
    ensures BlockedAhead(s, floor, dir) <==> BlockedAhead(t, floor, dir)
  {
    forall g | DirTo(floor, g) == dir
      ensures Blocks(s, g, dir) <==> Blocks(t, g, dir)
    {
      SameBlocks(s, t, floor, g, dir);
    }
  }

  lemma NothingBlocksAhead(s: Ctl, floor: int, dir: Direction)
    requires dir in {UP, DOWN} && !Beyond(s, floor, dir)
    ensures !BlockedAhead(s, floor, dir)
  {
    if g :| 0 <= g < s.cfg.floors && DirTo(floor, g) == dir && Blocks(s, g, dir) {
      assert Called(s, g);
    }
  }

  // ----- a door, and whether the car is doomed -----

  /** The calls of `t` are those of `s` but the cab call of the floor and its hall call
      `dir`. */
  ghost predicate ClearedAt(s: Ctl, t: Ctl, floor: int, dir: Direction) {
    && SameElsewhere(s, t, floor) && !Cab(t, floor)
    && forall e :: e in {UP, DOWN} ==> (Lit(t, floor, e) <==> Lit(s, floor, e) && e != dir)
  }

  lemma ClearFloorLeaves(o: Ctl, t: Ctl, dir: Direction)
    requires t.rep.cells == ClearFloor(o, dir).rep.cells && t.cfg == o.cfg
    ensures ClearedAt(o, t, o.car.floor, dir)
  {
    forall f
      ensures Cab(t, f) <==> Cab(o, f) && f != o.car.floor
    {
      ClearFloorClears(o, dir, CabKey(o.cfg.id, f));
    }
    forall f, e | e in {UP, DOWN}
      ensures Lit(t, f, e) <==> Lit(o, f, e) && !(f == o.car.floor && e == dir)
    {
      ClearFloorClears(o, dir, HallKey(f, e));
    }
  }

  /** Of the calls of its floor, only that against its direction matters to a car that
      stands, and only if there is more ahead. */
  lemma StandingSame(s: Ctl, t: Ctl)
    requires Alone(s) && Alone(t) && s.car.behavior != Moving && t.car.behavior != Moving
    requires s.car.floor == t.car.floor && s.travelDir == t.travelDir && s.travelDir in {UP, STOP, DOWN}
    requires SameElsewhere(s, t, s.car.floor)
    requires s.travelDir != STOP && Beyond(s, s.car.floor, s.travelDir) ==>
               (Lit(s, s.car.floor, -s.travelDir) <==> Lit(t, s.car.floor, -s.travelDir))
    ensures Doomed(s) <==> Doomed(t)
  {
    var floor, dir := s.car.floor, NextDir(s, Assignments(s));
    SameHeading(s, t);
    HeadsFor(s);
    if s.travelDir != STOP {
      SameBeyond(s, t, floor, s.travelDir);
    }
    if dir != STOP {
      SameBlockedAhead(s, t, floor, dir);
      SameBlockedAhead(s, t, floor, -dir);
    }
  }

  /** What a lone car faces on for. */
  predicate FacesCall(s: Ctl) {
    s.travelDir in {UP, DOWN} && !Lit(s, s.car.floor, s.travelDir) && Beyond(s, s.car.floor, s.travelDir)
  }

  lemma LoneFacesOn(s: Ctl)
    requires Alone(s)
    ensures FacesOn(s) <==> FacesCall(s)
  {
    var o := Opened(s);
    assert SameElsewhere(s, o, s.car.floor);
    Sees(o);
    SameBeyond(s, o, s.car.floor, UP);
    SameBeyond(s, o, s.car.floor, DOWN);
  }

  lemma StarvedFacesCall(s: Ctl)
    requires Starved(s) && Alone(s)
    ensures FacesCall(s) && s.car.behavior != Moving && Lit(s, s.car.floor, -s.travelDir)
  {
    var floor := s.car.floor;
    assert FacesOn(s) && !Cab(s, floor) && CanServe(s, floor, Assignments(s));
    LoneFacesOn(s);
    LoneCarServes(s, floor, UP);
    LoneCarServes(s, floor, DOWN);
  }

  lemma StarvedIsDoomed(s: Ctl)
    requires Starved(s) && Alone(s)
    ensures Doomed(s)
  {
    StarvedFacesCall(s);
  }

  lemma ServedIsNotDoomed(s: Ctl)
    requires Alone(s) && AllServed(s) && s.car.behavior != Moving && s.travelDir in {UP, STOP, DOWN}
    ensures !Doomed(s)
  {
    HeadsFor(s);
  }

  // ----- planning at a floor -----

  /** What an opening picks, in terms of the calls of a lone car. */
  lemma LonePick(o: Ctl, arrival: Direction)
    requires Alone(o) && arrival in {UP, DOWN}
    ensures PickDoorDir(o, Assignments(o), arrival) ==
            if Lit(o, o.car.floor, arrival) then arrival
            else if Lit(o, o.car.floor, -arrival) && !Beyond(o, o.car.floor, arrival) then -arrival
            else STOP
  {
    Sees(o);
  }

  lemma OpeningKeepsDoom(s: Ctl, now: int)
    requires Alone(s) && s.car.behavior == Idle && s.travelDir in {UP, STOP, DOWN}
    ensures var t := Open(s, now, s.travelDir); Alone(t) && (Doomed(t) <==> Doomed(s))
  {
    var o, t := Opened(s), Open(s, now, s.travelDir);
    var dir := PickDoorDir(o, Assignments(o), s.travelDir);
    assert t.rep.cells == ClearFloor(o, dir).rep.cells;
    ClearFloorLeaves(o, t, dir);
    if s.travelDir != STOP {
      LonePick(o, s.travelDir);
      SameBeyond(s, o, s.car.floor, s.travelDir);
    }
    StandingSame(s, t);
  }

  lemma DepartingKeepsDoom(s: Ctl, now: int, dir: Direction)
    requires Alone(s) && s.car.behavior == Idle && !Called(s, s.car.floor) && s.travelDir in {UP, STOP, DOWN}
    requires dir == NextDir(s, Assignments(s)) != STOP
    ensures Doomed(Departed(s, now, dir)) <==> Doomed(s)
  {
    var t, floor := Departed(s, now, dir), s.car.floor;
    HeadsFor(s);
    assert SameElsewhere(s, t, floor);
    SameBlockedAhead(s, t, floor, dir);
    SameBlockedAhead(s, t, floor, -dir);
    if BlockedOnReturn(t, floor, dir) {
      var g :| 0 <= g < t.cfg.floors && DirTo(floor, g) != dir && Blocks(t, g, -dir);
      assert Called(t, g);
      assert DirTo(floor, g) == -dir;
    }
    if BlockedAhead(t, floor, -dir) {
      var g :| 0 <= g < t.cfg.floors && DirTo(floor, g) == -dir && Blocks(t, g, -dir);
      assert DirTo(floor, g) != dir;
    }
  }

  /** Cab calls alone hold no car up. */
  lemma CabCallsNeverDoom(s: Ctl)
    requires s.travelDir in {UP, STOP, DOWN} && forall f :: !Lit(s, f, UP) && !Lit(s, f, DOWN)
    requires s.car.direction in {UP, STOP, DOWN} && (s.car.behavior == Moving ==> s.car.direction != STOP)
    requires Alone(s)
    ensures !Doomed(s)
  {
    HeadsFor(s);
    forall g, dir | dir in {UP, DOWN}
      ensures !Blocks(s, g, dir)
    {
      assert !Lit(s, g, UP) && !Lit(s, g, DOWN);
    }
  }
}
