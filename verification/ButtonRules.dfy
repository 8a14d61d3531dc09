/** What each button of a controller asks for, and which presses count. */
module ButtonRules {
  import opened Requests
  import opened Replicas
  import opened Peers
  import opened Assigner
  import opened ControllerModel
  import opened ControllerSafety
  import opened ControllerStops
  import opened ControllerEffects

  /** The car stands at the floor with its door open. */
  predicate OpensAt(t: Ctl, floor: int) {
    t.car.behavior == DoorOpen && t.car.doorOpen && t.out.motor == STOP && t.car.floor == floor
  }

  /** No other call than this becomes active. */
  ghost predicate ActivatesOnly(s: Ctl, t: Ctl, key: RequestKey) {
    forall k :: k != key && Active(t.rep.cells, k) ==> Active(s.rep.cells, k)
  }

  lemma OpenLeaves(s: Ctl, now: int, arrival: Direction, key: RequestKey)
    ensures var t := Open(s, now, arrival);
            && OpensAt(t, s.car.floor)
            && (Active(t.rep.cells, key) <==>
                Active(s.rep.cells, key) && key != CabKey(s.cfg.id, s.car.floor) &&
                !(t.doorDir != STOP && key == HallKey(s.car.floor, t.doorDir)))
  {
    var o := Opened(s);
    ClearFloorClears(o, PickDoorDir(o, Assignments(o), arrival), key);
  }

  /** Planning keeps an active call, or opens the door for it at its floor. */
  lemma PlanKeepsCall(s: Ctl, now: int, key: RequestKey)
    requires Active(s.rep.cells, key)
    ensures var t := Plan(s, now);
            || Active(t.rep.cells, key)
            || (OpensAt(t, key.floor) &&
                (key == CabKey(s.cfg.id, key.floor) || (t.doorDir != STOP && key == HallKey(key.floor, t.doorDir))))
    ensures forall k :: Active(Plan(s, now).rep.cells, k) ==> Active(s.rep.cells, k)
  {
    if s.car.behavior != DoorOpen && s.car.behavior != Stuck && CanServe(s, s.car.floor, Assignments(s)) {
      OpenLeaves(s, now, s.travelDir, key);
      forall k | Active(Open(s, now, s.travelDir).rep.cells, k)
        ensures Active(s.rep.cells, k)
      {
        OpenLeaves(s, now, s.travelDir, k);
      }
    }
  }

  /** A press of a hall-up button counts on a ready controller with a peer at every floor
      but the top: its up call, and no other, is active afterwards, or the car opens its
      door there for it at once. */
  lemma HallUpPressed(s: Ctl, now: int, floor: int)
    requires s.ready && s.peers != map[] && 0 <= floor < s.cfg.floors - 1
    ensures var t := HandleButton(s, now, ButtonHallUp, floor);
            && (Active(t.rep.cells, HallKey(floor, UP)) || (OpensAt(t, floor) && t.doorDir == UP))
            && ActivatesOnly(s, t, HallKey(floor, UP))
  {
    var pressed := s.(rep := SetCell(s.rep, HallKey(floor, UP), true));
    assert HandleButton(s, now, ButtonHallUp, floor) == Plan(pressed, now);
    PlanKeepsCall(pressed, now, HallKey(floor, UP));
  }

  /** So does one of a hall-down button at every floor but the bottom, for the down call. */
  lemma HallDownPressed(s: Ctl, now: int, floor: int)
    requires s.ready && s.peers != map[] && 0 < floor < s.cfg.floors
    ensures var t := HandleButton(s, now, ButtonHallDown, floor);
            && (Active(t.rep.cells, HallKey(floor, DOWN)) || (OpensAt(t, floor) && t.doorDir == DOWN))
            && ActivatesOnly(s, t, HallKey(floor, DOWN))
  {
    var pressed := s.(rep := SetCell(s.rep, HallKey(floor, DOWN), true));
    assert HandleButton(s, now, ButtonHallDown, floor) == Plan(pressed, now);
    PlanKeepsCall(pressed, now, HallKey(floor, DOWN));
  }

  /** And one of a cab button at every floor, with a peer or without, for the node's own
      cab call. */
  lemma CabPressed(s: Ctl, now: int, floor: int)
    requires s.ready && 0 <= floor < s.cfg.floors
    ensures var t := HandleButton(s, now, ButtonCab, floor);
            && (Active(t.rep.cells, CabKey(s.cfg.id, floor)) || OpensAt(t, floor))
            && ActivatesOnly(s, t, CabKey(s.cfg.id, floor))
  {
    var pressed := s.(rep := SetCell(s.rep, CabKey(s.cfg.id, floor), true));
    assert HandleButton(s, now, ButtonCab, floor) == Plan(pressed, now);
    PlanKeepsCall(pressed, now, CabKey(s.cfg.id, floor));
  }

  /** All other presses change nothing. */
  lemma PressIgnored(s: Ctl, now: int, button: Button, floor: int)
    requires || !s.ready || floor < 0 || floor >= s.cfg.floors
             || (button == ButtonHallUp && (floor == s.cfg.floors - 1 || s.peers == map[]))
             || (button == ButtonHallDown && (floor == 0 || s.peers == map[]))
    ensures HandleButton(s, now, button, floor) == s
  {
  }

  /** What is left of a press that counts, for each kind of button. */
  lemma PressShows(s: Ctl, now: int, button: Button, floor: int)
    ensures var t := HandleButton(s, now, button, floor);
            && (button == ButtonHallUp && s.ready && s.peers != map[] && 0 <= floor < s.cfg.floors - 1 ==>
                Active(t.rep.cells, HallKey(floor, UP)) || (OpensAt(t, floor) && t.doorDir == UP))
            && (button == ButtonHallDown && s.ready && s.peers != map[] && 0 < floor < s.cfg.floors ==>
                Active(t.rep.cells, HallKey(floor, DOWN)) || (OpensAt(t, floor) && t.doorDir == DOWN))
            && (button == ButtonCab && s.ready && 0 <= floor < s.cfg.floors ==>
                Active(t.rep.cells, CabKey(s.cfg.id, floor)) || OpensAt(t, floor))
  {
    if button == ButtonHallUp && s.ready && s.peers != map[] && 0 <= floor < s.cfg.floors - 1 {
      HallUpPressed(s, now, floor);
    }
    if button == ButtonHallDown && s.ready && s.peers != map[] && 0 < floor < s.cfg.floors {
      HallDownPressed(s, now, floor);
    }
    if button == ButtonCab && s.ready && 0 <= floor < s.cfg.floors {
      CabPressed(s, now, floor);
    }
  }
}
