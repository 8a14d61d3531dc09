/** When a car is taken to be stuck, and what becomes of it. */
module StuckRules {
  import opened Text
  import opened Requests
  import opened Merge
  import opened Replicas
  import opened Peers
  import opened Assigner
  import opened ControllerModel
  import opened ControllerSafety
  import opened ControllerEffects
  import opened ControllerStops

  // ----- the watch on a moving car -----

  /** A tick takes a moving car to be stuck exactly if the watch has run for more than the
      timeout and no peer times out at this very tick. It stops the motor, and nothing else
      changes. */
  lemma TickStuckExactly(s: Ctl, now: int)
    requires Inv(s) && s.car.behavior == Moving
    ensures var t := HandleTick(s, now);
            && (t.car.behavior == Stuck <==>
                && now - s.lastMove > s.cfg.stuckTimeout
                && forall id :: id in s.peers ==> now - s.peers[id].seen <= s.cfg.peerTimeout)
            && (t.car.behavior == Stuck ==>
                t == s.(car := s.car.(behavior := Stuck, direction := STOP), out := s.out.(motor := STOP)))
  {
    var u := s.(peers := Expired(s.peers, s.cfg.peerTimeout, now));
    if forall id :: id in s.peers ==> now - s.peers[id].seen <= s.cfg.peerTimeout {
      assert u.peers == s.peers;
    } else {
      var id :| id in s.peers && now - s.peers[id].seen > s.cfg.peerTimeout;
      assert id !in u.peers;
      PlanNeverSticks(u, now);
    }
  }

  lemma PlanNeverSticks(s: Ctl, now: int)
    requires s.car.behavior != Stuck
    ensures Plan(s, now).car.behavior != Stuck
  {
  }

  /** The event makes the controller plan. */
  ghost predicate Plans(s: Ctl, ev: Event) {
    match ev
    case Remote(_, snap) =>
      AnyWins(s.rep.cells, snap.requests) || (snap.soft.id != s.cfg.id && NewsIn(s.peers, snap.soft))
    case Press(_, button, floor) =>
      s.ready && ValidButton(s, button, floor) && (button == ButtonCab || s.peers != map[])
    case Floor(_, _) => false
    case Obstruction(now, on) =>
      var told := s.(car := s.car.(obstruction := on));
      !on && DoorDue(told, now) && NextDoorDir(told, Assignments(told)).None?
    case Tick(now) =>
      var t := s.(peers := Expired(s.peers, s.cfg.peerTimeout, now));
      if s.car.behavior == DoorOpen then DoorDue(t, now) && NextDoorDir(t, Assignments(t)).None?
      else t.peers != s.peers || s.car.behavior == Idle
    case EnableButtons => false
  }

  lemma PlanWatch(s: Ctl, now: int)
    ensures var t := Plan(s, now);
            t.lastMove == if s.car.behavior !in {DoorOpen, Stuck} && t.car.behavior == Moving then now else s.lastMove
    ensures s.car.behavior in {DoorOpen, Stuck} ==> Plan(s, now).car.behavior == s.car.behavior
  {
  }

  lemma DoorStepWatch(s: Ctl, now: int)
    requires s.car.behavior == DoorOpen
    ensures var t := DoorStep(s, now);
            t.lastMove == if NextDoorDir(s, Assignments(s)).None? && t.car.behavior == Moving then now else s.lastMove
  {
    PlanWatch(Closed(s), now);
  }

  /** A sensor of the shaft reports, or the car sets out, be it again the way it goes. */
  ghost predicate Moves(s: Ctl, ev: Event, t: Ctl) {
    (ev.Floor? && 0 <= ev.floor < s.cfg.floors) || (Plans(s, ev) && t.car.behavior == Moving)
  }

  lemma TickWatch(s: Ctl, now: int)
    requires Inv(s)
    ensures var t := HandleTick(s, now); t.lastMove == if Moves(s, Tick(now), t) then now else s.lastMove
  {
    var u := s.(peers := Expired(s.peers, s.cfg.peerTimeout, now));
    PlanWatch(u, now);
    if DoorDue(u, now) {
      DoorStepWatch(u, now);
    }
  }

  lemma RemoteWatch(s: Ctl, now: int, snap: Snapshot)
    requires Inv(s)
    ensures var t := ApplyRemote(s, now, snap); t.lastMove == if Moves(s, Remote(now, snap), t) then now else s.lastMove
  {
    var merged := s.(rep := Received(s.rep, snap.requests));
    PlanWatch(if snap.soft.id != s.cfg.id then merged.(peers := Observed(s.peers, snap.soft, now)) else merged, now);
  }

  /** The watch is set back to zero exactly by a sensor of the shaft and by every event at
      which the car sets out; so whatever makes a moving car plan puts off that it is taken
      to be stuck. */
  lemma WatchExactly(s: Ctl, ev: Event)
    requires Inv(s)
    ensures var t := Step(s, ev); t.lastMove == if Moves(s, ev, t) then TimeOf(ev) else s.lastMove
  {
    match ev
    case Remote(now, snap) => RemoteWatch(s, now, snap);
    case Press(now, button, floor) => PlanWatch(s.(rep := SetCell(s.rep, PressedKey(s, button, floor), true)), now);
    case Floor(_, _) =>
    case Obstruction(now, on) =>
      var told := s.(car := s.car.(obstruction := on));
      if DoorDue(told, now) {
        DoorStepWatch(told, now);
      }
    case Tick(now) => TickWatch(s, now);
    case EnableButtons =>
  }

  // ----- a stuck car -----

  /** A stuck car stands still and clears nothing, whatever happens, until a sensor of the
      shaft reports. There it opens its door for a call of its own; without one it counts as
      moving again, with its motor off. */
  lemma StuckStands(s: Ctl, ev: Event)
    requires Inv(s) && s.car.behavior == Stuck
    ensures var t := Step(s, ev);
            && t.out.motor == STOP
            && if ev.Floor? && 0 <= ev.floor < s.cfg.floors then
                 if CanServe(Arrived(s, ev.now, ev.floor), ev.floor, Assignments(Arrived(s, ev.now, ev.floor)))
                 then t.car.behavior == DoorOpen && t.car.doorOpen
                 else t.car.behavior == Moving && t.car.direction == STOP && t.rep == s.rep
               else
                 && t.car.behavior == Stuck
                 && forall key :: Active(Base(s, ev).cells, key) ==> Active(t.rep.cells, key)
  {
    StepKeeps(s, ev);
  }

  /** Its motor starts again only when something makes it plan: a press that counts, news,
      or a peer that times out. */
  lemma MotorStartsByPlan(s: Ctl, ev: Event)
    requires Inv(s) && s.car.behavior == Moving && s.car.direction == STOP && Step(s, ev).out.motor != STOP
    ensures Plans(s, ev)
  {
  }
}
