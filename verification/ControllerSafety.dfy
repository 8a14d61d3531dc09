/** What holds of the controller after every event of every event sequence, and
    what it may write. */
module ControllerSafety {
  import opened Text
  import opened Versions
  import opened Requests
  import opened Merge
  import opened Replicas
  import opened Peers
  import opened Assigner
  import opened ControllerModel

  // ----- the state invariant -----

  predicate IdentityInv(s: Ctl) {
    && s.car.id == s.cfg.id
    && s.rep.clock.writer == s.cfg.id && s.rep.clock.boot == s.cfg.boot
    && s.cfg.id !in s.peers
    && (forall id :: id in s.peers ==> s.peers[id].state.id == id)
  }

  /** Door, deadline and behaviour agree; the motor runs as the car says, only while
      moving, and never with the door open. */
  predicate MotionInv(s: Ctl) {
    && (s.car.doorOpen <==> s.car.behavior == DoorOpen)
    && (s.doorDeadline.Some? <==> s.car.behavior == DoorOpen)
    && s.out.motor == s.car.direction
    && s.car.direction in {UP, STOP, DOWN} && s.travelDir in {UP, STOP, DOWN}
    && (s.car.direction != STOP ==> s.car.behavior == Moving && s.car.direction == s.travelDir)
    && !s.car.behavior.OtherBehavior?
  }

  /** Door lamp and floor indicator show the car's state. */
  predicate Shown(s: Ctl) {
    s.out.doorLamp == s.car.doorOpen && s.out.floorIndicator == s.car.floor
  }

  predicate Inv(s: Ctl) {
    IdentityInv(s) && MotionInv(s) && Shown(s)
  }

  lemma OpenKeeps(s: Ctl, now: int, arrival: Direction)
    requires IdentityInv(s) && s.travelDir in {UP, STOP, DOWN}
    ensures Inv(Open(s, now, arrival)) && Open(s, now, arrival).cfg == s.cfg
  {
  }

  lemma NextDirRange(s: Ctl, a: map<RequestKey, int>)
    ensures NextDir(s, a) in {UP, STOP, DOWN}
  {
  }

  lemma PlanKeeps(s: Ctl, now: int)
    requires IdentityInv(s) && MotionInv(s)
    ensures Inv(Plan(s, now)) && Plan(s, now).cfg == s.cfg
  {
    if s.car.behavior != DoorOpen && s.car.behavior != Stuck {
      NextDirRange(s, Assignments(s));
      if CanServe(s, s.car.floor, Assignments(s)) {
        OpenKeeps(s, now, s.travelDir);
      }
    }
  }

  lemma DoorStepKeeps(s: Ctl, now: int)
    requires IdentityInv(s) && MotionInv(s) && DoorDue(s, now)
    ensures Inv(DoorStep(s, now)) && DoorStep(s, now).cfg == s.cfg
  {
    if NextDoorDir(s, Assignments(s)).None? {
      PlanKeeps(Closed(s), now);
    }
  }

  lemma RemoteKeeps(s: Ctl, now: int, snap: Snapshot)
    requires Inv(s)
    ensures Inv(ApplyRemote(s, now, snap)) && ApplyRemote(s, now, snap).cfg == s.cfg
  {
    var merged := s.(rep := Received(s.rep, snap.requests));
    ObserveAllMax(s.rep.clock, snap.requests);
    PlanKeeps(if snap.soft.id != s.cfg.id then merged.(peers := Observed(s.peers, snap.soft, now)) else merged, now);
  }

  lemma PressKeeps(s: Ctl, now: int, button: Button, floor: int)
    requires Inv(s)
    ensures Inv(HandleButton(s, now, button, floor)) && HandleButton(s, now, button, floor).cfg == s.cfg
  {
    PlanKeeps(s.(rep := SetCell(s.rep, PressedKey(s, button, floor), true)), now);
  }

  lemma FloorKeeps(s: Ctl, now: int, floor: int)
    requires Inv(s)
    ensures Inv(HandleFloor(s, now, floor)) && HandleFloor(s, now, floor).cfg == s.cfg
  {
    if StopsAt(s, now, floor) {
      OpenKeeps(Arrived(s, now, floor), now, s.car.direction);
    }
  }

  lemma ObstructionKeeps(s: Ctl, now: int, on: bool)
    requires Inv(s)
    ensures Inv(HandleObstruction(s, now, on)) && HandleObstruction(s, now, on).cfg == s.cfg
  {
    var told := s.(car := s.car.(obstruction := on));
    if DoorDue(told, now) {
      DoorStepKeeps(told, now);
    }
  }

  lemma TickKeeps(s: Ctl, now: int)
    requires Inv(s)
    ensures Inv(HandleTick(s, now)) && HandleTick(s, now).cfg == s.cfg
  {
    var t := s.(peers := Expired(s.peers, s.cfg.peerTimeout, now));
    if DoorDue(t, now) {
      DoorStepKeeps(t, now);
    } else {
      PlanKeeps(t, now);
    }
  }

  lemma StepKeeps(s: Ctl, ev: Event)
    requires Inv(s)
    ensures Inv(Step(s, ev)) && Step(s, ev).cfg == s.cfg
  {
    match ev
    case Remote(now, snap) => RemoteKeeps(s, now, snap);
    case Press(now, button, floor) => PressKeeps(s, now, button, floor);
    case Floor(now, floor) => FloorKeeps(s, now, floor);
    case Obstruction(now, on) => ObstructionKeeps(s, now, on);
    case Tick(now) => TickKeeps(s, now);
    case EnableButtons =>
  }

  lemma InitialInv(raw: Config, now: int)
    ensures Inv(Initial(raw, now))
  {
  }

  ghost predicate Next(s: Ctl, ev: Event, t: Ctl) {
    t == Step(s, ev)
  }

  ghost predicate Run(tr: seq<Ctl>, evs: seq<Event>) {
    && |tr| == |evs| + 1
    && (exists raw, t0 :: tr[0] == Initial(raw, t0))
    && (forall i :: 0 <= i < |evs| ==> Next(tr[i], evs[i], tr[i + 1]))
  }

  lemma NextKeeps(s: Ctl, ev: Event, t: Ctl)
    requires Inv(s) && Next(s, ev, t)
    ensures Inv(t) && t.cfg == s.cfg
  {
    StepKeeps(s, ev);
  }

  /** After every event of every event sequence. */
  lemma {:induction false} RunInv(tr: seq<Ctl>, evs: seq<Event>, i: nat)
    requires Run(tr, evs) && i <= |evs|
    ensures Inv(tr[i]) && tr[i].cfg == tr[0].cfg
  {
    if i == 0 {
      var raw, t0 :| tr[0] == Initial(raw, t0);
      InitialInv(raw, t0);
    } else {
      RunInv(tr, evs, i - 1);
      NextKeeps(tr[i - 1], evs[i - 1], tr[i]);
    }
  }
}
