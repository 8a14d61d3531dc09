/** The intervals of an open door over whole runs: what ends one, and how often it can
    be extended. */
module ControllerIntervals {
  import opened Text
  import opened Requests
  import opened Merge
  import opened Replicas
  import opened Peers
  import opened Assigner
  import opened ControllerModel
  import opened ControllerSafety
  import opened ControllerStops
  import opened ControllerEffects
  import opened ControllerDoors

  // ----- what ends an interval -----

  lemma ActingEndsInterval(s: Ctl, ev: Event, t: Ctl)
    requires Inv(s) && s.cfg.doorOpenDuration > 0 && Acts(s, ev) && Next(s, ev, t)
    ensures t.doorDeadline.Some? ==> t.doorDeadline.value > s.doorDeadline.value
  {
    ActsSteps(s, ev);
    DoorStepDeadline(Looked(s, ev), TimeOf(ev));
  }

  lemma OtherEventsKeepInterval(s: Ctl, ev: Event, t: Ctl)
    requires Inv(s) && s.doorDeadline.Some? && !Acts(s, ev) && Next(s, ev, t)
    ensures t.doorDeadline == s.doorDeadline && t.car.behavior == DoorOpen
  {
    NotActing(s, ev);
  }

  lemma RunInvAt(tr: seq<Ctl>, evs: seq<Event>, j: nat)
    requires Run(tr, evs) && j < |evs|
    ensures Inv(tr[j]) && tr[j].cfg == tr[0].cfg && Next(tr[j], evs[j], tr[j + 1])
  {
    RunInv(tr, evs, j);
  }

  /** In every run, the interval of an open door ends (the door closes, opens again or
      is extended) exactly at the first tick or freed doorway that finds the deadline
      passed and the doorway free. */
  lemma IntervalEndsExactly(tr: seq<Ctl>, evs: seq<Event>, j: nat)
    requires Run(tr, evs) && j < |evs| && tr[0].cfg.doorOpenDuration > 0 && tr[j].doorDeadline.Some?
    ensures tr[j + 1].doorDeadline != tr[j].doorDeadline <==> Acts(tr[j], evs[j])
  {
    RunInvAt(tr, evs, j);
    if Acts(tr[j], evs[j]) {
      ActingEndsInterval(tr[j], evs[j], tr[j + 1]);
    } else {
      OtherEventsKeepInterval(tr[j], evs[j], tr[j + 1]);
    }
  }

  // ----- openings and extensions -----

  /** The event opens the door, be it again: it is open afterwards, and was not open
      before or has not merely been extended. */
  ghost predicate OpensAt(s: Ctl, ev: Event, t: Ctl) {
    t.car.behavior == DoorOpen && (s.car.behavior != DoorOpen || (Acts(s, ev) && !Extends(s, ev)))
  }

  /** The call the door was opened or extended for is cleared. */
  predicate AnnouncedIsCleared(t: Ctl) {
    || t.doorDir == STOP
    || ((t.doorDir == UP || t.doorDir == DOWN) && !Active(t.rep.cells, HallKey(t.car.floor, t.doorDir)))
  }

  lemma OpenAnnounces(s: Ctl, now: int, arrival: Direction)
    ensures AnnouncedIsCleared(Open(s, now, arrival))
  {
    var o, t := Opened(s), Open(s, now, arrival);
    OpenParts(s, now, arrival);
    PickedIsServed(o, arrival);
    ClearFloorClears(o, t.doorDir, HallKey(o.car.floor, t.doorDir));
  }

  lemma PlanAnnounces(s: Ctl, now: int)
    requires s.car.behavior != DoorOpen && Plan(s, now).car.behavior == DoorOpen
    ensures AnnouncedIsCleared(Plan(s, now))
  {
    OpenAnnounces(s, now, s.travelDir);
  }

  lemma ReopeningAnnounces(s: Ctl, ev: Event, t: Ctl)
    requires Acts(s, ev) && !Extends(s, ev) && Next(s, ev, t) && t.car.behavior == DoorOpen
    ensures AnnouncedIsCleared(t)
  {
    ActsSteps(s, ev);
    PlanAnnounces(Closed(Looked(s, ev)), TimeOf(ev));
  }

  lemma RemoteAnnounces(s: Ctl, now: int, snap: Snapshot)
    requires s.car.behavior != DoorOpen && ApplyRemote(s, now, snap).car.behavior == DoorOpen
    ensures AnnouncedIsCleared(ApplyRemote(s, now, snap))
  {
    var merged := s.(rep := Received(s.rep, snap.requests));
    var told := if snap.soft.id != s.cfg.id then merged.(peers := Observed(s.peers, snap.soft, now)) else merged;
    assert ApplyRemote(s, now, snap) == Plan(told, now);
    PlanAnnounces(told, now);
  }

  lemma PressAnnounces(s: Ctl, now: int, button: Button, floor: int)
    requires s.car.behavior != DoorOpen && HandleButton(s, now, button, floor).car.behavior == DoorOpen
    ensures AnnouncedIsCleared(HandleButton(s, now, button, floor))
  {
    PlanAnnounces(s.(rep := SetCell(s.rep, PressedKey(s, button, floor), true)), now);
  }

  lemma FloorAnnounces(s: Ctl, now: int, floor: int)
    requires s.car.behavior != DoorOpen && HandleFloor(s, now, floor).car.behavior == DoorOpen
    ensures AnnouncedIsCleared(HandleFloor(s, now, floor))
  {
    OpenAnnounces(Arrived(s, now, floor), now, s.car.direction);
  }

  lemma TickAnnounces(s: Ctl, now: int)
    requires s.car.behavior != DoorOpen && HandleTick(s, now).car.behavior == DoorOpen
    ensures AnnouncedIsCleared(HandleTick(s, now))
  {
    PlanAnnounces(s.(peers := Expired(s.peers, s.cfg.peerTimeout, now)), now);
  }

  /** Whatever opens the door clears the call it announces. */
  lemma OpeningAnnounces(s: Ctl, ev: Event, t: Ctl)
    requires OpensAt(s, ev, t) && Next(s, ev, t)
    ensures AnnouncedIsCleared(t)
  {
    if s.car.behavior == DoorOpen {
      ReopeningAnnounces(s, ev, t);
    } else {
      match ev
      case Remote(now, snap) => RemoteAnnounces(s, now, snap);
      case Press(now, button, floor) => PressAnnounces(s, now, button, floor);
      case Floor(now, floor) => FloorAnnounces(s, now, floor);
      case Tick(now) => TickAnnounces(s, now);
      case Obstruction(_, _) =>
      case EnableButtons =>
    }
  }

  // ----- extensions of one opening -----

  /** Of the hall calls of a floor, none becomes active. */
  predicate NoNewHallCall(s: Ctl, t: Ctl, floor: int) {
    && (Active(t.rep.cells, HallKey(floor, UP)) ==> Active(s.rep.cells, HallKey(floor, UP)))
    && (Active(t.rep.cells, HallKey(floor, DOWN)) ==> Active(s.rep.cells, HallKey(floor, DOWN)))
  }

  predicate NoHallCall(t: Ctl, floor: int) {
    !Active(t.rep.cells, HallKey(floor, UP)) && !Active(t.rep.cells, HallKey(floor, DOWN))
  }

  /** The door stays open at the floor, and is at most extended. */
  ghost predicate StaysOpen(s: Ctl, ev: Event, t: Ctl, floor: int) {
    && s.car.behavior == DoorOpen && t.car.behavior == DoorOpen && s.car.floor == t.car.floor == floor
    && !OpensAt(s, ev, t)
  }

  /** An extension leaves no hall call of the floor, as the announced one was cleared. */
  lemma ExtensionLeavesNone(s: Ctl, ev: Event, t: Ctl)
    requires Inv(s) && Next(s, ev, t) && Extends(s, ev) && AnnouncedIsCleared(s)
    ensures NoHallCall(t, s.car.floor) && AnnouncedIsCleared(t)
  {
    ExtensionTurns(s, ev);
  }

  lemma NoneToExtendFor(s: Ctl, ev: Event)
    requires Inv(s) && NoHallCall(s, s.car.floor)
    ensures !Extends(s, ev)
  {
  }

  lemma StayingKeeps(s: Ctl, ev: Event, t: Ctl, floor: int)
    requires Inv(s) && Next(s, ev, t) && StaysOpen(s, ev, t, floor)
    requires NoNewHallCall(s, t, floor) && AnnouncedIsCleared(s)
    ensures AnnouncedIsCleared(t)
    ensures NoHallCall(s, floor) || Extends(s, ev) ==> NoHallCall(t, floor)
  {
    if Extends(s, ev) {
      ExtensionLeavesNone(s, ev, t);
    } else {
      NotActing(s, ev);
    }
  }

  /** From state `o` up to event `b` the door stays open at its floor. */
  ghost predicate OpenFrom(tr: seq<Ctl>, evs: seq<Event>, o: nat, b: nat) {
    && Run(tr, evs) && o < b < |evs|
    && forall k :: o <= k < b ==> StaysOpen(tr[k], evs[k], tr[k + 1], tr[o].car.floor)
  }

  /** Step by step from `o` to `b`: what is announced stays cleared, and once the door
      is extended at `a` no hall call is left. */
  ghost predicate Carries(tr: seq<Ctl>, o: nat, b: nat, a: nat, floor: int)
    requires b < |tr|
  {
    forall k :: o <= k < b && AnnouncedIsCleared(tr[k]) ==>
      AnnouncedIsCleared(tr[k + 1]) && (NoHallCall(tr[k], floor) || k == a ==> NoHallCall(tr[k + 1], floor))
  }

  lemma OpenCarries(tr: seq<Ctl>, evs: seq<Event>, o: nat, b: nat, a: nat)
    requires o <= a < b && OpenFrom(tr, evs, o, b) && Extends(tr[a], evs[a])
    requires forall l :: o <= l < b ==> NoNewHallCall(tr[l], tr[l + 1], tr[o].car.floor)
    ensures b < |tr| && Carries(tr, o, b, a, tr[o].car.floor)
  {
    forall k | o <= k < b && AnnouncedIsCleared(tr[k])
      ensures AnnouncedIsCleared(tr[k + 1])
      ensures NoHallCall(tr[k], tr[o].car.floor) || k == a ==> NoHallCall(tr[k + 1], tr[o].car.floor)
    {
      RunInvAt(tr, evs, k);
      StayingKeeps(tr[k], evs[k], tr[k + 1], tr[o].car.floor);
    }
  }

  lemma {:induction false} Carried(tr: seq<Ctl>, o: nat, b: nat, a: nat, floor: int, k: nat)
    requires o <= a < b < |tr| && o <= k <= b && Carries(tr, o, b, a, floor) && AnnouncedIsCleared(tr[o])
    ensures AnnouncedIsCleared(tr[k]) && (k > a ==> NoHallCall(tr[k], floor))
  {
    if k > o {
      Carried(tr, o, b, a, floor, k - 1);
    }
  }

  lemma FloorStays(tr: seq<Ctl>, evs: seq<Event>, o: nat, b: nat)
    requires OpenFrom(tr, evs, o, b)
    ensures tr[b].car.floor == tr[o].car.floor
  {
    assert StaysOpen(tr[b - 1], evs[b - 1], tr[b], tr[o].car.floor);
  }

  /** In every run, while the door stays open from a state in which the call it announces
      is cleared (as after every opening, `OpeningAnnounces`), it is extended a second
      time only if one of the floor's hall calls has become active: without new calls
      there is one extension at most. */
  lemma SecondExtensionNeedsCall(tr: seq<Ctl>, evs: seq<Event>, o: nat, a: nat, b: nat)
    requires o <= a < b && OpenFrom(tr, evs, o, b) && AnnouncedIsCleared(tr[o])
    requires Extends(tr[a], evs[a]) && Extends(tr[b], evs[b])
    ensures exists l :: o <= l < b && !NoNewHallCall(tr[l], tr[l + 1], tr[o].car.floor)
  {
    if forall l :: o <= l < b ==> NoNewHallCall(tr[l], tr[l + 1], tr[o].car.floor) {
      FloorStays(tr, evs, o, b);
      OpenCarries(tr, evs, o, b, a);
      Carried(tr, o, b, a, tr[o].car.floor, b);
      RunInvAt(tr, evs, b);
      NoneToExtendFor(tr[b], evs[b]);
    }
  }

  /** So between an opening, by event `i`, and the next closing or opening. */
  lemma OneExtensionPerOpening(tr: seq<Ctl>, evs: seq<Event>, i: nat, a: nat, b: nat)
    requires i < a < b && OpenFrom(tr, evs, i + 1, b) && OpensAt(tr[i], evs[i], tr[i + 1])
    requires Extends(tr[a], evs[a]) && Extends(tr[b], evs[b])
    ensures exists l :: i < l < b && !NoNewHallCall(tr[l], tr[l + 1], tr[i + 1].car.floor)
  {
    OpeningInRun(tr, evs, i);
    SecondExtensionNeedsCall(tr, evs, i + 1, a, b);
  }

  lemma OpeningInRun(tr: seq<Ctl>, evs: seq<Event>, i: nat)
    requires Run(tr, evs) && i < |evs| && OpensAt(tr[i], evs[i], tr[i + 1])
    ensures AnnouncedIsCleared(tr[i + 1])
  {
    OpeningAnnounces(tr[i], evs[i], tr[i + 1]);
  }
}
