/** How a controller starts, when its buttons count, and what a door it opens announces. */
module ControllerRules {
  import opened Text
  import opened Requests
  import opened Merge
  import opened Replicas
  import opened Peers
  import opened Assigner
  import opened ControllerModel
  import opened ControllerSafety
  import opened ControllerStops
  import opened ControllerEffects

  // ----- the start -----

  /** What is left at zero is set: four floors, three seconds for the door, one for a peer
      and five for a moving car, in nanoseconds. Everything else is taken as given. */
  lemma DefaultsSaid(raw: Config)
    ensures var cfg := WithDefaults(raw);
            && cfg.floors == (if raw.floors == 0 then 4 else raw.floors)
            && cfg.doorOpenDuration == (if raw.doorOpenDuration == 0 then 3_000_000_000 else raw.doorOpenDuration)
            && cfg.peerTimeout == (if raw.peerTimeout == 0 then 1_000_000_000 else raw.peerTimeout)
            && cfg.stuckTimeout == (if raw.stuckTimeout == 0 then 5_000_000_000 else raw.stuckTimeout)
            && cfg.id == raw.id && cfg.boot == raw.boot && cfg.startFloor == raw.startFloor
  {
  }

  /** It starts idle at its start floor with the door closed and the motor off, in no
      direction, with no calls and no peers, and its buttons do not count. */
  lemma StartsIdle(raw: Config, now: int)
    ensures var s := Initial(raw, now);
            && s.car == SoftState(raw.id, raw.boot, raw.startFloor, STOP, Idle, false, false)
            && s.out == Outputs(STOP, false, raw.startFloor)
            && s.rep.cells == map[] && s.rep.clock.value == 0 && s.peers == map[]
            && !s.ready && s.doorDeadline == None && s.lastMove == now && s.travelDir == STOP && s.doorDir == STOP
  {
  }

  lemma DoorStepReady(s: Ctl, now: int)
    ensures DoorStep(s, now).ready == s.ready
  {
    assert Plan(Closed(s), now).ready == s.ready;
  }

  lemma StepReady(s: Ctl, ev: Event)
    ensures Step(s, ev).ready <==> s.ready || ev.EnableButtons?
  {
    match ev
    case Obstruction(now, on) => DoorStepReady(s.(car := s.car.(obstruction := on)), now);
    case Tick(now) => DoorStepReady(s.(peers := Expired(s.peers, s.cfg.peerTimeout, now)), now);
    case _ =>
  }

  lemma NextReady(s: Ctl, ev: Event, t: Ctl)
    requires Next(s, ev, t)
    ensures t.ready <==> s.ready || ev.EnableButtons?
  {
    StepReady(s, ev);
  }

  /** In every run the buttons count exactly from when they have been enabled. */
  lemma {:induction false} ReadyExactly(tr: seq<Ctl>, evs: seq<Event>, i: nat)
    requires Run(tr, evs) && i <= |evs|
    ensures tr[i].ready <==> exists j :: 0 <= j < i && evs[j].EnableButtons?
  {
    if i == 0 {
      var raw, t0 :| tr[0] == Initial(raw, t0);
    } else {
      ReadyExactly(tr, evs, i - 1);
      NextReady(tr[i - 1], evs[i - 1], tr[i]);
    }
  }

  // ----- what an opening announces -----

  /** Which of the floor's hall calls a door opened in direction `arrival` is opened for:
      its own calls only; that of the arrival's direction if there is one, and the other
      only with nothing ahead; without a direction, the only one, or of both that of the side
      with calls, the upper side first, and the up call if there are none. */
  lemma PicksExactly(s: Ctl, arrival: Direction)
    requires arrival in {UP, STOP, DOWN}
    ensures var a, floor := Assignments(s), s.car.floor;
            var up, down := Hall(s, floor, UP, a), Hall(s, floor, DOWN, a);
            var above, below := AnyAbove(s, floor, a), AnyBelow(s, floor, a);
            var dir := PickDoorDir(s, a, arrival);
            && (dir == UP <==>
                up && (arrival == UP || (arrival == DOWN && !down && !below) ||
                       (arrival == STOP && (!down || above || !below))))
            && (dir == DOWN <==>
                down && (arrival == DOWN || (arrival == UP && !up && !above) ||
                         (arrival == STOP && (!up || (!above && below)))))
            && dir in {UP, STOP, DOWN}
  {
  }

  // ----- a closed door announces nothing -----

  predicate Silent(s: Ctl) {
    s.car.behavior != DoorOpen ==> s.doorDir == STOP
  }

  lemma PlanSilent(s: Ctl, now: int)
    requires Silent(s)
    ensures Silent(Plan(s, now))
  {
  }

  lemma DoorStepSilent(s: Ctl, now: int)
    requires s.car.behavior == DoorOpen
    ensures Silent(DoorStep(s, now))
  {
    PlanSilent(Closed(s), now);
  }

  lemma StepSilent(s: Ctl, ev: Event)
    requires Silent(s)
    ensures Silent(Step(s, ev))
  {
    match ev
    case Remote(now, snap) =>
      var merged := s.(rep := Received(s.rep, snap.requests));
      PlanSilent(if snap.soft.id != s.cfg.id then merged.(peers := Observed(s.peers, snap.soft, now)) else merged, now);
    case Press(now, button, floor) => PlanSilent(s.(rep := SetCell(s.rep, PressedKey(s, button, floor), true)), now);
    case Floor(_, _) =>
    case Obstruction(now, on) =>
      var told := s.(car := s.car.(obstruction := on));
      if DoorDue(told, now) {
        DoorStepSilent(told, now);
      }
    case Tick(now) =>
      var t := s.(peers := Expired(s.peers, s.cfg.peerTimeout, now));
      PlanSilent(t, now);
      if DoorDue(t, now) {
        DoorStepSilent(t, now);
      }
    case EnableButtons =>
  }

  lemma NextSilent(s: Ctl, ev: Event, t: Ctl)
    requires Silent(s) && Next(s, ev, t)
    ensures Silent(t)
  {
    StepSilent(s, ev);
  }

  /** In every run a direction is announced only while the door is open. */
  lemma {:induction false} RunSilent(tr: seq<Ctl>, evs: seq<Event>, i: nat)
    requires Run(tr, evs) && i <= |evs|
    ensures Silent(tr[i])
  {
    if i == 0 {
      var raw, t0 :| tr[0] == Initial(raw, t0);
    } else {
      RunSilent(tr, evs, i - 1);
      NextSilent(tr[i - 1], evs[i - 1], tr[i]);
    }
  }
}
