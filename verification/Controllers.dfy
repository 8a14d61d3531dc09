/** The controller object and its event handlers (`internal/controller/controller.go`). */
module Controllers {
  import opened Text
  import opened Versions
  import opened Requests
  import opened Merge
  import opened Replicas
  import opened Peers
  import opened Assigner
  import opened ControllerModel
  import opened ControllerSafety
  import opened ButtonRules

  /** The hardware, as the sum of the commands given to it. */
  class Device {
    var motor: Direction
    var doorLamp: bool
    var floorIndicator: int
    var lamps: map<(Button, int), bool>

    constructor ()
      ensures motor == STOP && lamps == map[]
    {
      motor, doorLamp, floorIndicator, lamps := STOP, false, 0, map[];
    }

    method SetMotorDirection(dir: Direction)
      modifies this`motor
      ensures motor == dir
    {
      motor := dir;
    }

    method SetDoorOpenLamp(on: bool)
      modifies this`doorLamp
      ensures doorLamp == on
    {
      doorLamp := on;
    }

    method SetFloorIndicator(floor: int)
      modifies this`floorIndicator
      ensures floorIndicator == floor
    {
      floorIndicator := floor;
    }

    method SetButtonLamp(button: Button, floor: int, on: bool)
      modifies this`lamps
      ensures lamps == old(lamps)[(button, floor) := on]
    {
      lamps := lamps[(button, floor) := on];
    }

    predicate Shows(button: Button, floor: int, on: bool)
      reads this`lamps
    {
      (button, floor) in lamps && lamps[(button, floor)] == on
    }
  }

  class Controller {
    const cfg: Config
    const dev: Device
    const clock: Clock
    const reqs: RequestTable
    const peers: PeerTracker
    var car: SoftState
    var ready: bool
    var doorDeadline: Option<int>
    var lastMove: int
    var travelDir: Direction
    var doorDir: Direction

    function State(): Ctl
      reads this, dev, clock, reqs, peers
    {
      Ctl(cfg, Outputs(dev.motor, dev.doorLamp, dev.floorIndicator), Replica(clock.State(), reqs.cells),
          peers.peers, car, ready, doorDeadline, lastMove, travelDir, doorDir)
    }

    predicate LampsAt(floor: int)
      reads dev`lamps, reqs
    {
      && (floor < cfg.floors - 1 ==> dev.Shows(ButtonHallUp, floor, reqs.IsActive(HallKey(floor, UP))))
      && (floor > 0 ==> dev.Shows(ButtonHallDown, floor, reqs.IsActive(HallKey(floor, DOWN))))
      && dev.Shows(ButtonCab, floor, reqs.IsActive(CabKey(cfg.id, floor)))
    }

    /** Every button lamp there is shows whether its request is active. */
    predicate LampsAgree()
      reads dev`lamps, reqs
    {
      forall floor :: 0 <= floor < cfg.floors ==> LampsAt(floor)
    }

    predicate Valid()
      reads this, dev, clock, reqs, peers
    {
      Inv(State()) && peers.timeout == cfg.peerTimeout && LampsAgree()
    }

    /** So the lamp of every button there is is lit exactly while its own call is active. */
    lemma LampsSay(floor: int)
      requires Valid() && 0 <= floor < cfg.floors
      ensures floor < cfg.floors - 1 ==>
                && (ButtonHallUp, floor) in dev.lamps
                && dev.lamps[(ButtonHallUp, floor)] == Active(reqs.cells, HallKey(floor, UP))
      ensures floor > 0 ==>
                && (ButtonHallDown, floor) in dev.lamps
                && dev.lamps[(ButtonHallDown, floor)] == Active(reqs.cells, HallKey(floor, DOWN))
      ensures (ButtonCab, floor) in dev.lamps
      ensures dev.lamps[(ButtonCab, floor)] == Active(reqs.cells, CabKey(cfg.id, floor))
    {
      assert LampsAt(floor);
    }

    constructor (raw: Config, dev: Device, now: int)
      modifies dev
      ensures this.dev == dev && fresh(clock) && fresh(reqs) && fresh(peers)
      ensures LampsAgree()
      ensures old(dev.motor) == STOP ==> State() == Initial(raw, now) && Valid()
    {
      var full := WithDefaults(raw);
      this.cfg := full;
      this.dev := dev;
      this.clock := new Clock(full.id, full.boot);
      this.reqs := new RequestTable();
      this.peers := new PeerTracker(full.peerTimeout);
      this.car := SoftState(full.id, full.boot, full.startFloor, STOP, Idle, false, false);
      this.ready := false;
      this.doorDeadline := None;
      this.lastMove := now;
      this.travelDir := STOP;
      this.doorDir := STOP;
      new;
      Sync();
    }

    method EnableButtons()
      requires Valid()
      modifies this
      ensures State() == Step(old(State()), Event.EnableButtons) && Valid()
    {
      ready := true;
    }

    /** Seeding a clock that is not behind the table changes nothing. */
    method SeedClockFromObserved()
      modifies clock
      ensures clock.value >= old(clock.value)
      ensures (forall k :: k in reqs.cells ==> reqs.cells[k].version.counter <= old(clock.value)) ==>
                State() == old(State())
    {
      var max := reqs.MaxCounter();
      clock.Seed(max);
    }

    method GetSnapshot() returns (snap: Snapshot)
      ensures snap.soft == car && Lists(snap.requests, reqs.cells, false)
    {
      var es := reqs.Entries();
      snap := Snapshot(car, es);
    }

    method ApplyRemote(now: int, snap: Snapshot)
      requires Valid()
      modifies this, dev, clock, reqs, peers
      ensures State() == ControllerModel.ApplyRemote(old(State()), now, snap) && Valid()
    {
      ghost var before := State();
      RemoteKeeps(before, now, snap);
      ObserveAllMax(clock.State(), snap.requests);
      var changed := MergeRequests(reqs, clock, snap.requests);
      if snap.soft.id != cfg.id {
        var observed := peers.Observe(snap.soft, now);
        if observed {
          changed := true;
        }
      }
      if changed {
        Plan(now);
        return;
      }
      Sync();
    }

    method HandleButton(now: int, button: Button, floor: int)
      requires Valid()
      modifies this, dev, clock, reqs
      ensures State() == ControllerModel.HandleButton(old(State()), now, button, floor) && Valid()
      ensures 0 <= floor < cfg.floors ==> LampsAt(floor)
      ensures button == ButtonHallUp && old(ready && peers.peers != map[]) && 0 <= floor < cfg.floors - 1 ==>
                reqs.IsActive(HallKey(floor, UP)) || (car.doorOpen && car.floor == floor && doorDir == UP)
      ensures button == ButtonHallDown && old(ready && peers.peers != map[]) && 0 < floor < cfg.floors ==>
                reqs.IsActive(HallKey(floor, DOWN)) || (car.doorOpen && car.floor == floor && doorDir == DOWN)
      ensures button == ButtonCab && old(ready) && 0 <= floor < cfg.floors ==>
                reqs.IsActive(CabKey(cfg.id, floor)) || (car.doorOpen && car.floor == floor)
    {
      PressKeeps(State(), now, button, floor);
      PressShows(State(), now, button, floor);
      if !ready || !IsValid(button, floor) {
        return;
      }
      match button {
        case ButtonCab =>
          Set(CabKey(cfg.id, floor), true);
        case ButtonHallUp | ButtonHallDown =>
          if !peers.Connected() {
            return;
          }
          Set(HallKey(floor, ButtonDirection(button)), true);
      }
      Plan(now);
    }

    method HandleFloor(now: int, floor: int)
      requires Valid()
      modifies this, dev, clock, reqs
      ensures State() == ControllerModel.HandleFloor(old(State()), now, floor) && Valid()
    {
      FloorKeeps(State(), now, floor);
      if floor < 0 || floor >= cfg.floors {
        return;
      }
      ghost var before := State();
      car := car.(floor := floor);
      lastMove := now;
      dev.SetFloorIndicator(floor);
      assert State() == Arrived(before, now, floor);
      if car.behavior == Moving || car.behavior == Stuck {
        var a := GetAssignments();
        var stops := DecideStop(floor, car.direction, a);
        if stops {
          Open(now, car.direction);
          return;
        }
        if car.behavior == Stuck {
          car := car.(behavior := Moving);
        }
      }
      Sync();
    }

    method HandleObstruction(now: int, on: bool)
      requires Valid()
      modifies this, dev, clock, reqs
      ensures State() == ControllerModel.HandleObstruction(old(State()), now, on) && Valid()
    {
      ObstructionKeeps(State(), now, on);
      car := car.(obstruction := on);
      if !on {
        var acted := DoorStep(now);
        if acted {
          return;
        }
      }
      Sync();
    }

    method HandleTick(now: int)
      requires Valid()
      modifies this, dev, clock, reqs, peers
      ensures State() == ControllerModel.HandleTick(old(State()), now) && Valid()
    {
      TickKeeps(State(), now);
      var expired := peers.Expire(now);
      if expired && car.behavior != DoorOpen {
        Plan(now);
        return;
      }
      if car.behavior == Moving && now - lastMove > cfg.stuckTimeout {
        car := car.(behavior := Stuck);
        car := car.(direction := STOP);
        dev.SetMotorDirection(STOP);
        Sync();
        return;
      }
      var acted := DoorStep(now);
      if acted {
        return;
      }
      if car.behavior == Idle {
        Plan(now);
        return;
      }
      Sync();
    }

    method DoorStep(now: int) returns (acted: bool)
      modifies this, dev, clock, reqs
      ensures acted <==> DoorDue(old(State()), now)
      ensures acted ==> State() == ControllerModel.DoorStep(old(State()), now) && LampsAgree()
      ensures !acted ==> State() == old(State()) && (old(LampsAgree()) ==> LampsAgree())
    {
      if car.behavior != DoorOpen || car.obstruction || doorDeadline == None || now < doorDeadline.value {
        return false;
      }
      var a := GetAssignments();
      var next := DecideDoor(a);
      if next.Some? {
        Extend(now, next.value);
        return true;
      }
      Close();
      Plan(now);
      return true;
    }

    /** The open door turns to the other direction's call. */
    method Extend(now: int, dir: Direction)
      modifies this, dev, clock, reqs
      ensures State() == Extended(old(State()), now, dir) && LampsAgree()
    {
      doorDir := dir;
      assert State() == old(State()).(doorDir := dir);
      ClearFloor(dir);
      doorDeadline := Some(now + cfg.doorOpenDuration);
      Sync();
    }

    method Close()
      modifies this, dev`doorLamp
      ensures State() == Closed(old(State()))
    {
      car := car.(doorOpen := false);
      car := car.(behavior := Idle);
      doorDir := STOP;
      doorDeadline := None;
      dev.SetDoorOpenLamp(false);
    }

    method Plan(now: int)
      modifies this, dev, clock, reqs
      ensures State() == ControllerModel.Plan(old(State()), now) && LampsAgree()
    {
      if car.behavior == DoorOpen || car.behavior == Stuck {
        Sync();
        return;
      }
      var a := GetAssignments();
      if CanServeFloor(car.floor, a) {
        Open(now, travelDir);
        return;
      }
      var dir := DecideDirection(a);
      if dir == STOP {
        car := car.(behavior := Idle);
        car := car.(direction := STOP);
        dev.SetMotorDirection(STOP);
        Sync();
        return;
      }
      car := car.(behavior := Moving);
      car := car.(direction := dir);
      travelDir := dir;
      lastMove := now;
      dev.SetMotorDirection(dir);
      Sync();
    }

    method Open(now: int, arrival: Direction)
      modifies this, dev, clock, reqs
      ensures State() == ControllerModel.Open(old(State()), now, arrival) && LampsAgree()
    {
      ghost var before := State();
      car := car.(behavior := DoorOpen);
      car := car.(direction := STOP);
      car := car.(doorOpen := true);
      assert State() == Opened(before);
      var a := GetAssignments();
      doorDir := DecideDoorDir(a, arrival);
      doorDeadline := Some(now + cfg.doorOpenDuration);
      dev.SetMotorDirection(STOP);
      dev.SetDoorOpenLamp(true);
      assert State() == Opened(before).(doorDir := doorDir, doorDeadline := doorDeadline,
                                        out := before.out.(motor := STOP, doorLamp := true));
      ClearFloor(doorDir);
      Sync();
    }

    method DecideDoor(a: map<RequestKey, int>) returns (next: Option<Direction>)
      ensures next == NextDoorDir(State(), a)
    {
      var floor := car.floor;
      if doorDir == UP {
        var above := AnyFrom(floor, 1, a);
        if HallAt(floor, DOWN, a) && !above {
          return Some(DOWN);
        }
      } else if doorDir == DOWN {
        var below := AnyFrom(floor, -1, a);
        if HallAt(floor, UP, a) && !below {
          return Some(UP);
        }
      }
      return None;
    }

    method DecideDoorDir(a: map<RequestKey, int>, arrival: Direction) returns (dir: Direction)
      ensures dir == PickDoorDir(State(), a, arrival)
    {
      var floor := car.floor;
      var up := HallAt(floor, UP, a);
      var down := HallAt(floor, DOWN, a);
      var above := AnyFrom(floor, 1, a);
      var below := AnyFrom(floor, -1, a);
      if arrival == UP {
        if up {
          return UP;
        }
        if down && !above {
          return DOWN;
        }
      } else if arrival == DOWN {
        if down {
          return DOWN;
        }
        if up && !below {
          return UP;
        }
      } else {
        if up && !down {
          return UP;
        }
        if down && !up {
          return DOWN;
        }
        if up && down {
          if above {
            return UP;
          }
          if below {
            return DOWN;
          }
          return UP;
        }
      }
      return STOP;
    }

    method DecideStop(floor: int, dir: Direction, a: map<RequestKey, int>) returns (stops: bool)
      ensures stops == ShouldStop(State(), floor, dir, a)
    {
      if CabAt(floor) {
        return true;
      }
      if dir == UP {
        var above := AnyFrom(floor, 1, a);
        return HallAt(floor, UP, a) || (!above && HallAt(floor, DOWN, a));
      } else if dir == DOWN {
        var below := AnyFrom(floor, -1, a);
        return HallAt(floor, DOWN, a) || (!below && HallAt(floor, UP, a));
      } else {
        return CanServeFloor(floor, a);
      }
    }

    method DecideDirection(a: map<RequestKey, int>) returns (dir: Direction)
      ensures dir == NextDir(State(), a)
    {
      var above := AnyFrom(car.floor, 1, a);
      var below := AnyFrom(car.floor, -1, a);
      if travelDir == UP {
        if above {
          return UP;
        }
        if below {
          return DOWN;
        }
      } else if travelDir == DOWN {
        if below {
          return DOWN;
        }
        if above {
          return UP;
        }
      }
      var bestFloor, bestDist := -1, cfg.floors + 1;
      var floor := 0;
      while floor < cfg.floors
        invariant 0 <= floor && (if cfg.floors >= 0 then floor <= cfg.floors else floor == 0)
        invariant Candidate(bestFloor, bestDist) == Search(State(), a, floor)
        decreases cfg.floors - floor
      {
        if floor != car.floor && CanServeFloor(floor, a) {
          var dist := Abs(car.floor - floor);
          if dist < bestDist || (dist == bestDist && (bestFloor < 0 || floor < bestFloor)) {
            bestFloor, bestDist := floor, dist;
          }
        }
        floor := floor + 1;
      }
      assert Candidate(bestFloor, bestDist) == Search(State(), a, cfg.floors);
      if bestFloor < 0 {
        return STOP;
      }
      if bestFloor > car.floor {
        return UP;
      } else if bestFloor < car.floor {
        return DOWN;
      } else {
        return STOP;
      }
    }

    predicate CabAt(floor: int)
      reads this, dev, clock, reqs, peers
      ensures CabAt(floor) == Cab(State(), floor)
    {
      reqs.IsActive(CabKey(cfg.id, floor))
    }

    predicate HallAt(floor: int, dir: Direction, a: map<RequestKey, int>)
      reads this, dev, clock, reqs, peers
      ensures HallAt(floor, dir, a) == Hall(State(), floor, dir, a)
    {
      reqs.IsActive(HallKey(floor, dir)) && AssignedTo(a, HallKey(floor, dir)) == cfg.id
    }

    predicate CanServeFloor(floor: int, a: map<RequestKey, int>)
      reads this, dev, clock, reqs, peers
      ensures CanServeFloor(floor, a) == CanServe(State(), floor, a)
    {
      CabAt(floor) || HallAt(floor, UP, a) || HallAt(floor, DOWN, a)
    }

    method AnyFrom(start: int, step: int, a: map<RequestKey, int>) returns (any: bool)
      requires step == 1 || step == -1
      ensures step == 1 ==> any == AnyAbove(State(), start, a)
      ensures step == -1 ==> any == AnyBelow(State(), start, a)
    {
      var floor := start + step;
      while 0 <= floor < cfg.floors
        invariant step == 1 ==>
                    floor > start && forall f :: start < f < floor && 0 <= start + 1 ==> !CanServe(State(), f, a)
        invariant step == -1 ==>
                    floor < start &&
                    forall f :: floor < f < start && start - 1 < cfg.floors ==> !CanServe(State(), f, a)
        invariant floor != start + step ==> 0 <= start + step < cfg.floors && -1 <= floor <= cfg.floors
        decreases if step == 1 then cfg.floors - floor else floor
      {
        if CanServeFloor(floor, a) {
          return true;
        }
        floor := floor + step;
      }
      return false;
    }

    method GetAssignments() returns (a: map<RequestKey, int>)
      ensures a == ControllerModel.Assignments(State())
    {
      var states := peers.LiveStates(car);
      assert car in Live(peers.peers, car);
      a := Assign(reqs, states);
      assert StateSet(states) == Live(peers.peers, car);
    }

    method ClearFloor(dir: Direction)
      modifies clock, reqs
      ensures State() == ControllerModel.ClearFloor(old(State()), dir)
    {
      Set(CabKey(cfg.id, car.floor), false);
      if dir != STOP {
        Set(HallKey(car.floor, dir), false);
      }
    }

    method Set(key: RequestKey, active: bool)
      modifies clock, reqs
      ensures Replica(clock.State(), reqs.cells) == SetCell(old(Replica(clock.State(), reqs.cells)), key, active)
    {
      if reqs.IsActive(key) == active {
        return;
      }
      var version := clock.Next();
      reqs.Set(key, RequestCell(active, version));
    }

    method Sync()
      modifies dev
      ensures State() == ControllerModel.Sync(old(State())) && LampsAgree()
    {
      dev.SetFloorIndicator(car.floor);
      dev.SetDoorOpenLamp(car.doorOpen);
      var floor := 0;
      while floor < cfg.floors
        invariant 0 <= floor
        invariant State() == ControllerModel.Sync(old(State()))
        invariant forall f :: 0 <= f < floor && f < cfg.floors ==> LampsAt(f)
      {
        SyncFloor(floor);
        floor := floor + 1;
      }
    }

    /** One turn of the loop in `sync`. */
    method SyncFloor(floor: int)
      modifies dev`lamps
      ensures LampsAt(floor)
      ensures forall f :: f != floor && old(LampsAt(f)) ==> LampsAt(f)
    {
      if floor < cfg.floors - 1 {
        dev.SetButtonLamp(ButtonHallUp, floor, reqs.IsActive(HallKey(floor, UP)));
      }
      if floor > 0 {
        dev.SetButtonLamp(ButtonHallDown, floor, reqs.IsActive(HallKey(floor, DOWN)));
      }
      dev.SetButtonLamp(ButtonCab, floor, reqs.IsActive(CabKey(cfg.id, floor)));
    }

    predicate IsValid(button: Button, floor: int)
      reads this, dev, clock, reqs, peers
      ensures IsValid(button, floor) == ValidButton(State(), button, floor)
    {
      if floor < 0 || floor >= cfg.floors then false
      else if button == ButtonHallUp then floor < cfg.floors - 1
      else if button == ButtonHallDown then floor > 0
      else true
    }

    /** The event loop: after any sequence of events the controller is in the state
        the model says, with lamps, motor and door in agreement. */
    method Drive(events: seq<Event>)
      requires Valid()
      modifies this, dev, clock, reqs, peers
      ensures State() == StepAll(old(State()), events) && Valid()
    {
      for i := 0 to |events|
        invariant State() == StepAll(old(State()), events[..i]) && Valid()
      {
        assert events[..i + 1][..i] == events[..i];
        match events[i] {
          case Remote(now, snap) => ApplyRemote(now, snap);
          case Press(now, button, floor) => HandleButton(now, button, floor);
          case Floor(now, floor) => HandleFloor(now, floor);
          case Obstruction(now, on) => HandleObstruction(now, on);
          case Tick(now) => HandleTick(now);
          case EnableButtons => EnableButtons();
        }
      }
      assert events[..|events|] == events;
    }
  }

  ghost function StepAll(s: Ctl, events: seq<Event>): Ctl {
    if events == [] then s else Step(StepAll(s, events[..|events| - 1]), events[|events| - 1])
  }
}
