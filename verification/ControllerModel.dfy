/** The controller's state and what each event makes of it
    (`internal/controller/controller.go`), as functions of the state before. */
module ControllerModel {
  import opened Text
  import opened Requests
  import opened Merge
  import opened Replicas
  import opened Peers
  import opened Assigner

  /** Durations are in nanoseconds. */
  datatype Config = Config(
    id: int,
    boot: string,
    floors: int,
    startFloor: int,
    doorOpenDuration: int,
    peerTimeout: int,
    stuckTimeout: int)

  const SECOND := 1_000_000_000
  const DEFAULT_FLOORS := 4

  function WithDefaults(cfg: Config): Config {
    cfg.(floors := if cfg.floors == 0 then DEFAULT_FLOORS else cfg.floors,
         doorOpenDuration := if cfg.doorOpenDuration == 0 then 3 * SECOND else cfg.doorOpenDuration,
         peerTimeout := if cfg.peerTimeout == 0 then SECOND else cfg.peerTimeout,
         stuckTimeout := if cfg.stuckTimeout == 0 then 5 * SECOND else cfg.stuckTimeout)
  }

  datatype Button = ButtonHallUp | ButtonHallDown | ButtonCab

  function ButtonDirection(b: Button): Direction {
    match b
    case ButtonHallUp => UP
    case ButtonHallDown => DOWN
    case ButtonCab => STOP
  }

  /** What was last commanded of the hardware, button lamps apart. */
  datatype Outputs = Outputs(motor: Direction, doorLamp: bool, floorIndicator: int)

  datatype Ctl = Ctl(
    cfg: Config,
    out: Outputs,
    rep: Replica,
    peers: PeerMap,
    car: SoftState,
    ready: bool,
    doorDeadline: Option<int>,
    lastMove: int,
    travelDir: Direction,
    doorDir: Direction)

  // ----- what can be served -----

  ghost function Assignments(s: Ctl): map<RequestKey, int> {
    HallAssignment(s.rep.cells, Live(s.peers, s.car))
  }

  predicate Cab(s: Ctl, floor: int) {
    Active(s.rep.cells, CabKey(s.cfg.id, floor))
  }

  /** Reading a Go map at a missing key gives 0. */
  function AssignedTo(a: map<RequestKey, int>, key: RequestKey): int {
    if key in a then a[key] else 0
  }

  predicate Hall(s: Ctl, floor: int, dir: Direction, a: map<RequestKey, int>) {
    Active(s.rep.cells, HallKey(floor, dir)) && AssignedTo(a, HallKey(floor, dir)) == s.cfg.id
  }

  predicate CanServe(s: Ctl, floor: int, a: map<RequestKey, int>) {
    Cab(s, floor) || Hall(s, floor, UP, a) || Hall(s, floor, DOWN, a)
  }

  /** Some floor of the shaft beyond `floor` can be served; a walk that starts
      outside the shaft ends at once. */
  predicate AnyAbove(s: Ctl, floor: int, a: map<RequestKey, int>) {
    floor >= -1 && exists f :: floor < f < s.cfg.floors && CanServe(s, f, a)
  }

  predicate AnyBelow(s: Ctl, floor: int, a: map<RequestKey, int>) {
    floor <= s.cfg.floors && exists f :: 0 <= f < floor && CanServe(s, f, a)
  }

  predicate ShouldStop(s: Ctl, floor: int, dir: Direction, a: map<RequestKey, int>) {
    Cab(s, floor) ||
    if dir == UP then Hall(s, floor, UP, a) || (!AnyAbove(s, floor, a) && Hall(s, floor, DOWN, a))
    else if dir == DOWN then Hall(s, floor, DOWN, a) || (!AnyBelow(s, floor, a) && Hall(s, floor, UP, a))
    else CanServe(s, floor, a)
  }

  // ----- which way to go -----

  datatype Candidate = Candidate(floor: int, dist: int)

  /** One turn of the search for the nearest floor to serve. */
  function Consider(s: Ctl, a: map<RequestKey, int>, best: Candidate, floor: int): Candidate {
    if floor == s.car.floor || !CanServe(s, floor, a) then best
    else
      var dist := Abs(s.car.floor - floor);
      if dist < best.dist || (dist == best.dist && (best.floor < 0 || floor < best.floor)) then Candidate(floor, dist)
      else best
  }

  function Search(s: Ctl, a: map<RequestKey, int>, upTo: int): Candidate
    decreases upTo
  {
    if upTo <= 0 then Candidate(-1, s.cfg.floors + 1)
    else Consider(s, a, Search(s, a, upTo - 1), upTo - 1)
  }

  function NextDir(s: Ctl, a: map<RequestKey, int>): Direction {
    var floor := s.car.floor;
    if s.travelDir == UP && AnyAbove(s, floor, a) then UP
    else if s.travelDir == UP && AnyBelow(s, floor, a) then DOWN
    else if s.travelDir == DOWN && AnyBelow(s, floor, a) then DOWN
    else if s.travelDir == DOWN && AnyAbove(s, floor, a) then UP
    else
      var best := Search(s, a, s.cfg.floors).floor;
      if best < 0 then STOP
      else if best > floor then UP
      else if best < floor then DOWN
      else STOP
  }

  // ----- the door -----

  function PickDoorDir(s: Ctl, a: map<RequestKey, int>, arrival: Direction): Direction {
    var floor := s.car.floor;
    var up, down := Hall(s, floor, UP, a), Hall(s, floor, DOWN, a);
    if arrival == UP then
      if up then UP
      else if down && !AnyAbove(s, floor, a) then DOWN
      else STOP
    else if arrival == DOWN then
      if down then DOWN
      else if up && !AnyBelow(s, floor, a) then UP
      else STOP
    else if up && !down then UP
    else if down && !up then DOWN
    else if up && down then
      if AnyAbove(s, floor, a) then UP
      else if AnyBelow(s, floor, a) then DOWN
      else UP
    else STOP
  }

  /** The call a door that is about to close still has to announce. */
  function NextDoorDir(s: Ctl, a: map<RequestKey, int>): Option<Direction> {
    var floor := s.car.floor;
    if s.doorDir == UP && Hall(s, floor, DOWN, a) && !AnyAbove(s, floor, a) then Some(DOWN)
    else if s.doorDir == DOWN && Hall(s, floor, UP, a) && !AnyBelow(s, floor, a) then Some(UP)
    else None
  }

  function ClearFloor(s: Ctl, dir: Direction): Ctl {
    var cabCleared := SetCell(s.rep, CabKey(s.cfg.id, s.car.floor), false);
    s.(rep := if dir == STOP then cabCleared else SetCell(cabCleared, HallKey(s.car.floor, dir), false))
  }

  function Sync(s: Ctl): Ctl {
    s.(out := s.out.(floorIndicator := s.car.floor, doorLamp := s.car.doorOpen))
  }

  /** The state in which `open` asks for the assignments. */
  function Opened(s: Ctl): Ctl {
    s.(car := s.car.(behavior := DoorOpen, direction := STOP, doorOpen := true))
  }

  ghost function Open(s: Ctl, now: int, arrival: Direction): Ctl {
    var o := Opened(s);
    var dir := PickDoorDir(o, Assignments(o), arrival);
    Sync(ClearFloor(o.(doorDir := dir,
                       doorDeadline := Some(now + s.cfg.doorOpenDuration),
                       out := s.out.(motor := STOP, doorLamp := true)), dir))
  }

  function Halted(s: Ctl): Ctl {
    Sync(s.(car := s.car.(behavior := Idle, direction := STOP), out := s.out.(motor := STOP)))
  }

  function Departed(s: Ctl, now: int, dir: Direction): Ctl {
    Sync(s.(car := s.car.(behavior := Moving, direction := dir), travelDir := dir, lastMove := now,
            out := s.out.(motor := dir)))
  }

  ghost function Plan(s: Ctl, now: int): Ctl {
    if s.car.behavior == DoorOpen || s.car.behavior == Stuck then Sync(s)
    else
      var a := Assignments(s);
      if CanServe(s, s.car.floor, a) then Open(s, now, s.travelDir)
      else
        var dir := NextDir(s, a);
        if dir == STOP then Halted(s) else Departed(s, now, dir)
  }

  predicate DoorDue(s: Ctl, now: int) {
    s.car.behavior == DoorOpen && !s.car.obstruction && s.doorDeadline.Some? && now >= s.doorDeadline.value
  }

  function Closed(s: Ctl): Ctl {
    s.(car := s.car.(doorOpen := false, behavior := Idle), doorDir := STOP, doorDeadline := None,
       out := s.out.(doorLamp := false))
  }

  function Extended(s: Ctl, now: int, dir: Direction): Ctl {
    Sync(ClearFloor(s.(doorDir := dir), dir).(doorDeadline := Some(now + s.cfg.doorOpenDuration)))
  }

  /** `doorStep` when it acts. */
  ghost function DoorStep(s: Ctl, now: int): Ctl {
    match NextDoorDir(s, Assignments(s))
    case Some(dir) => Extended(s, now, dir)
    case None => Plan(Closed(s), now)
  }

  // ----- events -----

  datatype Event =
    | Remote(now: int, snap: Snapshot)
    | Press(now: int, button: Button, floor: int)
    | Floor(now: int, floor: int)
    | Obstruction(now: int, on: bool)
    | Tick(now: int)
    | EnableButtons

  predicate ValidButton(s: Ctl, button: Button, floor: int) {
    && 0 <= floor < s.cfg.floors
    && (button == ButtonHallUp ==> floor < s.cfg.floors - 1)
    && (button == ButtonHallDown ==> floor > 0)
  }

  function PressedKey(s: Ctl, button: Button, floor: int): RequestKey {
    if button == ButtonCab then CabKey(s.cfg.id, floor) else HallKey(floor, ButtonDirection(button))
  }

  ghost function ApplyRemote(s: Ctl, now: int, snap: Snapshot): Ctl {
    var merged := s.(rep := Received(s.rep, snap.requests));
    var foreign := snap.soft.id != s.cfg.id;
    var told := if foreign then merged.(peers := Observed(s.peers, snap.soft, now)) else merged;
    if AnyWins(s.rep.cells, snap.requests) || (foreign && NewsIn(s.peers, snap.soft)) then Plan(told, now)
    else Sync(told)
  }

  ghost function HandleButton(s: Ctl, now: int, button: Button, floor: int): Ctl {
    if !s.ready || !ValidButton(s, button, floor) || (button != ButtonCab && s.peers == map[]) then s
    else Plan(s.(rep := SetCell(s.rep, PressedKey(s, button, floor), true)), now)
  }

  /** The car at a floor sensor, before anything is decided. */
  function Arrived(s: Ctl, now: int, floor: int): Ctl {
    s.(car := s.car.(floor := floor), lastMove := now, out := s.out.(floorIndicator := floor))
  }

  predicate InTransit(s: Ctl) {
    s.car.behavior == Moving || s.car.behavior == Stuck
  }

  ghost predicate StopsAt(s: Ctl, now: int, floor: int) {
    var arrived := Arrived(s, now, floor);
    0 <= floor < s.cfg.floors && InTransit(s) &&
    ShouldStop(arrived, floor, s.car.direction, Assignments(arrived))
  }

  ghost function HandleFloor(s: Ctl, now: int, floor: int): Ctl {
    var arrived := Arrived(s, now, floor);
    if floor < 0 || floor >= s.cfg.floors then s
    else if StopsAt(s, now, floor) then Open(arrived, now, s.car.direction)
    else if s.car.behavior == Stuck then Sync(arrived.(car := arrived.car.(behavior := Moving)))
    else Sync(arrived)
  }

  ghost function HandleObstruction(s: Ctl, now: int, on: bool): Ctl {
    var told := s.(car := s.car.(obstruction := on));
    if !on && DoorDue(told, now) then DoorStep(told, now) else Sync(told)
  }

  function StuckNow(s: Ctl): Ctl {
    Sync(s.(car := s.car.(behavior := Stuck, direction := STOP), out := s.out.(motor := STOP)))
  }

  ghost function HandleTick(s: Ctl, now: int): Ctl {
    var t := s.(peers := Expired(s.peers, s.cfg.peerTimeout, now));
    if t.peers != s.peers && t.car.behavior != DoorOpen then Plan(t, now)
    else if t.car.behavior == Moving && now - t.lastMove > t.cfg.stuckTimeout then StuckNow(t)
    else if DoorDue(t, now) then DoorStep(t, now)
    else if t.car.behavior == Idle then Plan(t, now)
    else Sync(t)
  }

  ghost function Step(s: Ctl, ev: Event): Ctl {
    match ev
    case Remote(now, snap) => ApplyRemote(s, now, snap)
    case Press(now, button, floor) => HandleButton(s, now, button, floor)
    case Floor(now, floor) => HandleFloor(s, now, floor)
    case Obstruction(now, on) => HandleObstruction(s, now, on)
    case Tick(now) => HandleTick(s, now)
    case EnableButtons => s.(ready := true)
  }

  /** `New` on a device that stands still. */
  function Initial(raw: Config, now: int): Ctl {
    var cfg := WithDefaults(raw);
    Sync(Ctl(cfg, Outputs(STOP, false, cfg.startFloor), Replica(ClockState(0, cfg.id, cfg.boot), map[]), map[],
             SoftState(cfg.id, cfg.boot, cfg.startFloor, STOP, Idle, false, false),
             false, None, now, STOP, STOP))
  }
}
