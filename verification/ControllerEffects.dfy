/** What an event may write, which calls it may clear, and how long a door stays open. */
module ControllerEffects {
  import opened Text
  import opened Versions
  import opened Requests
  import opened Merge
  import opened Replicas
  import opened Peers
  import opened Assigner
  import opened ControllerModel
  import opened ControllerSafety
  import opened ControllerStops

  /** The replica once a received snapshot is merged, before the controller acts. */
  function Base(s: Ctl, ev: Event): Replica {
    if ev.Remote? then Received(s.rep, ev.snap.requests) else s.rep
  }

  // ----- local writes are writes of the replication protocol -----

  /** At most `n` local writes lead from one to the other. */
  ghost predicate WritesOnly(id: int, before: Replica, after: Replica, n: int) {
    exists ws :: AllowedWrites(id, ws) && |ws| <= n && after == WriteAll(before, ws)
  }

  lemma WriteNothing(id: int, r: Replica, n: nat)
    ensures WritesOnly(id, r, r, n)
  {
    assert AllowedWrites(id, []) && r == WriteAll(r, []);
  }

  lemma WriteFewer(id: int, before: Replica, after: Replica, n: int, more: int)
    requires WritesOnly(id, before, after, n) && n <= more
    ensures WritesOnly(id, before, after, more)
  {
  }

  lemma WriteOneMore(id: int, before: Replica, r: Replica, n: int, key: RequestKey, active: bool)
    requires WritesOnly(id, before, r, n) && MayWrite(id, key)
    ensures WritesOnly(id, before, SetCell(r, key, active), n + 1)
  {
    var ws :| AllowedWrites(id, ws) && |ws| <= n && r == WriteAll(before, ws);
    var more := ws + [CellWrite(key, active)];
    assert more[..|more| - 1] == ws;
    assert AllowedWrites(id, more) && SetCell(r, key, active) == WriteAll(before, more);
  }

  lemma ClearFloorWrites(s: Ctl, dir: Direction, before: Replica, n: int)
    requires WritesOnly(s.cfg.id, before, s.rep, n)
    ensures WritesOnly(s.cfg.id, before, ClearFloor(s, dir).rep, n + 2)
  {
    var cab := CabKey(s.cfg.id, s.car.floor);
    WriteOneMore(s.cfg.id, before, s.rep, n, cab, false);
    WriteOneMore(s.cfg.id, before, SetCell(s.rep, cab, false), n + 1, HallKey(s.car.floor, dir), false);
    WriteFewer(s.cfg.id, before, SetCell(s.rep, cab, false), n + 1, n + 2);
  }

  lemma OpenWrites(s: Ctl, now: int, arrival: Direction, before: Replica, n: int)
    requires WritesOnly(s.cfg.id, before, s.rep, n)
    ensures WritesOnly(s.cfg.id, before, Open(s, now, arrival).rep, n + 2)
  {
    var o := Opened(s);
    ClearFloorWrites(o, PickDoorDir(o, Assignments(o), arrival), before, n);
  }

  lemma PlanWrites(s: Ctl, now: int, before: Replica, n: int)
    requires WritesOnly(s.cfg.id, before, s.rep, n)
    ensures WritesOnly(s.cfg.id, before, Plan(s, now).rep, n + 2)
  {
    OpenWrites(s, now, s.travelDir, before, n);
    WriteFewer(s.cfg.id, before, s.rep, n, n + 2);
  }

  lemma DoorStepWrites(s: Ctl, now: int, before: Replica, n: int)
    requires WritesOnly(s.cfg.id, before, s.rep, n)
    ensures WritesOnly(s.cfg.id, before, DoorStep(s, now).rep, n + 2)
  {
    match NextDoorDir(s, Assignments(s))
    case Some(dir) => ClearFloorWrites(s.(doorDir := dir), dir, before, n);
    case None => PlanWrites(Closed(s), now, before, n);
  }

  lemma RemoteWrites(s: Ctl, now: int, snap: Snapshot)
    ensures WritesOnly(s.cfg.id, Received(s.rep, snap.requests), ApplyRemote(s, now, snap).rep, 3)
  {
    var merged := s.(rep := Received(s.rep, snap.requests));
    var told := if snap.soft.id != s.cfg.id then merged.(peers := Observed(s.peers, snap.soft, now)) else merged;
    WriteNothing(s.cfg.id, merged.rep, 1);
    WriteNothing(s.cfg.id, merged.rep, 3);
    PlanWrites(told, now, merged.rep, 1);
  }

  lemma PressWrites(s: Ctl, now: int, button: Button, floor: int)
    ensures WritesOnly(s.cfg.id, s.rep, HandleButton(s, now, button, floor).rep, 3)
  {
    WriteNothing(s.cfg.id, s.rep, 0);
    WriteNothing(s.cfg.id, s.rep, 3);
    WriteOneMore(s.cfg.id, s.rep, s.rep, 0, PressedKey(s, button, floor), true);
    PlanWrites(s.(rep := SetCell(s.rep, PressedKey(s, button, floor), true)), now, s.rep, 1);
  }

  lemma FloorWrites(s: Ctl, now: int, floor: int)
    ensures WritesOnly(s.cfg.id, s.rep, HandleFloor(s, now, floor).rep, 3)
  {
    WriteNothing(s.cfg.id, s.rep, 1);
    WriteNothing(s.cfg.id, s.rep, 3);
    var o := Opened(Arrived(s, now, floor));
    ClearFloorWrites(o, PickDoorDir(o, Assignments(o), s.car.direction), s.rep, 1);
  }

  lemma ObstructionWrites(s: Ctl, now: int, on: bool)
    ensures WritesOnly(s.cfg.id, s.rep, HandleObstruction(s, now, on).rep, 3)
  {
    WriteNothing(s.cfg.id, s.rep, 1);
    WriteNothing(s.cfg.id, s.rep, 3);
    DoorStepWrites(s.(car := s.car.(obstruction := on)), now, s.rep, 1);
  }

  lemma TickWrites(s: Ctl, now: int)
    ensures WritesOnly(s.cfg.id, s.rep, HandleTick(s, now).rep, 3)
  {
    WriteNothing(s.cfg.id, s.rep, 1);
    WriteNothing(s.cfg.id, s.rep, 3);
    var t := s.(peers := Expired(s.peers, s.cfg.peerTimeout, now));
    PlanWrites(t, now, s.rep, 1);
    DoorStepWrites(t, now, s.rep, 1);
  }

  /** Whatever the event, after the merge the replica changes only by writes of the
      node's own cab calls and of hall calls, three at most. */
  lemma StepWrites(s: Ctl, ev: Event)
    ensures WritesOnly(s.cfg.id, Base(s, ev), Step(s, ev).rep, 3)
  {
    match ev
    case Remote(now, snap) => RemoteWrites(s, now, snap);
    case Press(now, button, floor) => PressWrites(s, now, button, floor);
    case Floor(now, floor) => FloorWrites(s, now, floor);
    case Obstruction(now, on) => ObstructionWrites(s, now, on);
    case Tick(now) => TickWrites(s, now);
    case EnableButtons => WriteNothing(s.cfg.id, s.rep, 3);
  }

  // ----- which calls an event clears -----

  /** The car stands with its door open at the call's floor, and the call is its own
      cab call or a hall call that the view it decided on gives to it. */
  ghost predicate MayClear(t: Ctl, key: RequestKey) {
    && t.car.behavior == DoorOpen && t.car.doorOpen && t.out.motor == STOP
    && key.floor == t.car.floor
    && (key == CabKey(t.cfg.id, t.car.floor) ||
        ((key == HallKey(t.car.floor, UP) || key == HallKey(t.car.floor, DOWN)) &&
         Winner(Live(t.peers, t.car), key) == t.cfg.id))
  }

  ghost predicate ClearsProperly(before: Cells, t: Ctl) {
    forall key :: Active(before, key) && !Active(t.rep.cells, key) ==> MayClear(t, key)
  }

  lemma PickedIsServed(s: Ctl, arrival: Direction)
    ensures var dir := PickDoorDir(s, Assignments(s), arrival);
            dir != STOP ==> (dir == UP || dir == DOWN) && Hall(s, s.car.floor, dir, Assignments(s))
  {
  }

  lemma OpenClearsProperly(s: Ctl, now: int, arrival: Direction)
    ensures ClearsProperly(s.rep.cells, Open(s, now, arrival))
  {
    var o := Opened(s);
    var dir := PickDoorDir(o, Assignments(o), arrival);
    PickedIsServed(o, arrival);
    if dir != STOP {
      HallMeans(o, s.car.floor, dir);
    }
    var t := Open(s, now, arrival);
    assert t.rep == ClearFloor(o, dir).rep;
    forall key | Active(s.rep.cells, key) && !Active(t.rep.cells, key)
      ensures MayClear(t, key)
    {
      ClearFloorClears(o, dir, key);
    }
  }

  lemma PlanClearsProperly(s: Ctl, now: int)
    ensures ClearsProperly(s.rep.cells, Plan(s, now))
  {
    OpenClearsProperly(s, now, s.travelDir);
  }

  lemma ExtensionClears(s: Ctl, now: int)
    requires Inv(s) && DoorDue(s, now) && NextDoorDir(s, Assignments(s)).Some?
    ensures ClearsProperly(s.rep.cells, DoorStep(s, now))
    ensures var key := HallKey(s.car.floor, NextDoorDir(s, Assignments(s)).value);
            Active(s.rep.cells, key) && !Active(DoorStep(s, now).rep.cells, key)
  {
    var dir := NextDoorDir(s, Assignments(s)).value;
    HallMeans(s, s.car.floor, dir);
    var t := DoorStep(s, now);
    assert t.rep == ClearFloor(s, dir).rep;
    forall key | Active(s.rep.cells, key) && !Active(t.rep.cells, key)
      ensures MayClear(t, key)
    {
      ClearFloorClears(s, dir, key);
    }
    ClearFloorClears(s, dir, HallKey(s.car.floor, dir));
  }

  lemma DoorStepClearsProperly(s: Ctl, now: int)
    requires Inv(s) && DoorDue(s, now)
    ensures ClearsProperly(s.rep.cells, DoorStep(s, now))
  {
    if NextDoorDir(s, Assignments(s)).Some? {
      ExtensionClears(s, now);
    } else {
      PlanClearsProperly(Closed(s), now);
    }
  }

  /** Every call a controller clears, it clears standing at the call's floor with the
      door open and the motor stopped, and the call is its own. */
  lemma StepClearsProperly(s: Ctl, ev: Event)
    requires Inv(s)
    ensures ClearsProperly(Base(s, ev).cells, Step(s, ev))
  {
    match ev
    case Remote(now, snap) =>
      var merged := s.(rep := Received(s.rep, snap.requests));
      PlanClearsProperly(merged, now);
      PlanClearsProperly(merged.(peers := Observed(s.peers, snap.soft, now)), now);
    case Press(now, button, floor) =>
      var pressed := s.(rep := SetCell(s.rep, PressedKey(s, button, floor), true));
      PlanClearsProperly(pressed, now);
      assert forall key :: Active(s.rep.cells, key) ==> Active(pressed.rep.cells, key);
    case Floor(now, floor) =>
      OpenClearsProperly(Arrived(s, now, floor), now, s.car.direction);
    case Obstruction(now, on) =>
      var told := s.(car := s.car.(obstruction := on));
      if DoorDue(told, now) {
        DoorStepClearsProperly(told, now);
      }
    case Tick(now) =>
      var t := s.(peers := Expired(s.peers, s.cfg.peerTimeout, now));
      PlanClearsProperly(t, now);
      if DoorDue(t, now) {
        DoorStepClearsProperly(t, now);
      }
    case EnableButtons =>
  }

  lemma ClearFloorOnlyClears(s: Ctl, dir: Direction, key: RequestKey)
    requires Active(ClearFloor(s, dir).rep.cells, key)
    ensures Active(s.rep.cells, key)
  {
    ClearFloorClears(s, dir, key);
  }

  lemma PlanOnlyClears(s: Ctl, now: int, key: RequestKey)
    requires Active(Plan(s, now).rep.cells, key)
    ensures Active(s.rep.cells, key)
  {
    var o := Opened(s);
    var dir := PickDoorDir(o, Assignments(o), s.travelDir);
    if Active(ClearFloor(o, dir).rep.cells, key) {
      ClearFloorOnlyClears(o, dir, key);
    }
  }

  lemma DoorStepOnlyClears(s: Ctl, now: int, key: RequestKey)
    requires Active(DoorStep(s, now).rep.cells, key)
    ensures Active(s.rep.cells, key)
  {
    match NextDoorDir(s, Assignments(s))
    case Some(dir) => ClearFloorOnlyClears(s, dir, key);
    case None => PlanOnlyClears(Closed(s), now, key);
  }

  /** A call becomes active by its button or by a snapshot and in no other way; a
      hall button counts only while the node has a peer. */
  lemma OnlyPressesActivate(s: Ctl, ev: Event, key: RequestKey)
    requires Active(Step(s, ev).rep.cells, key) && !Active(Base(s, ev).cells, key)
    ensures ev.Press? && s.ready && ValidButton(s, ev.button, ev.floor)
    ensures key == PressedKey(s, ev.button, ev.floor)
    ensures ev.button != ButtonCab ==> s.peers != map[]
  {
    match ev
    case Remote(now, snap) =>
      var merged := s.(rep := Received(s.rep, snap.requests));
      var told := if snap.soft.id != s.cfg.id then merged.(peers := Observed(s.peers, snap.soft, now)) else merged;
      if Active(Plan(told, now).rep.cells, key) {
        PlanOnlyClears(told, now, key);
      }
    case Press(now, button, floor) =>
      var pressed := s.(rep := SetCell(s.rep, PressedKey(s, button, floor), true));
      if Active(Plan(pressed, now).rep.cells, key) {
        PlanOnlyClears(pressed, now, key);
      }
    case Floor(now, floor) =>
      var o := Opened(Arrived(s, now, floor));
      var dir := PickDoorDir(o, Assignments(o), s.car.direction);
      if Active(ClearFloor(o, dir).rep.cells, key) {
        ClearFloorOnlyClears(o, dir, key);
      }
    case Obstruction(now, on) =>
      var told := s.(car := s.car.(obstruction := on));
      if Active(DoorStep(told, now).rep.cells, key) {
        DoorStepOnlyClears(told, now, key);
      }
    case Tick(now) =>
      var t := s.(peers := Expired(s.peers, s.cfg.peerTimeout, now));
      if Active(Plan(t, now).rep.cells, key) {
        PlanOnlyClears(t, now, key);
      }
      if Active(DoorStep(t, now).rep.cells, key) {
        DoorStepOnlyClears(t, now, key);
      }
    case EnableButtons =>
  }

  /** A press that counts is not lost: its call is active afterwards unless the car,
      standing at the floor, opens its door for it at once. */
  lemma PressCounts(s: Ctl, now: int, button: Button, floor: int)
    requires s.ready && ValidButton(s, button, floor) && (button == ButtonCab || s.peers != map[])
    ensures var t, key := HandleButton(s, now, button, floor), PressedKey(s, button, floor);
            Active(t.rep.cells, key) || MayClear(t, key)
  {
    var pressed := s.(rep := SetCell(s.rep, PressedKey(s, button, floor), true));
    PlanClearsProperly(pressed, now);
    assert Active(pressed.rep.cells, PressedKey(s, button, floor));
  }

  // ----- how long the door stays open -----

  function TimeOf(ev: Event): int {
    match ev
    case Remote(now, _) => now
    case Press(now, _, _) => now
    case Floor(now, _) => now
    case Obstruction(now, _) => now
    case Tick(now) => now
    case EnableButtons => 0
  }

  lemma OpenDeadline(s: Ctl, now: int, arrival: Direction)
    ensures Open(s, now, arrival).doorDeadline == Some(now + s.cfg.doorOpenDuration)
    ensures Open(s, now, arrival).car.obstruction == s.car.obstruction
  {
  }

  lemma PlanDeadline(s: Ctl, now: int)
    ensures Plan(s, now).doorDeadline == s.doorDeadline ||
            (s.car.behavior != DoorOpen && Plan(s, now).doorDeadline == Some(now + s.cfg.doorOpenDuration))
    ensures Plan(s, now).car.obstruction == s.car.obstruction
  {
    if s.car.behavior != DoorOpen && s.car.behavior != Stuck && CanServe(s, s.car.floor, Assignments(s)) {
      OpenDeadline(s, now, s.travelDir);
    }
  }

  lemma DoorStepDeadline(s: Ctl, now: int)
    ensures var d := DoorStep(s, now).doorDeadline; d == None || d == Some(now + s.cfg.doorOpenDuration)
    ensures DoorStep(s, now).car.obstruction == s.car.obstruction
  {
    match NextDoorDir(s, Assignments(s))
    case Some(_) =>
    case None => PlanDeadline(Closed(s), now);
  }

  /** A deadline is always one full interval away when it is set, and one that is
      set is dropped or replaced only by a tick or a cleared obstruction that finds
      it passed and the doorway free. */
  lemma DeadlineRule(s: Ctl, ev: Event, t: Ctl)
    requires Inv(s) && Next(s, ev, t) && t.doorDeadline != s.doorDeadline
    ensures t.doorDeadline.Some? ==> t.doorDeadline.value == TimeOf(ev) + s.cfg.doorOpenDuration
    ensures s.doorDeadline.Some? ==>
              (ev.Tick? || ev.Obstruction?) && s.doorDeadline.value <= TimeOf(ev) && !t.car.obstruction
  {
    match ev
    case Remote(now, snap) =>
      var merged := s.(rep := Received(s.rep, snap.requests));
      var told := if snap.soft.id != s.cfg.id then merged.(peers := Observed(s.peers, snap.soft, now)) else merged;
      PlanDeadline(told, now);
    case Press(now, button, floor) =>
      PlanDeadline(s.(rep := SetCell(s.rep, PressedKey(s, button, floor), true)), now);
    case Floor(now, floor) =>
    case Obstruction(now, on) => DoorStepDeadline(s.(car := s.car.(obstruction := on)), now);
    case Tick(now) =>
      var u := s.(peers := Expired(s.peers, s.cfg.peerTimeout, now));
      PlanDeadline(u, now);
      DoorStepDeadline(u, now);
    case EnableButtons =>
  }

  /** The deadline that stands at `j` was set by event `i` and has stood since. */
  ghost predicate StoodSince(ds: seq<Option<int>>, times: seq<int>, d: int, i: int, j: int)
    requires |ds| == |times| + 1 && 0 <= i < j <= |times|
  {
    ds[i] != ds[j] && ds[j] == Some(times[i] + d) && forall k :: i < k <= j ==> ds[k] == ds[j]
  }

  lemma {:induction false} LastSet(ds: seq<Option<int>>, times: seq<int>, d: int, j: nat) returns (i: nat)
    requires |ds| == |times| + 1 && ds[0] == None
    requires forall k :: 0 <= k < |times| && ds[k + 1] != ds[k] && ds[k + 1].Some? ==> ds[k + 1].value == times[k] + d
    requires j <= |times| && ds[j].Some?
    ensures i < j && StoodSince(ds, times, d, i, j)
  {
    if ds[j] == ds[j - 1] {
      i := LastSet(ds, times, d, j - 1);
    } else {
      i := j - 1;
    }
  }

  ghost function Deadlines(tr: seq<Ctl>): (ds: seq<Option<int>>)
    ensures |ds| == |tr| && forall k :: 0 <= k < |tr| ==> ds[k] == tr[k].doorDeadline
  {
    seq(|tr|, k requires 0 <= k < |tr| => tr[k].doorDeadline)
  }

  ghost function Times(evs: seq<Event>): (ts: seq<int>)
    ensures |ts| == |evs| && forall k :: 0 <= k < |evs| ==> ts[k] == TimeOf(evs[k])
  {
    seq(|evs|, k requires 0 <= k < |evs| => TimeOf(evs[k]))
  }

  lemma RunDeadlineRule(tr: seq<Ctl>, evs: seq<Event>, j: nat)
    requires Run(tr, evs) && j < |evs| && tr[j + 1].doorDeadline != tr[j].doorDeadline
    ensures tr[j + 1].doorDeadline.Some? ==>
              tr[j + 1].doorDeadline.value == TimeOf(evs[j]) + tr[0].cfg.doorOpenDuration
    ensures tr[j].doorDeadline.Some? ==>
              (evs[j].Tick? || evs[j].Obstruction?) && tr[j].doorDeadline.value <= TimeOf(evs[j]) &&
              !tr[j + 1].car.obstruction
  {
    RunInv(tr, evs, j);
    DeadlineRule(tr[j], evs[j], tr[j + 1]);
  }

  lemma InitialDeadline(tr: seq<Ctl>, evs: seq<Event>)
    requires Run(tr, evs)
    ensures tr[0].doorDeadline == None
  {
    var raw, t0 :| tr[0] == Initial(raw, t0);
  }

  /** In every run, when the deadline of an open door is dropped (the door closes) or
      replaced (it is extended) by event `j`, it had been set by some earlier event `i`,
      the door had been open ever since, the full interval had passed, and the doorway
      was free. */
  lemma DoorHeld(tr: seq<Ctl>, evs: seq<Event>, j: nat)
    requires Run(tr, evs) && j < |evs|
    requires tr[j].doorDeadline.Some? && tr[j + 1].doorDeadline != tr[j].doorDeadline
    ensures (evs[j].Tick? || evs[j].Obstruction?) && !tr[j + 1].car.obstruction
    ensures exists i :: 0 <= i < j && StoodSince(Deadlines(tr), Times(evs), tr[0].cfg.doorOpenDuration, i, j) &&
              (forall k :: i < k <= j ==> tr[k].car.doorOpen) &&
              TimeOf(evs[i]) + tr[0].cfg.doorOpenDuration <= TimeOf(evs[j])
  {
    var d := tr[0].cfg.doorOpenDuration;
    var ds, times := Deadlines(tr), Times(evs);
    RunDeadlineRule(tr, evs, j);
    InitialDeadline(tr, evs);
    forall k | 0 <= k < |times| && ds[k + 1] != ds[k] && ds[k + 1].Some?
      ensures ds[k + 1].value == times[k] + d
    {
      RunDeadlineRule(tr, evs, k);
    }
    var i := LastSet(ds, times, d, j);
    forall k | i < k <= j
      ensures tr[k].car.doorOpen
    {
      RunInv(tr, evs, k);
      assert ds[k].Some?;
    }
  }
}
