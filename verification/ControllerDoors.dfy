/** What the door does at a floor where the car turns, and once its deadline has passed. */
module ControllerDoors {
  import opened Text
  import opened Requests
  import opened Merge
  import opened Replicas
  import opened Peers
  import opened Assigner
  import opened ControllerModel
  import opened ControllerSafety
  import opened ControllerStops
  import opened ControllerEffects

  ghost predicate NothingAhead(s: Ctl, dir: Direction) {
    if dir == UP then !AnyAbove(s, s.car.floor, Assignments(s)) else !AnyBelow(s, s.car.floor, Assignments(s))
  }

  /** Clearing calls at one's own floor takes none of the others away or to oneself. */
  lemma ClearingElsewhere(o: Ctl, t: Ctl, dir: Direction, floor: int)
    requires t.rep.cells == ClearFloor(o, dir).rep.cells && t.cfg == o.cfg && t.peers == o.peers && t.car == o.car
    requires floor != o.car.floor
    ensures CanServe(t, floor, Assignments(t)) <==> CanServe(o, floor, Assignments(o))
  {
    ClearFloorClears(o, dir, CabKey(o.cfg.id, floor));
    ClearFloorClears(o, dir, HallKey(floor, UP));
    ClearFloorClears(o, dir, HallKey(floor, DOWN));
    HallMeans(o, floor, UP);
    HallMeans(o, floor, DOWN);
    HallMeans(t, floor, UP);
    HallMeans(t, floor, DOWN);
  }

  lemma NothingAheadAfterClearing(o: Ctl, t: Ctl, dir: Direction)
    requires t.rep.cells == ClearFloor(o, dir).rep.cells && t.cfg == o.cfg && t.peers == o.peers && t.car == o.car
    requires NothingAhead(o, dir)
    ensures NothingAhead(t, dir)
  {
    forall f | f != o.car.floor
      ensures CanServe(t, f, Assignments(t)) <==> CanServe(o, f, Assignments(o))
    {
      ClearingElsewhere(o, t, dir, f);
    }
  }

  /** The state in which a car moving `dir` has just arrived where it turns, with
      both hall calls of the floor its own. */
  ghost predicate TurnsHere(arrived: Ctl, dir: Direction) {
    && (dir == UP || dir == DOWN)
    && arrived.car.behavior == Moving && arrived.car.direction == dir
    && Hall(arrived, arrived.car.floor, UP, Assignments(arrived))
    && Hall(arrived, arrived.car.floor, DOWN, Assignments(arrived))
    && NothingAhead(arrived, dir)
  }

  predicate DueAt(t: Ctl, time: int) {
    t.doorDeadline.Some? && t.doorDeadline.value == time
  }

  /** The door is open for one of the floor's calls, and the other is still to come. */
  ghost predicate HoldsTurn(t: Ctl, dir: Direction) {
    && (dir == UP || dir == DOWN) && t.doorDir == dir
    && !Active(t.rep.cells, HallKey(t.car.floor, dir))
    && Hall(t, t.car.floor, -dir, Assignments(t))
  }

  ghost predicate Turning(t: Ctl, dir: Direction) {
    HoldsTurn(t, dir) && NothingAhead(t, dir)
  }

  lemma OpenParts(s: Ctl, now: int, arrival: Direction)
    ensures var o, t := Opened(s), Open(s, now, arrival);
            && t.car == o.car && t.peers == o.peers && t.cfg == o.cfg
            && t.doorDir == PickDoorDir(o, Assignments(o), arrival)
            && DueAt(t, now + s.cfg.doorOpenDuration)
            && t.rep == ClearFloor(o, t.doorDir).rep
  {
  }

  lemma TurnPicks(arrived: Ctl, dir: Direction)
    requires IdentityInv(arrived) && TurnsHere(arrived, dir)
    ensures var o := Opened(arrived);
            && PickDoorDir(o, Assignments(o), dir) == dir
            && Hall(o, o.car.floor, -dir, Assignments(o)) && NothingAhead(o, dir)
  {
    HallStaysHere(arrived, UP);
    HallStaysHere(arrived, DOWN);
    NothingAheadStays(arrived);
  }

  lemma ClearedTurn(o: Ctl, t: Ctl, dir: Direction)
    requires t.rep.cells == ClearFloor(o, dir).rep.cells && t.cfg == o.cfg && t.peers == o.peers && t.car == o.car
    requires (dir == UP || dir == DOWN) && t.doorDir == dir
    requires Hall(o, o.car.floor, -dir, Assignments(o)) && NothingAhead(o, dir)
    ensures Turning(t, dir)
  {
    NothingAheadAfterClearing(o, t, dir);
    ClearFloorClears(o, dir, HallKey(o.car.floor, dir));
    ClearFloorClears(o, dir, HallKey(o.car.floor, -dir));
    HallMeans(o, o.car.floor, -dir);
    HallMeans(t, o.car.floor, -dir);
  }

  lemma TurnOpens(arrived: Ctl, now: int, dir: Direction)
    requires IdentityInv(arrived) && TurnsHere(arrived, dir)
    ensures var t := Open(arrived, now, dir);
            && t.car == Opened(arrived).car && t.peers == arrived.peers && t.cfg == arrived.cfg
            && DueAt(t, now + arrived.cfg.doorOpenDuration)
            && Turning(t, dir)
  {
    TurnPicks(arrived, dir);
    OpenParts(arrived, now, dir);
    ClearedTurn(Opened(arrived), Open(arrived, now, dir), dir);
  }

  lemma StopOpens(s: Ctl, now: int, floor: int)
    requires 0 <= floor < s.cfg.floors && TurnsHere(Arrived(s, now, floor), s.car.direction)
    ensures HandleFloor(s, now, floor) == Open(Arrived(s, now, floor), now, s.car.direction)
  {
    assert StopsAt(s, now, floor);
  }

  lemma TurnStops(s: Ctl, now: int, floor: int)
    requires IdentityInv(s) && 0 <= floor < s.cfg.floors
    requires TurnsHere(Arrived(s, now, floor), s.car.direction)
    ensures var t := HandleFloor(s, now, floor);
            && t.car.behavior == DoorOpen && t.car.floor == floor && t.cfg == s.cfg
            && DueAt(t, now + s.cfg.doorOpenDuration) && Turning(t, s.car.direction)
  {
    StopOpens(s, now, floor);
    TurnOpens(Arrived(s, now, floor), now, s.car.direction);
  }

  // ----- the events at which an open door acts -----

  /** The event finds the deadline passed and the doorway free. */
  predicate Acts(s: Ctl, ev: Event) {
    match ev
    case Tick(now) => DoorDue(s, now)
    case Obstruction(now, on) => !on && DoorDue(Looked(s, ev), now)
    case _ => false
  }

  /** The state in which the door looks for calls at an event. */
  function Looked(s: Ctl, ev: Event): Ctl {
    match ev
    case Tick(now) => s.(peers := Expired(s.peers, s.cfg.peerTimeout, now))
    case Obstruction(_, on) => s.(car := s.car.(obstruction := on))
    case _ => s
  }

  /** Acting, the door stays open for the other hall call of its floor. */
  ghost predicate Extends(s: Ctl, ev: Event) {
    Acts(s, ev) && NextDoorDir(Looked(s, ev), Assignments(Looked(s, ev))).Some?
  }

  lemma ActsSteps(s: Ctl, ev: Event)
    requires Acts(s, ev)
    ensures Step(s, ev) == DoorStep(Looked(s, ev), TimeOf(ev))
  {
  }

  /** An extension turns the door to the other direction and clears its call. */
  lemma ExtensionTurns(s: Ctl, ev: Event)
    requires Inv(s) && Extends(s, ev)
    ensures var t := Step(s, ev);
            && t.car.behavior == DoorOpen && t.car.doorOpen && t.car.floor == s.car.floor
            && t.doorDir == -s.doorDir && (t.doorDir == UP || t.doorDir == DOWN)
            && DueAt(t, TimeOf(ev) + s.cfg.doorOpenDuration)
            && Active(s.rep.cells, HallKey(s.car.floor, t.doorDir))
            && !Active(t.rep.cells, HallKey(s.car.floor, t.doorDir))
    ensures forall key :: Active(Step(s, ev).rep.cells, key) ==> Active(s.rep.cells, key)
  {
    ActsSteps(s, ev);
    ExtendedTurns(Looked(s, ev), TimeOf(ev), -s.doorDir);
    forall key | Active(Step(s, ev).rep.cells, key)
      ensures Active(s.rep.cells, key)
    {
      ClearFloorOnlyClears(Looked(s, ev), -s.doorDir, key);
    }
  }

  lemma ExtendedTurns(s: Ctl, now: int, dir: Direction)
    requires dir == UP || dir == DOWN
    ensures var t := Extended(s, now, dir);
            && t.car == s.car && t.doorDir == dir && DueAt(t, now + s.cfg.doorOpenDuration)
            && t.rep == ClearFloor(s, dir).rep && !Active(t.rep.cells, HallKey(s.car.floor, dir))
  {
    ClearFloorClears(s, dir, HallKey(s.car.floor, dir));
  }

  // ----- the events at which it does not -----

  /** The table after the event, as long as the car clears nothing. */
  function Heard(s: Ctl, ev: Event): Cells {
    match ev
    case Remote(_, snap) => MergeAll(s.rep.cells, snap.requests)
    case Press(_, button, floor) =>
      if !s.ready || !ValidButton(s, button, floor) || (button != ButtonCab && s.peers == map[]) then s.rep.cells
      else SetCell(s.rep, PressedKey(s, button, floor), true).cells
    case _ => s.rep.cells
  }

  function Told(s: Ctl, ev: Event): PeerMap {
    match ev
    case Remote(now, snap) => if snap.soft.id != s.cfg.id then Observed(s.peers, snap.soft, now) else s.peers
    case Tick(now) => Expired(s.peers, s.cfg.peerTimeout, now)
    case _ => s.peers
  }

  /** The open door is as it was; table and peers are as given. */
  predicate LeftOpen(s: Ctl, t: Ctl, cells: Cells, peers: PeerMap) {
    && t.cfg == s.cfg && t.doorDir == s.doorDir && t.doorDeadline == s.doorDeadline
    && t.car == s.car.(floor := t.car.floor, obstruction := t.car.obstruction)
    && t.rep.cells == cells && t.peers == peers
  }

  lemma RemoteLeavesOpen(s: Ctl, now: int, snap: Snapshot)
    requires s.car.behavior == DoorOpen
    ensures LeftOpen(s, ApplyRemote(s, now, snap), Heard(s, Remote(now, snap)), Told(s, Remote(now, snap)))
    ensures ApplyRemote(s, now, snap).car.floor == s.car.floor
  {
  }

  lemma PressLeavesOpen(s: Ctl, now: int, button: Button, floor: int)
    requires s.car.behavior == DoorOpen
    ensures LeftOpen(s, HandleButton(s, now, button, floor), Heard(s, Press(now, button, floor)), s.peers)
    ensures HandleButton(s, now, button, floor).car.floor == s.car.floor
  {
  }

  lemma TickLeavesOpen(s: Ctl, now: int)
    requires s.car.behavior == DoorOpen && !DoorDue(s, now)
    ensures LeftOpen(s, HandleTick(s, now), s.rep.cells, Told(s, Tick(now)))
    ensures HandleTick(s, now).car.floor == s.car.floor
  {
  }

  /** An event at which an open door does not act leaves it as it is. */
  lemma NotActing(s: Ctl, ev: Event)
    requires s.car.behavior == DoorOpen && !Acts(s, ev)
    ensures LeftOpen(s, Step(s, ev), Heard(s, ev), Told(s, ev))
    ensures (ev.Floor? ==> ev.floor == s.car.floor) ==> Step(s, ev).car.floor == s.car.floor
  {
    match ev
    case Remote(now, snap) => RemoteLeavesOpen(s, now, snap);
    case Press(now, button, floor) => PressLeavesOpen(s, now, button, floor);
    case Tick(now) => TickLeavesOpen(s, now);
    case _ =>
  }

  // ----- what an open door extends for -----

  /** A live peer of lower id stands at the car's floor with its door open. */
  ghost predicate Outranked(t: Ctl) {
    exists id :: id in t.peers && id < t.cfg.id &&
      t.peers[id].state.behavior == DoorOpen && t.peers[id].state.floor == t.car.floor
  }

  /** The active hall calls of its floor are an open car's own unless it is outranked
      there: with its door open no car is nearer. */
  lemma OwnHereExactly(t: Ctl, dir: Direction)
    requires IdentityInv(t) && t.car.behavior == DoorOpen
    ensures Hall(t, t.car.floor, dir, Assignments(t)) <==>
            Active(t.rep.cells, HallKey(t.car.floor, dir)) && !Outranked(t)
  {
    var key := HallKey(t.car.floor, dir);
    HallMeans(t, t.car.floor, dir);
    SelfWins(t, key);
    var states := Live(t.peers, t.car);
    if Outranked(t) {
      var id :| id in t.peers && id < t.cfg.id && t.peers[id].state.behavior == DoorOpen &&
        t.peers[id].state.floor == t.car.floor;
      assert t.peers[id].state in states;
      assert !NoWorse(t.car, t.peers[id].state, key);
    } else {
      forall x | x in states
        ensures NoWorse(t.car, x, key)
      {
        if x != t.car {
          var id :| id in t.peers && t.peers[id].state == x;
        }
      }
      assert t.car in states;
    }
  }

  /** Where the door acts it extends exactly for the other hall call of its floor, if that
      is active, the car is not outranked and nothing lies ahead of it. */
  lemma ExtendsExactly(s: Ctl, ev: Event)
    requires Inv(s) && Acts(s, ev)
    ensures Extends(s, ev) <==>
            && (s.doorDir == UP || s.doorDir == DOWN)
            && Active(s.rep.cells, HallKey(s.car.floor, -s.doorDir))
            && !Outranked(Looked(s, ev)) && NothingAhead(Looked(s, ev), s.doorDir)
  {
    OwnHereExactly(Looked(s, ev), -s.doorDir);
  }

  /** Any events at all. */
  ghost predicate Steps(tr: seq<Ctl>, evs: seq<Event>) {
    |tr| == |evs| + 1 && forall j :: 0 <= j < |evs| ==> Next(tr[j], evs[j], tr[j + 1])
  }

  /** The first `i` events find the door not due. */
  ghost predicate NotActingBefore(tr: seq<Ctl>, evs: seq<Event>, i: nat)
    requires i <= |evs| < |tr|
  {
    forall j :: 0 <= j < i ==> !Acts(tr[j], evs[j])
  }

  /** The door is as it was. */
  ghost predicate DoorStays(t: Ctl, u: Ctl) {
    && Inv(u) && u.cfg == t.cfg && u.car.behavior == DoorOpen
    && u.doorDir == t.doorDir && u.doorDeadline == t.doorDeadline
  }

  lemma DoorStaysNext(t: Ctl, s: Ctl, ev: Event, u: Ctl)
    requires DoorStays(t, s) && !Acts(s, ev) && Next(s, ev, u)
    ensures DoorStays(t, u) && ((ev.Floor? ==> ev.floor == s.car.floor) ==> u.car.floor == s.car.floor)
    ensures forall key :: Active(s.rep.cells, key) && !ev.Remote? ==> Active(u.rep.cells, key)
  {
    StepKeeps(s, ev);
    NotActing(s, ev);
  }

  lemma {:induction false} DoorStaysOn(tr: seq<Ctl>, evs: seq<Event>, i: nat)
    requires Steps(tr, evs) && i <= |evs| && DoorStays(tr[0], tr[0]) && NotActingBefore(tr, evs, i)
    ensures DoorStays(tr[0], tr[i])
  {
    if i > 0 {
      DoorStaysOn(tr, evs, i - 1);
      DoorStaysNext(tr[0], tr[i - 1], evs[i - 1], tr[i]);
    }
  }

  /** Whatever the events, an open door keeps its deadline and its direction until the
      first event at which it acts, which is not before the deadline. There it is extended
      exactly if the other hall call of its floor is active, no live peer of lower id
      stands there with its door open, and nothing lies ahead of the car; extended, that
      call is cleared and the door stays open for one more full interval. */
  lemma ReversalExactly(tr: seq<Ctl>, evs: seq<Event>, i: nat, dir: Direction, due: int)
    requires Steps(tr, evs) && Inv(tr[0]) && tr[0].car.doorOpen && tr[0].doorDir == dir && DueAt(tr[0], due)
    requires i < |evs| && Acts(tr[i], evs[i]) && NotActingBefore(tr, evs, i)
    ensures forall j :: 0 <= j <= i ==> tr[j].car.doorOpen && tr[j].doorDir == dir && DueAt(tr[j], due)
    ensures TimeOf(evs[i]) >= due
    ensures Extends(tr[i], evs[i]) <==>
            && (dir == UP || dir == DOWN) && Active(tr[i].rep.cells, HallKey(tr[i].car.floor, -dir))
            && !Outranked(Looked(tr[i], evs[i])) && NothingAhead(Looked(tr[i], evs[i]), dir)
    ensures Extends(tr[i], evs[i]) ==>
              && tr[i + 1].car.doorOpen && DueAt(tr[i + 1], TimeOf(evs[i]) + tr[0].cfg.doorOpenDuration)
              && !Active(tr[i + 1].rep.cells, HallKey(tr[i].car.floor, -dir))
  {
    forall j | 0 <= j <= i
      ensures DoorStays(tr[0], tr[j])
    {
      DoorStaysOn(tr, evs, j);
    }
    ActsOnTime(tr[i], evs[i], due);
    ExtendsExactly(tr[i], evs[i]);
    if Extends(tr[i], evs[i]) {
      ExtensionTurns(tr[i], evs[i]);
    }
  }

  lemma ActsOnTime(s: Ctl, ev: Event, due: int)
    requires Acts(s, ev) && DueAt(s, due)
    ensures TimeOf(ev) >= due
  {
  }

  /** No sensor but that of the car's floor reports among the first `i` events, and no
      snapshot clears the call. */
  predicate CallIsLeft(tr: seq<Ctl>, evs: seq<Event>, i: nat, key: RequestKey)
    requires i <= |evs| < |tr|
  {
    && (forall j :: 0 <= j < i && evs[j].Floor? ==> evs[j].floor == tr[j].car.floor)
    && (forall j :: 0 <= j < i && evs[j].Remote? && Active(tr[j].rep.cells, key) ==> Active(tr[j + 1].rep.cells, key))
  }

  lemma CallStaysNext(t: Ctl, s: Ctl, ev: Event, u: Ctl, key: RequestKey)
    requires DoorStays(t, s) && !Acts(s, ev) && Next(s, ev, u) && Active(s.rep.cells, key)
    requires ev.Floor? ==> ev.floor == s.car.floor
    requires ev.Remote? ==> Active(u.rep.cells, key)
    ensures u.car.floor == s.car.floor && Active(u.rep.cells, key)
  {
    DoorStaysNext(t, s, ev, u);
  }

  /** Meanwhile a call of the floor can be lost to a snapshot only. */
  lemma {:induction false} CallStays(tr: seq<Ctl>, evs: seq<Event>, i: nat, key: RequestKey)
    requires Steps(tr, evs) && i <= |evs| && DoorStays(tr[0], tr[0]) && NotActingBefore(tr, evs, i)
    requires Active(tr[0].rep.cells, key) && CallIsLeft(tr, evs, i, key)
    ensures tr[i].car.floor == tr[0].car.floor && Active(tr[i].rep.cells, key)
  {
    if i > 0 {
      CallStays(tr, evs, i - 1, key);
      DoorStaysOn(tr, evs, i - 1);
      CallStaysNext(tr[0], tr[i - 1], evs[i - 1], tr[i], key);
    }
  }

  // ----- two calls at a turn -----

  /** The event brings no news: the snapshot is known already, the button pressed is
      lit or does not count, the sensor is that of the car's floor. */
  ghost predicate Quiet(s: Ctl, ev: Event) {
    match ev
    case Remote(_, snap) =>
      !AnyWins(s.rep.cells, snap.requests) && (snap.soft.id == s.cfg.id || !NewsIn(s.peers, snap.soft))
    case Press(_, _, _) => Heard(s, ev) == s.rep.cells
    case Floor(_, floor) => floor == s.car.floor
    case _ => true
  }

  /** The peers of `t` are peers of `s`, in the same states. */
  predicate NoNewPeers(s: Ctl, t: Ctl) {
    forall id :: id in t.peers ==> id in s.peers && t.peers[id].state == s.peers[id].state
  }

  /** With nothing new known of the peers, what was the car's own stays its own. */
  lemma OwnCallStays(s: Ctl, t: Ctl, key: RequestKey)
    requires IdentityInv(s) && IdentityInv(t) && NoNewPeers(s, t)
    requires t.cfg == s.cfg && t.car == s.car.(obstruction := t.car.obstruction)
    requires Winner(Live(s.peers, s.car), key) == s.cfg.id
    ensures Winner(Live(t.peers, t.car), key) == t.cfg.id
  {
    SelfWins(s, key);
    var states := Live(t.peers, t.car);
    forall x | x in states
      ensures NoWorse(t.car, x, key)
    {
      if x != t.car {
        var id :| id in t.peers && t.peers[id].state == x;
        assert s.peers[id].state in Live(s.peers, s.car);
        assert NoWorse(s.car, x, key);
      }
    }
    assert t.car in states && Best(states, key, t.car);
    SelfWins(t, key);
  }

  lemma OwnHallStays(s: Ctl, t: Ctl, floor: int, dir: Direction)
    requires IdentityInv(s) && IdentityInv(t) && NoNewPeers(s, t) && t.rep.cells == s.rep.cells
    requires t.cfg == s.cfg && t.car == s.car.(obstruction := t.car.obstruction)
    requires Hall(s, floor, dir, Assignments(s))
    ensures Hall(t, floor, dir, Assignments(t))
  {
    HallMeans(s, floor, dir);
    HallMeans(t, floor, dir);
    OwnCallStays(s, t, HallKey(floor, dir));
  }

  lemma NothingAheadInView(s: Ctl, t: Ctl, dir: Direction)
    requires IdentityInv(s) && IdentityInv(t) && NoNewPeers(t, s) && t.rep.cells == s.rep.cells
    requires t.cfg == s.cfg && t.car == s.car.(obstruction := t.car.obstruction)
    requires NothingAhead(s, dir)
    ensures NothingAhead(t, dir)
  {
    forall f | CanServe(t, f, Assignments(t))
      ensures CanServe(s, f, Assignments(s))
    {
      if Hall(t, f, UP, Assignments(t)) {
        OwnHallStays(t, s, f, UP);
      }
      if Hall(t, f, DOWN, Assignments(t)) {
        OwnHallStays(t, s, f, DOWN);
      }
    }
  }

  lemma QuietTold(s: Ctl, ev: Event)
    requires Quiet(s, ev) && IdentityInv(s)
    ensures Heard(s, ev) == s.rep.cells
    ensures var t := s.(peers := Told(s, ev));
            NoNewPeers(s, t) && (!ev.Tick? || t.peers == s.peers ==> NoNewPeers(t, s))
  {
    if ev.Remote? {
      NoWinNoChange(s.rep.cells, ev.snap.requests);
    }
  }

  /** A quiet event at which the door does not act leaves the call to come its own. */
  lemma QuietKeeps(s: Ctl, ev: Event, t: Ctl, dir: Direction)
    requires Inv(s) && s.car.behavior == DoorOpen && HoldsTurn(s, dir) && Quiet(s, ev) && !Acts(s, ev) && Next(s, ev, t)
    ensures Inv(t) && t.cfg == s.cfg && t.car.behavior == DoorOpen && t.car.floor == s.car.floor
    ensures t.doorDeadline == s.doorDeadline && HoldsTurn(t, dir)
    ensures NothingAhead(s, dir) && (!ev.Tick? || Told(s, ev) == s.peers) ==> NothingAhead(t, dir)
  {
    StepKeeps(s, ev);
    NotActing(s, ev);
    QuietTold(s, ev);
    OwnHallStays(s, t, s.car.floor, -dir);
    if NothingAhead(s, dir) && (!ev.Tick? || Told(s, ev) == s.peers) {
      NothingAheadInView(s, t, dir);
    }
  }

  /** Where the door acts, it extends exactly when nothing lies ahead. */
  lemma TurnEnds(s: Ctl, ev: Event, dir: Direction)
    requires Inv(s) && s.car.behavior == DoorOpen && HoldsTurn(s, dir) && Acts(s, ev)
    ensures Extends(s, ev) <==> NothingAhead(Looked(s, ev), dir)
    ensures NothingAhead(s, dir) && (!ev.Tick? || Told(s, ev) == s.peers) ==> Extends(s, ev)
  {
    var look := Looked(s, ev);
    OwnHallStays(s, look, s.car.floor, -dir);
    if NothingAhead(s, dir) && (!ev.Tick? || Told(s, ev) == s.peers) {
      NothingAheadInView(s, look, dir);
    }
  }

  /** From the first state on, only quiet events. */
  ghost predicate QuietRun(tr: seq<Ctl>, evs: seq<Event>) {
    |tr| == |evs| + 1 && forall j :: 0 <= j < |evs| ==> Next(tr[j], evs[j], tr[j + 1]) && Quiet(tr[j], evs[j])
  }

  /** No tick among the first `i` events finds a peer timed out. */
  predicate PeersStay(tr: seq<Ctl>, evs: seq<Event>, i: nat)
    requires i <= |evs| < |tr|
  {
    forall j :: 0 <= j < i && evs[j].Tick? ==> Told(tr[j], evs[j]) == tr[j].peers
  }

  ghost predicate StillHolds(t: Ctl, u: Ctl, dir: Direction) {
    && Inv(u) && u.cfg == t.cfg && u.car.behavior == DoorOpen && u.car.floor == t.car.floor
    && u.doorDeadline == t.doorDeadline && HoldsTurn(u, dir)
  }

  lemma HoldsNext(t: Ctl, tr: seq<Ctl>, evs: seq<Event>, i: nat, dir: Direction)
    requires QuietRun(tr, evs) && i < |evs| && !Acts(tr[i], evs[i]) && StillHolds(t, tr[i], dir)
    ensures StillHolds(t, tr[i + 1], dir)
    ensures NothingAhead(tr[i], dir) && (!evs[i].Tick? || Told(tr[i], evs[i]) == tr[i].peers) ==>
              NothingAhead(tr[i + 1], dir)
  {
    QuietKeeps(tr[i], evs[i], tr[i + 1], dir);
  }

  lemma {:induction false} HoldsOn(t: Ctl, tr: seq<Ctl>, evs: seq<Event>, i: nat, dir: Direction)
    requires QuietRun(tr, evs) && i <= |evs| && StillHolds(t, tr[0], dir)
    requires NotActingBefore(tr, evs, i)
    ensures StillHolds(t, tr[i], dir)
    ensures NothingAhead(tr[0], dir) && PeersStay(tr, evs, i) ==> NothingAhead(tr[i], dir)
  {
    if i > 0 {
      HoldsOn(t, tr, evs, i - 1, dir);
      HoldsNext(t, tr, evs, i - 1, dir);
    }
  }

  /** The door is open, one hall call of its floor is cleared and the other is active. */
  predicate BetweenCalls(t: Ctl, floor: int, dir: Direction, due: int) {
    && t.car.doorOpen && DueAt(t, due)
    && !Active(t.rep.cells, HallKey(floor, dir)) && Active(t.rep.cells, HallKey(floor, -dir))
  }

  lemma HoldsBetween(t: Ctl, u: Ctl, dir: Direction, due: int)
    requires StillHolds(t, u, dir) && DueAt(t, due)
    ensures BetweenCalls(u, t.car.floor, dir, due)
  {
  }

  lemma TurnFinishes(s: Ctl, ev: Event, u: Ctl, floor: int, dir: Direction, due: int)
    requires StillHolds(s, s, dir) && BetweenCalls(s, floor, dir, due) && s.car.floor == floor
    requires Acts(s, ev) && Next(s, ev, u)
    ensures TimeOf(ev) >= due && (Extends(s, ev) <==> NothingAhead(Looked(s, ev), dir))
    ensures NothingAhead(s, dir) && (!ev.Tick? || Told(s, ev) == s.peers) ==> Extends(s, ev)
    ensures Extends(s, ev) ==>
              && u.car.doorOpen && DueAt(u, TimeOf(ev) + s.cfg.doorOpenDuration)
              && !Active(u.rep.cells, HallKey(floor, -dir))
  {
    TurnEnds(s, ev, dir);
    if Extends(s, ev) {
      ExtensionTurns(s, ev);
    }
  }

  /** The door is open where the car turns: the call of one direction is cleared, the
      other is the car's own and nothing lies ahead. */
  ghost predicate AtTurn(t: Ctl, floor: int, dir: Direction, due: int) {
    StillHolds(t, t, dir) && NothingAhead(t, dir) && BetweenCalls(t, floor, dir, due) && t.car.floor == floor
  }

  /** The stop of a car where it turns, with both hall calls of the floor its own. */
  lemma StopAtTurn(s: Ctl, now: int, floor: int)
    requires Inv(s) && 0 <= floor < s.cfg.floors && TurnsHere(Arrived(s, now, floor), s.car.direction)
    ensures AtTurn(HandleFloor(s, now, floor), floor, s.car.direction, now + s.cfg.doorOpenDuration)
    ensures HandleFloor(s, now, floor).cfg == s.cfg
  {
    TurnStops(s, now, floor);
    FloorKeeps(s, now, floor);
  }

  /** From there, whatever happens as long as no snapshot clears the other call and no
      other floor's sensor reports, the door stays open with that call waiting. The first
      event at which it acts, not before the deadline, extends it exactly when no live peer
      of lower id has its door open there and there still is nothing ahead of the car;
      extended, the other call is cleared and the door stays open for one more full
      interval. */
  lemma ReversalServesBoth(tr: seq<Ctl>, evs: seq<Event>, i: nat, floor: int, dir: Direction, due: int)
    requires Steps(tr, evs) && AtTurn(tr[0], floor, dir, due)
    requires i < |evs| && Acts(tr[i], evs[i]) && NotActingBefore(tr, evs, i)
    requires CallIsLeft(tr, evs, i, HallKey(floor, -dir))
    ensures forall j :: 0 <= j <= i ==>
              tr[j].car.doorOpen && DueAt(tr[j], due) && tr[j].car.floor == floor &&
              Active(tr[j].rep.cells, HallKey(floor, -dir))
    ensures TimeOf(evs[i]) >= due
    ensures Extends(tr[i], evs[i]) <==> !Outranked(Looked(tr[i], evs[i])) && NothingAhead(Looked(tr[i], evs[i]), dir)
    ensures Extends(tr[i], evs[i]) ==>
              && tr[i + 1].car.doorOpen && DueAt(tr[i + 1], TimeOf(evs[i]) + tr[0].cfg.doorOpenDuration)
              && !Active(tr[i + 1].rep.cells, HallKey(floor, -dir))
  {
    ReversalExactly(tr, evs, i, dir, due);
    forall j | 0 <= j <= i
      ensures tr[j].car.floor == floor && Active(tr[j].rep.cells, HallKey(floor, -dir))
    {
      CallStays(tr, evs, j, HallKey(floor, -dir));
    }
  }

  /** If all these events are quiet, nothing can come ahead of the car but what a timed-out
      peer leaves it, and the first of the two calls stays cleared. */
  lemma QuietTurnServesBoth(tr: seq<Ctl>, evs: seq<Event>, i: nat, floor: int, dir: Direction, due: int)
    requires QuietRun(tr, evs) && AtTurn(tr[0], floor, dir, due)
    requires i < |evs| && Acts(tr[i], evs[i]) && NotActingBefore(tr, evs, i)
    ensures forall j :: 0 <= j <= i ==> BetweenCalls(tr[j], floor, dir, due)
    ensures TimeOf(evs[i]) >= due
    ensures Extends(tr[i], evs[i]) <==> NothingAhead(Looked(tr[i], evs[i]), dir)
    ensures PeersStay(tr, evs, i + 1) ==> Extends(tr[i], evs[i])
    ensures Extends(tr[i], evs[i]) ==>
              && tr[i + 1].car.doorOpen && DueAt(tr[i + 1], TimeOf(evs[i]) + tr[0].cfg.doorOpenDuration)
              && !Active(tr[i + 1].rep.cells, HallKey(floor, -dir))
  {
    forall j | 0 <= j <= i
      ensures BetweenCalls(tr[j], floor, dir, due)
    {
      HoldsOn(tr[0], tr, evs, j, dir);
      HoldsBetween(tr[0], tr[j], dir, due);
    }
    HoldsOn(tr[0], tr, evs, i, dir);
    TurnFinishes(tr[i], evs[i], tr[i + 1], floor, dir, due);
  }

  /** A doorway that becomes free after the deadline lets the door close at once
      exactly when no call to turn for holds it and the closed car has no call of its
      own at the floor. */
  lemma ClosesAtOnceExactly(s: Ctl, now: int)
    requires Inv(s) && s.car.behavior == DoorOpen && now >= s.doorDeadline.value
    ensures var told := s.(car := s.car.(obstruction := false));
            !HandleObstruction(s, now, false).car.doorOpen <==>
            NextDoorDir(told, Assignments(told)).None? &&
            !CanServe(Closed(told), s.car.floor, Assignments(Closed(told)))
  {
    var told := s.(car := s.car.(obstruction := false));
    assert DoorDue(told, now);
    if NextDoorDir(told, Assignments(told)).None? {
      var c := Closed(told);
      if !CanServe(c, c.car.floor, Assignments(c)) {
        NextDirRange(c, Assignments(c));
      }
    }
  }
}
