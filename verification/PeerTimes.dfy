/** How long a peer is tracked: over any events, exactly as long as its last fresh
    snapshot is no older than the timeout. */
module PeerTimes {
  import opened Text
  import opened Requests
  import opened Replicas
  import opened Peers
  import opened ControllerModel
  import opened ControllerSafety
  import opened ControllerEffects
  import opened ControllerDoors

  // ----- one heartbeat -----

  /** A snapshot from an earlier boot than the one the peer is known in. */
  predicate FromEarlierBoot(peers: PeerMap, state: SoftState) {
    state.id in peers && Less(state.boot, peers[state.id].state.boot)
  }

  /** A snapshot that is not from an earlier boot refreshes its peer, whether its state
      has changed or not: from `now` on it is tracked for exactly the timeout. One that is
      changes nothing, and neither touches another peer. */
  lemma HeartbeatRefreshes(peers: PeerMap, state: SoftState, now: int, timeout: int, later: int)
    ensures !FromEarlierBoot(peers, state) ==>
              (state.id in Expired(Observed(peers, state, now), timeout, later) <==> later - now <= timeout)
    ensures !FromEarlierBoot(peers, state) ==>
              state.id in Observed(peers, state, now) && Observed(peers, state, now)[state.id] == Peer(state, now)
    ensures FromEarlierBoot(peers, state) ==> Observed(peers, state, now) == peers
    ensures forall id :: id != state.id ==>
              (id in Observed(peers, state, now) <==> id in peers) &&
              (id in peers ==> Observed(peers, state, now)[id] == peers[id])
  {
  }

  // ----- over any events -----

  /** The event is a snapshot of the peer that the node takes in. */
  predicate Fresh(s: Ctl, ev: Event, id: int) {
    ev.Remote? && ev.snap.soft.id == id && id != s.cfg.id && !FromEarlierBoot(s.peers, ev.snap.soft)
  }

  /** The last of the first `i` events to be one. */
  function LastFresh(tr: seq<Ctl>, evs: seq<Event>, i: nat, id: int): (last: Option<nat>)
    requires i <= |evs| < |tr|
    ensures last.Some? ==> last.value < i
  {
    if i == 0 then None
    else if Fresh(tr[i - 1], evs[i - 1], id) then Some(i - 1)
    else LastFresh(tr, evs, i - 1, id)
  }

  /** Ticks and snapshots come in order of time. */
  predicate InTime(evs: seq<Event>) {
    forall j, l :: 0 <= j < l < |evs| && (evs[j].Tick? || evs[j].Remote?) && (evs[l].Tick? || evs[l].Remote?) ==>
      TimeOf(evs[j]) <= TimeOf(evs[l])
  }

  /** What the event makes of the peers. */
  predicate PeersNext(s: Ctl, ev: Event, t: Ctl) {
    match ev
    case Remote(now, snap) => t.peers == if snap.soft.id == s.cfg.id then s.peers else Observed(s.peers, snap.soft, now)
    case Tick(now) => t.peers == Expired(s.peers, s.cfg.peerTimeout, now)
    case _ => t.peers == s.peers
  }

  lemma PlanKeepsPeers(s: Ctl, now: int)
    ensures Plan(s, now).peers == s.peers
  {
  }

  lemma DoorStepKeepsPeers(s: Ctl, now: int)
    ensures DoorStep(s, now).peers == s.peers
  {
    PlanKeepsPeers(Closed(s), now);
  }

  lemma TickPeers(s: Ctl, now: int)
    ensures HandleTick(s, now).peers == Expired(s.peers, s.cfg.peerTimeout, now)
  {
    var t := s.(peers := Expired(s.peers, s.cfg.peerTimeout, now));
    PlanKeepsPeers(t, now);
    DoorStepKeepsPeers(t, now);
  }

  lemma StepPeers(s: Ctl, ev: Event)
    ensures PeersNext(s, ev, Step(s, ev))
  {
    match ev
    case Remote(now, snap) =>
    case Press(now, button, floor) =>
      PlanKeepsPeers(s.(rep := SetCell(s.rep, PressedKey(s, button, floor), true)), now);
    case Floor(now, floor) =>
    case Obstruction(now, on) => DoorStepKeepsPeers(s.(car := s.car.(obstruction := on)), now);
    case Tick(now) => TickPeers(s, now);
    case EnableButtons =>
  }

  /** Some tick after event `j` and before `i` has found it too old. */
  predicate Lapsed(evs: seq<Event>, timeout: int, j: nat, i: nat)
    requires j < i <= |evs|
  {
    exists l :: j < l < i && evs[l].Tick? && TimeOf(evs[l]) - TimeOf(evs[j]) > timeout
  }

  /** The peer is tracked with its last fresh snapshot, or that has lapsed. */
  predicate TrackedAsHeard(tr: seq<Ctl>, evs: seq<Event>, timeout: int, i: nat, id: int)
    requires i <= |evs| < |tr|
  {
    match LastFresh(tr, evs, i, id)
    case None => id !in tr[i].peers
    case Some(j) =>
      if id in tr[i].peers then
        evs[j].Remote? && tr[i].peers[id] == Peer(evs[j].snap.soft, TimeOf(evs[j])) && !Lapsed(evs, timeout, j, i)
      else Lapsed(evs, timeout, j, i)
  }

  lemma LapsedOneMore(evs: seq<Event>, timeout: int, j: nat, i: nat)
    requires j < i < |evs|
    ensures Lapsed(evs, timeout, j, i + 1) <==>
            Lapsed(evs, timeout, j, i) || (evs[i].Tick? && TimeOf(evs[i]) - TimeOf(evs[j]) > timeout)
  {
  }

  lemma TrackedNext(tr: seq<Ctl>, evs: seq<Event>, i: nat, id: int)
    requires |tr| == |evs| + 1 && i < |evs| && PeersNext(tr[i], evs[i], tr[i + 1])
    requires TrackedAsHeard(tr, evs, tr[i].cfg.peerTimeout, i, id)
    ensures TrackedAsHeard(tr, evs, tr[i].cfg.peerTimeout, i + 1, id)
  {
    var timeout := tr[i].cfg.peerTimeout;
    if Fresh(tr[i], evs[i], id) {
      assert tr[i + 1].peers[id] == Peer(evs[i].snap.soft, TimeOf(evs[i]));
    } else if LastFresh(tr, evs, i, id).Some? {
      LapsedOneMore(evs, timeout, LastFresh(tr, evs, i, id).value, i);
    }
  }

  lemma RunPeersNext(tr: seq<Ctl>, evs: seq<Event>, i: nat)
    requires Run(tr, evs) && i < |evs|
    ensures PeersNext(tr[i], evs[i], tr[i + 1]) && tr[i].cfg == tr[0].cfg
  {
    RunInv(tr, evs, i);
    StepPeers(tr[i], evs[i]);
  }

  lemma InitialPeers(tr: seq<Ctl>, evs: seq<Event>)
    requires Run(tr, evs)
    ensures tr[0].peers == map[]
  {
    var raw, t0 :| tr[0] == Initial(raw, t0);
  }

  lemma {:induction false} RunTracks(tr: seq<Ctl>, evs: seq<Event>, i: nat, id: int)
    requires Run(tr, evs) && i <= |evs|
    ensures TrackedAsHeard(tr, evs, tr[0].cfg.peerTimeout, i, id)
  {
    if i == 0 {
      InitialPeers(tr, evs);
    } else {
      RunTracks(tr, evs, i - 1, id);
      RunPeersNext(tr, evs, i - 1);
      TrackedNext(tr, evs, i - 1, id);
    }
  }

  /** After a tick, the snapshot of event `j` is no older than the timeout exactly if no
      tick so far has found it older. */
  lemma LapsedExactly(evs: seq<Event>, timeout: int, j: nat, i: nat)
    requires j < i < |evs| && InTime(evs) && evs[i].Tick? && evs[j].Remote?
    ensures Lapsed(evs, timeout, j, i + 1) <==> TimeOf(evs[i]) - TimeOf(evs[j]) > timeout
  {
    if Lapsed(evs, timeout, j, i) {
      var l :| j < l < i && evs[l].Tick? && TimeOf(evs[l]) - TimeOf(evs[j]) > timeout;
    }
    LapsedOneMore(evs, timeout, j, i);
  }

  /** In every run in order of time, a tick leaves a peer tracked exactly if a fresh
      snapshot of it is there and the last one is no older than the timeout; and it is
      tracked with the state of that snapshot. */
  lemma TrackedExactly(tr: seq<Ctl>, evs: seq<Event>, i: nat, id: int)
    requires Run(tr, evs) && i < |evs| && evs[i].Tick? && InTime(evs)
    ensures var last := LastFresh(tr, evs, i, id);
            && (id in tr[i + 1].peers <==>
                last.Some? && TimeOf(evs[i]) - TimeOf(evs[last.value]) <= tr[0].cfg.peerTimeout)
            && (id in tr[i + 1].peers ==>
                evs[last.value].Remote? && tr[i + 1].peers[id].state == evs[last.value].snap.soft)
  {
    RunTracks(tr, evs, i + 1, id);
    assert LastFresh(tr, evs, i + 1, id) == LastFresh(tr, evs, i, id);
    if LastFresh(tr, evs, i, id).Some? {
      FreshIsRemote(tr, evs, i, id);
      LapsedExactly(evs, tr[0].cfg.peerTimeout, LastFresh(tr, evs, i, id).value, i);
    }
  }

  lemma {:induction false} FreshIsRemote(tr: seq<Ctl>, evs: seq<Event>, i: nat, id: int)
    requires i <= |evs| < |tr| && LastFresh(tr, evs, i, id).Some?
    ensures var j := LastFresh(tr, evs, i, id).value; Fresh(tr[j], evs[j], id)
  {
    if !Fresh(tr[i - 1], evs[i - 1], id) {
      FreshIsRemote(tr, evs, i - 1, id);
    }
  }
}
