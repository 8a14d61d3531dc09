/** Soft state (`internal/model/types.go`) and the view a node keeps of its peers
    (`internal/cluster/tracker.go`). */
module Peers {
  import opened Text
  import opened Requests
  import opened Sorting

  /** Behaviours arrive in snapshots as free text. */
  datatype Behavior = Idle | Moving | DoorOpen | Stuck | OtherBehavior(name: string)

  datatype SoftState = SoftState(
    id: int,
    boot: string,
    floor: int,
    direction: Direction,
    behavior: Behavior,
    doorOpen: bool,
    obstruction: bool)

  datatype Snapshot = Snapshot(soft: SoftState, requests: seq<RequestEntry>)

  datatype Peer = Peer(state: SoftState, seen: int)

  type PeerMap = map<int, Peer>

  // ----- what the tracker does to its map -----

  predicate Stale(peers: PeerMap, state: SoftState) {
    state.id in peers && Less(state.boot, peers[state.id].state.boot)
  }

  function Observed(peers: PeerMap, state: SoftState, now: int): PeerMap {
    if Stale(peers, state) then peers else peers[state.id := Peer(state, now)]
  }

  predicate NewsIn(peers: PeerMap, state: SoftState) {
    !Stale(peers, state) && (state.id !in peers || peers[state.id].state != state)
  }

  function Expired(peers: PeerMap, timeout: int, now: int): PeerMap {
    map id | id in peers && now - peers[id].seen <= timeout :: peers[id]
  }

  /** The states a node decides on: its own and those of its peers. */
  ghost function Live(peers: PeerMap, self: SoftState): set<SoftState> {
    {self} + set id | id in peers :: peers[id].state
  }

  predicate ById(a: SoftState, b: SoftState) {
    a.id <= b.id
  }

  /** The flag of `Observe` is raised exactly when the states it shows change, and
      a tracked peer never falls back to an earlier boot. */
  lemma ObserveExact(peers: PeerMap, state: SoftState, now: int, self: SoftState)
    ensures NewsIn(peers, state) <==>
            !(state.id in peers && state.id in Observed(peers, state, now) &&
              Observed(peers, state, now)[state.id].state == peers[state.id].state)
    ensures forall id :: id in peers ==>
              id in Observed(peers, state, now) &&
              !Less(Observed(peers, state, now)[id].state.boot, peers[id].state.boot)
    ensures !NewsIn(peers, state) ==> Live(Observed(peers, state, now), self) == Live(peers, self)
  {
    forall id | id in peers
      ensures !Less(Observed(peers, state, now)[id].state.boot, peers[id].state.boot)
    {
      LessIrreflexive(peers[id].state.boot);
    }
    if !NewsIn(peers, state) {
      var after := Observed(peers, state, now);
      assert after.Keys == peers.Keys;
      assert forall id :: id in peers ==> after[id].state == peers[id].state;
    }
  }

  class PeerTracker {
    const timeout: int
    var peers: PeerMap

    constructor (timeout: int)
      ensures this.timeout == timeout && peers == map[]
    {
      this.timeout := timeout;
      peers := map[];
    }

    method Observe(state: SoftState, now: int) returns (changed: bool)
      modifies this
      ensures peers == Observed(old(peers), state, now)
      ensures changed == NewsIn(old(peers), state)
    {
      if state.id in peers && Less(state.boot, peers[state.id].state.boot) {
        return false;
      }
      changed := state.id !in peers || peers[state.id].state != state;
      peers := peers[state.id := Peer(state, now)];
    }

    method Expire(now: int) returns (changed: bool)
      modifies this
      ensures peers == Expired(old(peers), timeout, now)
      ensures changed <==> peers != old(peers)
    {
      changed := false;
      var rest := peers.Keys;
      while rest != {}
        invariant rest <= peers.Keys
        invariant peers == map id | id in old(peers) && (id in rest || now - old(peers)[id].seen <= timeout) ::
                             old(peers)[id]
        invariant changed <==> peers.Keys != old(peers).Keys
      {
        ghost var some := AnElement(rest);
        var id :| id in rest;
        rest := rest - {id};
        if now - peers[id].seen > timeout {
          peers := peers - {id};
          changed := true;
        }
      }
      if !changed {
        assert peers == old(peers);
      }
    }

    predicate Connected()
      reads this
      ensures Connected() <==> peers != map[]
    {
      |peers| > 0
    }

    method LiveStates(self: SoftState) returns (out: seq<SoftState>)
      ensures forall s :: s in out <==> s in Live(peers, self)
      ensures Ordered(out, ById)
    {
      out := [self];
      var rest := peers.Keys;
      while rest != {}
        invariant rest <= peers.Keys
        invariant forall s :: s in out <==> s == self || exists id :: id in peers.Keys - rest && peers[id].state == s
      {
        ghost var some := AnElement(rest);
        var id :| id in rest;
        ghost var done := peers.Keys - rest;
        rest := rest - {id};
        out := out + [peers[id].state];
        assert peers.Keys - rest == done + {id};
      }
      var sorted := SortFunc(out, ById);
      SortFuncOrdered(out, ById);
      SameElements(out, sorted);
      out := sorted;
    }
  }
}
