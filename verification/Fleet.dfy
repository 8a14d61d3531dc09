/** A fleet of controllers that exchange snapshots: every run of it is, as far as the
    request tables go, a run of the replication protocol. */
module Fleet {
  import opened Text
  import opened Versions
  import opened Requests
  import opened Merge
  import opened MergeOrder
  import opened Replicas
  import opened Peers
  import opened ControllerModel
  import opened ControllerSafety
  import opened ControllerEffects
  import Protocol = Replication

  datatype Fleet = Fleet(cars: map<int, Ctl>, net: set<seq<RequestEntry>>)

  /** A process starts or restarts; a controller handles an event, a received snapshot
      being one that was sent; a controller's snapshot is sent; a clock is seeded. */
  datatype Happening =
    | Boot(raw: Config, now: int)
    | Handle(id: int, ev: Event)
    | Gossip(id: int, es: seq<RequestEntry>)
    | SeedClock(id: int, max: UInt64)

  const NOBODY := Fleet(map[], {})

  ghost predicate CanHappen(f: Fleet, h: Happening) {
    match h
    case Boot(raw, _) => raw.id in f.cars ==> Less(f.cars[raw.id].cfg.boot, raw.boot)
    case Handle(id, ev) => id in f.cars && (ev.Remote? ==> ev.snap.requests in f.net)
    case Gossip(id, es) => id in f.cars && Lists(es, f.cars[id].rep.cells, false)
    case SeedClock(id, max) => id in f.cars && IsMaxCounter(f.cars[id].rep.cells, max)
  }

  ghost function Happens(f: Fleet, h: Happening): Fleet
    requires CanHappen(f, h)
  {
    match h
    case Boot(raw, now) => f.(cars := f.cars[raw.id := Initial(raw, now)])
    case Handle(id, ev) => f.(cars := f.cars[id := Step(f.cars[id], ev)])
    case Gossip(id, es) => f.(net := f.net + {es})
    case SeedClock(id, max) =>
      var s := f.cars[id];
      f.(cars := f.cars[id := s.(rep := s.rep.(clock := Raised(s.rep.clock, max)))])
  }

  ghost predicate FleetRun(tr: seq<Fleet>, hs: seq<Happening>) {
    && |tr| == |hs| + 1 && tr[0] == NOBODY
    && forall i :: 0 <= i < |hs| ==> CanHappen(tr[i], hs[i]) && tr[i + 1] == Happens(tr[i], hs[i])
  }

  // ----- refinement -----

  /** The protocol's cluster has the fleet's tables, clocks and packets. */
  ghost predicate Shadows(c: Protocol.Cluster, f: Fleet) {
    && c.nodes.Keys == c.log.Keys == f.cars.Keys && c.net == f.net
    && forall id :: id in f.cars ==> f.cars[id].cfg.id == id && Inv(f.cars[id]) && c.nodes[id] == f.cars[id].rep
  }

  /** A stretch of a protocol run that starts in `c`. */
  ghost predicate Segment(c: Protocol.Cluster, cs: seq<Protocol.Cluster>, es: seq<Protocol.Event>) {
    && |cs| == |es| + 1 && cs[0] == c
    && (forall i :: 0 <= i < |cs| ==> cs[i].nodes.Keys == cs[i].log.Keys)
    && (forall i :: 0 <= i < |es| ==> Protocol.Enabled(cs[i], es[i]) && cs[i + 1] == Protocol.Apply(cs[i], es[i]))
  }

  lemma OneEvent(c: Protocol.Cluster, ev: Protocol.Event)
    requires Protocol.Enabled(c, ev) && c.nodes.Keys == c.log.Keys
    ensures Segment(c, [c, Protocol.Apply(c, ev)], [ev])
  {
  }

  lemma Joined(c: Protocol.Cluster, cs: seq<Protocol.Cluster>, es: seq<Protocol.Event>,
               ds: seq<Protocol.Cluster>, fs: seq<Protocol.Event>)
    requires Segment(c, cs, es) && Segment(cs[|es|], ds, fs)
    ensures Segment(c, cs + ds[1..], es + fs) && (cs + ds[1..])[|es + fs|] == ds[|fs|]
  {
    var all, evs := cs + ds[1..], es + fs;
    forall i | |es| <= i < |all|
      ensures all[i] == ds[i - |es|]
    {
    }
    forall i | 0 <= i < |evs|
      ensures Protocol.Enabled(all[i], evs[i]) && all[i + 1] == Protocol.Apply(all[i], evs[i])
    {
      if i < |es| {
        assert all[i] == cs[i] && all[i + 1] == cs[i + 1];
      } else {
        assert all[i] == ds[i - |es|] && all[i + 1] == ds[i - |es| + 1];
      }
    }
  }

  /** `d` is `c` with another replica at one node. */
  ghost predicate OnlyAt(c: Protocol.Cluster, d: Protocol.Cluster, id: int, r: Replica) {
    d.nodes == c.nodes[id := r] && d.net == c.net && d.log.Keys == d.nodes.Keys
  }

  ghost predicate WritesOf(es: seq<Protocol.Event>, id: int) {
    forall e :: e in es ==> e.Write? && e.id == id
  }

  /** A list of local writes is that many events of the protocol. */
  lemma {:induction false} WritesAreEvents(c: Protocol.Cluster, id: int, ws: seq<CellWrite>)
    returns (cs: seq<Protocol.Cluster>, es: seq<Protocol.Event>)
    requires c.nodes.Keys == c.log.Keys && id in c.nodes && AllowedWrites(id, ws)
    ensures Segment(c, cs, es) && |es| == |ws| && WritesOf(es, id)
    ensures OnlyAt(c, cs[|es|], id, WriteAll(c.nodes[id], ws))
  {
    if ws == [] {
      cs, es := [c], [];
    } else {
      var front, last := ws[..|ws| - 1], ws[|ws| - 1];
      assert ws == front + [last];
      var bs, fs := WritesAreEvents(c, id, front);
      var b, ev := bs[|fs|], Protocol.Write(id, last.key, last.active);
      OneWrite(c, b, id, front, last);
      OneEvent(b, ev);
      Joined(c, bs, fs, [b, Protocol.Apply(b, ev)], [ev]);
      cs, es := bs + [b, Protocol.Apply(b, ev)][1..], fs + [ev];
    }
  }

  lemma OneWrite(c: Protocol.Cluster, b: Protocol.Cluster, id: int, front: seq<CellWrite>, last: CellWrite)
    requires c.nodes.Keys == c.log.Keys && id in c.nodes && MayWrite(id, last.key)
    requires OnlyAt(c, b, id, WriteAll(c.nodes[id], front))
    ensures Protocol.Enabled(b, Protocol.Write(id, last.key, last.active))
    ensures OnlyAt(c, Protocol.Apply(b, Protocol.Write(id, last.key, last.active)), id,
                   WriteAll(c.nodes[id], front + [last]))
  {
    assert (front + [last])[..|front|] == front;
  }

  lemma OnlyAtTwice(c: Protocol.Cluster, b: Protocol.Cluster, d: Protocol.Cluster, id: int, q: Replica, r: Replica)
    requires OnlyAt(c, b, id, q) && OnlyAt(b, d, id, r)
    ensures OnlyAt(c, d, id, r)
  {
    assert c.nodes[id := q][id := r] == c.nodes[id := r];
  }

  lemma ReceiptIsEvent(c: Protocol.Cluster, id: int, es: seq<RequestEntry>)
    requires c.nodes.Keys == c.log.Keys && id in c.nodes && es in c.net
    ensures var d := Protocol.Apply(c, Protocol.Receive(id, es));
            Segment(c, [c, d], [Protocol.Receive(id, es)]) && OnlyAt(c, d, id, Received(c.nodes[id], es))
  {
    OneEvent(c, Protocol.Receive(id, es));
  }

  /** The events of the protocol that something that happens is made of. */
  ghost predicate MadeOf(h: Happening, es: seq<Protocol.Event>) {
    match h
    case Boot(raw, _) => es == [Protocol.Start(raw.id, raw.boot)]
    case Gossip(id, ps) => es == [Protocol.Send(id, ps)]
    case SeedClock(id, max) => es == [Protocol.Seed(id, max)]
    case Handle(id, ev) =>
      if ev.Remote? then
        |es| <= 4 && es != [] && es[0] == Protocol.Receive(id, ev.snap.requests) && WritesOf(es[1..], id)
      else |es| <= 3 && WritesOf(es, id)
  }

  lemma MergeAndWrites(f: Fleet, id: int, ev: Event, ws: seq<CellWrite>, c: Protocol.Cluster)
    returns (cs: seq<Protocol.Cluster>, es: seq<Protocol.Event>)
    requires Shadows(c, f) && CanHappen(f, Handle(id, ev)) && AllowedWrites(id, ws) && |ws| <= 3
    ensures Segment(c, cs, es) && MadeOf(Handle(id, ev), es)
    ensures OnlyAt(c, cs[|es|], id, WriteAll(Base(f.cars[id], ev), ws))
  {
    if ev.Remote? {
      var receive := Protocol.Receive(id, ev.snap.requests);
      var b := Protocol.Apply(c, receive);
      ReceiptIsEvent(c, id, ev.snap.requests);
      var ds, fs := WritesAreEvents(b, id, ws);
      Joined(c, [c, b], [receive], ds, fs);
      cs, es := [c, b] + ds[1..], [receive] + fs;
      assert es[1..] == fs;
      OnlyAtTwice(c, b, cs[|es|], id, Base(f.cars[id], ev), WriteAll(Base(f.cars[id], ev), ws));
    } else {
      cs, es := WritesAreEvents(c, id, ws);
    }
  }

  /** An event that leaves a controller in state `t`. */
  lemma HandleWith(f: Fleet, id: int, ev: Event, t: Ctl, c: Protocol.Cluster)
    returns (cs: seq<Protocol.Cluster>, es: seq<Protocol.Event>)
    requires Shadows(c, f) && CanHappen(f, Handle(id, ev))
    requires Inv(t) && t.cfg.id == id && WritesOnly(id, Base(f.cars[id], ev), t.rep, 3)
    ensures Segment(c, cs, es) && MadeOf(Handle(id, ev), es) && Shadows(cs[|es|], f.(cars := f.cars[id := t]))
  {
    var ws :| AllowedWrites(id, ws) && |ws| <= 3 && t.rep == WriteAll(Base(f.cars[id], ev), ws);
    cs, es := MergeAndWrites(f, id, ev, ws, c);
    Handled(f, id, t, c, cs[|es|]);
  }

  lemma Handled(f: Fleet, id: int, t: Ctl, c: Protocol.Cluster, d: Protocol.Cluster)
    requires Shadows(c, f) && id in f.cars && Inv(t) && t.cfg.id == id
    requires d.nodes == c.nodes[id := t.rep] && d.net == c.net && d.log.Keys == d.nodes.Keys
    ensures Shadows(d, f.(cars := f.cars[id := t]))
  {
  }

  lemma HandleRefines(f: Fleet, id: int, ev: Event, c: Protocol.Cluster)
    returns (cs: seq<Protocol.Cluster>, es: seq<Protocol.Event>)
    requires Shadows(c, f) && CanHappen(f, Handle(id, ev))
    ensures Segment(c, cs, es) && MadeOf(Handle(id, ev), es) && Shadows(cs[|es|], Happens(f, Handle(id, ev)))
  {
    StepWrites(f.cars[id], ev);
    StepKeeps(f.cars[id], ev);
    cs, es := HandleWith(f, id, ev, Step(f.cars[id], ev), c);
  }

  lemma BootRefines(f: Fleet, raw: Config, now: int, c: Protocol.Cluster)
    requires Shadows(c, f) && CanHappen(f, Boot(raw, now))
    ensures Protocol.Enabled(c, Protocol.Start(raw.id, raw.boot))
    ensures Shadows(Protocol.Apply(c, Protocol.Start(raw.id, raw.boot)), Happens(f, Boot(raw, now)))
  {
    InitialInv(raw, now);
  }

  lemma SeedRefines(f: Fleet, id: int, max: UInt64, c: Protocol.Cluster)
    requires Shadows(c, f) && CanHappen(f, SeedClock(id, max))
    ensures Protocol.Enabled(c, Protocol.Seed(id, max))
    ensures Shadows(Protocol.Apply(c, Protocol.Seed(id, max)), Happens(f, SeedClock(id, max)))
  {
  }

  lemma HappeningRefines(f: Fleet, h: Happening, c: Protocol.Cluster)
    returns (cs: seq<Protocol.Cluster>, es: seq<Protocol.Event>)
    requires Shadows(c, f) && CanHappen(f, h)
    ensures Segment(c, cs, es) && MadeOf(h, es) && |es| <= 4 && Shadows(cs[|es|], Happens(f, h))
  {
    match h
    case Handle(id, ev) => cs, es := HandleRefines(f, id, ev, c);
    case Boot(raw, now) =>
      BootRefines(f, raw, now, c);
      OneEvent(c, Protocol.Start(raw.id, raw.boot));
      cs, es := [c, Protocol.Apply(c, Protocol.Start(raw.id, raw.boot))], [Protocol.Start(raw.id, raw.boot)];
    case Gossip(id, ps) =>
      OneEvent(c, Protocol.Send(id, ps));
      cs, es := [c, Protocol.Apply(c, Protocol.Send(id, ps))], [Protocol.Send(id, ps)];
    case SeedClock(id, max) =>
      SeedRefines(f, id, max, c);
      OneEvent(c, Protocol.Seed(id, max));
      cs, es := [c, Protocol.Apply(c, Protocol.Seed(id, max))], [Protocol.Seed(id, max)];
  }

  // ----- one run of the protocol for a run of the fleet -----

  /** Where the fleet is at `j`, the protocol is at `at[j]`. */
  datatype Trace = Trace(states: seq<Protocol.Cluster>, events: seq<Protocol.Event>, at: seq<nat>)

  ghost predicate InStep(r: Trace, tr: seq<Fleet>, j: nat) {
    j < |r.at| && j < |tr| && r.at[j] < |r.states| && Shadows(r.states[r.at[j]], tr[j])
  }

  /** What happens at `j` is the protocol's events from `at[j]` to `at[j + 1]`. */
  ghost predicate Covers(r: Trace, hs: seq<Happening>, j: nat) {
    && j + 1 < |r.at| && j < |hs|
    && r.at[j] <= r.at[j + 1] <= |r.events| && MadeOf(hs[j], r.events[r.at[j]..r.at[j + 1]])
  }

  /** Up to `i`, the trace is a run of the protocol that keeps step with the fleet. */
  ghost predicate Tracks(r: Trace, tr: seq<Fleet>, hs: seq<Happening>, i: nat) {
    && Protocol.Run(r.states, r.events) && |r.at| == i + 1 && r.at[i] == |r.events| <= 4 * i
    && (forall j :: 0 <= j <= i ==> InStep(r, tr, j))
    && (forall j :: 0 <= j < i ==> Covers(r, hs, j))
  }

  lemma RunJoined(states: seq<Protocol.Cluster>, events: seq<Protocol.Event>,
                  cs: seq<Protocol.Cluster>, es: seq<Protocol.Event>)
    requires Protocol.Run(states, events) && Segment(states[|events|], cs, es)
    ensures Protocol.Run(states + cs[1..], events + es) && (states + cs[1..])[|events + es|] == cs[|es|]
  {
    assert Segment(states[0], states, events);
    Joined(states[0], states, events, cs, es);
  }

  lemma Longer(r: Trace, q: Trace, tr: seq<Fleet>, hs: seq<Happening>, j: nat)
    requires r.states <= q.states && r.events <= q.events && r.at <= q.at
    ensures InStep(r, tr, j) ==> InStep(q, tr, j)
    ensures Covers(r, hs, j) ==> Covers(q, hs, j)
  {
    if Covers(r, hs, j) {
      assert q.events[q.at[j]..q.at[j + 1]] == r.events[r.at[j]..r.at[j + 1]];
    }
  }

  lemma TrackOn(r: Trace, tr: seq<Fleet>, hs: seq<Happening>, i: nat,
                cs: seq<Protocol.Cluster>, es: seq<Protocol.Event>) returns (q: Trace)
    requires Tracks(r, tr, hs, i) && i < |hs| && i + 1 < |tr|
    requires Segment(r.states[|r.events|], cs, es) && MadeOf(hs[i], es) && |es| <= 4 && Shadows(cs[|es|], tr[i + 1])
    ensures Tracks(q, tr, hs, i + 1)
  {
    RunJoined(r.states, r.events, cs, es);
    q := Trace(r.states + cs[1..], r.events + es, r.at + [|r.events + es|]);
    forall j | 0 <= j <= i + 1
      ensures InStep(q, tr, j)
    {
      if j <= i {
        Longer(r, q, tr, hs, j);
      }
    }
    forall j | 0 <= j < i + 1
      ensures Covers(q, hs, j)
    {
      if j < i {
        Longer(r, q, tr, hs, j);
      } else {
        assert q.events[q.at[i]..q.at[i + 1]] == es;
      }
    }
  }

  /** Whatever a fleet does, there is one run of the protocol that goes through its
      tables, clocks and packets in order, with at most four events of a known kind for
      each thing that happens. */
  lemma {:induction false} FleetRefines(tr: seq<Fleet>, hs: seq<Happening>, i: nat) returns (r: Trace)
    requires FleetRun(tr, hs) && i <= |hs|
    ensures Tracks(r, tr, hs, i)
  {
    if i == 0 {
      r := Trace([Protocol.EMPTY], [], [0]);
    } else {
      var b := FleetRefines(tr, hs, i - 1);
      assert InStep(b, tr, i - 1);
      var cs, es := HappeningRefines(tr[i - 1], hs[i - 1], b.states[|b.events|]);
      r := TrackOn(b, tr, hs, i - 1, cs, es);
    }
  }

  /** The cluster that shadows the fleet at `i`, with the protocol's invariant. */
  lemma FleetInv(tr: seq<Fleet>, hs: seq<Happening>, i: nat) returns (c: Protocol.Cluster, bound: nat)
    requires FleetRun(tr, hs) && i <= |hs| && 4 * |hs| < WRAP
    ensures Shadows(c, tr[i]) && Protocol.Inv(c, bound) && bound <= 4 * i
  {
    var r := FleetRefines(tr, hs, i);
    assert InStep(r, tr, i);
    c, bound := r.states[|r.events|], |r.events|;
    Protocol.RunInv(r.states, r.events, bound);
  }

  // ----- what the protocol guarantees the fleet -----

  /** What is true of an entry wherever it is found. */
  predicate Genuine(e: RequestEntry) {
    e.cell.version.counter > 0 && (e.key.kind == HALL || (e.key.kind == CAB && e.cell.version.writer == e.key.owner))
  }

  ghost predicate HeldBy(f: Fleet, n: int, e: RequestEntry) {
    n in f.cars && e.key in f.cars[n].rep.cells && f.cars[n].rep.cells[e.key] == e.cell
  }

  lemma HeldIsWritten(f: Fleet, c: Protocol.Cluster, bound: int, n: int, e: RequestEntry)
    requires Shadows(c, f) && Protocol.Inv(c, bound) && HeldBy(f, n, e)
    ensures e in c.writes && Genuine(e) && e.cell.version.counter <= f.cars[n].rep.clock.value
  {
    assert Protocol.NodeInv(c, n, bound);
    Protocol.LogStorable(c, n, bound);
    assert e == RequestEntry(e.key, c.nodes[n].cells[e.key]);
    assert e in Elements(c.log[n]);
    assert Protocol.Known(c, e, bound);
  }

  /** After anything that can happen to a fleet: every cell of every table comes from a
      write, a cab cell from its owner's; no clock is behind its table; and one version
      stands for one cell of one key in all of the fleet. */
  lemma TablesAreSound(tr: seq<Fleet>, hs: seq<Happening>, i: nat)
    requires FleetRun(tr, hs) && i <= |hs| && 4 * |hs| < WRAP
    ensures forall n, e :: HeldBy(tr[i], n, e) ==> Genuine(e) && e.cell.version.counter <= tr[i].cars[n].rep.clock.value
    ensures forall n, m, e, f ::
              HeldBy(tr[i], n, e) && HeldBy(tr[i], m, f) && e.cell.version == f.cell.version ==> e == f
  {
    var c, k := FleetInv(tr, hs, i);
    forall n, e | HeldBy(tr[i], n, e)
      ensures e in c.writes && Genuine(e) && e.cell.version.counter <= tr[i].cars[n].rep.clock.value
    {
      HeldIsWritten(tr[i], c, k, n, e);
    }
  }

  /** Any two controllers of a fleet that receive each other's snapshot hold equal
      tables, on no condition. */
  lemma ExchangeAgrees(tr: seq<Fleet>, hs: seq<Happening>, i: nat, n: int, m: int,
                       fromN: seq<RequestEntry>, fromM: seq<RequestEntry>)
    requires FleetRun(tr, hs) && i <= |hs| && 4 * |hs| < WRAP && n in tr[i].cars && m in tr[i].cars
    requires Lists(fromN, tr[i].cars[n].rep.cells, false) && Lists(fromM, tr[i].cars[m].rep.cells, false)
    ensures Received(tr[i].cars[n].rep, fromM).cells == Received(tr[i].cars[m].rep, fromN).cells
  {
    var f := tr[i];
    var t, u := f.cars[n].rep.cells, f.cars[m].rep.cells;
    TablesAreSound(tr, hs, i);
    forall k
      ensures CommutesAt(t, u, k)
    {
      if k in t {
        assert HeldBy(f, n, RequestEntry(k, t[k]));
        NewerThanZero(t[k].version);
      }
      if k in u {
        assert HeldBy(f, m, RequestEntry(k, u[k]));
        NewerThanZero(u[k].version);
      }
    }
    JoinCommutesExactly(t, u);
    MergeIsJoin(t, u, fromM);
    MergeIsJoin(u, t, fromN);
  }
}
