/** Runs of a cluster: nodes start and restart, write, send snapshots, and receive
    any snapshot ever sent, in any order, any number of times or never. */
module Replication {
  import opened Text
  import opened Versions
  import opened Requests
  import opened Merge
  import opened MergeOrder
  import opened Replicas

  /** `writes` and `log` are history: every write made so far, and what each node
      has received or written, in order, since it started. */
  datatype Cluster = Cluster(
    nodes: map<int, Replica>,
    net: set<seq<RequestEntry>>,
    writes: set<RequestEntry>,
    log: map<int, seq<RequestEntry>>)

  datatype Event =
    | Start(id: int, boot: string)
    | Write(id: int, key: RequestKey, active: bool)
    | Send(id: int, es: seq<RequestEntry>)
    | Receive(id: int, es: seq<RequestEntry>)
    | Seed(id: int, max: UInt64)

  const EMPTY := Cluster(map[], {}, {}, map[])

  ghost predicate Enabled(c: Cluster, ev: Event) {
    match ev
    case Start(id, boot) => id in c.nodes ==> Less(c.nodes[id].clock.boot, boot)
    case Write(id, key, _) => id in c.nodes && MayWrite(id, key)
    case Send(id, es) => id in c.nodes && Lists(es, c.nodes[id].cells, false)
    case Receive(id, es) => id in c.nodes && es in c.net
    case Seed(id, max) => id in c.nodes && IsMaxCounter(c.nodes[id].cells, max)
  }

  function Written(r: Replica, key: RequestKey, active: bool): RequestEntry {
    RequestEntry(key, RequestCell(active, Stamp(Ticked(r.clock))))
  }

  ghost function Apply(c: Cluster, ev: Event): Cluster
    requires Enabled(c, ev) && c.nodes.Keys == c.log.Keys
    ensures Apply(c, ev).nodes.Keys == Apply(c, ev).log.Keys
  {
    match ev
    case Start(id, boot) =>
      c.(nodes := c.nodes[id := Replica(ClockState(0, id, boot), map[])], log := c.log[id := []])
    case Write(id, key, active) =>
      var r := c.nodes[id];
      if Active(r.cells, key) == active then c
      else
        var e := Written(r, key, active);
        c.(nodes := c.nodes[id := SetCell(r, key, active)], writes := c.writes + {e},
           log := c.log[id := c.log[id] + [e]])
    case Send(id, es) => c.(net := c.net + {es})
    case Receive(id, es) =>
      c.(nodes := c.nodes[id := Received(c.nodes[id], es)], log := c.log[id := c.log[id] + es])
    case Seed(id, max) =>
      var r := c.nodes[id];
      c.(nodes := c.nodes[id := r.(clock := Raised(r.clock, max))])
  }

  ghost predicate Run(tr: seq<Cluster>, evs: seq<Event>) {
    && |tr| == |evs| + 1
    && tr[0] == EMPTY
    && (forall i :: 0 <= i < |tr| ==> tr[i].nodes.Keys == tr[i].log.Keys)
    && (forall i :: 0 <= i < |evs| ==> Enabled(tr[i], evs[i]) && tr[i + 1] == Apply(tr[i], evs[i]))
  }

  // ----- reachable clusters -----

  ghost predicate Reachable(c: Cluster, n: nat) {
    exists tr, evs :: Run(tr, evs) && |evs| == n && tr[n] == c
  }

  lemma ReachStart()
    ensures Reachable(EMPTY, 0)
  {
    assert Run([EMPTY], []) && [EMPTY][0] == EMPTY;
  }

  lemma ReachNext(c: Cluster, n: nat, ev: Event)
    requires Reachable(c, n) && Enabled(c, ev) && c.nodes.Keys == c.log.Keys
    ensures Reachable(Apply(c, ev), n + 1)
  {
    var tr, evs :| Run(tr, evs) && |evs| == n && tr[n] == c;
    RunNext(tr, evs, ev);
    assert (tr + [Apply(c, ev)])[n + 1] == Apply(c, ev);
  }

  lemma RunNext(tr: seq<Cluster>, evs: seq<Event>, ev: Event)
    requires Run(tr, evs) && Enabled(tr[|evs|], ev)
    ensures Run(tr + [Apply(tr[|evs|], ev)], evs + [ev])
  {
  }

  // ----- the invariant of every run -----

  /** What is known of a write: it was made by a present or past boot of its node,
      and a cab cell only by its owner. */
  ghost predicate Known(c: Cluster, e: RequestEntry, bound: int) {
    var v := e.cell.version;
    && 0 < v.counter <= bound
    && v.writer in c.nodes
    && MayWrite(v.writer, e.key)
    && var clock := c.nodes[v.writer].clock;
       ((v.boot == clock.boot && v.counter <= clock.value) || Less(v.boot, clock.boot))
  }

  ghost predicate NodeInv(c: Cluster, n: int, bound: int)
    requires n in c.nodes && n in c.log
  {
    && c.nodes[n].clock.writer == n
    && c.nodes[n].clock.value <= bound
    && c.nodes[n].cells == MergeAll(map[], c.log[n])
    && (forall e :: e in c.log[n] ==> e in c.writes && e.cell.version.counter <= c.nodes[n].clock.value)
  }

  ghost predicate OneWriteEach(writes: set<RequestEntry>) {
    forall e, f :: e in writes && f in writes && e.cell.version == f.cell.version ==> e == f
  }

  ghost predicate Inv(c: Cluster, bound: int) {
    && c.nodes.Keys == c.log.Keys
    && (forall n :: n in c.nodes ==> NodeInv(c, n, bound))
    && (forall es, e :: es in c.net && e in es ==> e in c.writes)
    && (forall e :: e in c.writes ==> Known(c, e, bound))
    && OneWriteEach(c.writes)
  }

  lemma LogSeen(c: Cluster, n: int, bound: int, e: RequestEntry)
    requires Inv(c, bound) && n in c.nodes && e in c.log[n]
    ensures Seen(c.nodes[n].clock, e.cell.version) && e.cell.version.counter > 0
  {
    assert NodeInv(c, n, bound);
    assert Known(c, e, bound);
  }

  lemma LogStorable(c: Cluster, n: int, bound: int)
    requires Inv(c, bound) && n in c.nodes
    ensures Storable(Elements(c.log[n]))
    ensures Over(c.nodes[n].cells, Elements(c.log[n]))
  {
    forall e | e in Elements(c.log[n])
      ensures Newer(e.cell.version, ZERO)
    {
      LogSeen(c, n, bound, e);
      NewerThanZero(e.cell.version);
    }
    assert NodeInv(c, n, bound);
    MergedFrom(c.log[n]);
  }

  /** A write beats every entry its node has seen for the key, and the cell it replaces. */
  lemma WriteBeatsSeen(c: Cluster, n: int, bound: int, key: RequestKey, active: bool)
    requires Inv(c, bound) && n in c.nodes && bound + 1 < WRAP
    ensures forall e :: e in c.log[n] ==>
              Newer(Written(c.nodes[n], key, active).cell.version, e.cell.version)
    ensures Newer(Written(c.nodes[n], key, active).cell.version, CellAt(c.nodes[n].cells, key).version)
  {
    var clock := c.nodes[n].clock;
    assert NodeInv(c, n, bound);
    forall e | e in c.log[n]
      ensures Newer(Stamp(Ticked(clock)), e.cell.version)
    {
      LogSeen(c, n, bound, e);
      LocalWriteBeatsExactly(clock, e.cell.version);
    }
    FirstWriteBeatsMissing(clock);
    LogStorable(c, n, bound);
    if key in c.nodes[n].cells {
      var e := RequestEntry(key, c.nodes[n].cells[key]);
      assert e in Elements(c.log[n]);
    }
  }

  lemma StartKeepsInv(c: Cluster, id: int, boot: string, bound: int)
    requires Inv(c, bound) && bound >= 0 && Enabled(c, Start(id, boot))
    ensures Inv(Apply(c, Start(id, boot)), bound + 1)
  {
    var d := Apply(c, Start(id, boot));
    forall e | e in d.writes
      ensures Known(d, e, bound + 1)
    {
      assert Known(c, e, bound);
      if e.cell.version.writer == id && e.cell.version.boot != c.nodes[id].clock.boot {
        LessTransitive(e.cell.version.boot, c.nodes[id].clock.boot, boot);
      }
    }
    forall n | n in d.nodes
      ensures NodeInv(d, n, bound + 1)
    {
      if n != id { assert NodeInv(c, n, bound); }
    }
  }

  lemma KnownAfterWrite(c: Cluster, id: int, key: RequestKey, active: bool, bound: int, f: RequestEntry)
    requires Enabled(c, Write(id, key, active)) && c.nodes.Keys == c.log.Keys
    requires c.nodes[id].clock.writer == id && c.nodes[id].clock.value <= bound < WRAP - 1
    requires Known(c, f, bound)
    ensures Known(Apply(c, Write(id, key, active)), f, bound + 1)
    ensures f.cell.version != Written(c.nodes[id], key, active).cell.version
  {
    LessIrreflexive(c.nodes[id].clock.boot);
  }

  /** A new write has a version no write had before, and is known of from now on. */
  lemma WriteKeepsHistory(c: Cluster, id: int, key: RequestKey, active: bool, bound: int)
    requires Enabled(c, Write(id, key, active)) && c.nodes.Keys == c.log.Keys
    requires 0 <= c.nodes[id].clock.value <= bound < WRAP - 1 && c.nodes[id].clock.writer == id
    requires (forall e :: e in c.writes ==> Known(c, e, bound)) && OneWriteEach(c.writes)
    ensures var d := Apply(c, Write(id, key, active));
            (forall e :: e in d.writes ==> Known(d, e, bound + 1)) && OneWriteEach(d.writes)
  {
    forall f | f in c.writes
      ensures Known(Apply(c, Write(id, key, active)), f, bound + 1)
      ensures f.cell.version != Written(c.nodes[id], key, active).cell.version
    {
      KnownAfterWrite(c, id, key, active, bound, f);
    }
  }

  lemma LogWrite(r: Replica, log: seq<RequestEntry>, key: RequestKey, active: bool)
    requires r.cells == MergeAll(map[], log) && Active(r.cells, key) != active
    requires Newer(Written(r, key, active).cell.version, CellAt(r.cells, key).version)
    ensures SetCell(r, key, active).cells == MergeAll(map[], log + [Written(r, key, active)])
  {
    var e := Written(r, key, active);
    assert (log + [e])[..|log + [e]| - 1] == log;
    assert MergeAll(map[], log + [e]) == MergeOne(MergeAll(map[], log), e);
  }

  lemma WriteKeepsNode(c: Cluster, id: int, key: RequestKey, active: bool, bound: int)
    requires Enabled(c, Write(id, key, active)) && c.nodes.Keys == c.log.Keys
    requires 0 <= bound < WRAP - 1 && NodeInv(c, id, bound)
    requires Active(c.nodes[id].cells, key) != active
    requires Newer(Written(c.nodes[id], key, active).cell.version, CellAt(c.nodes[id].cells, key).version)
    ensures NodeInv(Apply(c, Write(id, key, active)), id, bound + 1)
  {
    LogWrite(c.nodes[id], c.log[id], key, active);
  }

  lemma WriteKeepsInv(c: Cluster, id: int, key: RequestKey, active: bool, bound: int)
    requires Inv(c, bound) && 0 <= bound < WRAP - 1 && Enabled(c, Write(id, key, active))
    ensures Inv(Apply(c, Write(id, key, active)), bound + 1)
  {
    InvMonotone(c, bound);
    if Active(c.nodes[id].cells, key) != active {
      var d := Apply(c, Write(id, key, active));
      assert NodeInv(c, id, bound);
      WriteKeepsHistory(c, id, key, active, bound);
      WriteBeatsSeen(c, id, bound, key, active);
      WriteKeepsNode(c, id, key, active, bound);
      forall n | n in d.nodes
        ensures NodeInv(d, n, bound + 1)
      {
        if n != id { assert NodeInv(c, n, bound + 1); }
      }
    }
  }

  lemma InvMonotone(c: Cluster, bound: int)
    requires Inv(c, bound)
    ensures Inv(c, bound + 1)
  {
    forall n | n in c.nodes
      ensures NodeInv(c, n, bound + 1)
    {
      assert NodeInv(c, n, bound);
    }
    forall e | e in c.writes
      ensures Known(c, e, bound + 1)
    {
      assert Known(c, e, bound);
    }
  }

  lemma SendKeepsInv(c: Cluster, id: int, es: seq<RequestEntry>, bound: int)
    requires Inv(c, bound) && Enabled(c, Send(id, es))
    ensures Inv(Apply(c, Send(id, es)), bound + 1)
  {
    var d := Apply(c, Send(id, es));
    LogStorable(c, id, bound);
    assert NodeInv(c, id, bound);
    forall e | e in es
      ensures e in d.writes
    {
      assert e.key in c.nodes[id].cells && c.nodes[id].cells[e.key] == e.cell;
      assert e in Elements(c.log[id]);
    }
    InvMonotone(c, bound);
    forall n | n in d.nodes
      ensures NodeInv(d, n, bound + 1)
    {
      assert NodeInv(c, n, bound + 1);
    }
    forall e | e in d.writes
      ensures Known(d, e, bound + 1)
    {
      assert Known(c, e, bound + 1);
    }
  }

  lemma ReceiveKeepsInv(c: Cluster, id: int, es: seq<RequestEntry>, bound: int)
    requires Inv(c, bound) && Enabled(c, Receive(id, es))
    ensures Inv(Apply(c, Receive(id, es)), bound + 1)
  {
    var d := Apply(c, Receive(id, es));
    assert NodeInv(c, id, bound);
    forall e | e in es
      ensures e.cell.version.counter <= bound
    {
      assert Known(c, e, bound);
    }
    ObserveAllMax(c.nodes[id].clock, es);
    MergeAppend(map[], c.log[id], es);
    assert NodeInv(d, id, bound + 1);
    forall n | n in d.nodes
      ensures NodeInv(d, n, bound + 1)
    {
      if n != id { assert NodeInv(c, n, bound); }
    }
    forall e | e in d.writes
      ensures Known(d, e, bound + 1)
    {
      assert Known(c, e, bound);
    }
  }

  /** The clock is never behind the table, so seeding it from the table is no change. */
  lemma SeedChangesNothing(c: Cluster, id: int, max: UInt64, bound: int)
    requires Inv(c, bound) && Enabled(c, Seed(id, max))
    ensures Apply(c, Seed(id, max)) == c
  {
    assert NodeInv(c, id, bound);
    LogStorable(c, id, bound);
    var cells := c.nodes[id].cells;
    if max != 0 {
      var k :| k in cells && cells[k].version.counter == max;
      assert RequestEntry(k, cells[k]) in Elements(c.log[id]);
    }
    assert c.nodes[id := c.nodes[id]] == c.nodes;
  }

  lemma StepKeepsInv(c: Cluster, ev: Event, bound: int)
    requires Inv(c, bound) && 0 <= bound < WRAP - 1 && Enabled(c, ev)
    ensures Inv(Apply(c, ev), bound + 1)
  {
    match ev
    case Start(id, boot) => StartKeepsInv(c, id, boot, bound);
    case Write(id, key, active) => WriteKeepsInv(c, id, key, active, bound);
    case Send(id, es) => SendKeepsInv(c, id, es, bound);
    case Receive(id, es) => ReceiveKeepsInv(c, id, es, bound);
    case Seed(id, max) =>
      SeedChangesNothing(c, id, max, bound);
      InvMonotone(c, bound);
  }

  /** Counters never wrap in a run shorter than the width of a counter. */
  lemma {:induction false} RunInv(tr: seq<Cluster>, evs: seq<Event>, i: nat)
    requires Run(tr, evs) && i <= |evs| < WRAP
    ensures Inv(tr[i], i)
  {
    if i > 0 {
      RunInv(tr, evs, i - 1);
      StepKeepsInv(tr[i - 1], evs[i - 1], i - 1);
    }
  }

  lemma LogStays(c: Cluster, ev: Event, n: int, e: RequestEntry)
    requires c.nodes.Keys == c.log.Keys && Enabled(c, ev) && n in c.nodes && e in c.log[n] && !(ev.Start? && ev.id == n)
    ensures n in Apply(c, ev).nodes && e in Apply(c, ev).log[n]
  {
  }

  /** Within one boot a node forgets nothing it has absorbed. */
  lemma {:induction false} LogGrows(tr: seq<Cluster>, evs: seq<Event>, a: nat, b: nat, n: int, e: RequestEntry)
    requires Run(tr, evs) && a <= b <= |evs| && n in tr[a].nodes && e in tr[a].log[n]
    requires forall i :: a <= i < b ==> !(evs[i].Start? && evs[i].id == n)
    ensures n in tr[b].nodes && e in tr[b].log[n]
  {
    if a < b {
      LogGrows(tr, evs, a, b - 1, n, e);
      LogStays(tr[b - 1], evs[b - 1], n, e);
    }
  }
}
