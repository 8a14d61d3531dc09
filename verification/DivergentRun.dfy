/** Runs that show what the condition for convergence is for: whenever snapshots carry
    the three entries of a sandwich, two nodes that receive exactly the same entries can
    be left with different cells; and a node that restarts and writes before its clock
    has caught up sends such snapshots. */
module DivergentRun {
  import opened Text
  import opened Versions
  import opened Requests
  import opened Merge
  import opened MergeOrder
  import opened Replicas
  import opened Replication
  import opened Convergence

  /** The call to go up at the bottom floor. */
  const K := HallKey(0, UP)

  function Entry(active: bool, counter: UInt64, writer: int, boot: string): RequestEntry {
    RequestEntry(K, RequestCell(active, Version(counter, writer, boot)))
  }

  const FIRST := Entry(true, 3, 1, "a")   // third write of node 1 in its first boot
  const OTHER := Entry(false, 2, 2, "b")  // second write of node 2
  const AGAIN := Entry(true, 1, 1, "b")   // first write of node 1 after its restart

  lemma Boots()
    ensures Less("a", "b") && !Less("b", "a") && !Less("a", "a") && !Less("b", "b")
  {
    LessIrreflexive("a");
    LessIrreflexive("b");
  }

  /** `d` is `c` but for node `id` and what has been written. */
  ghost predicate Beside(c: Cluster, d: Cluster, id: int) {
    && d.nodes.Keys == d.log.Keys == c.nodes.Keys + {id}
    && d.net == c.net
    && forall m :: m in c.nodes && m in c.log && m != id ==> d.nodes[m] == c.nodes[m] && d.log[m] == c.log[m]
  }

  function Flipped(id: int, boot: string, i: UInt64): Replica {
    Replica(ClockState(i, id, boot), if i == 0 then map[] else map[K := Entry(i % 2 == 1, i, id, boot).cell])
  }

  lemma Begin(c: Cluster, n: nat, id: int, boot: string) returns (d: Cluster)
    requires Reachable(c, n) && c.nodes.Keys == c.log.Keys
    requires id in c.nodes ==> Less(c.nodes[id].clock.boot, boot)
    ensures Reachable(d, n + 1) && Beside(c, d, id) && d.nodes[id] == Flipped(id, boot, 0) && d.log[id] == []
  {
    ReachNext(c, n, Start(id, boot));
    d := Apply(c, Start(id, boot));
  }

  lemma FlipReplica(id: int, boot: string, i: UInt64)
    requires i < 3
    ensures Active(Flipped(id, boot, i).cells, K) != (i % 2 == 0)
    ensures SetCell(Flipped(id, boot, i), K, i % 2 == 0) == Flipped(id, boot, i + 1)
  {
    assert map[K := Entry(i % 2 == 1, i, id, boot).cell][K := Entry(i % 2 == 0, i + 1, id, boot).cell] ==
           map[K := Entry(i % 2 == 0, i + 1, id, boot).cell];
  }

  lemma FlipState(c: Cluster, b: Cluster, id: int, boot: string, i: UInt64)
    requires Beside(c, b, id) && b.nodes[id] == Flipped(id, boot, i) && i < 3
    ensures Enabled(b, Write(id, K, i % 2 == 0)) && b.nodes.Keys == b.log.Keys
    ensures var d := Apply(b, Write(id, K, i % 2 == 0));
            Beside(c, d, id) && d.nodes[id] == Flipped(id, boot, i + 1)
  {
    FlipReplica(id, boot, i);
  }

  lemma FlipOnce(c: Cluster, b: Cluster, n: nat, id: int, boot: string, i: UInt64) returns (d: Cluster)
    requires Reachable(b, n) && Beside(c, b, id) && b.nodes[id] == Flipped(id, boot, i) && i < 3
    ensures Reachable(d, n + 1) && Beside(c, d, id) && d.nodes[id] == Flipped(id, boot, i + 1)
  {
    FlipState(c, b, id, boot, i);
    ReachNext(b, n, Write(id, K, i % 2 == 0));
    d := Apply(b, Write(id, K, i % 2 == 0));
  }

  lemma {:induction false} Flips(c: Cluster, n: nat, id: int, boot: string, k: UInt64) returns (d: Cluster)
    requires Reachable(c, n) && c.nodes.Keys == c.log.Keys && k <= 3
    requires id in c.nodes ==> Less(c.nodes[id].clock.boot, boot)
    ensures Reachable(d, n + 1 + k) && Beside(c, d, id) && d.nodes[id] == Flipped(id, boot, k)
  {
    if k == 0 {
      d := Begin(c, n, id, boot);
    } else {
      var b := Flips(c, n, id, boot, k - 1);
      d := FlipOnce(c, b, n + k, id, boot, k - 1);
    }
  }

  /** A node starts, flips the call `k` times and sends its snapshot. */
  lemma FlipAndSend(c: Cluster, n: nat, id: int, boot: string, k: UInt64) returns (d: Cluster)
    requires Reachable(c, n) && c.nodes.Keys == c.log.Keys && 0 < k <= 3
    requires id in c.nodes ==> Less(c.nodes[id].clock.boot, boot)
    ensures Reachable(d, n + 2 + k) && d.nodes.Keys == d.log.Keys == c.nodes.Keys + {id}
    ensures d.net == c.net + {[Entry(k % 2 == 1, k, id, boot)]}
    ensures d.nodes[id].clock.boot == boot
    ensures forall m :: m in c.nodes && m != id ==> d.nodes[m] == c.nodes[m]
  {
    var b := Flips(c, n, id, boot, k);
    var e := Entry(k % 2 == 1, k, id, boot);
    assert Lists([e], b.nodes[id].cells, false);
    ReachNext(b, n + 1 + k, Send(id, [e]));
    d := Apply(b, Send(id, [e]));
  }

  // ----- any sandwich makes nodes disagree -----

  /** A snapshot, once sent, lists each key once. */
  lemma {:induction false} SentOnce(tr: seq<Cluster>, evs: seq<Event>, i: nat, es: seq<RequestEntry>)
    requires Run(tr, evs) && i <= |evs| && es in tr[i].net
    ensures DistinctKeys(es)
  {
    if i > 0 {
      var c, ev := tr[i - 1], evs[i - 1];
      if es in c.net {
        SentOnce(tr, evs, i - 1, es);
      } else {
        ListsDistinct(es, c.nodes[ev.id].cells);
      }
    }
  }

  /** `es` has been sent, and the entry is in it. */
  predicate Carries(c: Cluster, es: seq<RequestEntry>, e: RequestEntry) {
    es in c.net && e in es
  }

  lemma CarriedFacts(c: Cluster, n: nat, es: seq<RequestEntry>, e: RequestEntry)
    requires Reachable(c, n) && n < WRAP && Carries(c, es, e)
    ensures DistinctKeys(es) && Newer(e.cell.version, ZERO)
  {
    var tr, evs :| Run(tr, evs) && |evs| == n && tr[n] == c;
    SentOnce(tr, evs, n, es);
    RunInv(tr, evs, n);
    assert Known(c, e, n);
    NewerThanZero(e.cell.version);
  }

  /** The node has absorbed just what it was sent. */
  ghost predicate HasHeard(c: Cluster, id: int, heard: seq<RequestEntry>) {
    id in c.nodes && id in c.log && c.log[id] == heard && c.nodes[id].cells == MergeAll(map[], heard)
  }

  lemma Hear(c: Cluster, b: Cluster, n: nat, id: int, heard: seq<RequestEntry>, es: seq<RequestEntry>)
    returns (d: Cluster)
    requires Reachable(b, n) && Beside(c, b, id) && es in c.net && HasHeard(b, id, heard)
    ensures Reachable(d, n + 1) && Beside(c, d, id) && HasHeard(d, id, heard + es)
  {
    ReachNext(b, n, Receive(id, es));
    d := Apply(b, Receive(id, es));
    MergeAppend(map[], heard, es);
  }

  /** A new node receives three snapshots. */
  lemma Listen(c: Cluster, n: nat, id: int, xs: seq<RequestEntry>, ys: seq<RequestEntry>, zs: seq<RequestEntry>)
    returns (d: Cluster)
    requires Reachable(c, n) && c.nodes.Keys == c.log.Keys && id !in c.nodes
    requires xs in c.net && ys in c.net && zs in c.net
    ensures Reachable(d, n + 4) && Beside(c, d, id) && HasHeard(d, id, xs + ys + zs)
  {
    var c0 := Begin(c, n, id, "p");
    var c1 := Hear(c, c0, n + 1, id, [], xs);
    assert [] + xs == xs;
    var c2 := Hear(c, c1, n + 2, id, xs, ys);
    d := Hear(c, c2, n + 3, id, xs + ys, zs);
  }

  /** Each of three entries beats the one received before. */
  lemma LastOfThree(xs: seq<RequestEntry>, ys: seq<RequestEntry>, zs: seq<RequestEntry>,
                    x: RequestEntry, y: RequestEntry, z: RequestEntry)
    requires DistinctKeys(xs) && DistinctKeys(ys) && DistinctKeys(zs) && x in xs && y in ys && z in zs
    requires x.key == y.key == z.key && Newer(x.cell.version, ZERO)
    requires Newer(y.cell.version, x.cell.version) && Newer(z.cell.version, y.cell.version)
    ensures CellAt(MergeAll(map[], xs + ys + zs), x.key) == z.cell
  {
    MergeAppend(map[], xs + ys, zs);
    MergeAppend(map[], xs, ys);
    MergeAtKey(map[], xs, x);
    MergeAtKey(MergeAll(map[], xs), ys, y);
    MergeAtKey(MergeAll(map[], xs + ys), zs, z);
  }

  lemma TwoListen(c: Cluster, n: nat, p: int, q: int,
                  xs: seq<RequestEntry>, ys: seq<RequestEntry>, zs: seq<RequestEntry>) returns (d: Cluster)
    requires Reachable(c, n) && c.nodes.Keys == c.log.Keys && p !in c.nodes && q !in c.nodes && p != q
    requires xs in c.net && ys in c.net && zs in c.net
    ensures Reachable(d, n + 8) && HasHeard(d, p, xs + ys + zs) && HasHeard(d, q, zs + xs + ys)
  {
    var b := Listen(c, n, p, xs, ys, zs);
    d := Listen(b, n + 4, q, zs, xs, ys);
  }

  /** From any cluster a run can reach, once the three entries of a sandwich have been
      sent, two new nodes can receive exactly the same entries and end with different
      cells of the key. */
  lemma SandwichDiverges(c: Cluster, n: nat, p: int, q: int,
                         xs: seq<RequestEntry>, ys: seq<RequestEntry>, zs: seq<RequestEntry>,
                         high: RequestEntry, low: RequestEntry, between: RequestEntry) returns (d: Cluster)
    requires Reachable(c, n) && n < WRAP && c.nodes.Keys == c.log.Keys && p !in c.nodes && q !in c.nodes && p != q
    requires Carries(c, xs, high) && Carries(c, ys, low) && Carries(c, zs, between)
    requires high.key == low.key == between.key
    requires Sandwich(high.cell.version, low.cell.version, between.cell.version)
    ensures Reachable(d, n + 8) && p in d.nodes && q in d.nodes && p in d.log && q in d.log
    ensures Elements(d.log[p]) == Elements(d.log[q])
    ensures CellAt(d.nodes[p].cells, high.key) == between.cell
    ensures CellAt(d.nodes[q].cells, high.key) == low.cell != between.cell
  {
    CarriedFacts(c, n, xs, high);
    CarriedFacts(c, n, ys, low);
    CarriedFacts(c, n, zs, between);
    SandwichIsCycle(high.cell.version, low.cell.version, between.cell.version);
    d := TwoListen(c, n, p, q, xs, ys, zs);
    LastOfThree(xs, ys, zs, high, low, between);
    LastOfThree(zs, xs, ys, between, high, low);
    SameElementsAround(xs, ys, zs);
  }

  lemma SameElementsAround(xs: seq<RequestEntry>, ys: seq<RequestEntry>, zs: seq<RequestEntry>)
    ensures Elements(xs + ys + zs) == Elements(zs + xs + ys)
  {
    assert forall e :: e in xs + ys + zs <==> e in xs || e in ys || e in zs;
    assert forall e :: e in zs + xs + ys <==> e in xs || e in ys || e in zs;
  }

  // ----- a run that sends a sandwich -----

  lemma ThreeSent() returns (c: Cluster)
    ensures Reachable(c, 12) && c.nodes.Keys == c.log.Keys == {1, 2}
    ensures [FIRST] in c.net && [OTHER] in c.net && [AGAIN] in c.net
  {
    Boots();
    ReachStart();
    var c1 := FlipAndSend(EMPTY, 0, 1, "a", 3);
    var c2 := FlipAndSend(c1, 5, 2, "b", 2);
    c := FlipAndSend(c2, 9, 1, "b", 1);
  }

  /** Same entries received, different states of the call. */
  lemma Diverges() returns (c: Cluster)
    ensures Reachable(c, 20)
    ensures 3 in c.nodes && 4 in c.nodes && 3 in c.log && 4 in c.log
    ensures Elements(c.log[3]) == Elements(c.log[4])
    ensures !Active(c.nodes[3].cells, K) && Active(c.nodes[4].cells, K)
  {
    var b := ThreeSent();
    Boots();
    c := SandwichDiverges(b, 12, 3, 4, [FIRST], [AGAIN], [OTHER], FIRST, AGAIN, OTHER);
  }
}
