/** When nothing is written any more, gossip makes all nodes of the protocol agree. */
module Settling {
  import opened Text
  import opened Versions
  import opened Requests
  import opened Merge
  import opened MergeOrder
  import opened Replicas
  import opened Gossip
  import opened Replication
  import opened Convergence

  ghost function TablesOf(c: Cluster): Tables {
    map n | n in c.nodes :: c.nodes[n].cells
  }

  /** From `i` on nobody starts or writes anything. */
  ghost predicate QuietFrom(tr: seq<Cluster>, evs: seq<Event>, i: nat)
    requires |tr| == |evs| + 1
  {
    forall j :: i <= j < |evs| ==> !Effective(tr[j], evs[j]) && !evs[j].Start?
  }

  /** Some event from `i` on delivers `es`, which nobody has sent since. */
  predicate ArrivesLate(evs: seq<Event>, i: nat, es: seq<RequestEntry>) {
    exists j :: i <= j < |evs| && evs[j].Receive? && evs[j].es == es && NotSentIn(evs, i, j, es)
  }

  predicate NotSentIn(evs: seq<Event>, i: nat, j: nat, es: seq<RequestEntry>)
    requires j <= |evs|
  {
    forall a :: i <= a < j && evs[a].Send? ==> evs[a].es != es
  }

  /** The snapshots sent before `i` that arrive after it. */
  ghost function Late(tr: seq<Cluster>, evs: seq<Event>, i: nat): Packets
    requires i < |tr|
  {
    set es | es in tr[i].net && ArrivesLate(evs, i, es)
  }

  /** Since `i`, `n` has received a snapshot that `m` sent since `i`. */
  predicate HeardSince(evs: seq<Event>, i: nat, n: int, m: int) {
    exists a, j :: i <= a < j < |evs| && evs[a].Send? && evs[a].id == m && Hears(evs[j], n, evs[a].es)
  }

  predicate Hears(ev: Event, n: int, es: seq<RequestEntry>) {
    ev.Receive? && ev.id == n && ev.es == es
  }

  ghost function TablesFrom(tr: seq<Cluster>, i: nat): seq<Tables>
    requires i <= |tr|
  {
    seq(|tr| - i, l requires 0 <= l < |tr| - i => TablesOf(tr[i + l]))
  }

  function MoveBy(ev: Event): Move {
    if ev.Receive? then Deliver(ev.id, ev.es) else Stay
  }

  function MovesFrom(evs: seq<Event>, i: nat): seq<Move>
    requires i <= |evs|
  {
    seq(|evs| - i, l requires 0 <= l < |evs| - i => MoveBy(evs[i + l]))
  }

  /** One move of the tables. */
  predicate Moved(before: Tables, after: Tables, mv: Move) {
    match mv
    case Stay => after == before
    case Deliver(n, es) => n in before && after == before[n := MergeAll(before[n], es)]
  }

  lemma StepMoves(c: Cluster, ev: Event)
    requires c.nodes.Keys == c.log.Keys && Enabled(c, ev) && !Effective(c, ev) && !ev.Start?
    ensures Moved(TablesOf(c), TablesOf(Apply(c, ev)), MoveBy(ev))
  {
    OtherStepsKeepWrites(c, ev);
  }

  lemma TablesAt(tr: seq<Cluster>, i: nat, l: nat, j: nat)
    requires i <= |tr| && j == i + l < |tr|
    ensures TablesFrom(tr, i)[l] == TablesOf(tr[j])
  {
  }

  lemma SendIsSent(tr: seq<Cluster>, evs: seq<Event>, i: nat, a: nat, l: nat)
    requires Run(tr, evs) && i <= a <= i + l < |evs| && evs[a].Send?
    ensures Sent(TablesFrom(tr, i), l, evs[a].id, evs[a].es)
  {
    TablesAt(tr, i, a - i, a);
    SnapshotIsSent(TablesFrom(tr, i), l, a - i, evs[a].id, evs[a].es);
  }

  lemma SnapshotIsSent(tabs: seq<Tables>, l: nat, a: nat, m: int, es: seq<RequestEntry>)
    requires a <= l < |tabs| && m in tabs[a] && Lists(es, tabs[a][m], false)
    ensures Sent(tabs, l, m, es)
  {
  }

  lemma {:induction false} WasInNet(tr: seq<Cluster>, evs: seq<Event>, i: nat, j: nat, es: seq<RequestEntry>)
    requires Run(tr, evs) && i <= j <= |evs| && es in tr[j].net && NotSentIn(evs, i, j, es)
    ensures es in tr[i].net
  {
    if i < j {
      assert tr[j] == Apply(tr[j - 1], evs[j - 1]);
      WasInNet(tr, evs, i, j - 1, es);
    }
  }

  lemma ReceivedWasSent(tr: seq<Cluster>, evs: seq<Event>, i: nat, l: nat, j: nat)
    requires Run(tr, evs) && j == i + l < |evs| && evs[j].Receive?
    ensures evs[j].es in Late(tr, evs, i) || SentBySome(TablesFrom(tr, i), l, evs[j].es)
  {
    if NotSentIn(evs, i, j, evs[j].es) {
      WasInNet(tr, evs, i, j, evs[j].es);
    } else {
      var a :| i <= a < j && evs[a].Send? && evs[a].es == evs[j].es;
      SendIsSent(tr, evs, i, a, l);
    }
  }

  lemma QuietStep(tr: seq<Cluster>, evs: seq<Event>, i: nat, j: nat)
    requires Run(tr, evs) && i <= j < |evs| && QuietFrom(tr, evs, i)
    ensures Moved(TablesOf(tr[j]), TablesOf(tr[j + 1]), MoveBy(evs[j]))
  {
    StepMoves(tr[j], evs[j]);
  }

  lemma MoveStands(tabs: seq<Tables>, l: nat, before: Tables, after: Tables, mv: Move, late: Packets)
    requires l + 1 < |tabs| && tabs[l] == before && tabs[l + 1] == after && Moved(before, after, mv)
    requires mv.Deliver? ==> mv.es in late || SentBySome(tabs, l, mv.es)
    ensures Moves(tabs, l, mv, late)
  {
  }

  lemma QuietMove(tr: seq<Cluster>, evs: seq<Event>, i: nat, l: nat, j: nat)
    requires Run(tr, evs) && j == i + l < |evs| && QuietFrom(tr, evs, i)
    ensures Moves(TablesFrom(tr, i), l, MoveBy(evs[j]), Late(tr, evs, i))
  {
    QuietStep(tr, evs, i, j);
    TablesAt(tr, i, l, j);
    TablesAt(tr, i, l + 1, j + 1);
    if evs[j].Receive? {
      ReceivedWasSent(tr, evs, i, l, j);
    }
    MoveStands(TablesFrom(tr, i), l, TablesOf(tr[j]), TablesOf(tr[j + 1]), MoveBy(evs[j]), Late(tr, evs, i));
  }

  lemma MovesAt(evs: seq<Event>, i: nat, l: nat, j: nat)
    requires i <= |evs| && j == i + l < |evs|
    ensures MovesFrom(evs, i)[l] == MoveBy(evs[j])
  {
  }

  lemma QuietMoveIn(tr: seq<Cluster>, evs: seq<Event>, i: nat, l: nat)
    requires Run(tr, evs) && i + l < |evs| && QuietFrom(tr, evs, i)
    ensures Moves(TablesFrom(tr, i), l, MovesFrom(evs, i)[l], Late(tr, evs, i))
  {
    var j := i + l;
    MovesAt(evs, i, l, j);
    QuietMove(tr, evs, i, l, j);
  }

  lemma QuietRunMoves(tr: seq<Cluster>, evs: seq<Event>, i: nat)
    requires Run(tr, evs) && i <= |evs| && QuietFrom(tr, evs, i)
    ensures GossipRun(TablesFrom(tr, i), MovesFrom(evs, i), Late(tr, evs, i))
  {
    forall l: nat | l < |evs| - i
      ensures Moves(TablesFrom(tr, i), l, MovesFrom(evs, i)[l], Late(tr, evs, i))
    {
      QuietMoveIn(tr, evs, i, l);
    }
  }

  lemma Hearing(evs: seq<Event>, i: nat, n: int, m: int) returns (a: nat, l: nat)
    requires i <= |evs| && HeardSince(evs, i, n, m)
    ensures i <= a < i + l < |evs| && evs[a].Send? && evs[a].id == m
    ensures MovesFrom(evs, i)[l] == Deliver(n, evs[a].es)
  {
    var j: int;
    a, j :| i <= a < j < |evs| && evs[a].Send? && evs[a].id == m && Hears(evs[j], n, evs[a].es);
    l := j - i;
    assert MovesFrom(evs, i)[l] == MoveBy(evs[j]);
  }

  lemma HeardIsHeard(tr: seq<Cluster>, evs: seq<Event>, i: nat, n: int, m: int)
    requires Run(tr, evs) && i <= |evs| && HeardSince(evs, i, n, m)
    ensures HeardOf(TablesFrom(tr, i), MovesFrom(evs, i), n, m)
  {
    var a, l := Hearing(evs, i, n, m);
    SendIsSent(tr, evs, i, a, l);
    ReceiptIsMove(TablesFrom(tr, i), MovesFrom(evs, i), l, n, m, evs[a].es);
  }

  lemma ReceiptIsMove(tabs: seq<Tables>, moves: seq<Move>, l: nat, n: int, m: int, es: seq<RequestEntry>)
    requires |tabs| == |moves| + 1 && l < |moves| && moves[l] == Deliver(n, es) && Sent(tabs, l, m, es)
    ensures HeardOf(tabs, moves, n, m)
  {
  }

  lemma Prefix(tr: seq<Cluster>, evs: seq<Event>, i: nat)
    requires Run(tr, evs) && i <= |evs|
    ensures Run(tr[..i + 1], evs[..i]) && tr[..i + 1][i] == tr[i]
  {
  }

  lemma TablesAreWritten(tr: seq<Cluster>, evs: seq<Event>)
    requires Run(tr, evs) && |evs| < WRAP
    ensures InTables(TablesOf(tr[|evs|])) <= tr[|evs|].writes
  {
    var i := |evs|;
    RunInv(tr, evs, i);
    forall e | e in InTables(TablesOf(tr[i]))
      ensures e in tr[i].writes
    {
      var n, k :| n in tr[i].nodes && k in tr[i].nodes[n].cells && e == RequestEntry(k, tr[i].nodes[n].cells[k]);
      LogStorable(tr[i], n, i);
      LogHolds(tr, evs, i, n);
      assert e in Elements(tr[i].log[n]);
    }
  }

  /** All that is held and all that was ever sent comes from writes. */
  lemma AroundIsWritten(tr: seq<Cluster>, evs: seq<Event>, late: Packets)
    requires Run(tr, evs) && |evs| < WRAP && late <= tr[|evs|].net
    ensures var s := Around(TablesOf(tr[|evs|]), late); s <= tr[|evs|].writes && Storable(s) && Functional(s)
  {
    TablesAreWritten(tr, evs);
    RunInv(tr, evs, |evs|);
    WritesStorable(tr[|evs|], |evs|);
  }

  lemma AroundAt(tr: seq<Cluster>, evs: seq<Event>, i: nat, late: Packets)
    requires Run(tr, evs) && i <= |evs| && i < WRAP && late <= tr[i].net
    ensures var s := Around(TablesOf(tr[i]), late); s <= tr[i].writes && Storable(s) && Functional(s)
  {
    Prefix(tr, evs, i);
    AroundIsWritten(tr[..i + 1], evs[..i], late);
  }

  /** Since `i`, every node has received a snapshot that every other has sent since. */
  ghost predicate EachHeardSince(tr: seq<Cluster>, evs: seq<Event>, i: nat)
    requires i < |tr|
  {
    forall p, q :: p in tr[i].nodes && q in tr[i].nodes && p != q ==> HeardSince(evs, i, p, q)
  }

  /** Once every node has received a snapshot of every other, sent and received since the
      last write, all agree about a call, if the newest entry for it, of all that was held
      at the last write or arrived late, was held by somebody. */
  lemma GossipSettles(tr: seq<Cluster>, evs: seq<Event>, i: nat, k: RequestKey, n: int, m: int)
    requires Run(tr, evs) && i <= |evs| && i < WRAP && QuietFrom(tr, evs, i) && EachHeardSince(tr, evs, i)
    requires n in tr[i].nodes && m in tr[i].nodes
    requires NewestIsHeld(TablesOf(tr[i]), Late(tr, evs, i), k)
    ensures n in tr[|evs|].nodes && m in tr[|evs|].nodes
    ensures SameAt(tr[|evs|].nodes[n].cells, tr[|evs|].nodes[m].cells, k)
  {
    var tabs, moves := TablesFrom(tr, i), MovesFrom(evs, i);
    QuietRunMoves(tr, evs, i);
    AroundAt(tr, evs, i, Late(tr, evs, i));
    assert tabs[0] == TablesOf(tr[i]) && tabs[|moves|] == TablesOf(tr[|evs|]);
    forall p, q | p in tabs[0] && q in tabs[0] && p != q
      ensures HeardOf(tabs, moves, p, q)
    {
      HeardIsHeard(tr, evs, i, p, q);
    }
    Settles(tabs, moves, Late(tr, evs, i), k, n, m);
  }

  // ----- where the newest entry is held -----

  /** Nothing in these packets beats all that is held for the key. */
  ghost predicate HeldBeats(t: Tables, late: Packets, k: RequestKey) {
    forall f :: f in InPackets(late) && f.key == k ==>
      exists e :: e in InTables(t) && e.key == k && (e == f || Newer(e.cell.version, f.cell.version))
  }

  /** If there is a newest entry and no packet beats all that is held, it is held. */
  lemma NewestIsNotLate(t: Tables, late: Packets, k: RequestKey)
    requires NoSandwichAt(Around(t, late), k) && Functional(Around(t, late)) && HeldBeats(t, late, k)
    ensures NewestIsHeld(t, late, k)
  {
    var s := Around(t, late);
    if k in KeysOf(s) {
      var d :| d in s && d.key == k;
      NewestAtKey(s, d);
      var e :| Newest(s, e) && e.key == k;
      if e !in InTables(t) {
        var f :| f in InTables(t) && f.key == k && (f == e || Newer(f.cell.version, e.cell.version));
        NewerTotal(f.cell.version, e.cell.version);
      }
    }
  }

  /** One writer's versions have no sandwich. */
  lemma OneWriterSettles(s: set<RequestEntry>, k: RequestKey)
    requires forall e :: e in s && e.key == k ==> e.cell.version.writer == k.owner
    ensures NoSandwichAt(s, k)
  {
    OneWriterIsChain(VersionsAt(s, k), k.owner);
    ChainExactly(VersionsAt(s, k));
  }

  /** About a cab call they agree, if no late snapshot brings a newer version of it than
      all that were held at the last write, and so if none is late. */
  lemma CabCallsSettle(tr: seq<Cluster>, evs: seq<Event>, i: nat, k: RequestKey, n: int, m: int)
    requires Run(tr, evs) && i <= |evs| && i < WRAP && QuietFrom(tr, evs, i) && EachHeardSince(tr, evs, i)
    requires n in tr[i].nodes && m in tr[i].nodes && k.kind == CAB
    requires HeldBeats(TablesOf(tr[i]), Late(tr, evs, i), k)
    ensures n in tr[|evs|].nodes && m in tr[|evs|].nodes
    ensures SameAt(tr[|evs|].nodes[n].cells, tr[|evs|].nodes[m].cells, k)
  {
    var late := Late(tr, evs, i);
    AroundAt(tr, evs, i, late);
    Prefix(tr, evs, i);
    forall e | e in Around(TablesOf(tr[i]), late) && e.key == k
      ensures e.cell.version.writer == k.owner
    {
      CabWriters(tr[..i + 1], evs[..i], i, e);
    }
    OneWriterSettles(Around(TablesOf(tr[i]), late), k);
    NewestIsNotLate(TablesOf(tr[i]), late, k);
    GossipSettles(tr, evs, i, k, n, m);
  }
}
