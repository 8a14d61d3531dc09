/** Exactly when gossip is bound to settle a call, for every cluster that a run of the
    protocol can reach. */
module SettlingExactly {
  import opened Versions
  import opened Requests
  import opened Merge
  import opened MergeOrder
  import opened Replicas
  import opened Gossip
  import opened Unsettled
  import opened Replication
  import opened Convergence
  import opened Settling

  /** The run goes on from where the other ends. */
  ghost predicate Continues(tr: seq<Cluster>, evs: seq<Event>, more: seq<Cluster>, moreEvs: seq<Event>) {
    Run(more, moreEvs) && tr <= more && evs <= moreEvs && |tr| == |evs| + 1
  }

  lemma ContinuesOn(tr: seq<Cluster>, evs: seq<Event>, more: seq<Cluster>, moreEvs: seq<Event>, ev: Event)
    returns (last: seq<Cluster>, lastEvs: seq<Event>)
    requires Continues(tr, evs, more, moreEvs) && Enabled(more[|moreEvs|], ev)
    ensures Continues(tr, evs, last, lastEvs) && lastEvs == moreEvs + [ev]
    ensures last[|lastEvs|] == Apply(more[|moreEvs|], ev)
  {
    RunNext(more, moreEvs, ev);
    last, lastEvs := more + [Apply(more[|moreEvs|], ev)], moreEvs + [ev];
  }

  // ----- everybody sends -----

  /** Only the packets have become more. */
  ghost predicate MorePackets(c: Cluster, d: Cluster) {
    d.nodes == c.nodes && d.log == c.log && d.writes == c.writes && c.net <= d.net
  }

  ghost function SendOf(c: Cluster, n: int): Event
    requires n in c.nodes
  {
    Send(n, SnapshotOf(c.nodes[n].cells))
  }

  /** From `a` on these nodes send. */
  ghost predicate SendsBy(c: Cluster, evs: seq<Event>, a: nat, ns: seq<int>) {
    && a + |ns| <= |evs| && (forall n :: n in ns ==> n in c.nodes)
    && forall l :: 0 <= l < |ns| ==> evs[a + l] == SendOf(c, ns[l])
  }

  /** The run goes on by these nodes sending. */
  ghost predicate HaveSent(tr: seq<Cluster>, evs: seq<Event>, more: seq<Cluster>, moreEvs: seq<Event>, ns: seq<int>) {
    && Continues(tr, evs, more, moreEvs) && MorePackets(tr[|evs|], more[|moreEvs|])
    && |moreEvs| == |evs| + |ns| && SendsBy(tr[|evs|], moreEvs, |evs|, ns)
    && forall n :: n in ns ==> SnapshotOf(tr[|evs|].nodes[n].cells) in more[|moreEvs|].net
  }

  lemma OneMoreSends(tr: seq<Cluster>, evs: seq<Event>, bs: seq<Cluster>, fs: seq<Event>, front: seq<int>, n: int)
    returns (more: seq<Cluster>, moreEvs: seq<Event>)
    requires HaveSent(tr, evs, bs, fs, front) && n in tr[|evs|].nodes
    ensures HaveSent(tr, evs, more, moreEvs, front + [n])
  {
    more, moreEvs := ContinuesOn(tr, evs, bs, fs, SendOf(tr[|evs|], n));
  }

  lemma {:induction false} AllSend(tr: seq<Cluster>, evs: seq<Event>, ns: seq<int>)
    returns (more: seq<Cluster>, moreEvs: seq<Event>)
    requires Run(tr, evs) && forall n :: n in ns ==> n in tr[|evs|].nodes
    ensures HaveSent(tr, evs, more, moreEvs, ns)
  {
    if ns == [] {
      more, moreEvs := tr, evs;
    } else {
      var front, n := ns[..|ns| - 1], ns[|ns| - 1];
      var bs, fs := AllSend(tr, evs, front);
      assert ns == front + [n];
      more, moreEvs := OneMoreSends(tr, evs, bs, fs, front, n);
    }
  }

  // ----- deliveries -----

  function ReceiveOf(mv: Move): Event
    requires mv.Deliver?
  {
    Receive(mv.to, mv.es)
  }

  ghost predicate CanDeliver(c: Cluster, ds: seq<Move>) {
    forall mv :: mv in ds ==> mv.Deliver? && mv.to in c.nodes && mv.es in c.net
  }

  lemma ReceiptGives(c: Cluster, mv: Move)
    requires c.nodes.Keys == c.log.Keys && mv.Deliver? && mv.to in c.nodes && mv.es in c.net
    ensures var d := Apply(c, ReceiveOf(mv));
            TablesOf(d) == Given(TablesOf(c), mv) && d.net == c.net && d.nodes.Keys == c.nodes.Keys
  {
    var d := Apply(c, ReceiveOf(mv));
    assert TablesOf(d).Keys == Given(TablesOf(c), mv).Keys;
    forall n | n in d.nodes
      ensures TablesOf(d)[n] == Given(TablesOf(c), mv)[n]
    {
    }
  }

  /** From `b` on these deliveries are made. */
  predicate ReceivesBy(evs: seq<Event>, b: nat, ds: seq<Move>) {
    && b + |ds| <= |evs|
    && forall l :: 0 <= l < |ds| ==> ds[l].Deliver? && evs[b + l] == ReceiveOf(ds[l])
  }

  /** The run goes on by these deliveries. */
  ghost predicate Delivers(tr: seq<Cluster>, evs: seq<Event>, more: seq<Cluster>, moreEvs: seq<Event>,
                           ds: seq<Move>) {
    && Continues(tr, evs, more, moreEvs) && |moreEvs| == |evs| + |ds|
    && ReceivesBy(moreEvs, |evs|, ds)
    && more[|moreEvs|].net == tr[|evs|].net && more[|moreEvs|].nodes.Keys == tr[|evs|].nodes.Keys
    && TablesOf(more[|moreEvs|]) == After(TablesOf(tr[|evs|]), ds)
  }

  lemma DeliversOneMore(tr: seq<Cluster>, evs: seq<Event>, bs: seq<Cluster>, fs: seq<Event>, front: seq<Move>, mv: Move)
    returns (more: seq<Cluster>, moreEvs: seq<Event>)
    requires Delivers(tr, evs, bs, fs, front)
    requires mv.Deliver? && mv.to in tr[|evs|].nodes && mv.es in tr[|evs|].net
    ensures Delivers(tr, evs, more, moreEvs, front + [mv])
  {
    ReceiptGives(bs[|fs|], mv);
    AfterLast(TablesOf(tr[|evs|]), front, mv);
    more, moreEvs := ContinuesOn(tr, evs, bs, fs, ReceiveOf(mv));
  }

  lemma {:induction false} AllDelivered(tr: seq<Cluster>, evs: seq<Event>, ds: seq<Move>)
    returns (more: seq<Cluster>, moreEvs: seq<Event>)
    requires Run(tr, evs) && CanDeliver(tr[|evs|], ds)
    ensures Delivers(tr, evs, more, moreEvs, ds)
  {
    if ds == [] {
      more, moreEvs := tr, evs;
    } else {
      var front, mv := ds[..|ds| - 1], ds[|ds| - 1];
      assert ds == front + [mv];
      var bs, fs := AllDelivered(tr, evs, front);
      more, moreEvs := DeliversOneMore(tr, evs, bs, fs, front, mv);
    }
  }

  // ----- everybody sends, and then these deliveries -----

  /** Everything delivered was in the net or is the snapshot of some node. */
  lemma SentIsDelivered(c: Cluster, d: Cluster, ds: seq<Move>)
    requires MorePackets(c, d) && AllDeliverable(TablesOf(c), c.net, ds)
    requires forall n :: n in c.nodes ==> SnapshotOf(c.nodes[n].cells) in d.net
    ensures CanDeliver(d, ds)
  {
    forall mv | mv in ds
      ensures mv.Deliver? && mv.to in d.nodes && mv.es in d.net
    {
      assert Deliverable(TablesOf(c), c.net, mv);
      if mv.es !in c.net {
        var m :| m in TablesOf(c) && Lists(mv.es, TablesOf(c)[m], false);
        SnapshotUnique(mv.es, SnapshotOf(c.nodes[m].cells), c.nodes[m].cells, false);
      }
    }
  }

  ghost predicate OnlySends(evs: seq<Event>, i: nat, j: nat) {
    i <= j <= |evs| && forall l :: i <= l < j ==> evs[l].Send? || evs[l].Receive?
  }

  lemma SendsAreQuiet(tr: seq<Cluster>, evs: seq<Event>, i: nat)
    requires Run(tr, evs) && OnlySends(evs, i, |evs|)
    ensures QuietFrom(tr, evs, i)
  {
  }

  /** Each node sends, and then these deliveries are made. */
  ghost predicate RoundOf(c: Cluster, evs: seq<Event>, a: nat, b: nat, ns: seq<int>, ds: seq<Move>) {
    && b == a + |ns| && |evs| == b + |ds|
    && (forall n :: n in ns <==> n in c.nodes)
    && SendsBy(c, evs, a, ns) && ReceivesBy(evs, b, ds)
  }

  lemma PairInRound(c: Cluster, ns: seq<int>, ds: seq<Move>, p: int, q: int) returns (i: nat, l: nat)
    requires (forall n :: n in ns <==> n in c.nodes) && FullRound(TablesOf(c), ds) && p in c.nodes && q in c.nodes
    ensures i < |ns| && ns[i] == q && l < |ds| && ds[l] == Deliver(p, SnapshotOf(c.nodes[q].cells))
  {
    assert q in ns;
    i :| i < |ns| && ns[i] == q;
    assert p in TablesOf(c) && q in TablesOf(c);
    assert Deliver(p, SnapshotOf(TablesOf(c)[q])) in ds;
    l :| l < |ds| && ds[l] == Deliver(p, SnapshotOf(c.nodes[q].cells));
  }

  lemma PairIsHeardOf(c: Cluster, evs: seq<Event>, a: nat, b: nat, ns: seq<int>, ds: seq<Move>, p: int, q: int)
    requires RoundOf(c, evs, a, b, ns, ds) && FullRound(TablesOf(c), ds) && p in c.nodes && q in c.nodes
    ensures HeardSince(evs, a, p, q)
  {
    var i, l := PairInRound(c, ns, ds, p, q);
    assert evs[a + i] == SendOf(c, ns[i]) && evs[b + l] == ReceiveOf(ds[l]);
    assert Hears(evs[b + l], p, evs[a + i].es);
  }

  lemma RoundIsHeardOf(c: Cluster, evs: seq<Event>, a: nat, b: nat, ns: seq<int>, ds: seq<Move>)
    requires RoundOf(c, evs, a, b, ns, ds) && FullRound(TablesOf(c), ds)
    ensures forall p, q :: p in c.nodes && q in c.nodes && p != q ==> HeardSince(evs, a, p, q)
  {
    forall p, q | p in c.nodes && q in c.nodes && p != q
      ensures HeardSince(evs, a, p, q)
    {
      PairIsHeardOf(c, evs, a, b, ns, ds, p, q);
    }
  }

  lemma RoundOnlySends(c: Cluster, evs: seq<Event>, a: nat, b: nat, ns: seq<int>, ds: seq<Move>)
    requires RoundOf(c, evs, a, b, ns, ds)
    ensures OnlySends(evs, a, |evs|)
  {
    forall l | a <= l < |evs|
      ensures evs[l].Send? || evs[l].Receive?
    {
      if l < b {
        assert evs[l] == evs[a + (l - a)] == SendOf(c, ns[l - a]);
      } else {
        assert evs[l] == evs[b + (l - b)] == ReceiveOf(ds[l - b]);
      }
    }
  }

  lemma SendsByMore(c: Cluster, fs: seq<Event>, moreEvs: seq<Event>, a: nat, ns: seq<int>)
    requires fs <= moreEvs && SendsBy(c, fs, a, ns)
    ensures SendsBy(c, moreEvs, a, ns)
  {
    forall l | 0 <= l < |ns|
      ensures moreEvs[a + l] == SendOf(c, ns[l])
    {
      assert moreEvs[a + l] == fs[a + l];
    }
  }

  /** Everybody has sent and nothing else has happened. */
  lemma EverybodySends(tr: seq<Cluster>, evs: seq<Event>, ds: seq<Move>)
    returns (bs: seq<Cluster>, fs: seq<Event>, ns: seq<int>)
    requires Run(tr, evs) && AllDeliverable(TablesOf(tr[|evs|]), tr[|evs|].net, ds)
    ensures Continues(tr, evs, bs, fs) && CanDeliver(bs[|fs|], ds) && TablesOf(bs[|fs|]) == TablesOf(tr[|evs|])
    ensures |fs| == |evs| + |ns| && SendsBy(tr[|evs|], fs, |evs|, ns) && forall n :: n in ns <==> n in tr[|evs|].nodes
  {
    var c := tr[|evs|];
    ns := Listed(c.nodes.Keys);
    bs, fs := AllSend(tr, evs, ns);
    forall n | n in c.nodes
      ensures SnapshotOf(c.nodes[n].cells) in bs[|fs|].net
    {
      assert n in ns;
    }
    SentIsDelivered(c, bs[|fs|], ds);
  }

  lemma GoesOnFurther(tr: seq<Cluster>, evs: seq<Event>, bs: seq<Cluster>, fs: seq<Event>,
                      more: seq<Cluster>, moreEvs: seq<Event>)
    requires Continues(tr, evs, bs, fs) && Continues(bs, fs, more, moreEvs)
    ensures Continues(tr, evs, more, moreEvs) && more[|evs|] == tr[|evs|]
  {
  }

  lemma RoundGoesOn(c: Cluster, more: seq<Cluster>, moreEvs: seq<Event>, a: nat, b: nat, ns: seq<int>, ds: seq<Move>)
    requires Run(more, moreEvs) && RoundOf(c, moreEvs, a, b, ns, ds) && more[a] == c && FullRound(TablesOf(c), ds)
    ensures QuietFrom(more, moreEvs, a) && EachHeardSince(more, moreEvs, a)
  {
    RoundOnlySends(c, moreEvs, a, b, ns, ds);
    SendsAreQuiet(more, moreEvs, a);
    RoundIsHeardOf(c, moreEvs, a, b, ns, ds);
  }

  /** They are the events after `evs`. */
  ghost predicate GoesOnBy(tr: seq<Cluster>, evs: seq<Event>, more: seq<Cluster>, moreEvs: seq<Event>,
                           b: nat, ns: seq<int>, ds: seq<Move>) {
    && Continues(tr, evs, more, moreEvs) && more[|evs|] == tr[|evs|]
    && RoundOf(tr[|evs|], moreEvs, |evs|, b, ns, ds)
    && TablesOf(more[|moreEvs|]) == After(TablesOf(tr[|evs|]), ds)
  }

  lemma SentThenDelivered(tr: seq<Cluster>, evs: seq<Event>, bs: seq<Cluster>, fs: seq<Event>, ns: seq<int>,
                          more: seq<Cluster>, moreEvs: seq<Event>, ds: seq<Move>)
    requires Continues(tr, evs, bs, fs) && TablesOf(bs[|fs|]) == TablesOf(tr[|evs|])
    requires |fs| == |evs| + |ns| && SendsBy(tr[|evs|], fs, |evs|, ns)
    requires forall n :: n in ns <==> n in tr[|evs|].nodes
    requires Delivers(bs, fs, more, moreEvs, ds)
    ensures GoesOnBy(tr, evs, more, moreEvs, |fs|, ns, ds)
  {
    SendsByMore(tr[|evs|], fs, moreEvs, |evs|, ns);
    GoesOnFurther(tr, evs, bs, fs, more, moreEvs);
  }

  lemma RoundCanBe(tr: seq<Cluster>, evs: seq<Event>, ds: seq<Move>)
    returns (more: seq<Cluster>, moreEvs: seq<Event>, b: nat, ns: seq<int>)
    requires Run(tr, evs) && AllDeliverable(TablesOf(tr[|evs|]), tr[|evs|].net, ds)
    ensures GoesOnBy(tr, evs, more, moreEvs, b, ns, ds)
  {
    var bs, fs;
    bs, fs, ns := EverybodySends(tr, evs, ds);
    more, moreEvs := AllDelivered(bs, fs, ds);
    SentThenDelivered(tr, evs, bs, fs, ns, more, moreEvs, ds);
    b := |fs|;
  }

  /** All the deliveries of a full round can be made in a run that goes on quietly. */
  lemma RoundIsRun(tr: seq<Cluster>, evs: seq<Event>, ds: seq<Move>)
    returns (more: seq<Cluster>, moreEvs: seq<Event>)
    requires Run(tr, evs) && FullRound(TablesOf(tr[|evs|]), ds)
    requires AllDeliverable(TablesOf(tr[|evs|]), tr[|evs|].net, ds)
    ensures Continues(tr, evs, more, moreEvs) && QuietFrom(more, moreEvs, |evs|)
    ensures EachHeardSince(more, moreEvs, |evs|)
    ensures TablesOf(more[|moreEvs|]) == After(TablesOf(tr[|evs|]), ds)
  {
    var b, ns;
    more, moreEvs, b, ns := RoundCanBe(tr, evs, ds);
    RoundGoesOn(tr[|evs|], more, moreEvs, |evs|, b, ns, ds);
  }

  // ----- exactly -----

  lemma {:induction false} NetIsDistinct(tr: seq<Cluster>, evs: seq<Event>, i: nat)
    requires Run(tr, evs) && i <= |evs|
    ensures AllDistinct(tr[i].net)
  {
    if i > 0 {
      NetIsDistinct(tr, evs, i - 1);
      var ev := evs[i - 1];
      if ev.Send? {
        ListsDistinct(ev.es, tr[i - 1].nodes[ev.id].cells);
      }
    }
  }

  lemma FewerPackets(t: Tables, late: Packets, all: Packets, k: RequestKey)
    requires late <= all && NewestIsHeld(t, all, k)
    ensures NewestIsHeld(t, late, k)
  {
    if k in KeysOf(Around(t, late)) {
      var d :| d in Around(t, late) && d.key == k;
      assert d in Around(t, all);
      var e :| Newest(Around(t, all), e) && e.key == k && e in InTables(t);
      assert Newest(Around(t, late), e);
    }
  }

  /** However the run goes on without starts and writes, all nodes agree about the call
      once each has received a snapshot that every other has sent since. */
  ghost predicate BoundToSettle(tr: seq<Cluster>, evs: seq<Event>, k: RequestKey)
    requires |tr| == |evs| + 1
  {
    forall more, moreEvs ::
      Continues(tr, evs, more, moreEvs) && QuietFrom(more, moreEvs, |evs|) && EachHeardSince(more, moreEvs, |evs|) ==>
        AgreeAt(TablesOf(more[|moreEvs|]), k)
  }

  lemma HeldIsBound(tr: seq<Cluster>, evs: seq<Event>, more: seq<Cluster>, moreEvs: seq<Event>, k: RequestKey)
    requires Continues(tr, evs, more, moreEvs) && |evs| < WRAP && QuietFrom(more, moreEvs, |evs|)
    requires EachHeardSince(more, moreEvs, |evs|) && NewestIsHeld(TablesOf(tr[|evs|]), tr[|evs|].net, k)
    ensures AgreeAt(TablesOf(more[|moreEvs|]), k)
  {
    var i := |evs|;
    assert more[i] == tr[i];
    FewerPackets(TablesOf(more[i]), Late(more, moreEvs, i), more[i].net, k);
    NodesStay(more, moreEvs, i, |moreEvs|);
    forall n, m | n in more[|moreEvs|].nodes && m in more[|moreEvs|].nodes
      ensures SameAt(more[|moreEvs|].nodes[n].cells, more[|moreEvs|].nodes[m].cells, k)
    {
      GossipSettles(more, moreEvs, i, k, n, m);
    }
  }

  lemma {:induction false} NodesStay(tr: seq<Cluster>, evs: seq<Event>, i: nat, j: nat)
    requires Run(tr, evs) && i <= j <= |evs| && QuietFrom(tr, evs, i)
    ensures tr[j].nodes.Keys == tr[i].nodes.Keys
  {
    if i < j {
      NodesStay(tr, evs, i, j - 1);
      assert !evs[j - 1].Start?;
    }
  }

  /** For a cluster that a run has reached, with two nodes or more: gossip is bound to
      settle a call exactly if, of all entries for it that are held or were ever sent, the
      newest is held by some node, or if there are none. */
  lemma SettlesExactlyWhere(tr: seq<Cluster>, evs: seq<Event>, k: RequestKey, p: int, q: int)
    requires Run(tr, evs) && |evs| < WRAP && p in tr[|evs|].nodes && q in tr[|evs|].nodes && p != q
    ensures BoundToSettle(tr, evs, k) <==> NewestIsHeld(TablesOf(tr[|evs|]), tr[|evs|].net, k)
  {
    var t, net := TablesOf(tr[|evs|]), tr[|evs|].net;
    if NewestIsHeld(t, net, k) {
      forall more, moreEvs | Continues(tr, evs, more, moreEvs) && QuietFrom(more, moreEvs, |evs|) &&
          EachHeardSince(more, moreEvs, |evs|)
        ensures AgreeAt(TablesOf(more[|moreEvs|]), k)
      {
        HeldIsBound(tr, evs, more, moreEvs, k);
      }
    } else {
      AroundIsWritten(tr, evs, net);
      NetIsDistinct(tr, evs, |evs|);
      var ds := DifferentEnd(t, net, k, p, q);
      var more, moreEvs := RoundIsRun(tr, evs, ds);
      assert !AgreeAt(TablesOf(more[|moreEvs|]), k);
    }
  }
}
