/** What every run of the replicated table guarantees. */
module Convergence {
  import opened Text
  import opened Versions
  import opened Requests
  import opened Merge
  import opened MergeOrder
  import opened Replicas
  import opened Replication

  predicate Effective(c: Cluster, ev: Event) {
    ev.Write? && ev.id in c.nodes && Active(c.nodes[ev.id].cells, ev.key) != ev.active
  }

  /** No write of any run ever repeats the version of an earlier write. */
  lemma FreshVersions(tr: seq<Cluster>, evs: seq<Event>, i: nat)
    requires Run(tr, evs) && i < |evs| < WRAP && Effective(tr[i], evs[i])
    ensures var e := Written(tr[i].nodes[evs[i].id], evs[i].key, evs[i].active);
            && tr[i + 1].writes == tr[i].writes + {e}
            && forall f :: f in tr[i].writes ==> f.cell.version != e.cell.version
  {
    RunInv(tr, evs, i);
    var c, ev := tr[i], evs[i];
    assert NodeInv(c, ev.id, i);
    forall f | f in c.writes
      ensures f.cell.version != Written(c.nodes[ev.id], ev.key, ev.active).cell.version
    {
      KnownAfterWrite(c, ev.id, ev.key, ev.active, i, f);
    }
  }

  // ----- agreement -----

  lemma LogHolds(tr: seq<Cluster>, evs: seq<Event>, i: nat, n: int)
    requires Run(tr, evs) && i <= |evs| < WRAP && n in tr[i].nodes
    ensures tr[i].nodes[n].cells == MergeAll(map[], tr[i].log[n])
    ensures Storable(Elements(tr[i].log[n]))
    ensures Elements(tr[i].log[n]) <= tr[i].writes
    ensures Functional(tr[i].writes)
  {
    RunInv(tr, evs, i);
    assert NodeInv(tr[i], n, i);
    LogStorable(tr[i], n, i);
  }

  /** All that either of two nodes has absorbed. */
  ghost function Absorbed(c: Cluster, n: int, m: int): set<RequestEntry>
    requires n in c.log && m in c.log
  {
    Elements(c.log[n]) + Elements(c.log[m])
  }

  /** A node holds the newest of all there is for a key exactly when it has absorbed it. */
  lemma HoldsNewestExactly(tr: seq<Cluster>, evs: seq<Event>, i: nat, n: int, s: set<RequestEntry>, e: RequestEntry)
    requires Run(tr, evs) && i <= |evs| < WRAP && n in tr[i].nodes
    requires Elements(tr[i].log[n]) <= s && Storable(s) && Newest(s, e)
    ensures CellAt(tr[i].nodes[n].cells, e.key) == e.cell <==> e in tr[i].log[n]
  {
    LogHolds(tr, evs, i, n);
    var log, cells := tr[i].log[n], tr[i].nodes[n].cells;
    if e in log {
      NewestPrevails(s, log, e);
    } else if e.key in cells {
      MergedFrom(log);
      assert RequestEntry(e.key, cells[e.key]) in Elements(log);
    } else {
      NewerTotal(e.cell.version, ZERO);
    }
  }

  lemma AbsorbedStorable(tr: seq<Cluster>, evs: seq<Event>, i: nat, n: int, m: int)
    requires Run(tr, evs) && i <= |evs| < WRAP && n in tr[i].nodes && m in tr[i].nodes
    ensures n in tr[i].log && m in tr[i].log
    ensures Storable(Absorbed(tr[i], n, m)) && Functional(Absorbed(tr[i], n, m))
    ensures Absorbed(tr[i], n, m) <= tr[i].writes
  {
    LogHolds(tr, evs, i, n);
    LogHolds(tr, evs, i, m);
  }

  /** Two nodes hold the same cell of a key exactly when both have absorbed the newest
      of what either has, whatever else one of them has absorbed. */
  lemma AgreeExactly(tr: seq<Cluster>, evs: seq<Event>, i: nat, n: int, m: int, e: RequestEntry)
    requires Run(tr, evs) && i <= |evs| < WRAP && n in tr[i].nodes && m in tr[i].nodes
    requires Newest(Absorbed(tr[i], n, m), e)
    ensures CellAt(tr[i].nodes[n].cells, e.key) == CellAt(tr[i].nodes[m].cells, e.key) <==>
            e in tr[i].log[n] && e in tr[i].log[m]
  {
    AbsorbedStorable(tr, evs, i, n, m);
    HoldsNewestExactly(tr, evs, i, n, Absorbed(tr[i], n, m), e);
    HoldsNewestExactly(tr, evs, i, m, Absorbed(tr[i], n, m), e);
  }

  ghost predicate BothHave(c: Cluster, n: int, m: int, e: RequestEntry)
    requires n in c.log && m in c.log
  {
    e in c.log[n] && e in c.log[m]
  }

  /** Both nodes have the newest entry of every key of which either has any. */
  ghost predicate ShareNewest(c: Cluster, n: int, m: int)
    requires n in c.log && m in c.log
  {
    forall e :: Newest(Absorbed(c, n, m), e) ==> BothHave(c, n, m, e)
  }

  /** Their tables are equal exactly when that is so of every key, if each key has a
      newest entry; by `OrderFreeExactly` no weaker condition on the entries will do. */
  lemma ConvergesExactly(tr: seq<Cluster>, evs: seq<Event>, i: nat, n: int, m: int)
    requires Run(tr, evs) && i <= |evs| < WRAP && n in tr[i].nodes && m in tr[i].nodes
    requires n in tr[i].log && m in tr[i].log && EachKeyHasNewest(Absorbed(tr[i], n, m))
    ensures tr[i].nodes[n].cells == tr[i].nodes[m].cells <==> ShareNewest(tr[i], n, m)
  {
    var c := tr[i];
    if c.nodes[n].cells == c.nodes[m].cells {
      forall e | Newest(Absorbed(c, n, m), e)
        ensures BothHave(c, n, m, e)
      {
        AgreeExactly(tr, evs, i, n, m, e);
      }
    }
    if ShareNewest(c, n, m) {
      SharedMakesEqual(tr, evs, i, n, m);
    }
  }

  lemma SharedMakesEqual(tr: seq<Cluster>, evs: seq<Event>, i: nat, n: int, m: int)
    requires Run(tr, evs) && i <= |evs| < WRAP && n in tr[i].nodes && m in tr[i].nodes
    requires n in tr[i].log && m in tr[i].log && EachKeyHasNewest(Absorbed(tr[i], n, m)) && ShareNewest(tr[i], n, m)
    ensures tr[i].nodes[n].cells == tr[i].nodes[m].cells
  {
    var c := tr[i];
    var a, b := c.nodes[n].cells, c.nodes[m].cells;
    LogHolds(tr, evs, i, n);
    LogHolds(tr, evs, i, m);
    MergedFrom(c.log[n]);
    MergedFrom(c.log[m]);
    forall k
      ensures SameAt(a, b, k)
    {
      if k in KeysOf(Absorbed(c, n, m)) {
        var e :| Newest(Absorbed(c, n, m), e) && e.key == k;
        assert BothHave(c, n, m, e);
        AgreeExactly(tr, evs, i, n, m, e);
      } else {
        HeldKeys(a, Elements(c.log[n]), k);
        HeldKeys(b, Elements(c.log[m]), k);
      }
    }
    SameTable(a, b);
  }

  /** Cab cells carry only their owner's versions, in every run. */
  lemma CabWriters(tr: seq<Cluster>, evs: seq<Event>, i: nat, e: RequestEntry)
    requires Run(tr, evs) && i <= |evs| < WRAP && e in tr[i].writes && e.key.kind == CAB
    ensures e.cell.version.writer == e.key.owner
  {
    RunInv(tr, evs, i);
    assert Known(tr[i], e, i);
  }

  /** Two nodes agree on a cab call exactly when both have absorbed its newest entry,
      which there always is, restarts included. */
  lemma CabCellsAgreeExactly(tr: seq<Cluster>, evs: seq<Event>, i: nat, n: int, m: int, d: RequestEntry)
    returns (e: RequestEntry)
    requires Run(tr, evs) && i <= |evs| < WRAP && n in tr[i].nodes && m in tr[i].nodes
    requires n in tr[i].log && m in tr[i].log && d in Absorbed(tr[i], n, m) && d.key.kind == CAB
    ensures Newest(Absorbed(tr[i], n, m), e) && e.key == d.key
    ensures CellAt(tr[i].nodes[n].cells, d.key) == CellAt(tr[i].nodes[m].cells, d.key) <==> BothHave(tr[i], n, m, e)
  {
    var s := Absorbed(tr[i], n, m);
    AbsorbedStorable(tr, evs, i, n, m);
    forall v | v in VersionsAt(s, d.key)
      ensures v.writer == d.key.owner
    {
      var f :| f in s && f.key == d.key && f.cell.version == v;
      CabWriters(tr, evs, i, f);
    }
    OneWriterIsChain(VersionsAt(s, d.key), d.key.owner);
    ChainExactly(VersionsAt(s, d.key));
    NewestAtKey(s, d);
    e :| Newest(s, e) && e.key == d.key;
    AgreeExactly(tr, evs, i, n, m, e);
  }

  // ----- what keeps boots and counters in step -----

  ghost function AllVersions(s: set<RequestEntry>): set<Version> {
    set e | e in s :: e.cell.version
  }

  /** The guard a restarted node would have to check before its writes: its clock
      has caught up with the counters of its earlier boots. */
  ghost predicate CaughtUp(c: Cluster, id: int)
    requires id in c.nodes
  {
    forall e :: e in c.writes && e.cell.version.writer == id && e.cell.version.boot != c.nodes[id].clock.boot ==>
      e.cell.version.counter <= c.nodes[id].clock.value + 1
  }

  lemma MonotoneInsert(vs: set<Version>, v: Version)
    requires BootMonotone(vs)
    requires forall w :: w in vs && w.writer == v.writer ==> w.boot == v.boot || Less(w.boot, v.boot)
    ensures BootMonotone(vs + {v}) <==>
            forall w :: w in vs && w.writer == v.writer && w.boot != v.boot ==> w.counter <= v.counter
  {
    LessIrreflexive(v.boot);
    forall w | w in vs && w.writer == v.writer && Less(v.boot, w.boot)
      ensures false
    {
      LessAsymmetric(v.boot, w.boot);
    }
  }

  lemma WriteStaysMonotone(c: Cluster, ev: Event, bound: int)
    requires Inv(c, bound) && 0 <= bound < WRAP - 1 && Enabled(c, ev) && Effective(c, ev)
    requires BootMonotone(AllVersions(c.writes))
    ensures BootMonotone(AllVersions(Apply(c, ev).writes)) <==> CaughtUp(c, ev.id)
  {
    var e := Written(c.nodes[ev.id], ev.key, ev.active);
    var v := e.cell.version;
    var vs := AllVersions(c.writes);
    assert NodeInv(c, ev.id, bound);
    assert AllVersions(Apply(c, ev).writes) == vs + {v};
    forall w | w in vs && w.writer == v.writer
      ensures w.boot == v.boot || Less(w.boot, v.boot)
    {
      var f :| f in c.writes && f.cell.version == w;
      assert Known(c, f, bound);
    }
    MonotoneInsert(vs, v);
    GuardInVersions(c, ev.id, v);
  }

  lemma GuardInVersions(c: Cluster, id: int, v: Version)
    requires id in c.nodes && c.nodes[id].clock.writer == id && c.nodes[id].clock.value + 1 < WRAP
    requires v == Stamp(Ticked(c.nodes[id].clock))
    ensures CaughtUp(c, id) <==>
            forall w :: w in AllVersions(c.writes) && w.writer == v.writer && w.boot != v.boot ==>
              w.counter <= v.counter
  {
    if forall w :: w in AllVersions(c.writes) && w.writer == v.writer && w.boot != v.boot ==> w.counter <= v.counter {
      forall f | f in c.writes
        ensures f.cell.version in AllVersions(c.writes)
      {
      }
    }
  }

  lemma OtherStepsKeepWrites(c: Cluster, ev: Event)
    requires c.nodes.Keys == c.log.Keys && Enabled(c, ev) && !Effective(c, ev)
    ensures Apply(c, ev).writes == c.writes
  {
  }

  lemma {:induction false} WritesGrow(tr: seq<Cluster>, evs: seq<Event>, i: nat, j: nat)
    requires Run(tr, evs) && i <= j <= |evs|
    ensures tr[i].writes <= tr[j].writes
  {
    if i < j {
      WritesGrow(tr, evs, i, j - 1);
      if !Effective(tr[j - 1], evs[j - 1]) {
        OtherStepsKeepWrites(tr[j - 1], evs[j - 1]);
      }
    }
  }

  lemma StepMonotone(c: Cluster, ev: Event, bound: int)
    requires Inv(c, bound) && 0 <= bound < WRAP - 1 && Enabled(c, ev)
    ensures BootMonotone(AllVersions(Apply(c, ev).writes)) <==>
            BootMonotone(AllVersions(c.writes)) && (Effective(c, ev) ==> CaughtUp(c, ev.id))
  {
    if !Effective(c, ev) {
      OtherStepsKeepWrites(c, ev);
    } else if BootMonotone(AllVersions(c.writes)) {
      WriteStaysMonotone(c, ev, bound);
    } else {
      assert AllVersions(c.writes) <= AllVersions(Apply(c, ev).writes);
    }
  }

  lemma RunStepMonotone(tr: seq<Cluster>, evs: seq<Event>, i: nat)
    requires Run(tr, evs) && i < |evs| < WRAP
    ensures BootMonotone(AllVersions(tr[i + 1].writes)) <==>
            BootMonotone(AllVersions(tr[i].writes)) && (Effective(tr[i], evs[i]) ==> CaughtUp(tr[i], evs[i].id))
  {
    RunInv(tr, evs, i);
    StepMonotone(tr[i], evs[i], i);
  }

  /** In every run, a later boot never used a smaller counter than an earlier one
      exactly when no node wrote before its clock had caught up. */
  lemma {:induction false} MonotoneExactly(tr: seq<Cluster>, evs: seq<Event>, i: nat)
    requires Run(tr, evs) && i <= |evs| < WRAP
    ensures BootMonotone(AllVersions(tr[i].writes)) <==>
            forall j :: 0 <= j < i && Effective(tr[j], evs[j]) ==> CaughtUp(tr[j], evs[j].id)
  {
    if i > 0 {
      MonotoneExactly(tr, evs, i - 1);
      RunStepMonotone(tr, evs, i - 1);
    }
  }

  /** A clock is at zero or at a counter its node has absorbed. */
  ghost predicate ClockAbsorbed(c: Cluster, n: int)
    requires n in c.nodes && n in c.log
  {
    c.nodes[n].clock.value == 0 || exists e :: e in c.log[n] && e.cell.version.counter == c.nodes[n].clock.value
  }

  lemma ClockStays(c: Cluster, ev: Event, n: int, bound: int)
    requires Inv(c, bound) && 0 <= bound < WRAP - 1 && Enabled(c, ev) && n in c.nodes && ClockAbsorbed(c, n)
    requires ev.id == n && !ev.Start?
    ensures ClockAbsorbed(Apply(c, ev), n)
  {
    var d := Apply(c, ev);
    match ev
    case Write(_, key, active) =>
      if Effective(c, ev) {
        assert Written(c.nodes[n], key, active) in d.log[n];
      }
    case Receive(_, es) =>
      ObserveAllMax(c.nodes[n].clock, es);
    case Seed(_, max) => SeedChangesNothing(c, n, max, bound);
    case Send(_, _) =>
  }

  lemma {:induction false} RunClock(tr: seq<Cluster>, evs: seq<Event>, i: nat, n: int)
    requires Run(tr, evs) && i <= |evs| < WRAP && n in tr[i].nodes
    ensures n in tr[i].log && ClockAbsorbed(tr[i], n)
  {
    if i > 0 && !(evs[i - 1].Start? && evs[i - 1].id == n) {
      RunClock(tr, evs, i - 1, n);
      if evs[i - 1].id == n {
        RunInv(tr, evs, i - 1);
        ClockStays(tr[i - 1], evs[i - 1], n, i - 1);
      }
    }
  }

  /** A write of an earlier boot of the node, too late for a fresh clock to be ahead of. */
  ghost predicate EarlierBoot(c: Cluster, id: int, e: RequestEntry)
    requires id in c.nodes
  {
    && e in c.writes && e.cell.version.writer == id && e.cell.version.boot != c.nodes[id].clock.boot
    && e.cell.version.counter > 1
  }

  /** A restarted node is caught up exactly when it has absorbed, for every write of its
      earlier boots, a version at most one behind it: what the startup sync window has
      to bring in. */
  lemma SyncCatchesUpExactly(tr: seq<Cluster>, evs: seq<Event>, i: nat, id: int)
    requires Run(tr, evs) && i <= |evs| < WRAP && id in tr[i].nodes
    ensures id in tr[i].log
    ensures CaughtUp(tr[i], id) <==>
            forall e :: EarlierBoot(tr[i], id, e) ==>
              exists f :: f in tr[i].log[id] && f.cell.version.counter + 1 >= e.cell.version.counter
  {
    var c := tr[i];
    RunInv(tr, evs, i);
    RunClock(tr, evs, i, id);
    assert NodeInv(c, id, i);
    if CaughtUp(c, id) {
      forall e | EarlierBoot(c, id, e)
        ensures exists f :: f in c.log[id] && f.cell.version.counter + 1 >= e.cell.version.counter
      {
        assert c.nodes[id].clock.value > 0;
      }
    }
    if forall e :: EarlierBoot(c, id, e) ==>
         exists f :: f in c.log[id] && f.cell.version.counter + 1 >= e.cell.version.counter {
      forall e | e in c.writes && e.cell.version.writer == id && e.cell.version.boot != c.nodes[id].clock.boot
        ensures e.cell.version.counter <= c.nodes[id].clock.value + 1
      {
        if e.cell.version.counter > 1 {
          assert EarlierBoot(c, id, e);
        }
      }
    }
  }

  /** When every node is caught up whenever it writes, each key has a newest entry, so
      that any two nodes hold equal tables exactly when both have absorbed it. */
  lemma CaughtUpConverges(tr: seq<Cluster>, evs: seq<Event>, i: nat, n: int, m: int)
    requires Run(tr, evs) && i <= |evs| < WRAP && n in tr[i].nodes && m in tr[i].nodes
    requires n in tr[i].log && m in tr[i].log
    requires forall j :: 0 <= j < i && Effective(tr[j], evs[j]) ==> CaughtUp(tr[j], evs[j].id)
    ensures EachKeyHasNewest(Absorbed(tr[i], n, m))
    ensures tr[i].nodes[n].cells == tr[i].nodes[m].cells <==> ShareNewest(tr[i], n, m)
  {
    MonotoneExactly(tr, evs, i);
    AbsorbedStorable(tr, evs, i, n, m);
    var s := Absorbed(tr[i], n, m);
    assert AllVersions(s) <= AllVersions(tr[i].writes);
    forall k | k in KeysOf(s)
      ensures exists e :: Newest(s, e) && e.key == k
    {
      var d :| d in s && d.key == k;
      assert VersionsAt(s, k) <= AllVersions(s);
      BootMonotoneIsChain(VersionsAt(s, k));
      ChainExactly(VersionsAt(s, k));
      NewestAtKey(s, d);
    }
    ConvergesExactly(tr, evs, i, n, m);
  }

  // ----- no way back -----

  predicate SameOrNewer(a: Version, b: Version) {
    a == b || Newer(a, b)
  }

  lemma {:induction false} MergeForward(cells: Cells, es: seq<RequestEntry>, k: RequestKey, vs: set<Version>)
    requires Chain(vs) && CellAt(cells, k).version in vs
    requires forall e :: e in es && e.key == k ==> e.cell.version in vs
    ensures SameOrNewer(CellAt(MergeAll(cells, es), k).version, CellAt(cells, k).version)
    ensures CellAt(MergeAll(cells, es), k).version in vs
  {
    if es != [] {
      FrontAndLast(es);
      MergeForward(cells, es[..|es| - 1], k, vs);
    }
  }

  lemma StepForward(c: Cluster, ev: Event, n: int, k: RequestKey, vs: set<Version>, bound: int)
    requires Inv(c, bound) && 0 <= bound < WRAP - 1 && Enabled(c, ev) && n in c.nodes && !(ev.Start? && ev.id == n)
    requires Chain(vs) && VersionsAt(c.writes, k) + {ZERO} <= vs
    ensures SameOrNewer(CellAt(Apply(c, ev).nodes[n].cells, k).version, CellAt(c.nodes[n].cells, k).version)
  {
    assert NodeInv(c, n, bound);
    LogStorable(c, n, bound);
    if ev.id == n {
      match ev
      case Start(_, _) =>
      case Write(_, key, active) => WriteBeatsSeen(c, n, bound, key, active);
      case Send(_, _) =>
      case Seed(_, _) =>
      case Receive(_, es) =>
        var cells := c.nodes[n].cells;
        if k in cells {
          assert RequestEntry(k, cells[k]) in Elements(c.log[n]);
        }
        forall e | e in es && e.key == k
          ensures e.cell.version in vs
        {
          assert e in c.writes;
          assert e.cell.version in VersionsAt(c.writes, k);
        }
        MergeForward(cells, es, k, vs);
    }
  }

  lemma WritesStorable(c: Cluster, bound: int)
    requires Inv(c, bound)
    ensures Storable(c.writes)
  {
    forall e | e in c.writes
      ensures Newer(e.cell.version, ZERO)
    {
      assert Known(c, e, bound);
      NewerThanZero(e.cell.version);
    }
  }

  lemma RunStepForward(tr: seq<Cluster>, evs: seq<Event>, j: nat, n: int, k: RequestKey, vs: set<Version>)
    requires Run(tr, evs) && j < |evs| < WRAP && n in tr[j].nodes && !(evs[j].Start? && evs[j].id == n)
    requires Chain(vs) && VersionsAt(tr[j].writes, k) + {ZERO} <= vs
    ensures n in tr[j + 1].nodes
    ensures SameOrNewer(CellAt(tr[j + 1].nodes[n].cells, k).version, CellAt(tr[j].nodes[n].cells, k).version)
  {
    RunInv(tr, evs, j);
    StepForward(tr[j], evs[j], n, k, vs, j);
  }

  lemma RunChain(tr: seq<Cluster>, evs: seq<Event>, j: nat, k: RequestKey)
    requires Run(tr, evs) && j <= |evs| < WRAP && NoSandwichAt(tr[j].writes, k)
    ensures Chain(VersionsAt(tr[j].writes, k) + {ZERO})
  {
    RunInv(tr, evs, j);
    WritesStorable(tr[j], j);
    ChainExactly(VersionsAt(tr[j].writes, k));
    ChainWithZero(VersionsAt(tr[j].writes, k));
  }

  function Held(c: Cluster, n: int, k: RequestKey): Version {
    if n in c.nodes then CellAt(c.nodes[n].cells, k).version else ZERO
  }

  lemma HeldIn(tr: seq<Cluster>, evs: seq<Event>, i: nat, j: nat, n: int, k: RequestKey)
    requires Run(tr, evs) && i <= j <= |evs| < WRAP
    ensures Held(tr[i], n, k) in VersionsAt(tr[j].writes, k) + {ZERO}
  {
    WritesGrow(tr, evs, i, j);
    if n in tr[i].nodes {
      RunInv(tr, evs, i);
      LogStorable(tr[i], n, i);
      LogHolds(tr, evs, i, n);
      var cells := tr[i].nodes[n].cells;
      if k in cells {
        assert RequestEntry(k, cells[k]) in Elements(tr[i].log[n]);
      }
    }
  }

  lemma Onward(a: Version, b: Version, c: Version, vs: set<Version>)
    requires Chain(vs) && a in vs && b in vs && c in vs && SameOrNewer(b, a) && SameOrNewer(c, b)
    ensures SameOrNewer(c, a)
  {
  }

  lemma HeldForward(tr: seq<Cluster>, evs: seq<Event>, i: nat, j: nat, n: int, k: RequestKey)
    requires Run(tr, evs) && i < j <= |evs| < WRAP && n in tr[i].nodes && !(evs[i].Start? && evs[i].id == n)
    requires NoSandwichAt(tr[j].writes, k)
    ensures n in tr[i + 1].nodes && SameOrNewer(Held(tr[i + 1], n, k), Held(tr[i], n, k))
  {
    WritesGrow(tr, evs, i, j);
    assert VersionsAt(tr[i].writes, k) <= VersionsAt(tr[j].writes, k);
    RunChain(tr, evs, j, k);
    RunStepForward(tr, evs, i, n, k, VersionsAt(tr[j].writes, k) + {ZERO});
  }

  lemma HeldOnward(tr: seq<Cluster>, evs: seq<Event>, i: nat, l: nat, j: nat, n: int, k: RequestKey)
    requires Run(tr, evs) && i <= l < j <= |evs| < WRAP && NoSandwichAt(tr[j].writes, k)
    requires SameOrNewer(Held(tr[l], n, k), Held(tr[i], n, k))
    requires SameOrNewer(Held(tr[l + 1], n, k), Held(tr[l], n, k))
    ensures SameOrNewer(Held(tr[l + 1], n, k), Held(tr[i], n, k))
  {
    RunChain(tr, evs, j, k);
    HeldIn(tr, evs, i, j, n, k);
    HeldIn(tr, evs, l, j, n, k);
    HeldIn(tr, evs, l + 1, j, n, k);
    Onward(Held(tr[i], n, k), Held(tr[l], n, k), Held(tr[l + 1], n, k), VersionsAt(tr[j].writes, k) + {ZERO});
  }

  /** Within one boot the version a node holds for a key never goes back, as long
      as the writes to the key have no sandwich. */
  lemma {:induction false} NeverGoesBack(tr: seq<Cluster>, evs: seq<Event>, i: nat, l: nat, j: nat, n: int,
                                         k: RequestKey)
    requires Run(tr, evs) && i <= l <= j <= |evs| < WRAP && n in tr[i].nodes
    requires forall e :: i <= e < l ==> !(evs[e].Start? && evs[e].id == n)
    requires NoSandwichAt(tr[j].writes, k)
    ensures n in tr[l].nodes && SameOrNewer(Held(tr[l], n, k), Held(tr[i], n, k))
  {
    if i < l {
      NeverGoesBack(tr, evs, i, l - 1, j, n, k);
      HeldForward(tr, evs, l - 1, j, n, k);
      HeldOnward(tr, evs, i, l - 1, j, n, k);
    }
  }

  /** Receiving old entries again, in any order, cannot undo a write just made. */
  lemma ReplayCannotUndo(tr: seq<Cluster>, evs: seq<Event>, i: nat, stale: seq<RequestEntry>)
    requires Run(tr, evs) && i < |evs| < WRAP && Effective(tr[i], evs[i])
    requires Elements(stale) <= Elements(tr[i].log[evs[i].id])
    ensures var ev := evs[i];
            CellAt(Received(tr[i + 1].nodes[ev.id], stale).cells, ev.key)
            == CellAt(tr[i + 1].nodes[ev.id].cells, ev.key)
            == Written(tr[i].nodes[ev.id], ev.key, ev.active).cell
  {
    RunInv(tr, evs, i);
    var c, ev := tr[i], evs[i];
    var e := Written(c.nodes[ev.id], ev.key, ev.active);
    WriteBeatsSeen(c, ev.id, i, ev.key, ev.active);
    forall f | f in stale
      ensures !Newer(f.cell.version, e.cell.version)
    {
      assert f in Elements(stale);
      NewerTotal(f.cell.version, e.cell.version);
    }
    TopStays(tr[i + 1].nodes[ev.id].cells, stale, e);
  }

  /** Old packets have no effect at all once every absorbed key has a newest entry. */
  lemma ReplayHasNoEffect(tr: seq<Cluster>, evs: seq<Event>, i: nat, n: int, stale: seq<RequestEntry>)
    requires Run(tr, evs) && i <= |evs| < WRAP && n in tr[i].nodes
    requires Elements(stale) <= Elements(tr[i].log[n]) && EachKeyHasNewest(Elements(tr[i].log[n]))
    ensures Received(tr[i].nodes[n], stale) == tr[i].nodes[n]
  {
    RunInv(tr, evs, i);
    assert NodeInv(tr[i], n, i);
    LogHolds(tr, evs, i, n);
    var log := tr[i].log[n];
    MergeAppend(map[], log, stale);
    assert Elements(log + stale) == Elements(log) + Elements(stale);
    NewestDecides(Elements(log), log + stale, log);
    var clock := tr[i].nodes[n].clock;
    ObserveAllMax(clock, stale);
    forall e | e in stale
      ensures e.cell.version.counter <= clock.value
    {
      assert e in Elements(stale);
    }
  }
}
