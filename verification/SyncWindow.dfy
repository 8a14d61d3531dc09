/** What the startup sync window has to bring a restarted node
    (`startupSync` in `cmd/elevator/main.go`). */
module SyncWindow {
  import opened Text
  import opened Versions
  import opened Requests
  import opened Merge
  import opened MergeOrder
  import opened Replicas
  import opened Replication
  import opened Convergence

  predicate Receives(ev: Event, id: int, es: seq<RequestEntry>) {
    ev.Receive? && ev.id == id && ev.es == es
  }

  predicate SameBoot(evs: seq<Event>, id: int, j: nat, i: nat) {
    forall l :: j <= l < i && l < |evs| ==> !(evs[l].Start? && evs[l].id == id)
  }

  /** The sender of this snapshot had absorbed the entry. */
  ghost predicate SentByKnower(c: Cluster, ev: Event, e: RequestEntry) {
    ev.Send? && ev.id in c.log && e in c.log[ev.id]
  }

  /** In its present boot, up to `i`, the node has received a snapshot of one that had
      absorbed the entry. */
  ghost predicate HeardOf(tr: seq<Cluster>, evs: seq<Event>, i: nat, id: int, e: RequestEntry)
    requires i <= |evs| < |tr|
  {
    exists a, j :: 0 <= a < j < i && SentByKnower(tr[a], evs[a], e) && Receives(evs[j], id, evs[a].es) &&
      SameBoot(evs, id, j, i)
  }

  /** That is so of every write of its earlier boots. */
  ghost predicate Synced(tr: seq<Cluster>, evs: seq<Event>, i: nat, id: int)
    requires i <= |evs| < |tr| && id in tr[i].nodes
  {
    forall e :: EarlierBoot(tr[i], id, e) ==> HeardOf(tr, evs, i, id, e)
  }

  // ----- a snapshot carries on what its sender has absorbed -----

  /** Of an absorbed entry's key, the table holds that entry or a newer one. */
  lemma HoldsAsNew(tr: seq<Cluster>, evs: seq<Event>, a: nat, n: int, e: RequestEntry)
    requires Run(tr, evs) && a <= |evs| < WRAP && n in tr[a].nodes && e in tr[a].log[n]
    requires NoSandwichAt(tr[a].writes, e.key)
    ensures var cells := tr[a].nodes[n].cells;
            e.key in cells && SameOrNewer(cells[e.key].version, e.cell.version)
            && RequestEntry(e.key, cells[e.key]) in tr[a].writes
  {
    LogHolds(tr, evs, a, n);
    var s, log := Elements(tr[a].log[n]), tr[a].log[n];
    assert VersionsAt(s, e.key) <= VersionsAt(tr[a].writes, e.key);
    NewestAtKey(s, e);
    var f :| Newest(s, f) && f.key == e.key;
    MergedFrom(log);
    NewestPrevails(s, log, f);
  }

  lemma NewerCounts(vs: set<Version>, a: Version, b: Version)
    requires BootMonotone(vs) && a in vs && b in vs && SameOrNewer(a, b)
    ensures a.counter >= b.counter
  {
    LexExactly(vs);
  }

  lemma PartIsMonotone(s: set<RequestEntry>, all: set<RequestEntry>, k: RequestKey)
    requires s <= all && BootMonotone(AllVersions(all))
    ensures BootMonotone(AllVersions(s)) && NoSandwichAt(s, k)
  {
    assert AllVersions(s) <= AllVersions(all);
    assert VersionsAt(s, k) <= AllVersions(s);
    BootMonotoneIsChain(VersionsAt(s, k));
    ChainExactly(VersionsAt(s, k));
  }

  lemma CarriedOn(tr: seq<Cluster>, evs: seq<Event>, a: nat, i: nat, e: RequestEntry) returns (f: RequestEntry)
    requires Run(tr, evs) && a < i <= |evs| < WRAP && BootMonotone(AllVersions(tr[i].writes))
    requires SentByKnower(tr[a], evs[a], e)
    ensures f in evs[a].es && f.cell.version.counter >= e.cell.version.counter
  {
    var n := evs[a].id;
    WritesGrow(tr, evs, a, i);
    PartIsMonotone(tr[a].writes, tr[i].writes, e.key);
    HoldsAsNew(tr, evs, a, n, e);
    LogHolds(tr, evs, a, n);
    f := RequestEntry(e.key, tr[a].nodes[n].cells[e.key]);
    assert e in Elements(tr[a].log[n]);
    NewerCounts(AllVersions(tr[a].writes), f.cell.version, e.cell.version);
  }

  // ----- and stays absorbed -----

  lemma LogGrows(c: Cluster, ev: Event, id: int, f: RequestEntry)
    requires c.nodes.Keys == c.log.Keys && Enabled(c, ev) && id in c.log && f in c.log[id]
    requires !(ev.Start? && ev.id == id)
    ensures id in Apply(c, ev).log && f in Apply(c, ev).log[id]
  {
  }

  lemma {:induction false} StaysAbsorbed(tr: seq<Cluster>, evs: seq<Event>, j: nat, i: nat, id: int, f: RequestEntry)
    requires Run(tr, evs) && j < i <= |evs| && evs[j].Receive? && evs[j].id == id && f in evs[j].es
    requires SameBoot(evs, id, j, i)
    ensures id in tr[i].log && f in tr[i].log[id]
  {
    if j + 1 < i {
      StaysAbsorbed(tr, evs, j, i - 1, id, f);
      LogGrows(tr[i - 1], evs[i - 1], id, f);
    } else {
      assert tr[i] == Apply(tr[j], evs[j]);
    }
  }

  lemma HeardIsAbsorbed(tr: seq<Cluster>, evs: seq<Event>, i: nat, id: int, e: RequestEntry) returns (f: RequestEntry)
    requires Run(tr, evs) && i <= |evs| < WRAP && BootMonotone(AllVersions(tr[i].writes))
    requires HeardOf(tr, evs, i, id, e)
    ensures id in tr[i].log && f in tr[i].log[id] && f.cell.version.counter >= e.cell.version.counter
  {
    var a, j :| 0 <= a < j < i && SentByKnower(tr[a], evs[a], e) && Receives(evs[j], id, evs[a].es) &&
      SameBoot(evs, id, j, i);
    f := CarriedOn(tr, evs, a, i, e);
    StaysAbsorbed(tr, evs, j, i, id, f);
  }

  // ----- the window -----

  /** A node is caught up if since its start it has received, for every write of its
      earlier boots, a snapshot of a node that had absorbed it, as long as all wrote in
      order so far. */
  lemma SyncedIsCaughtUp(tr: seq<Cluster>, evs: seq<Event>, i: nat, id: int)
    requires Run(tr, evs) && i <= |evs| < WRAP && id in tr[i].nodes && Synced(tr, evs, i, id)
    requires BootMonotone(AllVersions(tr[i].writes))
    ensures CaughtUp(tr[i], id)
  {
    SyncCatchesUpExactly(tr, evs, i, id);
    forall e | EarlierBoot(tr[i], id, e)
      ensures exists f :: f in tr[i].log[id] && f.cell.version.counter + 1 >= e.cell.version.counter
    {
      var f := HeardIsAbsorbed(tr, evs, i, id, e);
    }
  }

  ghost predicate WritesSynced(tr: seq<Cluster>, evs: seq<Event>, j: nat)
    requires j < |evs| < |tr|
  {
    Effective(tr[j], evs[j]) ==> evs[j].id in tr[j].nodes && Synced(tr, evs, j, evs[j].id)
  }

  /** If every node has synced whenever it writes, then in all the run no later boot uses a
      smaller counter, no key has a sandwich, and each has a newest entry among any of the
      writes: versions are ordered as Lamport's clocks order them. */
  lemma {:induction false} SyncedWritesInOrder(tr: seq<Cluster>, evs: seq<Event>, i: nat)
    requires Run(tr, evs) && i <= |evs| < WRAP && forall j: nat :: j < i ==> WritesSynced(tr, evs, j)
    ensures BootMonotone(AllVersions(tr[i].writes)) && forall k :: NoSandwichAt(tr[i].writes, k)
    ensures forall s :: s <= tr[i].writes ==> OrderFree(s)
  {
    if i > 0 {
      SyncedWritesInOrder(tr, evs, i - 1);
      assert WritesSynced(tr, evs, i - 1);
      if Effective(tr[i - 1], evs[i - 1]) {
        SyncedIsCaughtUp(tr, evs, i - 1, evs[i - 1].id);
      }
      RunStepMonotone(tr, evs, i - 1);
    }
    MonotoneIsOrderFree(tr, evs, i);
  }

  lemma MonotoneIsOrderFree(tr: seq<Cluster>, evs: seq<Event>, i: nat)
    requires Run(tr, evs) && i <= |evs| < WRAP && BootMonotone(AllVersions(tr[i].writes))
    ensures forall k :: NoSandwichAt(tr[i].writes, k)
    ensures forall s :: s <= tr[i].writes ==> OrderFree(s)
  {
    forall k
      ensures NoSandwichAt(tr[i].writes, k)
    {
      PartIsMonotone(tr[i].writes, tr[i].writes, k);
    }
    RunInv(tr, evs, i);
    WritesStorable(tr[i], i);
    HereditaryExactly(tr[i].writes);
  }
}
