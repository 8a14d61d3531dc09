/** Merging a received snapshot into the table (`internal/cluster/merge.go`). */
module Merge {
  import opened Text
  import opened Versions
  import opened Sorting
  import opened Requests

  predicate Wins(cells: Cells, e: RequestEntry) {
    Newer(e.cell.version, CellAt(cells, e.key).version)
  }

  function MergeOne(cells: Cells, e: RequestEntry): Cells {
    if Wins(cells, e) then cells[e.key := e.cell] else cells
  }

  function MergeAll(cells: Cells, es: seq<RequestEntry>): Cells {
    if es == [] then cells else MergeOne(MergeAll(cells, es[..|es| - 1]), es[|es| - 1])
  }

  /** Some entry was taken over on the way. */
  predicate AnyWins(cells: Cells, es: seq<RequestEntry>) {
    es != [] &&
    (AnyWins(cells, es[..|es| - 1]) || Wins(MergeAll(cells, es[..|es| - 1]), es[|es| - 1]))
  }

  function ObserveAll(c: ClockState, es: seq<RequestEntry>): ClockState {
    if es == [] then c else Raised(ObserveAll(c, es[..|es| - 1]), es[|es| - 1].cell.version.counter)
  }

  method MergeRequests(table: RequestTable, clock: Clock, entries: seq<RequestEntry>) returns (changed: bool)
    modifies table, clock
    ensures table.cells == MergeAll(old(table.cells), entries)
    ensures clock.State() == ObserveAll(old(clock.State()), entries)
    ensures changed == AnyWins(old(table.cells), entries)
  {
    changed := false;
    for i := 0 to |entries|
      invariant table.cells == MergeAll(old(table.cells), entries[..i])
      invariant clock.State() == ObserveAll(old(clock.State()), entries[..i])
      invariant changed == AnyWins(old(table.cells), entries[..i])
    {
      var entry := entries[i];
      assert entries[..i + 1][..i] == entries[..i];
      clock.Observe(entry.cell.version);
      if CompareVersion(entry.cell.version, table.Cell(entry.key).version) > 0 {
        table.Set(entry.key, entry.cell);
        changed := true;
      }
    }
    assert entries[..|entries|] == entries;
  }

  // ----- what a merge does to the clock -----

  lemma {:induction false} ObserveAllMax(c: ClockState, es: seq<RequestEntry>)
    ensures ObserveAll(c, es).writer == c.writer && ObserveAll(c, es).boot == c.boot
    ensures c.value <= ObserveAll(c, es).value
    ensures forall e :: e in es ==> e.cell.version.counter <= ObserveAll(c, es).value
    ensures ObserveAll(c, es).value == c.value ||
            exists e :: e in es && e.cell.version.counter == ObserveAll(c, es).value
  {
    if es != [] {
      var front, last := es[..|es| - 1], es[|es| - 1];
      ObserveAllMax(c, front);
      assert es == front + [last];
      assert last in es;
      assert forall e :: e in front ==> e in es;
    }
  }

  /** Receiving a table's snapshot brings the clock up to the table's largest counter. */
  lemma SnapshotClock(c: ClockState, t: Cells, es: seq<RequestEntry>, max: UInt64)
    requires Lists(es, t, false) && IsMaxCounter(t, max)
    ensures ObserveAll(c, es) == Raised(c, max)
  {
    ObserveAllMax(c, es);
    if max != 0 {
      var k :| k in t && t[k].version.counter == max;
      assert RequestEntry(k, t[k]) in es;
    }
  }

  // ----- what a merge does to the table -----

  /** A merge that takes nothing over changes nothing, and the flag says so. */
  lemma {:induction false} NoWinNoChange(cells: Cells, es: seq<RequestEntry>)
    requires !AnyWins(cells, es)
    ensures MergeAll(cells, es) == cells
  {
    if es != [] {
      NoWinNoChange(cells, es[..|es| - 1]);
    }
  }

  lemma FrontAndLast(es: seq<RequestEntry>)
    requires es != []
    ensures forall e :: e in es <==> e in es[..|es| - 1] || e == es[|es| - 1]
    ensures DistinctKeys(es) ==> DistinctKeys(es[..|es| - 1])
    ensures DistinctKeys(es) ==> forall e :: e in es[..|es| - 1] ==> e.key != es[|es| - 1].key
  {
    var front, last := es[..|es| - 1], es[|es| - 1];
    assert es == front + [last];
    if DistinctKeys(es) {
      forall e | e in front
        ensures e.key != last.key
      {
        var i :| 0 <= i < |front| && front[i] == e;
        assert es[i].key != es[|es| - 1].key;
      }
    }
  }

  /** A key that is not listed is left alone. */
  lemma {:induction false} MergeElsewhere(cells: Cells, es: seq<RequestEntry>, k: RequestKey)
    requires forall e :: e in es ==> e.key != k
    ensures CellAt(MergeAll(cells, es), k) == CellAt(cells, k)
    ensures k in MergeAll(cells, es) <==> k in cells
  {
    if es != [] {
      FrontAndLast(es);
      MergeElsewhere(cells, es[..|es| - 1], k);
    }
  }

  /** A key listed once is decided by that entry. */
  lemma {:induction false} MergeAtKey(cells: Cells, es: seq<RequestEntry>, e: RequestEntry)
    requires DistinctKeys(es) && e in es
    ensures CellAt(MergeAll(cells, es), e.key) == (if Wins(cells, e) then e.cell else CellAt(cells, e.key))
    ensures e.key in MergeAll(cells, es) <==> e.key in cells || Wins(cells, e)
  {
    FrontAndLast(es);
    var front, last := es[..|es| - 1], es[|es| - 1];
    if e == last {
      MergeElsewhere(cells, front, e.key);
    } else {
      MergeAtKey(cells, front, e);
    }
  }

  /** On a snapshot, whose keys are distinct, the flag is exact for any versions. */
  lemma FlagExact(cells: Cells, es: seq<RequestEntry>)
    requires DistinctKeys(es)
    ensures AnyWins(cells, es) <==> MergeAll(cells, es) != cells
  {
    if AnyWins(cells, es) {
      FlagSound(cells, es);
    } else {
      NoWinNoChange(cells, es);
    }
  }

  lemma {:induction false} FlagSound(cells: Cells, es: seq<RequestEntry>)
    requires DistinctKeys(es) && AnyWins(cells, es)
    ensures exists e :: e in es && CellAt(MergeAll(cells, es), e.key) != CellAt(cells, e.key)
  {
    FrontAndLast(es);
    var front, last := es[..|es| - 1], es[|es| - 1];
    MergeElsewhere(cells, front, last.key);
    if Wins(cells, last) {
      MergeAtKey(cells, es, last);
      NewerTotal(last.cell.version, CellAt(cells, last.key).version);
    } else {
      FlagSound(cells, front);
      var e :| e in front && CellAt(MergeAll(cells, front), e.key) != CellAt(cells, e.key);
      assert e in es;
    }
  }

  // ----- a snapshot merge is a pointwise join -----

  predicate Beats(u: Cells, t: Cells, k: RequestKey) {
    k in u && Newer(u[k].version, CellAt(t, k).version)
  }

  function Join(t: Cells, u: Cells): Cells {
    map k | k in t.Keys + u.Keys && (k in t || Beats(u, t, k)) :: if Beats(u, t, k) then u[k] else t[k]
  }

  lemma ListsDistinct(es: seq<RequestEntry>, u: Cells)
    requires Lists(es, u, false)
    ensures DistinctKeys(es)
  {
    forall i, j | 0 <= i < j < |es|
      ensures es[i].key != es[j].key
    {
      assert es[i] in es && es[j] in es;
      assert !EntryBefore(es[j], es[i]);
      LessIrreflexive(es[i].key.kind);
    }
  }

  /** Receiving the snapshot of `u` joins `u` into the table, key by key. */
  lemma MergeIsJoin(t: Cells, u: Cells, es: seq<RequestEntry>)
    requires Lists(es, u, false)
    ensures MergeAll(t, es) == Join(t, u)
  {
    ListsDistinct(es, u);
    var m, j := MergeAll(t, es), Join(t, u);
    forall k
      ensures k in m <==> k in j
      ensures k in m ==> m[k] == j[k]
    {
      if k in u {
        assert RequestEntry(k, u[k]) in es;
        MergeAtKey(t, es, RequestEntry(k, u[k]));
      } else {
        MergeElsewhere(t, es, k);
      }
    }
    assert m.Keys == j.Keys;
  }

  /** Rebuilding a table from its own snapshot: exact when every version is newer
      than that of a missing cell. */
  lemma RoundTrip(t: Cells, es: seq<RequestEntry>)
    requires Lists(es, t, false)
    ensures MergeAll(map[], es) == t <==>
            forall k :: k in t ==>
              var v := t[k].version; v.counter > 0 || v.writer > 0 || (v.writer == 0 && v.boot != "")
  {
    MergeIsJoin(map[], t, es);
    var j := Join(map[], t);
    forall k | k in t
      ensures k in j <==> var v := t[k].version; v.counter > 0 || v.writer > 0 || (v.writer == 0 && v.boot != "")
    {
      NewerThanZero(t[k].version);
    }
    if forall k :: k in t ==> k in j {
      assert j.Keys == t.Keys;
    }
  }

  /** The entries of a system of tables: newer than a missing cell, one cell for
      one version of a key, and no cycles of "newer" on a key. */
  ghost predicate Coherent(s: set<RequestEntry>) {
    && (forall e :: e in s ==> Newer(e.cell.version, ZERO))
    && (forall e, f :: e in s && f in s && e.key == f.key && e.cell.version == f.cell.version ==> e == f)
    && (forall k: RequestKey :: Chain(VersionsAt(s, k)))
  }

  ghost function VersionsAt(s: set<RequestEntry>, k: RequestKey): set<Version> {
    set e | e in s && e.key == k :: e.cell.version
  }

  ghost predicate Over(t: Cells, s: set<RequestEntry>) {
    forall k :: k in t ==> RequestEntry(k, t[k]) in s
  }

  function Better(c: RequestCell, d: RequestCell): RequestCell {
    if Newer(d.version, c.version) then d else c
  }

  lemma JoinCell(t: Cells, u: Cells, s: set<RequestEntry>, k: RequestKey)
    requires Coherent(s) && Over(t, s) && Over(u, s)
    ensures k in Join(t, u) <==> k in t || k in u
    ensures CellAt(Join(t, u), k) == Better(CellAt(t, k), CellAt(u, k))
  {
    if k in t {
      assert RequestEntry(k, t[k]) in s;
      NewerTotal(t[k].version, ZERO);
    }
    if k in u {
      assert RequestEntry(k, u[k]) in s;
    }
  }

  lemma JoinOver(t: Cells, u: Cells, s: set<RequestEntry>)
    requires Over(t, s) && Over(u, s)
    ensures Over(Join(t, u), s)
  {
  }

  lemma JoinIdempotent(t: Cells)
    ensures Join(t, t) == t
  {
    forall k | k in t
      ensures !Beats(t, t, k)
    {
      NewerTotal(t[k].version, t[k].version);
    }
  }

  predicate SameAt(a: Cells, b: Cells, k: RequestKey) {
    (k in a <==> k in b) && CellAt(a, k) == CellAt(b, k)
  }

  lemma SameTable(a: Cells, b: Cells)
    requires forall k :: SameAt(a, b, k)
    ensures a == b
  {
    forall k
      ensures k in a <==> k in b
    {
      assert SameAt(a, b, k);
    }
    assert a.Keys == b.Keys;
    forall k | k in a
      ensures a[k] == b[k]
    {
      assert SameAt(a, b, k);
    }
  }

  /** Nothing about the key makes the order of joining matter. */
  predicate CommutesAt(t: Cells, u: Cells, k: RequestKey) {
    && (k in t && k in u && t[k].version == u[k].version ==> t[k] == u[k])
    && (k in t && k !in u ==> Newer(t[k].version, ZERO))
    && (k in u && k !in t ==> Newer(u[k].version, ZERO))
  }

  lemma JoinCommutesAt(t: Cells, u: Cells, k: RequestKey)
    ensures SameAt(Join(t, u), Join(u, t), k) <==> CommutesAt(t, u, k)
  {
    NewerTotal(CellAt(t, k).version, CellAt(u, k).version);
  }

  /** Two nodes that receive each other's snapshot agree exactly when no version
      stands for different cells of a key and no cell only one of them has is older
      than a missing one. */
  lemma JoinCommutesExactly(t: Cells, u: Cells)
    ensures Join(t, u) == Join(u, t) <==> forall k :: CommutesAt(t, u, k)
  {
    forall k
      ensures SameAt(Join(t, u), Join(u, t), k) <==> CommutesAt(t, u, k)
    {
      JoinCommutesAt(t, u, k);
    }
    if forall k :: CommutesAt(t, u, k) {
      SameTable(Join(t, u), Join(u, t));
    }
  }

  lemma BetterAssociative(c: RequestCell, d: RequestCell, e: RequestCell)
    requires Chain({c.version, d.version, e.version})
    ensures Better(Better(c, d), e) == Better(c, Better(d, e))
  {
    var vs := {c.version, d.version, e.version};
    assert c.version in vs && d.version in vs && e.version in vs;
    NewerTotal(c.version, d.version);
    NewerTotal(d.version, e.version);
    NewerTotal(c.version, e.version);
  }

  lemma ChainWithZero(vs: set<Version>)
    requires Chain(vs) && forall v :: v in vs ==> Newer(v, ZERO)
    ensures Chain(vs + {ZERO})
  {
    NewerTotal(ZERO, ZERO);
    forall v | v in vs
      ensures !Newer(ZERO, v)
    {
      NewerTotal(ZERO, v);
    }
  }

  lemma VersionHeld(t: Cells, s: set<RequestEntry>, k: RequestKey)
    requires Over(t, s)
    ensures CellAt(t, k).version in VersionsAt(s, k) + {ZERO}
  {
    assert k in t ==> RequestEntry(k, t[k]) in s;
  }

  lemma VersionsStorable(s: set<RequestEntry>, k: RequestKey)
    requires Coherent(s)
    ensures Chain(VersionsAt(s, k)) && forall v :: v in VersionsAt(s, k) ==> Newer(v, ZERO)
  {
  }

  lemma ThreeChain(t: Cells, u: Cells, w: Cells, s: set<RequestEntry>, k: RequestKey)
    requires Coherent(s) && Over(t, s) && Over(u, s) && Over(w, s)
    ensures Chain({CellAt(t, k).version, CellAt(u, k).version, CellAt(w, k).version})
  {
    VersionsStorable(s, k);
    ChainWithZero(VersionsAt(s, k));
    VersionHeld(t, s, k);
    VersionHeld(u, s, k);
    VersionHeld(w, s, k);
    ChainWithin({CellAt(t, k).version, CellAt(u, k).version, CellAt(w, k).version}, VersionsAt(s, k) + {ZERO});
  }

  lemma ChainWithin(vs: set<Version>, all: set<Version>)
    requires Chain(all) && vs <= all
    ensures Chain(vs)
  {
  }

  lemma JoinAssociative(t: Cells, u: Cells, w: Cells, s: set<RequestEntry>)
    requires Coherent(s) && Over(t, s) && Over(u, s) && Over(w, s)
    ensures Join(Join(t, u), w) == Join(t, Join(u, w))
  {
    var a, b := Join(Join(t, u), w), Join(t, Join(u, w));
    JoinOver(t, u, s);
    JoinOver(u, w, s);
    forall k
      ensures SameAt(a, b, k)
    {
      JoinCell(t, u, s, k);
      JoinCell(u, w, s, k);
      JoinCell(Join(t, u), w, s, k);
      JoinCell(t, Join(u, w), s, k);
      ThreeChain(t, u, w, s, k);
      BetterAssociative(CellAt(t, k), CellAt(u, k), CellAt(w, k));
    }
    SameTable(a, b);
  }
}
