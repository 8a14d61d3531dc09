/** The protocol's guarantees over whole runs, for the controllers of a fleet. */
module FleetRuns {
  import opened Text
  import opened Versions
  import opened Requests
  import opened Merge
  import opened MergeOrder
  import opened Replicas
  import opened Peers
  import opened ControllerModel
  import opened ControllerSafety
  import opened ControllerEffects
  import opened Fleet
  import Protocol = Replication
  import Convergence

  // ----- where an event of the protocol belongs -----

  predicate Boots(h: Happening, n: int) {
    h.Boot? && h.raw.id == n
  }

  lemma {:induction false} Later(r: Trace, tr: seq<Fleet>, hs: seq<Happening>, j: nat, a: nat, b: nat)
    requires Tracks(r, tr, hs, j) && a <= b <= j
    ensures r.at[a] <= r.at[b] <= |r.events|
  {
    assert InStep(r, tr, b);
    if a < b {
      Later(r, tr, hs, j, a, b - 1);
      assert Covers(r, hs, b - 1);
    } else if b < j {
      assert Covers(r, hs, b);
    }
  }

  lemma HandlingStartsNothing(h: Happening, es: seq<Protocol.Event>, i: nat)
    requires MadeOf(h, es) && h.Handle? && i < |es|
    ensures !es[i].Start?
  {
    if h.ev.Remote? && i > 0 {
      assert es[1..][i - 1] == es[i];
    }
  }

  lemma StartIsBoot(r: Trace, hs: seq<Happening>, m: nat, e: nat, n: int)
    requires Covers(r, hs, m) && r.at[m] <= e < r.at[m + 1]
    ensures r.events[e].Start? && r.events[e].id == n ==> Boots(hs[m], n)
  {
    var es := r.events[r.at[m]..r.at[m + 1]];
    var i := e - r.at[m];
    assert es[i] == r.events[e];
    if hs[m].Handle? {
      HandlingStartsNothing(hs[m], es, i);
    }
  }

  /** No restart in the fleet is no restart in the protocol. */
  lemma {:induction false} NoStart(r: Trace, tr: seq<Fleet>, hs: seq<Happening>, j: nat, a: nat, b: nat, n: int)
    requires Tracks(r, tr, hs, j) && a <= b <= j <= |hs| && forall m :: a <= m < b ==> !Boots(hs[m], n)
    ensures r.at[a] <= r.at[b] <= |r.events|
    ensures forall e :: r.at[a] <= e < r.at[b] ==> !(r.events[e].Start? && r.events[e].id == n)
  {
    Later(r, tr, hs, j, a, b);
    if a < b {
      NoStart(r, tr, hs, j, a, b - 1, n);
      assert Covers(r, hs, b - 1);
      forall e | r.at[b - 1] <= e < r.at[b]
        ensures !(r.events[e].Start? && r.events[e].id == n)
      {
        StartIsBoot(r, hs, b - 1, e, n);
      }
    }
  }

  // ----- no way back -----

  function HeldAt(f: Fleet, n: int, k: RequestKey): Version {
    if n in f.cars then CellAt(f.cars[n].rep.cells, k).version else ZERO
  }

  lemma HeldInStep(r: Trace, tr: seq<Fleet>, j: nat, n: int, k: RequestKey)
    requires InStep(r, tr, j)
    ensures HeldAt(tr[j], n, k) == Convergence.Held(r.states[r.at[j]], n, k)
    ensures n in tr[j].cars <==> n in r.states[r.at[j]].nodes
  {
  }

  /** As long as a controller does not restart, the version it holds for a key never goes
      back, if the writes there have been to the key have no sandwich. */
  lemma FleetNeverGoesBack(tr: seq<Fleet>, hs: seq<Happening>, r: Trace, i: nat, l: nat, j: nat, n: int, k: RequestKey)
    requires FleetRun(tr, hs) && 4 * |hs| < WRAP && i <= l <= j <= |hs| && Tracks(r, tr, hs, j)
    requires n in tr[i].cars && forall m :: i <= m < l ==> !Boots(hs[m], n)
    requires NoSandwichAt(r.states[|r.events|].writes, k)
    ensures n in tr[l].cars && Convergence.SameOrNewer(HeldAt(tr[l], n, k), HeldAt(tr[i], n, k))
  {
    NoStart(r, tr, hs, j, i, l, n);
    assert InStep(r, tr, i) && InStep(r, tr, l);
    HeldInStep(r, tr, i, n, k);
    HeldInStep(r, tr, l, n, k);
    Convergence.NeverGoesBack(r.states, r.events, r.at[i], r.at[l], |r.events|, n, k);
  }

  // ----- what has been seen cannot undo a write -----

  predicate TakesIn(h: Happening, n: int, e: RequestEntry) {
    h.Handle? && h.id == n && h.ev.Remote? && e in h.ev.snap.requests
  }

  /** Controller `n` has received the entry at or before `i`, and not restarted since. */
  predicate Absorbed(hs: seq<Happening>, n: int, i: nat, e: RequestEntry)
    requires i < |hs|
  {
    exists j :: 0 <= j <= i && TakesIn(hs[j], n, e) && forall l :: j < l <= i ==> !Boots(hs[l], n)
  }

  /** Where the protocol is after the merge that an event starts with, if any. */
  function AfterMerge(r: Trace, h: Happening, j: nat): nat
    requires j < |r.at|
  {
    if h.Handle? && h.ev.Remote? then r.at[j] + 1 else r.at[j]
  }

  lemma MergedThere(r: Trace, tr: seq<Fleet>, hs: seq<Happening>, end: nat, j: nat)
    requires FleetRun(tr, hs) && end <= |hs| && Tracks(r, tr, hs, end) && j < end && hs[j].Handle?
    ensures var p, n := AfterMerge(r, hs[j], j), hs[j].id;
            && p <= r.at[j + 1] <= |r.events| && n in tr[j].cars && n in r.states[p].nodes && n in r.states[p].log
            && r.states[p].nodes[n] == Base(tr[j].cars[n], hs[j].ev)
            && (forall e :: r.at[j] <= e < p ==> !r.events[e].Start?)
            && (hs[j].ev.Remote? ==> forall e :: e in hs[j].ev.snap.requests ==> e in r.states[p].log[n])
  {
    assert InStep(r, tr, j) && Covers(r, hs, j);
    Later(r, tr, hs, end, j, j + 1);
    var es := r.events[r.at[j]..r.at[j + 1]];
    if hs[j].ev.Remote? {
      assert es[0] == r.events[r.at[j]];
    }
  }

  lemma AbsorbedIsLogged(r: Trace, tr: seq<Fleet>, hs: seq<Happening>, i: nat, n: int, e: RequestEntry)
    requires FleetRun(tr, hs) && i < |hs| && Tracks(r, tr, hs, i + 1) && hs[i].Handle? && hs[i].id == n
    requires Absorbed(hs, n, i, e)
    ensures var p := AfterMerge(r, hs[i], i); p <= |r.events| && n in r.states[p].nodes && e in r.states[p].log[n]
  {
    var j :| 0 <= j <= i && TakesIn(hs[j], n, e) && forall l :: j < l <= i ==> !Boots(hs[l], n);
    MergedThere(r, tr, hs, i + 1, i);
    MergedThere(r, tr, hs, i + 1, j);
    if j < i {
      NothingForgotten(r, tr, hs, i, j, n, e);
    }
  }

  lemma StillGoingOn(r: Trace, hs: seq<Happening>, j: nat, n: int, q: nat)
    requires Covers(r, hs, j) && hs[j].Handle? && r.at[j] <= q
    ensures forall e :: q <= e < r.at[j + 1] ==> !(r.events[e].Start? && r.events[e].id == n)
  {
    forall e | q <= e < r.at[j + 1]
      ensures !(r.events[e].Start? && r.events[e].id == n)
    {
      StartIsBoot(r, hs, j, e, n);
    }
  }

  lemma NothingForgotten(r: Trace, tr: seq<Fleet>, hs: seq<Happening>, i: nat, j: nat, n: int, e: RequestEntry)
    requires FleetRun(tr, hs) && j < i < |hs| && Tracks(r, tr, hs, i + 1)
    requires hs[i].Handle? && hs[i].id == n && hs[j].Handle? && forall l :: j < l <= i ==> !Boots(hs[l], n)
    requires var q := AfterMerge(r, hs[j], j);
             q <= |r.events| && n in r.states[q].nodes && n in r.states[q].log && e in r.states[q].log[n]
    ensures var p := AfterMerge(r, hs[i], i); p <= |r.events| && n in r.states[p].nodes && e in r.states[p].log[n]
  {
    var q, p := AfterMerge(r, hs[j], j), AfterMerge(r, hs[i], i);
    MergedThere(r, tr, hs, i + 1, j);
    MergedThere(r, tr, hs, i + 1, i);
    assert Covers(r, hs, j);
    StillGoingOn(r, hs, j, n, q);
    NoStart(r, tr, hs, i + 1, j + 1, i, n);
    Protocol.LogGrows(r.states, r.events, q, p, n, e);
  }

  lemma SeenAtMerge(tr: seq<Fleet>, hs: seq<Happening>, i: nat, n: int, e: RequestEntry)
    requires FleetRun(tr, hs) && 4 * |hs| < WRAP && i < |hs| && hs[i].Handle? && hs[i].id == n && Absorbed(hs, n, i, e)
    ensures n in tr[i].cars && Seen(Base(tr[i].cars[n], hs[i].ev).clock, e.cell.version)
    ensures Base(tr[i].cars[n], hs[i].ev).clock.value <= 4 * (i + 1)
  {
    var r := FleetRefines(tr, hs, i + 1);
    var p := AfterMerge(r, hs[i], i);
    MergedThere(r, tr, hs, i + 1, i);
    AbsorbedIsLogged(r, tr, hs, i, n, e);
    Protocol.RunInv(r.states, r.events, p);
    Protocol.LogSeen(r.states[p], n, p, e);
    assert Protocol.NodeInv(r.states[p], n, p);
  }

  /** A call that a controller has just written, at an event after all it absorbed since
      it started, stays as written whatever of that it receives again, in any order. */
  lemma FleetReplayCannotUndo(tr: seq<Fleet>, hs: seq<Happening>, i: nat, n: int, key: RequestKey,
                              stale: seq<RequestEntry>)
    requires FleetRun(tr, hs) && 4 * (|hs| + 1) < WRAP && i < |hs| && hs[i].Handle? && hs[i].id == n
    requires n in tr[i].cars && n in tr[i + 1].cars && forall e :: e in stale ==> Absorbed(hs, n, i, e)
    ensures CellAt(tr[i + 1].cars[n].rep.cells, key) != CellAt(Base(tr[i].cars[n], hs[i].ev).cells, key) ==>
              CellAt(Received(tr[i + 1].cars[n].rep, stale).cells, key) == CellAt(tr[i + 1].cars[n].rep.cells, key)
  {
    if CellAt(tr[i + 1].cars[n].rep.cells, key) != CellAt(Base(tr[i].cars[n], hs[i].ev).cells, key) {
      WrittenStays(tr, hs, i, n, key, stale);
    }
  }

  lemma WrittenStays(tr: seq<Fleet>, hs: seq<Happening>, i: nat, n: int, key: RequestKey, stale: seq<RequestEntry>)
    requires FleetRun(tr, hs) && 4 * (|hs| + 1) < WRAP && i < |hs| && hs[i].Handle? && hs[i].id == n
    requires n in tr[i].cars && n in tr[i + 1].cars && forall e :: e in stale ==> Absorbed(hs, n, i, e)
    requires CellAt(tr[i + 1].cars[n].rep.cells, key) != CellAt(Base(tr[i].cars[n], hs[i].ev).cells, key)
    ensures CellAt(Received(tr[i + 1].cars[n].rep, stale).cells, key) == CellAt(tr[i + 1].cars[n].rep.cells, key)
  {
    var ev, t := hs[i].ev, tr[i + 1].cars[n].rep;
    assert t == Step(tr[i].cars[n], ev).rep;
    forall e | e in stale && e.key == key
      ensures !Newer(e.cell.version, CellAt(t.cells, key).version)
    {
      SeenAtMerge(tr, hs, i, n, e);
      WrittenBeats(tr[i].cars[n], ev, key, e.cell.version);
      NewerTotal(e.cell.version, CellAt(t.cells, key).version);
    }
    TopStays(t.cells, stale, RequestEntry(key, CellAt(t.cells, key)));
  }

  lemma WrittenBeats(s: Ctl, ev: Event, key: RequestKey, v: Version)
    requires Seen(Base(s, ev).clock, v) && Base(s, ev).clock.value + 3 < WRAP
    requires CellAt(Step(s, ev).rep.cells, key) != CellAt(Base(s, ev).cells, key)
    ensures Newer(CellAt(Step(s, ev).rep.cells, key).version, v)
  {
    StepWrites(s, ev);
    var ws :| AllowedWrites(s.cfg.id, ws) && |ws| <= 3 && Step(s, ev).rep == WriteAll(Base(s, ev), ws);
    WrittenCells(Base(s, ev), ws, key);
    OwnLaterBeats(Base(s, ev).clock, CellAt(Step(s, ev).rep.cells, key).version, v);
  }

  // ----- snapshots rebuild tables -----

  /** In a fleet every cell has been written, so that merging a controller's snapshot
      into an empty table rebuilds its table. */
  lemma SnapshotRebuilds(tr: seq<Fleet>, hs: seq<Happening>, i: nat, n: int, es: seq<RequestEntry>)
    requires FleetRun(tr, hs) && i <= |hs| && 4 * |hs| < WRAP && n in tr[i].cars
    requires Lists(es, tr[i].cars[n].rep.cells, false)
    ensures MergeAll(map[], es) == tr[i].cars[n].rep.cells
  {
    var cells := tr[i].cars[n].rep.cells;
    TablesAreSound(tr, hs, i);
    forall k | k in cells
      ensures cells[k].version.counter > 0
    {
      assert HeldBy(tr[i], n, RequestEntry(k, cells[k]));
    }
    RoundTrip(cells, es);
  }
}
