/** Why gossip needs the newest entry to be held by somebody when writing ends: otherwise
    there are deliveries after which two nodes differ, although each has received a
    snapshot of every other. */
module Unsettled {
  import opened Versions
  import opened Sorting
  import opened Requests
  import opened Merge
  import opened MergeOrder
  import opened Gossip

  // ----- a list of deliveries -----

  function Given(t: Tables, mv: Move): Tables {
    if mv.Deliver? && mv.to in t then t[mv.to := MergeAll(t[mv.to], mv.es)] else t
  }

  function After(t: Tables, ds: seq<Move>): (r: Tables)
    ensures r.Keys == t.Keys
  {
    if ds == [] then t else Given(After(t, ds[..|ds| - 1]), ds[|ds| - 1])
  }

  ghost function Trace(t: Tables, ds: seq<Move>): seq<Tables> {
    seq(|ds| + 1, i requires 0 <= i <= |ds| => After(t, ds[..i]))
  }

  /** A snapshot that some node could send at the start. */
  ghost predicate IsSnapshot(t: Tables, es: seq<RequestEntry>) {
    exists m :: m in t && Lists(es, t[m], false)
  }

  ghost predicate Deliverable(t: Tables, late: Packets, mv: Move) {
    mv.Deliver? && mv.to in t && (mv.es in late || IsSnapshot(t, mv.es))
  }

  ghost predicate AllDeliverable(t: Tables, late: Packets, ds: seq<Move>) {
    forall mv :: mv in ds ==> Deliverable(t, late, mv)
  }

  lemma AfterLast(t: Tables, ds: seq<Move>, mv: Move)
    ensures After(t, ds + [mv]) == Given(After(t, ds), mv)
  {
    assert (ds + [mv])[..|ds|] == ds;
  }

  lemma AfterMore(t: Tables, ds: seq<Move>, j: nat)
    requires j < |ds|
    ensures After(t, ds[..j + 1]) == Given(After(t, ds[..j]), ds[j])
  {
    assert ds[..j + 1][..j] == ds[..j];
  }

  lemma DeliveryMoves(t: Tables, ds: seq<Move>, late: Packets, j: nat)
    requires j < |ds| && Deliverable(t, late, ds[j])
    ensures Moves(Trace(t, ds), j, ds[j], late)
  {
    AfterMore(t, ds, j);
    var tabs := Trace(t, ds);
    assert tabs[j] == After(t, ds[..j]) && tabs[j + 1] == After(t, ds[..j + 1]);
    if ds[j].es !in late {
      var m :| m in t && Lists(ds[j].es, t[m], false);
      assert tabs[0] == t;
      assert Sent(tabs, j, m, ds[j].es);
    }
  }

  lemma TraceIsRun(t: Tables, ds: seq<Move>, late: Packets)
    requires AllDeliverable(t, late, ds)
    ensures GossipRun(Trace(t, ds), ds, late)
    ensures Trace(t, ds)[0] == t && Trace(t, ds)[|ds|] == After(t, ds)
  {
    forall j | 0 <= j < |ds|
      ensures Moves(Trace(t, ds), j, ds[j], late)
    {
      DeliveryMoves(t, ds, late, j);
    }
    assert ds[..|ds|] == ds;
  }

  // ----- a round in which everybody hears everybody -----

  lemma {:induction false} CellsListed(cells: Cells, keys: set<RequestKey>) returns (es: seq<RequestEntry>)
    requires keys <= cells.Keys
    ensures DistinctKeys(es) && forall e :: e in es <==> e.key in keys && cells[e.key] == e.cell
  {
    if keys == {} {
      es := [];
    } else {
      var k :| k in keys;
      var rest := CellsListed(cells, keys - {k});
      es := rest + [RequestEntry(k, cells[k])];
    }
  }

  lemma ListingExists(cells: Cells)
    ensures exists es :: Lists(es, cells, false)
  {
    var out := CellsListed(cells, cells.Keys);
    var es := SortFunc(out, EntryBefore);
    EntryBeforeOrders();
    SortFuncOrdered(out, EntryBefore);
    SortedDistinct(out, es);
    SameElements(out, es);
    assert Lists(es, cells, false);
  }

  ghost function SnapshotOf(cells: Cells): (es: seq<RequestEntry>)
    ensures Lists(es, cells, false)
  {
    ListingExists(cells);
    var es :| Lists(es, cells, false);
    es
  }

  lemma {:induction false} Listed<T>(s: set<T>) returns (xs: seq<T>)
    ensures forall x :: x in xs <==> x in s
  {
    if s == {} {
      xs := [];
    } else {
      var x :| x in s;
      var rest := Listed(s - {x});
      xs := rest + [x];
    }
  }

  ghost predicate FullRound(t: Tables, ds: seq<Move>) {
    forall n, m :: n in t && m in t ==> Deliver(n, SnapshotOf(t[m])) in ds
  }

  ghost function Round(t: Tables): set<Move> {
    set n, m | n in t && m in t :: Deliver(n, SnapshotOf(t[m]))
  }

  lemma InRound(t: Tables, mv: Move)
    requires mv in Round(t)
    ensures Deliverable(t, {}, mv)
  {
    var n, m :| n in t && m in t && mv == Deliver(n, SnapshotOf(t[m]));
    assert Lists(mv.es, t[m], false);
  }

  lemma RoundExists(t: Tables) returns (ds: seq<Move>)
    ensures FullRound(t, ds) && AllDeliverable(t, {}, ds)
  {
    ds := Listed(Round(t));
    forall mv | mv in ds
      ensures Deliverable(t, {}, mv)
    {
      InRound(t, mv);
    }
  }

  lemma RoundIsHeard(t: Tables, ds: seq<Move>)
    requires FullRound(t, ds)
    ensures AllHeard(Trace(t, ds), ds)
  {
    var tabs := Trace(t, ds);
    assert tabs[0] == t;
    forall n, m | n in t && m in t && n != m
      ensures HeardOf(tabs, ds, n, m)
    {
      var mv := Deliver(n, SnapshotOf(t[m]));
      assert mv in ds;
      var j :| 0 <= j < |ds| && ds[j] == mv;
      assert Sent(tabs, j, m, mv.es);
    }
  }

  lemma RoundStaysWithin(t: Tables, ds: seq<Move>)
    requires AllDeliverable(t, {}, ds)
    ensures AllOver(After(t, ds), InTables(t))
  {
    TraceIsRun(t, ds, {});
    assert AllOver(Trace(t, ds)[0], InTables(t));
    AllWithin(Trace(t, ds), ds, {}, InTables(t), |ds|);
  }

  // ----- one more delivery -----

  /** An entry that has not been beaten goes to one node and not to the other. */
  lemma OneMoreDiffers(t: Tables, p: int, q: int, es: seq<RequestEntry>, f: RequestEntry)
    requires p in t && q in t && p != q && SameAt(t[p], t[q], f.key)
    requires DistinctKeys(es) && f in es && Wins(t[p], f)
    ensures var u := Given(t, Deliver(p, es)); !SameAt(u[p], u[q], f.key)
  {
    MergeAtKey(t[p], es, f);
    NewerTotal(f.cell.version, f.cell.version);
  }

  /** Of the entries around there is one that beats what a node holds, if that is held by
      somebody at the start and the newest is not. */
  lemma Unbeaten(t: Tables, late: Packets, k: RequestKey, cells: Cells) returns (f: RequestEntry)
    requires Storable(Around(t, late)) && Functional(Around(t, late)) && !NewestIsHeld(t, late, k)
    requires Over(cells, InTables(t))
    ensures f in Around(t, late) && f.key == k && Wins(cells, f)
  {
    var s := Around(t, late);
    if k in cells {
      var d := RequestEntry(k, cells[k]);
      assert d in InTables(t) && !Newest(s, d);
      f :| f in s && f.key == k && f != d && !Newer(d.cell.version, f.cell.version);
      NewerTotal(f.cell.version, d.cell.version);
    } else {
      f :| f in s && f.key == k;
    }
  }

  ghost predicate AllDistinct(late: Packets) {
    forall es :: es in late ==> DistinctKeys(es)
  }

  lemma PacketWith(t: Tables, late: Packets, f: RequestEntry) returns (es: seq<RequestEntry>)
    requires f in Around(t, late) && AllDistinct(late)
    ensures f in es && DistinctKeys(es) && (es in late || IsSnapshot(t, es))
  {
    if f in InTables(t) {
      var w, key :| w in t && key in t[w] && f == RequestEntry(key, t[w][key]);
      es := SnapshotOf(t[w]);
      ListsDistinct(es, t[w]);
    } else {
      es :| es in late && f in es;
    }
  }

  lemma AfterOneMore(t: Tables, late: Packets, ds: seq<Move>, mv: Move)
    requires FullRound(t, ds) && AllDeliverable(t, {}, ds) && Deliverable(t, late, mv)
    ensures FullRound(t, ds + [mv]) && AllDeliverable(t, late, ds + [mv])
    ensures After(t, ds + [mv]) == Given(After(t, ds), mv)
  {
    AfterLast(t, ds, mv);
    forall x | x in ds + [mv]
      ensures Deliverable(t, late, x)
    {
      assert x in ds || x == mv;
    }
  }

  lemma DifferentEnd(t: Tables, late: Packets, k: RequestKey, p: int, q: int) returns (ds: seq<Move>)
    requires p in t && q in t && p != q && !NewestIsHeld(t, late, k)
    requires Storable(Around(t, late)) && Functional(Around(t, late)) && AllDistinct(late)
    ensures FullRound(t, ds) && AllDeliverable(t, late, ds) && !SameAt(After(t, ds)[p], After(t, ds)[q], k)
  {
    ds := RoundExists(t);
    RoundStaysWithin(t, ds);
    var u := After(t, ds);
    var f := Unbeaten(t, late, k, u[p]);
    var es := PacketWith(t, late, f);
    if SameAt(u[p], u[q], k) {
      OneMoreDiffers(u, p, q, es, f);
      AfterOneMore(t, late, ds, Deliver(p, es));
      ds := ds + [Deliver(p, es)];
    } else {
      assert AllDeliverable(t, late, ds) by {
        assert forall mv :: mv in ds ==> Deliverable(t, {}, mv);
      }
    }
  }

  // ----- exactly -----

  ghost predicate AgreeAt(t: Tables, k: RequestKey) {
    forall n, m :: n in t && m in t ==> SameAt(t[n], t[m], k)
  }

  /** However gossip goes on, all agree once everybody has heard of everybody. */
  ghost predicate AlwaysSettles(t: Tables, late: Packets, k: RequestKey) {
    forall tabs, moves :: GossipRun(tabs, moves, late) && tabs[0] == t && AllHeard(tabs, moves) ==>
      AgreeAt(tabs[|moves|], k)
  }

  /** Among two nodes and more, that is so exactly if the newest of all there is around is
      held by somebody. */
  lemma SettlesExactly(t: Tables, late: Packets, k: RequestKey, p: int, q: int)
    requires p in t && q in t && p != q
    requires Storable(Around(t, late)) && Functional(Around(t, late)) && AllDistinct(late)
    ensures AlwaysSettles(t, late, k) <==> NewestIsHeld(t, late, k)
  {
    if NewestIsHeld(t, late, k) {
      forall tabs, moves | GossipRun(tabs, moves, late) && tabs[0] == t && AllHeard(tabs, moves)
        ensures AgreeAt(tabs[|moves|], k)
      {
        SettledRun(tabs, moves, late, k);
      }
    } else {
      var ds := DifferentEnd(t, late, k, p, q);
      TraceIsRun(t, ds, late);
      RoundIsHeard(t, ds);
      assert !AgreeAt(Trace(t, ds)[|ds|], k);
    }
  }

  lemma SettledRun(tabs: seq<Tables>, moves: seq<Move>, late: Packets, k: RequestKey)
    requires GossipRun(tabs, moves, late) && AllHeard(tabs, moves)
    requires Storable(Around(tabs[0], late)) && NewestIsHeld(tabs[0], late, k)
    ensures AgreeAt(tabs[|moves|], k)
  {
    var s := Around(tabs[0], late);
    assert AllOver(tabs[0], s);
    AllWithin(tabs, moves, late, s, |moves|);
    forall n, m | n in tabs[|moves|] && m in tabs[|moves|]
      ensures SameAt(tabs[|moves|][n], tabs[|moves|][m], k)
    {
      Settles(tabs, moves, late, k, n, m);
    }
  }
}
