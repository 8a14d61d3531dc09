/** What gossip of whole tables comes to once nothing is written any more: tables that
    change by received snapshots only, of tables that some node held since or late ones. */
module Gossip {
  import opened Versions
  import opened Sorting
  import opened Requests
  import opened Merge
  import opened MergeOrder

  type Tables = map<int, Cells>

  type Packets = set<seq<RequestEntry>>

  datatype Move = Stay | Deliver(to: int, es: seq<RequestEntry>)

  /** `es` is the snapshot of the table `m` held at some moment up to `j`. */
  ghost predicate Sent(tabs: seq<Tables>, j: nat, m: int, es: seq<RequestEntry>)
    requires j < |tabs|
  {
    exists a :: 0 <= a <= j && m in tabs[a] && Lists(es, tabs[a][m], false)
  }

  ghost predicate SentBySome(tabs: seq<Tables>, j: nat, es: seq<RequestEntry>)
    requires j < |tabs|
  {
    exists m :: Sent(tabs, j, m, es)
  }

  /** Beside the snapshots sent meanwhile, those in `late`, sent before, may arrive. */
  ghost predicate Moves(tabs: seq<Tables>, j: nat, mv: Move, late: Packets)
    requires j + 1 < |tabs|
  {
    match mv
    case Stay => tabs[j + 1] == tabs[j]
    case Deliver(to, es) =>
      && to in tabs[j] && (es in late || SentBySome(tabs, j, es))
      && tabs[j + 1] == tabs[j][to := MergeAll(tabs[j][to], es)]
  }

  ghost predicate GossipRun(tabs: seq<Tables>, moves: seq<Move>, late: Packets) {
    |tabs| == |moves| + 1 && forall j :: 0 <= j < |moves| ==> Moves(tabs, j, moves[j], late)
  }

  /** All the entries of all the tables. */
  ghost function InTables(t: Tables): set<RequestEntry> {
    set n, k | n in t && k in t[n] :: RequestEntry(k, t[n][k])
  }

  ghost function InPackets(late: Packets): set<RequestEntry> {
    set es, e | es in late && e in es :: e
  }

  /** All that is held or may still arrive. */
  ghost function Around(t: Tables, late: Packets): set<RequestEntry> {
    InTables(t) + InPackets(late)
  }

  ghost predicate AllOver(t: Tables, s: set<RequestEntry>) {
    forall n :: n in t ==> Over(t[n], s)
  }

  ghost predicate Covers(s: set<RequestEntry>, t: Tables, late: Packets) {
    AllOver(t, s) && InPackets(late) <= s
  }

  /** By move `j`, `n` has received a snapshot of `m`. */
  ghost predicate HeardOf(tabs: seq<Tables>, moves: seq<Move>, n: int, m: int)
    requires |tabs| == |moves| + 1
  {
    exists j :: 0 <= j < |moves| && moves[j].Deliver? && moves[j].to == n && Sent(tabs, j, m, moves[j].es)
  }

  // ----- nothing comes from nowhere -----

  lemma {:induction false} MergeWithin(cells: Cells, es: seq<RequestEntry>, s: set<RequestEntry>)
    requires Over(cells, s) && forall e :: e in es ==> e in s
    ensures Over(MergeAll(cells, es), s)
  {
    if es != [] {
      FrontAndLast(es);
      MergeWithin(cells, es[..|es| - 1], s);
    }
  }

  lemma SentWithin(tabs: seq<Tables>, j: nat, m: int, es: seq<RequestEntry>, s: set<RequestEntry>)
    requires j < |tabs| && Sent(tabs, j, m, es) && forall a :: 0 <= a <= j ==> AllOver(tabs[a], s)
    ensures forall e :: e in es ==> e in s
  {
    var a :| 0 <= a <= j && m in tabs[a] && Lists(es, tabs[a][m], false);
    assert AllOver(tabs[a], s);
    forall e | e in es
      ensures e in s
    {
      assert e == RequestEntry(e.key, tabs[a][m][e.key]);
    }
  }

  lemma MoveWithin(tabs: seq<Tables>, j: nat, mv: Move, late: Packets, s: set<RequestEntry>)
    requires j + 1 < |tabs| && Moves(tabs, j, mv, late) && InPackets(late) <= s
    requires forall a :: 0 <= a <= j ==> AllOver(tabs[a], s)
    ensures tabs[j + 1].Keys == tabs[j].Keys && AllOver(tabs[j + 1], s)
    ensures mv.Deliver? ==> forall e :: e in mv.es ==> e in s
  {
    assert AllOver(tabs[j], s);
    if mv.Deliver? {
      if mv.es in late {
        LateWithin(mv.es, late, s);
      } else {
        var m :| Sent(tabs, j, m, mv.es);
        SentWithin(tabs, j, m, mv.es, s);
      }
      MergeWithin(tabs[j][mv.to], mv.es, s);
    }
  }

  lemma LateWithin(es: seq<RequestEntry>, late: Packets, s: set<RequestEntry>)
    requires es in late && InPackets(late) <= s
    ensures forall e :: e in es ==> e in s
  {
    assert forall e :: e in es ==> e in InPackets(late);
  }

  lemma {:induction false} AllWithin(tabs: seq<Tables>, moves: seq<Move>, late: Packets,
                                     s: set<RequestEntry>, j: nat)
    requires GossipRun(tabs, moves, late) && j <= |moves| && Covers(s, tabs[0], late)
    ensures forall a :: 0 <= a <= j ==> AllOver(tabs[a], s) && tabs[a].Keys == tabs[0].Keys
  {
    if j > 0 {
      AllWithin(tabs, moves, late, s, j - 1);
      assert Moves(tabs, j - 1, moves[j - 1], late);
      MoveWithin(tabs, j - 1, moves[j - 1], late, s);
    }
  }

  // ----- the newest entry spreads -----

  ghost predicate Holds(t: Tables, n: int, e: RequestEntry) {
    n in t && CellAt(t[n], e.key) == e.cell
  }

  lemma NewestStays(tabs: seq<Tables>, j: nat, mv: Move, late: Packets, s: set<RequestEntry>, n: int, e: RequestEntry)
    requires j + 1 < |tabs| && Moves(tabs, j, mv, late) && InPackets(late) <= s
    requires forall a :: 0 <= a <= j ==> AllOver(tabs[a], s)
    requires Newest(s, e) && Holds(tabs[j], n, e)
    ensures Holds(tabs[j + 1], n, e)
  {
    MoveWithin(tabs, j, mv, late, s);
    if mv.Deliver? && mv.to == n {
      forall f | f in mv.es && f.key == e.key
        ensures !Newer(f.cell.version, e.cell.version)
      {
        NewerTotal(f.cell.version, e.cell.version);
      }
      TopStays(tabs[j][n], mv.es, e);
    }
  }

  lemma NewestStaysIn(tabs: seq<Tables>, moves: seq<Move>, late: Packets, s: set<RequestEntry>, n: int,
                      e: RequestEntry, j: nat)
    requires GossipRun(tabs, moves, late) && j < |moves| && Covers(s, tabs[0], late) && Newest(s, e)
    requires Holds(tabs[j], n, e)
    ensures Holds(tabs[j + 1], n, e)
  {
    AllWithin(tabs, moves, late, s, j);
    NewestStays(tabs, j, moves[j], late, s, n, e);
  }

  lemma {:induction false} HoldsFrom(tabs: seq<Tables>, moves: seq<Move>, late: Packets, s: set<RequestEntry>,
                                     n: int, e: RequestEntry, a: nat, j: nat)
    requires GossipRun(tabs, moves, late) && a <= j <= |moves| && Covers(s, tabs[0], late)
    requires Newest(s, e) && Holds(tabs[a], n, e)
    ensures Holds(tabs[j], n, e)
  {
    if a < j {
      HoldsFrom(tabs, moves, late, s, n, e, a, j - 1);
      NewestStaysIn(tabs, moves, late, s, n, e, j - 1);
    }
  }

  /** A snapshot of a node that holds the newest entry hands it on. */
  lemma NewestIsHandedOn(cells: Cells, from: Cells, es: seq<RequestEntry>, s: set<RequestEntry>, e: RequestEntry)
    requires Storable(s) && Newest(s, e) && Over(cells, s) && Lists(es, from, false) && CellAt(from, e.key) == e.cell
    ensures CellAt(MergeAll(cells, es), e.key) == e.cell
  {
    NewerTotal(e.cell.version, ZERO);
    assert e.key in from;
    assert e in es;
    ListsDistinct(es, from);
    MergeAtKey(cells, es, e);
    if e.key in cells {
      assert RequestEntry(e.key, cells[e.key]) in s;
    }
  }

  lemma DeliveryBrings(tabs: seq<Tables>, j: nat, mv: Move, late: Packets, a: nat, s: set<RequestEntry>, w: int,
                       e: RequestEntry)
    requires a <= j && j + 1 < |tabs| && Moves(tabs, j, mv, late) && mv.Deliver? && AllOver(tabs[j], s)
    requires Storable(s) && Newest(s, e) && Holds(tabs[a], w, e) && Lists(mv.es, tabs[a][w], false)
    ensures Holds(tabs[j + 1], mv.to, e)
  {
    NewestIsHandedOn(tabs[j][mv.to], tabs[a][w], mv.es, s, e);
  }

  lemma ReceiptAt(tabs: seq<Tables>, moves: seq<Move>, late: Packets, s: set<RequestEntry>, w: int, e: RequestEntry,
                  a: nat, j: nat)
    requires GossipRun(tabs, moves, late) && Covers(s, tabs[0], late) && Storable(s) && Newest(s, e)
    requires Holds(tabs[0], w, e)
    requires a <= j < |moves| && moves[j].Deliver? && w in tabs[a] && Lists(moves[j].es, tabs[a][w], false)
    ensures Holds(tabs[j + 1], moves[j].to, e)
  {
    HoldsFrom(tabs, moves, late, s, w, e, 0, a);
    AllWithin(tabs, moves, late, s, j);
    DeliveryBrings(tabs, j, moves[j], late, a, s, w, e);
  }

  lemma Receipt(tabs: seq<Tables>, moves: seq<Move>, late: Packets, n: int, w: int) returns (a: nat, j: nat)
    requires GossipRun(tabs, moves, late) && HeardOf(tabs, moves, n, w)
    ensures a <= j < |moves| && moves[j].Deliver? && moves[j].to == n
    ensures w in tabs[a] && Lists(moves[j].es, tabs[a][w], false)
  {
    j :| 0 <= j < |moves| && moves[j].Deliver? && moves[j].to == n && Sent(tabs, j, w, moves[j].es);
    a :| 0 <= a <= j && w in tabs[a] && Lists(moves[j].es, tabs[a][w], false);
  }

  lemma ReceiptBrings(tabs: seq<Tables>, moves: seq<Move>, late: Packets, s: set<RequestEntry>, n: int, w: int,
                      e: RequestEntry)
    requires GossipRun(tabs, moves, late) && Covers(s, tabs[0], late) && Storable(s) && Newest(s, e)
    requires Holds(tabs[0], w, e) && HeardOf(tabs, moves, n, w)
    ensures Holds(tabs[|moves|], n, e)
  {
    var a, j := Receipt(tabs, moves, late, n, w);
    ReceiptAt(tabs, moves, late, s, w, e, a, j);
    HoldsFrom(tabs, moves, late, s, n, e, j + 1, |moves|);
  }

  // ----- agreement -----

  /** Every node has received a snapshot of every other. */
  ghost predicate AllHeard(tabs: seq<Tables>, moves: seq<Move>)
    requires |tabs| == |moves| + 1
  {
    forall n, m :: n in tabs[0] && m in tabs[0] && n != m ==> HeardOf(tabs, moves, n, m)
  }

  /** Of the key nothing is held or may still arrive, or the newest of all that is held
      by somebody. */
  ghost predicate NewestIsHeld(t: Tables, late: Packets, k: RequestKey) {
    k in KeysOf(Around(t, late)) ==> exists e :: Newest(Around(t, late), e) && e.key == k && e in InTables(t)
  }

  lemma NobodyHas(tabs: seq<Tables>, moves: seq<Move>, late: Packets, s: set<RequestEntry>, k: RequestKey, n: int)
    requires GossipRun(tabs, moves, late) && Covers(s, tabs[0], late) && k !in KeysOf(s) && n in tabs[|moves|]
    ensures k !in tabs[|moves|][n]
  {
    AllWithin(tabs, moves, late, s, |moves|);
    assert AllOver(tabs[|moves|], s);
    HeldKeys(tabs[|moves|][n], s, k);
  }

  /** Once every node has received a snapshot of every other, all hold the same cell of a
      key if the newest of what was held at the start and what arrived late was held. */
  lemma Settles(tabs: seq<Tables>, moves: seq<Move>, late: Packets, k: RequestKey, n: int, m: int)
    requires GossipRun(tabs, moves, late) && AllHeard(tabs, moves) && n in tabs[0] && m in tabs[0]
    requires Storable(Around(tabs[0], late)) && NewestIsHeld(tabs[0], late, k)
    ensures n in tabs[|moves|] && m in tabs[|moves|] && SameAt(tabs[|moves|][n], tabs[|moves|][m], k)
  {
    var s, end := Around(tabs[0], late), |moves|;
    assert AllOver(tabs[0], s);
    AllWithin(tabs, moves, late, s, end);
    if k in KeysOf(s) {
      var e :| Newest(s, e) && e.key == k && e in InTables(tabs[0]);
      var w, key :| w in tabs[0] && key in tabs[0][w] && RequestEntry(key, tabs[0][w][key]) == e;
      Spread(tabs, moves, late, s, w, e, n);
      Spread(tabs, moves, late, s, w, e, m);
    } else {
      NobodyHas(tabs, moves, late, s, k, n);
      NobodyHas(tabs, moves, late, s, k, m);
    }
  }

  lemma Spread(tabs: seq<Tables>, moves: seq<Move>, late: Packets, s: set<RequestEntry>, w: int, e: RequestEntry,
               n: int)
    requires GossipRun(tabs, moves, late) && AllHeard(tabs, moves) && Covers(s, tabs[0], late) && Storable(s)
    requires Newest(s, e)
    requires w in tabs[0] && n in tabs[0] && Holds(tabs[0], w, e)
    ensures Holds(tabs[|moves|], n, e) && e.key in tabs[|moves|][n]
  {
    if n == w {
      HoldsFrom(tabs, moves, late, s, n, e, 0, |moves|);
    } else {
      ReceiptBrings(tabs, moves, late, s, n, w, e);
    }
    NewerTotal(e.cell.version, ZERO);
  }
}
