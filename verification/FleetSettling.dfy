/** When controllers write nothing any more, gossip makes all of a fleet agree. */
module FleetSettling {
  import opened Text
  import opened Versions
  import opened Requests
  import opened Merge
  import opened MergeOrder
  import opened Replicas
  import opened Gossip
  import opened Settling
  import opened Fleet
  import Model = ControllerModel
  import Effects = ControllerEffects
  import Protocol = Replication
  import Convergence

  ghost function TablesIn(f: Fleet): Tables {
    map n | n in f.cars :: f.cars[n].rep.cells
  }

  /** What happens changes no table but by a received snapshot. */
  ghost predicate QuietAt(f: Fleet, h: Happening)
    requires CanHappen(f, h)
  {
    match h
    case Boot(_, _) => false
    case Gossip(_, _) => true
    case SeedClock(_, _) => true
    case Handle(n, ev) => Model.Step(f.cars[n], ev).rep.cells == Effects.Base(f.cars[n], ev).cells
  }

  ghost predicate FleetQuietFrom(tr: seq<Fleet>, hs: seq<Happening>, i: nat)
    requires FleetRun(tr, hs)
  {
    forall j :: i <= j < |hs| ==> QuietAt(tr[j], hs[j])
  }

  predicate NotGossiped(hs: seq<Happening>, i: nat, j: nat, es: seq<RequestEntry>)
    requires j <= |hs|
  {
    forall a :: i <= a < j && hs[a].Gossip? ==> hs[a].es != es
  }

  /** From `i` on `es` is received, and no controller has sent it since. */
  predicate ReceivedLate(hs: seq<Happening>, i: nat, es: seq<RequestEntry>) {
    exists j :: i <= j < |hs| && MoveOf(hs[j]).Deliver? && MoveOf(hs[j]).es == es && NotGossiped(hs, i, j, es)
  }

  /** The snapshots sent before `i` that are received after it. */
  ghost function FleetLate(tr: seq<Fleet>, hs: seq<Happening>, i: nat): Packets
    requires i < |tr|
  {
    set es | es in tr[i].net && ReceivedLate(hs, i, es)
  }

  predicate Receives(h: Happening, n: int, es: seq<RequestEntry>) {
    h.Handle? && h.id == n && h.ev.Remote? && h.ev.snap.requests == es
  }

  predicate FleetHeardSince(hs: seq<Happening>, i: nat, n: int, m: int) {
    exists a, j :: i <= a < j < |hs| && hs[a].Gossip? && hs[a].id == m && Receives(hs[j], n, hs[a].es)
  }

  ghost function FleetTablesFrom(tr: seq<Fleet>, i: nat): seq<Tables>
    requires i <= |tr|
  {
    seq(|tr| - i, l requires 0 <= l < |tr| - i => TablesIn(tr[i + l]))
  }

  function MoveOf(h: Happening): Move {
    if h.Handle? && h.ev.Remote? then Deliver(h.id, h.ev.snap.requests) else Stay
  }

  function FleetMovesFrom(hs: seq<Happening>, i: nat): seq<Move>
    requires i <= |hs|
  {
    seq(|hs| - i, l requires 0 <= l < |hs| - i => MoveOf(hs[i + l]))
  }

  lemma FleetTablesAt(tr: seq<Fleet>, i: nat, l: nat, j: nat)
    requires i <= |tr| && j == i + l < |tr|
    ensures FleetTablesFrom(tr, i)[l] == TablesIn(tr[j])
  {
  }

  lemma GossipIsSent(tr: seq<Fleet>, hs: seq<Happening>, i: nat, a: nat, l: nat)
    requires FleetRun(tr, hs) && i <= a <= i + l < |hs| && hs[a].Gossip?
    ensures Sent(FleetTablesFrom(tr, i), l, hs[a].id, hs[a].es)
  {
    FleetTablesAt(tr, i, a - i, a);
    SnapshotIsSent(FleetTablesFrom(tr, i), l, a - i, hs[a].id, hs[a].es);
  }

  lemma HappeningMoves(f: Fleet, h: Happening)
    requires CanHappen(f, h) && QuietAt(f, h)
    ensures Moved(TablesIn(f), TablesIn(Happens(f, h)), MoveOf(h))
  {
  }

  lemma FleetStep(tr: seq<Fleet>, hs: seq<Happening>, i: nat, j: nat)
    requires FleetRun(tr, hs) && i <= j < |hs| && FleetQuietFrom(tr, hs, i)
    ensures Moved(TablesIn(tr[j]), TablesIn(tr[j + 1]), MoveOf(hs[j]))
  {
    HappeningMoves(tr[j], hs[j]);
  }

  lemma {:induction false} WasInFleetNet(tr: seq<Fleet>, hs: seq<Happening>, i: nat, j: nat, es: seq<RequestEntry>)
    requires FleetRun(tr, hs) && i <= j <= |hs| && es in tr[j].net && NotGossiped(hs, i, j, es)
    ensures es in tr[i].net
  {
    if i < j {
      assert tr[j] == Happens(tr[j - 1], hs[j - 1]);
      WasInFleetNet(tr, hs, i, j - 1, es);
    }
  }

  lemma FleetReceivedWasSent(tr: seq<Fleet>, hs: seq<Happening>, i: nat, l: nat, j: nat)
    requires FleetRun(tr, hs) && j == i + l < |hs| && MoveOf(hs[j]).Deliver?
    ensures MoveOf(hs[j]).es in FleetLate(tr, hs, i) || SentBySome(FleetTablesFrom(tr, i), l, MoveOf(hs[j]).es)
  {
    if NotGossiped(hs, i, j, MoveOf(hs[j]).es) {
      WasInFleetNet(tr, hs, i, j, MoveOf(hs[j]).es);
    } else {
      var a :| i <= a < j && hs[a].Gossip? && hs[a].es == MoveOf(hs[j]).es;
      GossipIsSent(tr, hs, i, a, l);
    }
  }

  lemma FleetMove(tr: seq<Fleet>, hs: seq<Happening>, i: nat, l: nat, j: nat)
    requires FleetRun(tr, hs) && j == i + l < |hs| && FleetQuietFrom(tr, hs, i)
    ensures Moves(FleetTablesFrom(tr, i), l, MoveOf(hs[j]), FleetLate(tr, hs, i))
  {
    FleetStep(tr, hs, i, j);
    FleetTablesAt(tr, i, l, j);
    FleetTablesAt(tr, i, l + 1, j + 1);
    if MoveOf(hs[j]).Deliver? {
      FleetReceivedWasSent(tr, hs, i, l, j);
    }
    MoveStands(FleetTablesFrom(tr, i), l, TablesIn(tr[j]), TablesIn(tr[j + 1]), MoveOf(hs[j]), FleetLate(tr, hs, i));
  }

  lemma FleetMoveIn(tr: seq<Fleet>, hs: seq<Happening>, i: nat, l: nat)
    requires FleetRun(tr, hs) && i + l < |hs| && FleetQuietFrom(tr, hs, i)
    ensures Moves(FleetTablesFrom(tr, i), l, FleetMovesFrom(hs, i)[l], FleetLate(tr, hs, i))
  {
    var j := i + l;
    assert FleetMovesFrom(hs, i)[l] == MoveOf(hs[j]);
    FleetMove(tr, hs, i, l, j);
  }

  lemma FleetMoves(tr: seq<Fleet>, hs: seq<Happening>, i: nat)
    requires FleetRun(tr, hs) && i <= |hs| && FleetQuietFrom(tr, hs, i)
    ensures GossipRun(FleetTablesFrom(tr, i), FleetMovesFrom(hs, i), FleetLate(tr, hs, i))
  {
    forall l: nat | l < |hs| - i
      ensures Moves(FleetTablesFrom(tr, i), l, FleetMovesFrom(hs, i)[l], FleetLate(tr, hs, i))
    {
      FleetMoveIn(tr, hs, i, l);
    }
  }

  lemma FleetHeardIsHeard(tr: seq<Fleet>, hs: seq<Happening>, i: nat, n: int, m: int)
    requires FleetRun(tr, hs) && i <= |hs| && FleetHeardSince(hs, i, n, m)
    ensures HeardOf(FleetTablesFrom(tr, i), FleetMovesFrom(hs, i), n, m)
  {
    var a, l := FleetHearing(hs, i, n, m);
    GossipIsSent(tr, hs, i, a, l);
    ReceiptIsMove(FleetTablesFrom(tr, i), FleetMovesFrom(hs, i), l, n, m, hs[a].es);
  }

  lemma FleetHearing(hs: seq<Happening>, i: nat, n: int, m: int) returns (a: nat, l: nat)
    requires i <= |hs| && FleetHeardSince(hs, i, n, m)
    ensures i <= a < i + l < |hs| && hs[a].Gossip? && hs[a].id == m
    ensures FleetMovesFrom(hs, i)[l] == Deliver(n, hs[a].es)
  {
    var j: int;
    a, j :| i <= a < j < |hs| && hs[a].Gossip? && hs[a].id == m && Receives(hs[j], n, hs[a].es);
    l := j - i;
    assert FleetMovesFrom(hs, i)[l] == MoveOf(hs[j]);
  }

  lemma SameTables(f: Fleet, c: Protocol.Cluster)
    requires Shadows(c, f)
    ensures TablesOf(c) == TablesIn(f)
  {
    assert TablesOf(c).Keys == TablesIn(f).Keys;
    forall n | n in f.cars
      ensures TablesOf(c)[n] == TablesIn(f)[n]
    {
    }
  }

  /** All that is held in a fleet and all that was ever sent comes from writes. */
  lemma FleetAround(tr: seq<Fleet>, hs: seq<Happening>, i: nat, late: Packets)
    requires FleetRun(tr, hs) && i <= |hs| && 4 * i < WRAP && late <= tr[i].net
    ensures var s := Around(TablesIn(tr[i]), late);
            && Storable(s) && Functional(s)
            && forall e :: e in s && e.key.kind == CAB ==> e.cell.version.writer == e.key.owner
  {
    var r := FleetRefines(tr, hs, i);
    assert InStep(r, tr, i);
    var c := r.states[|r.events|];
    SameTables(tr[i], c);
    AroundIsWritten(r.states, r.events, late);
    forall e | e in Around(TablesIn(tr[i]), late) && e.key.kind == CAB
      ensures e.cell.version.writer == e.key.owner
    {
      Convergence.CabWriters(r.states, r.events, |r.events|, e);
    }
  }

  ghost predicate FleetEachHeardSince(tr: seq<Fleet>, hs: seq<Happening>, i: nat)
    requires i < |tr|
  {
    forall p, q :: p in tr[i].cars && q in tr[i].cars && p != q ==> FleetHeardSince(hs, i, p, q)
  }

  /** From some moment on no controller starts or writes. Once each has received a snapshot
      that every other has sent since, all controllers agree about a call, if the newest
      entry for it, of all that was held at that moment or arrived late, was held by some
      controller. */
  lemma FleetSettles(tr: seq<Fleet>, hs: seq<Happening>, i: nat, k: RequestKey, n: int, m: int)
    requires FleetRun(tr, hs) && i <= |hs| && 4 * i < WRAP && FleetQuietFrom(tr, hs, i)
    requires n in tr[i].cars && m in tr[i].cars && FleetEachHeardSince(tr, hs, i)
    requires NewestIsHeld(TablesIn(tr[i]), FleetLate(tr, hs, i), k)
    ensures n in tr[|hs|].cars && m in tr[|hs|].cars
    ensures SameAt(tr[|hs|].cars[n].rep.cells, tr[|hs|].cars[m].rep.cells, k)
  {
    var tabs, moves := FleetTablesFrom(tr, i), FleetMovesFrom(hs, i);
    FleetMoves(tr, hs, i);
    FleetAround(tr, hs, i, FleetLate(tr, hs, i));
    assert tabs[0] == TablesIn(tr[i]) && tabs[|moves|] == TablesIn(tr[|hs|]);
    forall p, q | p in tabs[0] && q in tabs[0] && p != q
      ensures HeardOf(tabs, moves, p, q)
    {
      FleetHeardIsHeard(tr, hs, i, p, q);
    }
    Settles(tabs, moves, FleetLate(tr, hs, i), k, n, m);
  }

  /** So about a call that is a cab call or has no sandwich, if no late snapshot brings a
      newer version of it than all that were held, and so if none is late. */
  lemma FleetCallsSettle(tr: seq<Fleet>, hs: seq<Happening>, i: nat, k: RequestKey, n: int, m: int)
    requires FleetRun(tr, hs) && i <= |hs| && 4 * i < WRAP && FleetQuietFrom(tr, hs, i)
    requires n in tr[i].cars && m in tr[i].cars && FleetEachHeardSince(tr, hs, i)
    requires k.kind == CAB || NoSandwichAt(Around(TablesIn(tr[i]), FleetLate(tr, hs, i)), k)
    requires HeldBeats(TablesIn(tr[i]), FleetLate(tr, hs, i), k)
    ensures n in tr[|hs|].cars && m in tr[|hs|].cars
    ensures SameAt(tr[|hs|].cars[n].rep.cells, tr[|hs|].cars[m].rep.cells, k)
  {
    var late := FleetLate(tr, hs, i);
    FleetAround(tr, hs, i, late);
    if k.kind == CAB {
      OneWriterSettles(Around(TablesIn(tr[i]), late), k);
    }
    NewestIsNotLate(TablesIn(tr[i]), late, k);
    FleetSettles(tr, hs, i, k, n, m);
  }
}
