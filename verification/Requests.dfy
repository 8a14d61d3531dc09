/** The replicated request table and the Lamport clock (`internal/model/types.go`). */
module Requests {
  import opened Text
  import opened Versions
  import opened Sorting

  type Direction = int
  const UP: Direction := 1
  const STOP: Direction := 0
  const DOWN: Direction := -1

  const HALL := "hall"
  const CAB := "cab"

  datatype RequestKey = RequestKey(kind: string, floor: int, direction: Direction, owner: int)

  function HallKey(floor: int, dir: Direction): RequestKey {
    RequestKey(HALL, floor, dir, 0)
  }

  function CabKey(owner: int, floor: int): RequestKey {
    RequestKey(CAB, floor, STOP, owner)
  }

  datatype RequestCell = RequestCell(active: bool, version: Version)

  datatype RequestEntry = RequestEntry(key: RequestKey, cell: RequestCell)

  type Cells = map<RequestKey, RequestCell>

  /** Reading a Go map at a missing key. */
  function CellAt(cells: Cells, key: RequestKey): RequestCell {
    if key in cells then cells[key] else RequestCell(false, ZERO)
  }

  predicate Active(cells: Cells, key: RequestKey) {
    CellAt(cells, key).active
  }

  // ----- key order -----

  function CompareKey(a: RequestKey, b: RequestKey): int {
    if CompareText(a.kind, b.kind) != 0 then CompareText(a.kind, b.kind)
    else if CompareInt(a.owner, b.owner) != 0 then CompareInt(a.owner, b.owner)
    else if CompareInt(a.floor, b.floor) != 0 then CompareInt(a.floor, b.floor)
    else CompareInt(a.direction, b.direction)
  }

  predicate EntryBefore(a: RequestEntry, b: RequestEntry) {
    CompareKey(a.key, b.key) <= 0
  }

  lemma CompareKeyTotal(a: RequestKey, b: RequestKey)
    ensures CompareKey(a, b) <= 0 || CompareKey(b, a) <= 0
    ensures CompareKey(a, b) <= 0 && CompareKey(b, a) <= 0 ==> a == b
  {
    LessTotal(a.kind, b.kind);
    if Less(a.kind, b.kind) {
      LessAsymmetric(a.kind, b.kind);
    } else if Less(b.kind, a.kind) {
      LessAsymmetric(b.kind, a.kind);
    }
  }

  /** Keys are listed by kind, cab calls before hall calls, then by owner, then floor by
      floor upwards, and at a floor the down call before the up call. */
  lemma KeysInOrder(a: RequestKey, b: RequestKey)
    ensures CompareKey(a, b) < 0 <==>
            || Less(a.kind, b.kind)
            || (a.kind == b.kind &&
                (a.owner < b.owner || (a.owner == b.owner &&
                 (a.floor < b.floor || (a.floor == b.floor && a.direction < b.direction)))))
    ensures Less(CAB, HALL) && DOWN < UP
  {
    LessTotal(a.kind, b.kind);
    LessIrreflexive(a.kind);
    if Less(b.kind, a.kind) {
      LessAsymmetric(b.kind, a.kind);
    }
  }

  lemma EntryBeforeOrders()
    ensures TotalPreorder(EntryBefore)
  {
    forall x, y
      ensures EntryBefore(x, y) || EntryBefore(y, x)
    {
      CompareKeyTotal(x.key, y.key);
    }
    forall x, y, z | EntryBefore(x, y) && EntryBefore(y, z)
      ensures EntryBefore(x, z)
    {
      var a, b, c := x.key.kind, y.key.kind, z.key.kind;
      LessTotal(a, b);
      LessTotal(b, c);
      if Less(a, b) && Less(b, c) {
        LessTransitive(a, b, c);
        LessAsymmetric(a, c);
      }
    }
  }

  // ----- snapshots of a table -----

  /** `es` lists the cells (only the active ones if asked) in strict key order. */
  ghost predicate Lists(es: seq<RequestEntry>, cells: Cells, activeOnly: bool) {
    && StrictlyOrdered(es, EntryBefore)
    && forall e :: e in es <==> e.key in cells && cells[e.key] == e.cell && (activeOnly ==> e.cell.active)
  }

  /** Equal tables have equal snapshots, in whatever order the map was walked. */
  lemma SnapshotUnique(es: seq<RequestEntry>, fs: seq<RequestEntry>, cells: Cells, activeOnly: bool)
    requires Lists(es, cells, activeOnly) && Lists(fs, cells, activeOnly)
    ensures es == fs
  {
    StrictListingUnique(es, fs, EntryBefore);
  }

  ghost predicate DistinctKeys(es: seq<RequestEntry>) {
    forall i, j :: 0 <= i < j < |es| ==> es[i].key != es[j].key
  }

  lemma {:induction false} SortedDistinct(es: seq<RequestEntry>, fs: seq<RequestEntry>)
    requires DistinctKeys(es) && multiset(fs) == multiset(es) && Ordered(fs, EntryBefore)
    ensures StrictlyOrdered(fs, EntryBefore)
  {
    forall i, j | 0 <= i < j < |fs|
      ensures EntryBefore(fs[i], fs[j]) && !EntryBefore(fs[j], fs[i])
    {
      if fs[i].key == fs[j].key {
        NoTwins(es, fs, i, j);
      }
      CompareKeyTotal(fs[i].key, fs[j].key);
    }
  }

  lemma NoTwins(es: seq<RequestEntry>, fs: seq<RequestEntry>, i: nat, j: nat)
    requires DistinctKeys(es) && multiset(fs) == multiset(es) && i < j < |fs|
    ensures fs[i].key != fs[j].key
  {
    if fs[i] == fs[j] {
      Twice(fs, i, j);
      OnceStays(es, fs[i]);
    } else {
      SameElements(es, fs);
      assert fs[i] in es && fs[j] in es;
    }
  }

  ghost predicate IsMaxCounter(cells: Cells, max: UInt64) {
    && (forall k :: k in cells ==> cells[k].version.counter <= max)
    && (max == 0 || exists k :: k in cells && cells[k].version.counter == max)
  }

  class RequestTable {
    var cells: Cells

    constructor ()
      ensures cells == map[]
    {
      cells := map[];
    }

    function Cell(key: RequestKey): RequestCell
      reads this
    {
      CellAt(cells, key)
    }

    predicate IsActive(key: RequestKey)
      reads this
    {
      Active(cells, key)
    }

    method Set(key: RequestKey, cell: RequestCell)
      modifies this
      ensures cells == old(cells)[key := cell]
    {
      cells := cells[key := cell];
    }

    method Entries() returns (es: seq<RequestEntry>)
      ensures Lists(es, cells, false)
    {
      es := EntriesOf(false);
    }

    method ActiveEntries() returns (es: seq<RequestEntry>)
      ensures Lists(es, cells, true)
    {
      es := EntriesOf(true);
    }

    method EntriesOf(activeOnly: bool) returns (es: seq<RequestEntry>)
      ensures Lists(es, cells, activeOnly)
    {
      var out: seq<RequestEntry> := [];
      var rest := cells.Keys;
      while rest != {}
        invariant rest <= cells.Keys
        invariant DistinctKeys(out)
        invariant forall e :: e in out <==>
                    e.key in cells.Keys - rest && cells[e.key] == e.cell && (activeOnly ==> e.cell.active)
      {
        var key :| key in rest;
        rest := rest - {key};
        if activeOnly && !cells[key].active {
          continue;
        }
        out := out + [RequestEntry(key, cells[key])];
      }
      es := SortFunc(out, EntryBefore);
      EntryBeforeOrders();
      SortFuncOrdered(out, EntryBefore);
      SortedDistinct(out, es);
      SameElements(out, es);
    }

    /** The largest counter in the table, zero when it is empty. */
    method MaxCounter() returns (max: UInt64)
      ensures IsMaxCounter(cells, max)
    {
      max := 0;
      var rest := cells.Keys;
      while rest != {}
        invariant rest <= cells.Keys
        invariant forall k :: k in cells && k !in rest ==> cells[k].version.counter <= max
        invariant max == 0 || exists k :: k in cells && cells[k].version.counter == max
      {
        var key :| key in rest;
        rest := rest - {key};
        if cells[key].version.counter > max {
          max := cells[key].version.counter;
        }
      }
    }
  }

  // ----- clock -----

  datatype ClockState = ClockState(value: UInt64, writer: int, boot: string)

  /** Go's `uint64` increment. */
  function Ticked(c: ClockState): ClockState {
    c.(value := (c.value + 1) % WRAP)
  }

  function Stamp(c: ClockState): Version {
    Version(c.value, c.writer, c.boot)
  }

  function Raised(c: ClockState, n: UInt64): ClockState {
    if n > c.value then c.(value := n) else c
  }

  class Clock {
    var value: UInt64
    const writer: int
    const boot: string

    constructor (writer: int, boot: string)
      ensures State() == ClockState(0, writer, boot)
    {
      this.writer := writer;
      this.boot := boot;
      value := 0;
    }

    function State(): ClockState
      reads this
    {
      ClockState(value, writer, boot)
    }

    method Next() returns (v: Version)
      modifies this
      ensures State() == Ticked(old(State())) && v == Stamp(State())
    {
      value := (value + 1) % WRAP;
      v := Version(value, writer, boot);
    }

    method Observe(v: Version)
      modifies this
      ensures State() == Raised(old(State()), v.counter)
    {
      if v.counter > value {
        value := v.counter;
      }
    }

    method Seed(n: UInt64)
      modifies this
      ensures State() == Raised(old(State()), n)
    {
      if n > value {
        value := n;
      }
    }
  }
}
