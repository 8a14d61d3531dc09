/** One node's copy of the request table together with its clock: the part of a
    controller that replication is about. */
module Replicas {
  import opened Text
  import opened Versions
  import opened Requests
  import opened Merge

  datatype Replica = Replica(clock: ClockState, cells: Cells)

  /** `Controller.set`: a cell is written only when its state changes. */
  function SetCell(r: Replica, key: RequestKey, active: bool): Replica {
    if Active(r.cells, key) == active then r
    else
      var c := Ticked(r.clock);
      Replica(c, r.cells[key := RequestCell(active, Stamp(c))])
  }

  /** `MergeRequests` on a received snapshot. */
  function Received(r: Replica, es: seq<RequestEntry>): Replica {
    Replica(ObserveAll(r.clock, es), MergeAll(r.cells, es))
  }

  predicate MayWrite(id: int, key: RequestKey) {
    key.kind == HALL || (key.kind == CAB && key.owner == id)
  }

  /** What a clock knows of a version it has observed: the counter is not ahead of
      it, and a version of its own writer comes from its own boot or an earlier one. */
  predicate Seen(c: ClockState, v: Version) {
    && v.counter <= c.value
    && (v.writer == c.writer ==> v.boot == c.boot || Less(v.boot, c.boot))
  }

  /** A local write beats everything the node has seen: exactly as long as the
      counter does not wrap, an earlier boot of the same node apart. */
  lemma LocalWriteBeatsExactly(c: ClockState, v: Version)
    requires Seen(c, v) && v.counter > 0
    ensures Newer(Stamp(Ticked(c)), v) <==> c.value + 1 < WRAP || (v.writer == c.writer && v.boot != c.boot)
  {
    if v.boot != c.boot && Less(v.boot, c.boot) {
      LessAsymmetric(v.boot, c.boot);
    }
  }

  lemma FirstWriteBeatsMissing(c: ClockState)
    requires c.value + 1 < WRAP
    ensures Newer(Stamp(Ticked(c)), ZERO)
  {
    NewerThanZero(Stamp(Ticked(c)));
  }

  // ----- several writes in a row -----

  datatype CellWrite = CellWrite(key: RequestKey, active: bool)

  function WriteAll(r: Replica, ws: seq<CellWrite>): Replica {
    if ws == [] then r
    else SetCell(WriteAll(r, ws[..|ws| - 1]), ws[|ws| - 1].key, ws[|ws| - 1].active)
  }

  /** Several writes leave a cell as it was or with a version of the node's own, past
      every counter its clock had reached. */
  lemma {:induction false} WrittenCells(r: Replica, ws: seq<CellWrite>, key: RequestKey)
    requires r.clock.value + |ws| < WRAP
    ensures var t := WriteAll(r, ws);
            && t.clock.writer == r.clock.writer && t.clock.boot == r.clock.boot
            && r.clock.value <= t.clock.value <= r.clock.value + |ws|
            && (CellAt(t.cells, key) == CellAt(r.cells, key) || OwnLater(r.clock, CellAt(t.cells, key).version))
  {
    if ws != [] {
      WrittenCells(r, ws[..|ws| - 1], key);
    }
  }

  predicate OwnLater(c: ClockState, v: Version) {
    v.writer == c.writer && v.boot == c.boot && v.counter > c.value
  }

  /** Such a version is newer than all the node has observed. */
  lemma OwnLaterBeats(c: ClockState, own: Version, v: Version)
    requires Seen(c, v) && OwnLater(c, own)
    ensures Newer(own, v)
  {
    if v.boot != c.boot && Less(v.boot, c.boot) {
      LessAsymmetric(v.boot, c.boot);
    }
  }

  predicate AllowedWrites(id: int, ws: seq<CellWrite>) {
    forall w :: w in ws ==> MayWrite(id, w.key)
  }
}
