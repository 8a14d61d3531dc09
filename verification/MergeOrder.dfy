/** When the order and repetition of received entries cannot matter. */
module MergeOrder {
  import opened Versions
  import opened Requests
  import opened Merge

  ghost function Elements(es: seq<RequestEntry>): set<RequestEntry> {
    set e | e in es
  }

  /** All the ways of receiving exactly the entries `s`, in any order and any
      number of times, build the same table. */
  ghost predicate OrderFree(s: set<RequestEntry>) {
    forall es, fs :: Elements(es) == s && Elements(fs) == s ==> MergeAll(map[], es) == MergeAll(map[], fs)
  }

  ghost predicate Storable(s: set<RequestEntry>) {
    forall e :: e in s ==> Newer(e.cell.version, ZERO)
  }

  /** `e` is newer than every other entry of `s` for its key. */
  ghost predicate Newest(s: set<RequestEntry>, e: RequestEntry) {
    e in s && forall f :: f in s && f.key == e.key && f != e ==> Newer(e.cell.version, f.cell.version)
  }

  ghost function KeysOf(s: set<RequestEntry>): set<RequestKey> {
    set e | e in s :: e.key
  }

  lemma HeldKeys(cells: Cells, s: set<RequestEntry>, k: RequestKey)
    requires Over(cells, s)
    ensures k in cells ==> k in KeysOf(s)
  {
    if k in cells {
      assert RequestEntry(k, cells[k]) in s;
    }
  }

  ghost predicate EachKeyHasNewest(s: set<RequestEntry>) {
    forall k :: k in KeysOf(s) ==> exists e :: Newest(s, e) && e.key == k
  }

  // ----- folding facts -----

  lemma {:induction false} MergeAppend(cells: Cells, a: seq<RequestEntry>, b: seq<RequestEntry>)
    ensures MergeAll(cells, a + b) == MergeAll(MergeAll(cells, a), b)
  {
    if b == [] {
      assert a + b == a;
    } else {
      var front := b[..|b| - 1];
      assert (a + b)[..|a + b| - 1] == a + front;
      assert (a + b)[|a + b| - 1] == b[|b| - 1];
      MergeAppend(cells, a, front);
    }
  }

  /** Everything in a merged table was received, and every received key is in it. */
  lemma {:induction false} MergedFrom(es: seq<RequestEntry>)
    requires Storable(Elements(es))
    ensures Over(MergeAll(map[], es), Elements(es))
    ensures forall e :: e in es ==> e.key in MergeAll(map[], es)
  {
    if es != [] {
      FrontAndLast(es);
      var front := es[..|es| - 1];
      assert Elements(front) <= Elements(es);
      MergedFrom(front);
      assert es[|es| - 1] in Elements(es);
    }
  }

  /** An entry that nothing received later is newer than stays. */
  lemma {:induction false} TopStays(cells: Cells, es: seq<RequestEntry>, f: RequestEntry)
    requires CellAt(cells, f.key) == f.cell
    requires forall e :: e in es && e.key == f.key ==> !Newer(e.cell.version, f.cell.version)
    ensures CellAt(MergeAll(cells, es), f.key) == f.cell
  {
    if es != [] {
      FrontAndLast(es);
      TopStays(cells, es[..|es| - 1], f);
    }
  }

  lemma {:induction false} NewestPrevails(s: set<RequestEntry>, es: seq<RequestEntry>, e: RequestEntry)
    requires Storable(s) && Elements(es) <= s && Newest(s, e) && e in es
    ensures CellAt(MergeAll(map[], es), e.key) == e.cell
  {
    FrontAndLast(es);
    var front, last := es[..|es| - 1], es[|es| - 1];
    assert last in Elements(es);
    assert Elements(front) <= s by {
      forall x | x in Elements(front)
        ensures x in s
      {
        assert x in Elements(es);
      }
    }
    var before := MergeAll(map[], front);
    if e in front {
      NewestPrevails(s, front, e);
      if last.key == e.key {
        NewerTotal(last.cell.version, e.cell.version);
      }
    } else {
      MergedFrom(front);
      if e.key in before {
        var c := RequestEntry(e.key, before[e.key]);
        assert c in Elements(front);
      }
    }
  }

  lemma {:induction false} Listing(s: set<RequestEntry>) returns (es: seq<RequestEntry>)
    ensures Elements(es) == s
  {
    if s == {} {
      es := [];
    } else {
      var x :| x in s;
      var rest := Listing(s - {x});
      es := rest + [x];
      assert Elements(es) == Elements(rest) + {x};
    }
  }

  // ----- the exact condition -----

  lemma NewestMakesOrderFree(s: set<RequestEntry>)
    requires Storable(s) && EachKeyHasNewest(s)
    ensures OrderFree(s)
  {
    forall es, fs | Elements(es) == s && Elements(fs) == s
      ensures MergeAll(map[], es) == MergeAll(map[], fs)
    {
      NewestDecides(s, es, fs);
    }
  }

  lemma NewestDecides(s: set<RequestEntry>, es: seq<RequestEntry>, fs: seq<RequestEntry>)
    requires Storable(s) && EachKeyHasNewest(s) && Elements(es) == s && Elements(fs) == s
    ensures MergeAll(map[], es) == MergeAll(map[], fs)
  {
    var a, b := MergeAll(map[], es), MergeAll(map[], fs);
    MergedFrom(es);
    MergedFrom(fs);
    forall k
      ensures SameAt(a, b, k)
    {
      if k in a || k in b {
        var d := if k in a then RequestEntry(k, a[k]) else RequestEntry(k, b[k]);
        assert d in s;
        assert k in KeysOf(s);
        var e :| Newest(s, e) && e.key == k;
        NewestDecidesAt(s, es, e);
        NewestDecidesAt(s, fs, e);
      }
    }
    SameTable(a, b);
  }

  lemma NewestDecidesAt(s: set<RequestEntry>, es: seq<RequestEntry>, e: RequestEntry)
    requires Storable(s) && Elements(es) == s && Newest(s, e)
    ensures e.key in MergeAll(map[], es) && CellAt(MergeAll(map[], es), e.key) == e.cell
  {
    assert e in Elements(es);
    MergedFrom(es);
    NewestPrevails(s, es, e);
  }

  lemma OrderFreeNeedsNewest(s: set<RequestEntry>, d: RequestEntry)
    requires Storable(s) && OrderFree(s) && d in s
    ensures exists e :: Newest(s, e) && e.key == d.key
  {
    var es := Listing(s);
    MergedFrom(es);
    assert d in Elements(es);
    var r := RequestEntry(d.key, MergeAll(map[], es)[d.key]);
    if !Newest(s, r) {
      var f :| f in s && f.key == r.key && f != r && !Newer(r.cell.version, f.cell.version);
      if g :| g in s && g.key == r.key && Newer(g.cell.version, r.cell.version) {
        LastWins(es, g, r);
      } else {
        NewerTotal(f.cell.version, r.cell.version);
        FirstWins(es, f, r);
      }
    }
  }

  lemma LastWins(es: seq<RequestEntry>, g: RequestEntry, r: RequestEntry)
    requires g in Elements(es) && g.key == r.key
    requires CellAt(MergeAll(map[], es), r.key) == r.cell
    requires Newer(g.cell.version, r.cell.version)
    ensures !OrderFree(Elements(es))
  {
    assert (es + [g])[..|es + [g]| - 1] == es;
    NewerTotal(r.cell.version, r.cell.version);
    assert CellAt(MergeAll(map[], es + [g]), g.key) == g.cell;
    assert Elements(es + [g]) == Elements(es);
  }

  lemma FirstWins(es: seq<RequestEntry>, f: RequestEntry, r: RequestEntry)
    requires f in Elements(es) && f.key == r.key && f != r
    requires CellAt(MergeAll(map[], es), r.key) == r.cell
    requires Newer(f.cell.version, ZERO)
    requires forall e :: e in es && e.key == f.key ==> !Newer(e.cell.version, f.cell.version)
    ensures !OrderFree(Elements(es))
  {
    MergeAppend(map[], [f], es);
    assert MergeAll(map[], [f]) == MergeOne(MergeAll(map[], []), f) by { assert [f][..0] == []; }
    TopStays(MergeAll(map[], [f]), es, f);
    assert Elements([f] + es) == Elements(es);
  }

  /** The order of reception cannot matter exactly when every key has an entry
      newer than all the others for that key. */
  lemma OrderFreeExactly(s: set<RequestEntry>)
    requires Storable(s)
    ensures OrderFree(s) <==> EachKeyHasNewest(s)
  {
    if EachKeyHasNewest(s) {
      NewestMakesOrderFree(s);
    }
    if OrderFree(s) {
      forall k | k in KeysOf(s)
        ensures exists e :: Newest(s, e) && e.key == k
      {
        var d :| d in s && d.key == k;
        OrderFreeNeedsNewest(s, d);
      }
    }
  }

  // ----- for every part of a set of writes -----

  /** One version of a key stands for one cell. */
  ghost predicate Functional(s: set<RequestEntry>) {
    forall e, f :: e in s && f in s && e.key == f.key && e.cell.version == f.cell.version ==> e == f
  }

  ghost predicate NoSandwichAt(s: set<RequestEntry>, k: RequestKey) {
    NoSandwich(VersionsAt(s, k))
  }

  lemma {:induction false} NewestExists(s: set<RequestEntry>, k: RequestKey) returns (e: RequestEntry)
    requires s != {} && Functional(s) && (forall x :: x in s ==> x.key == k) && NoSandwichAt(s, k)
    ensures Newest(s, e)
  {
    var x :| x in s;
    var rest := s - {x};
    assert s == rest + {x};
    if rest == {} {
      e := x;
    } else {
      assert VersionsAt(rest, k) <= VersionsAt(s, k);
      var y := NewestExists(rest, k);
      NewerTotal(x.cell.version, y.cell.version);
      e := if Newer(x.cell.version, y.cell.version) then x else y;
      ChainExactly(VersionsAt(s, k));
      forall f | f in s && f != e
        ensures Newer(e.cell.version, f.cell.version)
      {
        assert {x.cell.version, y.cell.version, f.cell.version} <= VersionsAt(s, k);
        if f != x && f != y {
          assert Newer(y.cell.version, f.cell.version);
        }
      }
    }
  }

  lemma NewestAtKey(s: set<RequestEntry>, d: RequestEntry)
    requires Functional(s) && NoSandwichAt(s, d.key) && d in s
    ensures exists e :: Newest(s, e) && e.key == d.key
  {
    var at := set x | x in s && x.key == d.key;
    assert d in at;
    assert VersionsAt(at, d.key) <= VersionsAt(s, d.key);
    var e := NewestExists(at, d.key);
    assert Newest(s, e);
  }

  /** Nodes that hold any common part of the writes `s` agree, whatever order they
      received it in, exactly when a version names one write and no key has one
      writer's counters going back across boots around another writer's version. */
  lemma HereditaryExactly(s: set<RequestEntry>)
    requires Storable(s)
    ensures (forall t :: t <= s ==> OrderFree(t)) <==> Functional(s) && forall k :: NoSandwichAt(s, k)
  {
    if Functional(s) && forall k :: NoSandwichAt(s, k) {
      forall t | t <= s
        ensures OrderFree(t)
      {
        forall k | k in KeysOf(t)
          ensures exists e :: Newest(t, e) && e.key == k
        {
          var d :| d in t && d.key == k;
          assert VersionsAt(t, d.key) <= VersionsAt(s, d.key);
          assert NoSandwichAt(s, d.key);
          NewestAtKey(t, d);
        }
        OrderFreeExactly(t);
      }
    }
    if forall t :: t <= s ==> OrderFree(t) {
      OrderFreePartsAreFunctional(s);
      forall k
        ensures NoSandwichAt(s, k)
      {
        OrderFreePartsHaveNoSandwich(s, k);
      }
    }
  }

  lemma TwinsAreOne(e: RequestEntry, f: RequestEntry)
    requires Storable({e, f}) && OrderFree({e, f})
    requires e.key == f.key && e.cell.version == f.cell.version
    ensures e == f
  {
    OrderFreeNeedsNewest({e, f}, e);
    NewerTotal(e.cell.version, f.cell.version);
  }

  lemma SandwichIsNotOrderFree(x: RequestEntry, y: RequestEntry, z: RequestEntry)
    requires Storable({x, y, z}) && x.key == y.key == z.key
    requires Sandwich(x.cell.version, y.cell.version, z.cell.version)
    ensures !OrderFree({x, y, z})
  {
    SandwichIsCycle(x.cell.version, y.cell.version, z.cell.version);
    NewerTotal(x.cell.version, y.cell.version);
    NewerTotal(y.cell.version, z.cell.version);
    NewerTotal(z.cell.version, x.cell.version);
    if OrderFree({x, y, z}) {
      OrderFreeNeedsNewest({x, y, z}, x);
    }
  }

  lemma OrderFreePartsAreFunctional(s: set<RequestEntry>)
    requires Storable(s) && forall t :: t <= s ==> OrderFree(t)
    ensures Functional(s)
  {
    forall e, f | e in s && f in s && e.key == f.key && e.cell.version == f.cell.version
      ensures e == f
    {
      var pair := {e, f};
      assert pair <= s;
      TwinsAreOne(e, f);
    }
  }

  lemma OrderFreePartsHaveNoSandwich(s: set<RequestEntry>, k: RequestKey)
    requires Storable(s) && forall t :: t <= s ==> OrderFree(t)
    ensures NoSandwichAt(s, k)
  {
    forall a, b, c | a in VersionsAt(s, k) && b in VersionsAt(s, k) && c in VersionsAt(s, k)
      ensures !Sandwich(a, b, c)
    {
      if Sandwich(a, b, c) {
        var x :| x in s && x.key == k && x.cell.version == a;
        var y :| y in s && y.key == k && y.cell.version == b;
        var z :| z in s && z.key == k && z.cell.version == c;
        var triple := {x, y, z};
        assert triple <= s;
        SandwichIsNotOrderFree(x, y, z);
      }
    }
  }
}
