/** Request versions (`internal/model/types.go`) and the exact conditions under
    which "newer than" orders a set of them. */
module Versions {
  import opened Text

  const WRAP: int := 0x1_0000_0000_0000_0000

  /** Go's `uint64`. */
  type UInt64 = n: int | 0 <= n < WRAP witness 0

  datatype Version = Version(counter: UInt64, writer: int, boot: string)

  /** The version of a cell that is not in the table. */
  const ZERO := Version(0, 0, "")

  function CompareVersion(a: Version, b: Version): int {
    if a.writer == b.writer && a.boot != b.boot then
      CompareText(a.boot, b.boot)
    else if a.counter != b.counter then
      CompareInt(a.counter, b.counter)
    else if a.writer != b.writer then
      CompareInt(a.writer, b.writer)
    else
      CompareText(a.boot, b.boot)
  }

  predicate Newer(a: Version, b: Version) {
    CompareVersion(a, b) > 0
  }

  /** Any two versions compare, equal ones only with themselves. */
  lemma NewerTotal(a: Version, b: Version)
    ensures CompareVersion(a, b) == -CompareVersion(b, a)
    ensures CompareVersion(a, b) == 0 <==> a == b
  {
    LessTotal(a.boot, b.boot);
    if Less(a.boot, b.boot) {
      LessAsymmetric(a.boot, b.boot);
    } else if Less(b.boot, a.boot) {
      LessAsymmetric(b.boot, a.boot);
    }
  }

  /** Exactly the versions that a merge into an empty cell takes over. */
  lemma NewerThanZero(v: Version)
    ensures Newer(v, ZERO) <==> v.counter > 0 || v.writer > 0 || (v.writer == 0 && v.boot != "")
  {
  }

  /** `v` is ordered against `w` by counter, then writer. */
  predicate Earlier(v: Version, w: Version) {
    v.counter < w.counter || (v.counter == w.counter && v.writer < w.writer)
  }

  /** One writer used `high` in an earlier boot than `low`, with a greater counter,
      and another writer's version lies between the two. */
  predicate Sandwich(high: Version, low: Version, between: Version) {
    && high.writer == low.writer != between.writer
    && Less(high.boot, low.boot)
    && Earlier(low, between) && Earlier(between, high)
  }

  /** "Newer" has no cycles on `vs`. */
  ghost predicate Chain(vs: set<Version>) {
    forall a, b, c :: a in vs && b in vs && c in vs && Newer(a, b) && Newer(b, c) ==> Newer(a, c)
  }

  ghost predicate NoSandwich(vs: set<Version>) {
    forall a, b, c :: a in vs && b in vs && c in vs ==> !Sandwich(a, b, c)
  }

  lemma SandwichIsCycle(high: Version, low: Version, between: Version)
    requires Sandwich(high, low, between)
    ensures Newer(high, between) && Newer(between, low) && Newer(low, high)
  {
    LessAsymmetric(high.boot, low.boot);
  }

  lemma NewerTransitive(a: Version, b: Version, c: Version)
    requires Newer(a, b) && Newer(b, c)
    requires NoSandwich({a, b, c})
    ensures Newer(a, c)
  {
    var vs := {a, b, c};
    assert a in vs && b in vs && c in vs;
    NewerTotal(a, b);
    NewerTotal(b, c);
    NewerTotal(a, c);
    if a.writer == b.writer == c.writer {
      SameWriterTransitive(a, b, c);
    } else if !Newer(a, c) {
      assert !Sandwich(a, b, c) && !Sandwich(b, a, c) && !Sandwich(a, c, b);
      assert !Sandwich(c, a, b) && !Sandwich(b, c, a) && !Sandwich(c, b, a);
      LessTotal(a.boot, b.boot);
      LessTotal(b.boot, c.boot);
      LessTotal(a.boot, c.boot);
    }
  }

  /** One writer's versions are ordered by boot, then counter. */
  lemma SameWriterTransitive(a: Version, b: Version, c: Version)
    requires a.writer == b.writer == c.writer
    requires Newer(a, b) && Newer(b, c)
    ensures Newer(a, c)
  {
    LessTotal(a.boot, b.boot);
    LessTotal(b.boot, c.boot);
    if Less(b.boot, a.boot) && Less(c.boot, b.boot) {
      LessTransitive(c.boot, b.boot, a.boot);
    }
    LessTotal(a.boot, c.boot);
    if a.boot != c.boot && Less(a.boot, c.boot) {
      if a.boot != b.boot {
        LessAsymmetric(b.boot, a.boot);
      }
      if b.boot != c.boot {
        LessAsymmetric(c.boot, b.boot);
      }
      LessAsymmetric(a.boot, c.boot);
    }
  }

  /** "Newer" orders a set of versions exactly when the set has no sandwich. */
  lemma ChainExactly(vs: set<Version>)
    ensures Chain(vs) <==> NoSandwich(vs)
  {
    if NoSandwich(vs) {
      forall a, b, c | a in vs && b in vs && c in vs && Newer(a, b) && Newer(b, c)
        ensures Newer(a, c)
      {
        NewerTransitive(a, b, c);
      }
    } else {
      var a, b, c :| a in vs && b in vs && c in vs && Sandwich(a, b, c);
      SandwichIsCycle(a, b, c);
      NewerTotal(b, c);
    }
  }

  // ----- conditions a system can maintain -----

  /** A later boot of one writer never uses a smaller counter than an earlier boot. */
  ghost predicate BootMonotone(vs: set<Version>) {
    forall a, b :: a in vs && b in vs && a.writer == b.writer && Less(a.boot, b.boot) ==> a.counter <= b.counter
  }

  /** The order on (counter, writer, boot). */
  function LexCompare(a: Version, b: Version): int {
    if a.counter != b.counter then CompareInt(a.counter, b.counter)
    else if a.writer != b.writer then CompareInt(a.writer, b.writer)
    else CompareText(a.boot, b.boot)
  }

  /** The boot rule of `CompareVersion` makes no difference to the plain order on
      (counter, writer, boot) exactly when boots and counters agree. */
  lemma LexExactly(vs: set<Version>)
    ensures BootMonotone(vs) <==>
            forall a, b :: a in vs && b in vs ==> CompareVersion(a, b) == LexCompare(a, b)
  {
    if BootMonotone(vs) {
      forall a, b | a in vs && b in vs
        ensures CompareVersion(a, b) == LexCompare(a, b)
      {
        LessTotal(a.boot, b.boot);
        if Less(a.boot, b.boot) {
          LessAsymmetric(a.boot, b.boot);
        }
      }
    } else {
      var a, b :| a in vs && b in vs && a.writer == b.writer && Less(a.boot, b.boot) && a.counter > b.counter;
      LessAsymmetric(a.boot, b.boot);
      assert CompareVersion(a, b) != LexCompare(a, b);
    }
  }

  lemma BootMonotoneIsChain(vs: set<Version>)
    requires BootMonotone(vs)
    ensures Chain(vs)
  {
    ChainExactly(vs);
  }

  lemma OneWriterIsChain(vs: set<Version>, w: int)
    requires forall v :: v in vs ==> v.writer == w
    ensures Chain(vs)
  {
    ChainExactly(vs);
  }

  /** Without the condition "newer" can run in a circle. */
  lemma CycleExample()
    ensures var a, x, b := Version(10, 1, "w1"), Version(5, 2, "x"), Version(1, 1, "w2");
            Newer(a, x) && Newer(x, b) && Newer(b, a)
  {
    assert "w1"[1..] == "1" && "w2"[1..] == "2";
    assert Less("w1", "w2");
    SandwichIsCycle(Version(10, 1, "w1"), Version(1, 1, "w2"), Version(5, 2, "x"));
  }
}
