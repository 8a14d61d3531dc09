/** String order as Go's `cmp.Compare` and D's `<` see it, and the zero-padded
    decimals of which boot identifiers are made. */
module Text {

  datatype Option<+T> = None | Some(value: T)

  /** Strict lexicographic order. */
  predicate Less(a: string, b: string) {
    b != [] && (a == [] || a[0] < b[0] || (a[0] == b[0] && Less(a[1..], b[1..])))
  }

  /** Go's `cmp.Compare` on strings. */
  function CompareText(a: string, b: string): int {
    if a == b then 0 else if Less(a, b) then -1 else 1
  }

  /** Go's `cmp.Compare` on integers. */
  function CompareInt(a: int, b: int): int {
    if a < b then -1 else if a > b then 1 else 0
  }

  lemma {:induction false} LessIrreflexive(a: string)
    ensures !Less(a, a)
  {
    if a != [] {
      LessIrreflexive(a[1..]);
    }
  }

  lemma {:induction false} LessTransitive(a: string, b: string, c: string)
    requires Less(a, b) && Less(b, c)
    ensures Less(a, c)
  {
    if a != [] && a[0] == b[0] && b[0] == c[0] {
      LessTransitive(a[1..], b[1..], c[1..]);
    }
  }

  lemma {:induction false} LessTotal(a: string, b: string)
    ensures a == b || Less(a, b) || Less(b, a)
  {
    if a != [] && b != [] && a[0] == b[0] {
      LessTotal(a[1..], b[1..]);
      assert a == [a[0]] + a[1..] && b == [b[0]] + b[1..];
    }
  }

  lemma LessAsymmetric(a: string, b: string)
    requires Less(a, b)
    ensures a != b && !Less(b, a)
  {
    LessIrreflexive(a);
    if Less(b, a) {
      LessTransitive(a, b, a);
    }
  }

  /** A common prefix does not change the order. */
  lemma {:induction false} LessCommonPrefix(p: string, a: string, b: string)
    ensures Less(p + a, p + b) <==> Less(a, b)
  {
    if p == [] {
      assert p + a == a && p + b == b;
    } else {
      assert (p + a)[1..] == p[1..] + a && (p + b)[1..] == p[1..] + b;
      LessCommonPrefix(p[1..], a, b);
    }
  }

  /** Two strings of one length that differ are ordered by what they differ in,
      whatever follows them. */
  lemma {:induction false} LessExtend(a: string, b: string, x: string, y: string)
    requires |a| == |b| && Less(a, b)
    ensures Less(a + x, b + y)
  {
    assert (a + x)[0] == a[0] && (b + y)[0] == b[0];
    if a[0] == b[0] {
      assert (a + x)[1..] == a[1..] + x && (b + y)[1..] == b[1..] + y;
      LessExtend(a[1..], b[1..], x, y);
    }
  }

  // ----- zero-padded decimals -----

  function Pow10(w: nat): (p: nat)
    ensures p >= 1
  {
    if w == 0 then 1 else 10 * Pow10(w - 1)
  }

  function Digit(d: nat): char
    requires d < 10
  {
    ['0', '1', '2', '3', '4', '5', '6', '7', '8', '9'][d]
  }

  /** The last `w` decimal digits of `n`, most significant first. */
  function Digits(n: nat, w: nat): (s: string)
    ensures |s| == w
  {
    if w == 0 then [] else Digits(n / 10, w - 1) + [Digit(n % 10)]
  }

  lemma {:induction false} LessSnoc(a: string, b: string, x: char, y: char)
    requires |a| == |b|
    ensures Less(a + [x], b + [y]) <==> Less(a, b) || (a == b && x < y)
  {
    if a == [] {
      assert a + [x] == [x] && b + [y] == [y];
      assert Less([x], [y]) <==> x < y by { assert [x][1..] == [] && [y][1..] == []; }
    } else {
      assert (a + [x])[1..] == a[1..] + [x] && (b + [y])[1..] == b[1..] + [y];
      assert a == [a[0]] + a[1..] && b == [b[0]] + b[1..];
      LessSnoc(a[1..], b[1..], x, y);
    }
  }

  /** Fixed-width decimals are ordered as the numbers they spell. */
  lemma {:induction false} DigitsOrder(m: nat, n: nat, w: nat)
    requires m < Pow10(w) && n < Pow10(w)
    ensures Less(Digits(m, w), Digits(n, w)) <==> m < n
    ensures Digits(m, w) == Digits(n, w) <==> m == n
  {
    if w > 0 {
      DigitsOrder(m / 10, n / 10, w - 1);
      LessSnoc(Digits(m / 10, w - 1), Digits(n / 10, w - 1), Digit(m % 10), Digit(n % 10));
      var a, b := Digits(m, w), Digits(n, w);
      assert a[..w - 1] == Digits(m / 10, w - 1) && b[..w - 1] == Digits(n / 10, w - 1);
      assert a[w - 1] == Digit(m % 10) && b[w - 1] == Digit(n % 10);
    }
  }

  // ----- boot identifiers -----

  /** Go's zero-padded `%d` of width `w`: a sign counts towards the width. */
  function Padded(t: int, w: nat): string
    requires w > 0
  {
    if t >= 0 then Digits(t, w) else "-" + Digits(-t, w - 1)
  }

  /** `NewBootID` of a nanosecond time and the already formatted process number. */
  function BootId(nanos: int, pid: string): string {
    Padded(nanos, 20) + ("-" + pid)
  }

  /** Nanosecond times are 64-bit. */
  predicate Int64(t: int) {
    -0x8000_0000_0000_0000 <= t < 0x8000_0000_0000_0000
  }

  lemma Pow10Wide()
    ensures Pow10(19) == 10_000_000_000_000_000_000 && Pow10(20) == 100_000_000_000_000_000_000
  {
    assert Pow10(4) == 10_000;
    assert Pow10(8) == 10_000 * Pow10(4);
    assert Pow10(12) == 10_000 * Pow10(8);
    assert Pow10(16) == 10_000 * Pow10(12);
    assert Pow10(19) == 1_000 * Pow10(16);
  }

  /** Numbers that fit their width are ordered by their padded form exactly when
      the greater one is not negative; what follows the number does not matter. */
  lemma PaddedOrder(t1: int, x1: string, t2: int, x2: string, w: nat)
    requires w > 0 && t1 < t2
    requires if t2 < 0 then -t1 < Pow10(w - 1) else t2 < Pow10(w)
    ensures Less(Padded(t1, w) + x1, Padded(t2, w) + x2) <==> t2 >= 0
  {
    var a, b := Padded(t1, w), Padded(t2, w);
    if t1 >= 0 {
      DigitsOrder(t1, t2, w);
      LessExtend(a, b, x1, x2);
    } else if t2 >= 0 {
      FirstDigit(t2, w);
      LessExtend(a, b, x1, x2);
    } else {
      DigitsOrder(-t2, -t1, w - 1);
      LessCommonPrefix("-", Digits(-t2, w - 1), Digits(-t1, w - 1));
      LessExtend(b, a, x2, x1);
      LessAsymmetric(b + x2, a + x1);
    }
  }

  /** A later process start gets a greater boot identifier exactly when its time
      is not before the epoch: for two negative times the order is reversed. */
  lemma BootIdOrder(t1: int, p1: string, t2: int, p2: string)
    requires Int64(t1) && Int64(t2) && t1 < t2
    ensures Less(BootId(t1, p1), BootId(t2, p2)) <==> t2 >= 0
  {
    Pow10Wide();
    PaddedOrder(t1, "-" + p1, t2, "-" + p2, 20);
  }

  lemma {:induction false} FirstDigit(n: nat, w: nat)
    requires w > 0
    ensures '0' <= Digits(n, w)[0]
  {
    if w > 1 {
      FirstDigit(n / 10, w - 1);
    }
  }
}
