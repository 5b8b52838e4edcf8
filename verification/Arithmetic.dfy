/** Division and powers of two. */
module Arithmetic {

  lemma {:induction false} MulMonotone(a: nat, b: nat, w: nat)
    requires a <= b
    ensures a * w <= b * w
    decreases b - a
  {
    if a < b {
      MulMonotone(a, b - 1, w);
      assert b * w == (b - 1) * w + w;
    }
  }

  /** Dividing by `w`: n = q w + r with r < w determines q and r. */
  lemma DivisionIsUnique(n: nat, w: nat, q: nat, r: nat)
    requires w > 0 && r < w && n == q * w + r
    ensures n / w == q && n % w == r
  {
    var q' := n / w;
    assert n == q' * w + n % w;
    assert (q + 1) * w == q * w + w && (q' + 1) * w == q' * w + w;
    if q < q' {
      MulMonotone(q + 1, q', w);
    } else if q' < q {
      MulMonotone(q' + 1, q, w);
    }
  }

  function Pow2(k: nat): (p: nat)
    ensures p > 0
  {
    if k == 0 then 1 else 2 * Pow2(k - 1)
  }

  lemma {:induction false} Pow2Monotone(j: nat, k: nat)
    requires j <= k
    ensures Pow2(j) <= Pow2(k)
    decreases k - j
  {
    if j < k { Pow2Monotone(j, k - 1); }
  }

  lemma Pow2Constants()
    ensures Pow2(32) == 0x1_0000_0000 && Pow2(64) == 0x1_0000_0000_0000_0000
  {
    assert Pow2(4) == 16 && Pow2(8) == 256;
    assert Pow2(12) == 0x1000 && Pow2(16) == 0x1_0000;
    assert Pow2(20) == 0x10_0000 && Pow2(24) == 0x100_0000;
    assert Pow2(28) == 0x1000_0000 && Pow2(32) == 0x1_0000_0000;
    assert Pow2(36) == 0x10_0000_0000 && Pow2(40) == 0x100_0000_0000;
    assert Pow2(44) == 0x1000_0000_0000 && Pow2(48) == 0x1_0000_0000_0000;
    assert Pow2(52) == 0x10_0000_0000_0000 && Pow2(56) == 0x100_0000_0000_0000;
    assert Pow2(60) == 0x1000_0000_0000_0000;
  }

  lemma Pow2Table()
    ensures Pow2(1) == 2 && Pow2(2) == 4 && Pow2(3) == 8 && Pow2(4) == 0x10 && Pow2(5) == 0x20 && Pow2(6) == 0x40
    ensures Pow2(8) == 0x100 && Pow2(10) == 0x400 && Pow2(11) == 0x800 && Pow2(12) == 0x1000
    ensures Pow2(16) == 0x1_0000 && Pow2(24) == 0x100_0000 && Pow2(28) == 0x1000_0000 && Pow2(31) == 0x8000_0000
  {
    assert Pow2(4) == 16 && Pow2(8) == 256;
    assert Pow2(12) == 0x1000 && Pow2(16) == 0x1_0000;
    assert Pow2(20) == 0x10_0000 && Pow2(24) == 0x100_0000;
    assert Pow2(28) == 0x1000_0000;
  }

  /** The remainder by an even modulus, bit by bit. */
  lemma ModDouble(v: nat, p: nat)
    requires p > 0
    ensures v % (2 * p) == v % 2 + 2 * (v / 2 % p)
  {
    var q := v / 2 / p;
    var r := v % 2 + 2 * (v / 2 % p);
    assert v / 2 == q * p + v / 2 % p;
    assert v == q * (2 * p) + r by {
      assert 2 * (q * p) == q * (2 * p);
    }
    DivisionIsUnique(v, 2 * p, q, r);
  }

  /** Multiples differ by at least the modulus. */
  lemma NextMultiple(x: nat, y: nat, a: nat)
    requires a > 0 && x % a == 0 && y % a == 0 && x < y
    ensures x + a <= y
  {
    var q, p := x / a, y / a;
    assert x == q * a && y == p * a;
    if p <= q { MulMonotone(p, q, a); } else { MulMonotone(q + 1, p, a); }
    assert (q + 1) * a == q * a + a;
  }

  /** The multiple of `a` at or below `x`. */
  function Floor(x: nat, a: nat): nat
    requires a > 0
  {
    x - x % a
  }

  lemma FloorBounds(x: nat, a: nat)
    requires a > 0
    ensures Floor(x, a) <= x < Floor(x, a) + a && Floor(x, a) % a == 0
  {
    var q := x / a;
    assert x - x % a == q * a + 0;
    DivisionIsUnique(x - x % a, a, q, 0);
  }

  lemma FloorMonotone(x: nat, y: nat, a: nat)
    requires a > 0 && x <= y
    ensures Floor(x, a) <= Floor(y, a)
  {
    FloorBounds(x, a);
    FloorBounds(y, a);
    if Floor(y, a) < Floor(x, a) { NextMultiple(Floor(y, a), Floor(x, a), a); }
  }

  /** An address below the start of y's block is in an earlier block. */
  lemma FloorBelow(x: nat, y: nat, a: nat)
    requires a > 0 && x < Floor(y, a)
    ensures Floor(x, a) < Floor(y, a)
  {
  }

  /** A block of a multiple of `p` is a union of blocks of `p`. */
  lemma FloorFloor(x: nat, p: nat, a: nat)
    requires p > 0 && a > 0 && a % p == 0
    ensures Floor(Floor(x, p), a) == Floor(x, a)
  {
    var lo, z := Floor(x, a), Floor(x, p);
    FloorBounds(x, a);
    FloorBounds(x, p);
    MultipleOfMultiple(lo, p, a);
    if z < lo { NextMultiple(z, lo, p); }
    var q := lo / a;
    assert z == q * a + (z - lo);
    DivisionIsUnique(z, a, q, z - lo);
  }

  lemma MultipleOfMultiple(x: nat, p: nat, a: nat)
    requires p > 0 && a > 0 && a % p == 0 && x % a == 0
    ensures x % p == 0
  {
    var q, m := x / a, a / p;
    assert x == q * a && a == m * p;
    assert q * (m * p) == (q * m) * p;
    DivisionIsUnique(x, p, q * m, 0);
  }

  lemma Divide(n: nat, w: nat) returns (q: nat, r: nat)
    requires w > 0
    ensures q == n / w && r == n % w && n == q * w + r && r < w
  {
    q, r := n / w, n % w;
  }

  lemma Distribute(a: nat, b: nat, w: nat)
    ensures (a + b) * w == a * w + b * w
  {
  }

  lemma Associate(a: nat, b: nat, w: nat)
    ensures a * (b * w) == (a * b) * w
  {
  }

  /** The remainder by m of a remainder by a multiple of m. */
  lemma RemainderTwice(y: nat, w: nat, m: nat, f: nat)
    requires m > 0 && w == f * m && w > 0
    ensures y % w % m == y % m
  {
    var q, r := Divide(y, w);
    var p, t := Divide(r, m);
    NestedQuotient(y, q, f, m, r, p, t);
    DivisionIsUnique(y, m, q * f + p, t);
  }

  lemma NestedQuotient(y: nat, q: nat, f: nat, m: nat, r: nat, p: nat, t: nat)
    requires y == q * (f * m) + r && r == p * m + t
    ensures y == (q * f + p) * m + t
  {
    Associate(q, f, m);
    Distribute(q * f, p, m);
  }

  lemma SumOfRemainders(x: nat, y: nat, m: nat)
    requires m > 0
    ensures (x % m + y % m) % m == (x + y) % m
  {
    var p, u := Divide(x, m);
    var q, v := Divide(y, m);
    var r, t := Divide(u + v, m);
    AddedQuotients(x, y, m, p, u, q, v, r, t);
    DivisionIsUnique(x + y, m, p + q + r, t);
  }

  lemma AddedQuotients(x: nat, y: nat, m: nat, p: nat, u: nat, q: nat, v: nat, r: nat, t: nat)
    requires x == p * m + u && y == q * m + v && u + v == r * m + t
    ensures x + y == (p + q + r) * m + t
  {
    Distribute(p, q, m);
    Distribute(p + q, r, m);
  }
}
