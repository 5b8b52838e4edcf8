/**
 Bitwise operations of 64-bit words, on naturals, and the loader's alignment functions
 (node/tun/wintun/memmod/memmod_windows.go, memmod_windows_64.go).
 */
module Bits {
  import opened Arithmetic

  const WORD: nat := 0x1_0000_0000_0000_0000
  const HALF: nat := 0x1_0000_0000

  function And(x: nat, y: nat): nat {
    if x == 0 || y == 0 then 0
    else (if x % 2 == 1 && y % 2 == 1 then 1 else 0) + 2 * And(x / 2, y / 2)
  }

  function Or(x: nat, y: nat): nat {
    if x == 0 then y
    else if y == 0 then x
    else (if x % 2 == 1 || y % 2 == 1 then 1 else 0) + 2 * Or(x / 2, y / 2)
  }

  function Not(x: nat): nat
    requires x < WORD
  {
    WORD - 1 - x
  }

  /** uintptr subtraction of one: zero wraps. */
  function Pred(x: nat): nat
    requires x < WORD
  {
    if x == 0 then WORD - 1 else x - 1
  }

  function AlignDown(value: nat, alignment: nat): nat
    requires alignment < WORD
  {
    And(value, Not(Pred(alignment)))
  }

  function AlignUp(value: nat, alignment: nat): nat
    requires alignment < WORD
  {
    And((value + alignment + WORD - 1) % WORD, Not(Pred(alignment)))
  }

  lemma {:induction false} AndBound(x: nat, y: nat)
    ensures And(x, y) <= x && And(x, y) <= y
  {
    if x != 0 && y != 0 { AndBound(x / 2, y / 2); }
  }

  /** The lowest bit of the mask decides about the lowest bit of the result. */
  lemma AndEven(x: nat, m: nat)
    ensures And(x, 2 * m) == 2 * And(x / 2, m)
  {
  }

  lemma AndOdd(x: nat, m: nat)
    ensures And(x, 2 * m + 1) == x % 2 + 2 * And(x / 2, m)
  {
  }

  /** x & ~m is x without the bits it shares with m. */
  lemma {:induction false} AndComplement(n: nat, x: nat, m: nat)
    requires x < Pow2(n) && m < Pow2(n)
    ensures And(x, Pow2(n) - 1 - m) == x - And(x, m)
  {
    if n > 0 {
      var c := Pow2(n) - 1 - m;
      assert c / 2 == Pow2(n - 1) - 1 - m / 2 && c % 2 == 1 - m % 2;
      AndComplement(n - 1, x / 2, m / 2);
    }
  }

  /** Masking with 2^k - 1 is the remainder by 2^k. */
  lemma {:induction false} AndLowBits(x: nat, k: nat)
    ensures And(x, Pow2(k) - 1) == x % Pow2(k)
  {
    if k > 0 {
      var h := Pow2(k - 1);
      assert Pow2(k) - 1 == 2 * (h - 1) + 1;
      AndOdd(x, h - 1);
      AndLowBits(x / 2, k - 1);
      ModDouble(x, h);
    }
  }

  /** A mask shifted by two, four, eight or sixteen places masks the bits from there on. */
  lemma AndShift2(x: nat, m: nat)
    ensures And(x, 4 * m) == 4 * And(x / 4, m)
  {
    AndEven(x, 2 * m);
    AndEven(x / 2, m);
    assert x / 2 / 2 == x / 4;
  }

  lemma AndShift4(x: nat, m: nat)
    ensures And(x, 0x10 * m) == 0x10 * And(x / 0x10, m)
  {
    calc {
      And(x, 4 * (4 * m));
    == { AndShift2(x, 4 * m); }
      4 * And(x / 4, 4 * m);
    == { AndShift2(x / 4, m); assert x / 4 / 4 == x / 0x10; }
      4 * (4 * And(x / 0x10, m));
    }
  }

  lemma AndShift8(x: nat, m: nat)
    ensures And(x, 0x100 * m) == 0x100 * And(x / 0x100, m)
  {
    calc {
      And(x, 0x10 * (0x10 * m));
    == { AndShift4(x, 0x10 * m); }
      0x10 * And(x / 0x10, 0x10 * m);
    == { AndShift4(x / 0x10, m); assert x / 0x10 / 0x10 == x / 0x100; }
      0x10 * (0x10 * And(x / 0x100, m));
    }
  }

  lemma AndShift16(x: nat, m: nat)
    ensures And(x, 0x1_0000 * m) == 0x1_0000 * And(x / 0x1_0000, m)
  {
    calc {
      And(x, 0x100 * (0x100 * m));
    == { AndShift8(x, 0x100 * m); }
      0x100 * And(x / 0x100, 0x100 * m);
    == { AndShift8(x / 0x100, m); assert x / 0x100 / 0x100 == x / 0x1_0000; }
      0x100 * (0x100 * And(x / 0x1_0000, m));
    }
  }

  lemma AndSmallMasks(x: nat)
    ensures And(x, 1) == x % 2 && And(x, 7) == x % 8 && And(x, 0xf) == x % 0x10
    ensures And(x, 0x1f) == x % 0x20 && And(x, 0x3f) == x % 0x40 && And(x, 0xff) == x % 0x100
  {
    Pow2Table();
    AndLowBits(x, 1);
    AndLowBits(x, 3);
    AndLowBits(x, 4);
    AndLowBits(x, 5);
    AndLowBits(x, 6);
    AndLowBits(x, 8);
  }

  /** Masking with two masks that lie on two sides of place `p`. */
  lemma {:induction false} AndSplit(x: nat, low: nat, high: nat, p: nat)
    requires low < Pow2(p) && high % Pow2(p) == 0
    ensures And(x, low + high) == And(x, low) + And(x, high)
  {
    if p > 0 {
      ModDouble(high, Pow2(p - 1));
      AndSplit(x / 2, low / 2, high / 2, p - 1);
      AndSum(x, low, high);
    }
  }

  lemma AndSum(x: nat, low: nat, high: nat)
    requires high % 2 == 0 && And(x / 2, low / 2 + high / 2) == And(x / 2, low / 2) + And(x / 2, high / 2)
    ensures And(x, low + high) == And(x, low) + And(x, high)
  {
    assert (low + high) / 2 == low / 2 + high / 2 && (low + high) % 2 == low % 2;
  }

  /** Disjoint bits: a low part below 2^k and a high part of multiples of 2^k. */
  lemma {:induction false} OrDisjoint(lo: nat, hi: nat, k: nat)
    requires lo < Pow2(k) && hi % Pow2(k) == 0
    ensures Or(lo, hi) == lo + hi
  {
    if k > 0 && lo != 0 && hi != 0 {
      ModDouble(hi, Pow2(k - 1));
      OrDisjoint(lo / 2, hi / 2, k - 1);
    }
  }

  lemma Pow2FitsWord(k: nat)
    requires k < 64
    ensures Pow2(k) < WORD
  {
    Pow2Constants();
    Pow2Monotone(k + 1, 64);
  }

  /** Clearing the bits of m in a 64-bit word. */
  lemma ClearBits(x: nat, m: nat)
    requires x < WORD && m < WORD
    ensures And(x, Not(m)) == x - And(x, m)
  {
    Pow2Constants();
    AndComplement(64, x, m);
  }

  /** Rounding up never goes below the value, whatever the alignment, and stays within it. */
  lemma AlignUpBounds(value: nat, alignment: nat)
    requires 0 < alignment && value + alignment <= WORD && alignment < WORD
    ensures value <= AlignUp(value, alignment) < value + alignment
  {
    var v, m := value + alignment - 1, alignment - 1;
    assert (value + alignment + WORD - 1) % WORD == v;
    ClearBits(v, m);
    AndBound(v, m);
  }

  /** For a power of two, alignDown gives the multiple at or below the value… */
  lemma AlignDownPow2(value: nat, k: nat)
    requires value < WORD && k < 64
    ensures Pow2(k) < WORD && AlignDown(value, Pow2(k)) == value - value % Pow2(k)
  {
    Pow2FitsWord(k);
    ClearBits(value, Pow2(k) - 1);
    AndLowBits(value, k);
  }

  lemma AlignUpIsDown(value: nat, alignment: nat)
    requires 0 < alignment < WORD && value + alignment <= WORD
    ensures AlignUp(value, alignment) == AlignDown(value + alignment - 1, alignment)
  {
    assert (value + alignment + WORD - 1) % WORD == value + alignment - 1;
  }

  lemma LeastMultiple(value: nat, r: nat, a: nat, y: nat)
    requires a > 0 && r % a == 0 && r < value + a
    requires y % a == 0 && value <= y
    ensures r <= y
  {
    if y < r { NextMultiple(y, r, a); }
  }

  /** …and alignUp the least multiple at or above it. */
  lemma AlignUpPow2(value: nat, k: nat, y: nat)
    requires k < 64 && value + Pow2(k) <= WORD
    ensures Pow2(k) < WORD && AlignUp(value, Pow2(k)) % Pow2(k) == 0
    ensures value <= AlignUp(value, Pow2(k)) < value + Pow2(k)
    ensures y % Pow2(k) == 0 && value <= y ==> AlignUp(value, Pow2(k)) <= y
  {
    Pow2FitsWord(k);
    AlignUpBounds(value, Pow2(k));
    AlignUpIsMultiple(value, k);
    if y % Pow2(k) == 0 && value <= y { LeastMultiple(value, AlignUp(value, Pow2(k)), Pow2(k), y); }
  }

  lemma AlignUpIsMultiple(value: nat, k: nat)
    requires k < 64 && value + Pow2(k) <= WORD && Pow2(k) < WORD
    ensures AlignUp(value, Pow2(k)) % Pow2(k) == 0
  {
    var a := Pow2(k);
    AlignDownPow2(value + a - 1, k);
    AlignUpIsDown(value, a);
    FloorBounds(value + a - 1, a);
  }

  /** Zero alignment: alignUp is constantly zero, so comparing two aligned sizes says nothing. */
  lemma AlignUpZero(value: nat)
    ensures AlignUp(value, 0) == 0
  {
  }
}
