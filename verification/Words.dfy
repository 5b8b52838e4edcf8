/** Little-endian words in byte sequences. */
module Words {
  import opened Arithmetic
  import opened Wire

  function Pow256(n: nat): (p: nat)
    ensures p > 0
  {
    if n == 0 then 1 else 256 * Pow256(n - 1)
  }

  lemma Pow256Table()
    ensures Pow256(2) == 0x1_0000 && Pow256(4) == 0x1_0000_0000 && Pow256(8) == 0x1_0000_0000_0000_0000
  {
    assert Pow256(3) == 0x100_0000 && Pow256(4) == 0x1_0000_0000;
    assert Pow256(6) == 0x1_0000_0000_0000;
  }

  function Word(s: Bytes): nat {
    if s == [] then 0 else s[0] as nat + 256 * Word(s[1..])
  }

  function ToBytes(n: nat, w: nat): (s: Bytes)
    ensures |s| == n
  {
    if n == 0 then [] else [(w % 256) as byte] + ToBytes(n - 1, w / 256)
  }

  lemma {:induction false} WordIsSmall(s: Bytes)
    ensures Word(s) < Pow256(|s|)
  {
    if s != [] { WordIsSmall(s[1..]); }
  }

  lemma ModBy256(w: nat, p: nat)
    requires p > 0
    ensures w % (256 * p) == w % 256 + 256 * (w / 256 % p)
  {
    var q := w / 256 / p;
    var r := w % 256 + 256 * (w / 256 % p);
    assert w / 256 == q * p + w / 256 % p;
    assert w == q * (256 * p) + r by {
      assert 256 * (q * p) == q * (256 * p);
    }
    DivisionIsUnique(w, 256 * p, q, r);
  }

  /** Writing a word and reading it back truncates it to the width. */
  lemma {:induction false} ReadBack(n: nat, w: nat)
    ensures Word(ToBytes(n, w)) == w % Pow256(n)
  {
    if n > 0 {
      ReadBack(n - 1, w / 256);
      ModBy256(w, Pow256(n - 1));
      assert ToBytes(n, w)[1..] == ToBytes(n - 1, w / 256);
    }
  }

  /** Reading a word and writing it back changes nothing. */
  lemma {:induction false} WriteBack(s: Bytes)
    ensures ToBytes(|s|, Word(s)) == s
  {
    if s != [] {
      WriteBack(s[1..]);
      assert Word(s) / 256 == Word(s[1..]) && Word(s) % 256 == s[0] as nat;
    }
  }

  /** Bytes are determined by their word. */
  lemma SameWord(s: Bytes, t: Bytes)
    requires |s| == |t| && Word(s) == Word(t)
    ensures s == t
  {
    WriteBack(s);
    WriteBack(t);
  }

  lemma ToBytesStep(n: nat, w: nat)
    requires n > 0
    ensures ToBytes(n, w)[0] as nat == w % 256 && ToBytes(n, w)[1..] == ToBytes(n - 1, w / 256)
    ensures Word(ToBytes(n, w)) == w % 256 + 256 * Word(ToBytes(n - 1, w / 256))
  {
  }

  /** Adding to the stored word is adding to the word before it was cut to the width. */
  lemma {:induction false} AddToStored(n: nat, x: nat, y: nat)
    ensures ToBytes(n, Word(ToBytes(n, x)) + y) == ToBytes(n, x + y)
  {
    if n > 0 {
      var w, c := Word(ToBytes(n - 1, x / 256)), (x % 256 + y) / 256;
      ToBytesStep(n, x);
      AddToStored(n - 1, x / 256, c);
      var z := x % 256 + 256 * w + y;
      assert z % 256 == (x + y) % 256 && z / 256 == w + c && (x + y) / 256 == x / 256 + c;
    }
  }

  /** Stored sums are equal exactly when the stored addends are. */
  lemma {:induction false} CancelStored(n: nat, w: nat, x: nat, y: nat)
    ensures ToBytes(n, w + x) == ToBytes(n, w + y) <==> ToBytes(n, x) == ToBytes(n, y)
  {
    if n > 0 {
      StoredAlike(n, w + x, w + y);
      StoredAlike(n, x, y);
      AddBytes(w, x);
      AddBytes(w, y);
      CancelByte(w % 256, x % 256, y % 256);
      if x % 256 == y % 256 {
        CancelStored(n - 1, w / 256 + (w % 256 + x % 256) / 256, x / 256, y / 256);
      }
    }
  }

  lemma StoredAlike(n: nat, x: nat, y: nat)
    requires n > 0
    ensures ToBytes(n, x) == ToBytes(n, y) <==> x % 256 == y % 256 && ToBytes(n - 1, x / 256) == ToBytes(n - 1, y / 256)
  {
    ToBytesStep(n, x);
    ToBytesStep(n, y);
    SplitAt0(ToBytes(n, x), ToBytes(n, y));
  }

  lemma AddBytes(w: nat, x: nat)
    ensures (w + x) % 256 == (w % 256 + x % 256) % 256
    ensures (w + x) / 256 == w / 256 + (w % 256 + x % 256) / 256 + x / 256
  {
    var a := w % 256 + x % 256;
    DivisionIsUnique(w + x, 256, w / 256 + a / 256 + x / 256, a % 256);
  }

  lemma CancelByte(a: nat, b: nat, c: nat)
    requires a < 256 && b < 256 && c < 256
    ensures (a + b) % 256 == (a + c) % 256 <==> b == c
  {
  }

  lemma SplitAt0(s: Bytes, t: Bytes)
    requires |s| == |t| > 0
    ensures s == t <==> s[0] == t[0] && s[1..] == t[1..]
  {
    assert s == [s[0]] + s[1..] && t == [t[0]] + t[1..];
  }

  lemma Stored(n: nat, x: nat, y: nat)
    ensures ToBytes(n, x) == ToBytes(n, y) <==> Word(ToBytes(n, x)) == Word(ToBytes(n, y))
  {
    if Word(ToBytes(n, x)) == Word(ToBytes(n, y)) { SameWord(ToBytes(n, x), ToBytes(n, y)); }
  }

  // Numbers are stored alike exactly when they agree up to the width.

  lemma Stored2(x: nat, y: nat)
    ensures ToBytes(2, x) == ToBytes(2, y) <==> x % 0x1_0000 == y % 0x1_0000
  {
    Pow256Table();
    ReadBack(2, x);
    ReadBack(2, y);
    Stored(2, x, y);
  }

  lemma Stored4(x: nat, y: nat)
    ensures ToBytes(4, x) == ToBytes(4, y) <==> x % 0x1_0000_0000 == y % 0x1_0000_0000
  {
    Pow256Table();
    ReadBack(4, x);
    ReadBack(4, y);
    Stored(4, x, y);
  }

  lemma Stored8(x: nat, y: nat)
    ensures ToBytes(8, x) == ToBytes(8, y) <==> x % 0x1_0000_0000_0000_0000 == y % 0x1_0000_0000_0000_0000
  {
    Pow256Table();
    ReadBack(8, x);
    ReadBack(8, y);
    Stored(8, x, y);
  }
}
