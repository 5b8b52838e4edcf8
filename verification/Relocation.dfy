/**
 Base relocation: performBaseRelocation of node/tun/wintun/memmod/memmod_windows.go, over the block list
 of the PE format, "The .reloc Section (Image Only)". An address is an offset into the image.
 */
module Relocation {
  import opened Arithmetic
  import opened Bits
  import opened Wire
  import opened Words
  import Thumb

  // ---- one site ----

  datatype Kind = Absolute | High | Low | HighLow | ThumbMov32 | Dir64 | Unsupported

  /** The upper four bits of a table entry. */
  function KindOf(t: nat): Kind {
    if t == 0 then Absolute
    else if t == 1 then High
    else if t == 2 then Low
    else if t == 3 then HighLow
    else if t == 7 then ThumbMov32
    else if t == 10 then Dir64
    else Unsupported
  }

  function Width(k: Kind): nat {
    match k
    case Absolute => 0
    case High => 2
    case Low => 2
    case HighLow => 4
    case ThumbMov32 => 8
    case Dir64 => 8
    case Unsupported => 0
  }

  /** The kinds that add a number to the one word at their site. */
  predicate Adds(k: Kind) {
    k != ThumbMov32 && k != Unsupported
  }

  /** That number. */
  function Addend(k: Kind, delta: nat): nat
    requires Adds(k)
  {
    match k
    case Absolute => 0
    case Low => delta % 0x1_0000
    case High => delta % HALF / 0x1_0000
    case HighLow => delta % HALF
    case Dir64 => delta
  }

  function Added(s: Bytes, x: nat): (r: Bytes)
    ensures |r| == |s|
  {
    ToBytes(|s|, Word(s) + x)
  }

  datatype Patched = Patched(bytes: Bytes, ok: bool)

  /** What a relocation makes of the bytes at its site. */
  function Patch(k: Kind, s: Bytes, delta: nat): (r: Patched)
    requires |s| == Width(k) && delta < WORD
    ensures |r.bytes| == |s|
  {
    if Adds(k) then Patched(Added(s, Addend(k, delta)), true)
    else if k == ThumbMov32 then
      var r := Thumb.Relocate(Word(s[..4]), Word(s[4..]), delta % HALF);
      Patched(ToBytes(4, r.movw) + ToBytes(4, r.movt), r.ok)
    else Patched(s, false)
  }

  /** Adding wraps around at the width. */
  lemma AddedTwice(s: Bytes, x: nat, y: nat)
    ensures Added(Added(s, x), y) == Added(s, x + y)
  {
    AddToStored(|s|, Word(s) + x, y);
    assert Word(s) + x + y == Word(s) + (x + y);
  }

  lemma AddedWord(s: Bytes, x: nat, m: nat)
    requires m == Pow256(|s|)
    ensures Word(Added(s, x)) == (Word(s) + x) % m
  {
    ReadBack(|s|, Word(s) + x);
  }

  lemma AddRemainder(x: nat, y: nat, m: nat)
    requires m > 0
    ensures (x + y % m) % m == (x + y) % m
  {
    SumOfRemainders(x, y, m);
    SumOfRemainders(x, y % m, m);
    RemainderTwice(y, m, m, 1);
  }

  /** What the word at the site becomes. */
  lemma WordMoves(k: Kind, s: Bytes, delta: nat)
    requires |s| == Width(k) && Adds(k) && delta < WORD
    ensures Patch(k, s, delta).ok
    ensures
      var w, w' := Word(s), Word(Patch(k, s, delta).bytes);
      match k
      case Absolute => w' == w
      case Low => w' == (w + delta) % 0x1_0000
      case High => w' == (w + delta % HALF / 0x1_0000) % 0x1_0000
      case HighLow => w' == (w + delta) % HALF
      case Dir64 => w' == (w + delta) % WORD
  {
    match k {
      case Absolute => AddedZero(s);
      case Low => AddedLow2(s, delta);
      case High => Pow256Table(); AddedWord(s, delta % HALF / 0x1_0000, 0x1_0000);
      case HighLow => AddedLow4(s, delta);
      case Dir64 => Pow256Table(); AddedWord(s, delta, WORD);
    }
  }

  // Adding the low part of a number to a word of that width is adding the number.

  lemma AddedLow2(s: Bytes, delta: nat)
    requires |s| == 2
    ensures Word(Added(s, delta % 0x1_0000)) == (Word(s) + delta) % 0x1_0000
  {
    Pow256Table();
    AddedWord(s, delta % 0x1_0000, 0x1_0000);
    AddRemainder(Word(s), delta, 0x1_0000);
  }

  lemma AddedLow4(s: Bytes, delta: nat)
    requires |s| == 4
    ensures Word(Added(s, delta % HALF)) == (Word(s) + delta) % HALF
  {
    Pow256Table();
    AddedWord(s, delta % HALF, HALF);
    AddRemainder(Word(s), delta, HALF);
  }

  lemma AddedZero(s: Bytes)
    ensures Added(s, 0) == s
  {
    WriteBack(s);
  }

  // ---- two deltas ----

  function Sum(d1: nat, d2: nat): nat { (d1 + d2) % WORD }

  function Negated(d: nat): nat
    requires d < WORD
  {
    if d == 0 then 0 else WORD - d
  }

  /** The sum of the deltas carries from their low into their high 16 bits. */
  predicate CarriesOver(d1: nat, d2: nat) {
    d1 % 0x1_0000 + d2 % 0x1_0000 >= 0x1_0000
  }

  lemma LowSum(d1: nat, d2: nat)
    ensures (d1 % 0x1_0000 + d2 % 0x1_0000) % 0x1_0000 == Sum(d1, d2) % 0x1_0000 % 0x1_0000
  {
    RemainderTwice(d1 + d2, WORD, 0x1_0000, 0x1_0000_0000_0000);
    SumOfRemainders(d1, d2, 0x1_0000);
  }

  lemma HighLowSum(d1: nat, d2: nat)
    ensures (d1 % HALF + d2 % HALF) % HALF == Sum(d1, d2) % HALF % HALF
  {
    RemainderTwice(d1 + d2, WORD, HALF, HALF);
    SumOfRemainders(d1, d2, HALF);
  }

  lemma HighSum(d1: nat, d2: nat)
    ensures (d1 % HALF / 0x1_0000 + d2 % HALF / 0x1_0000) % 0x1_0000 == Sum(d1, d2) % HALF / 0x1_0000 % 0x1_0000
            <==> !CarriesOver(d1, d2)
  {
    HighLowSum(d1, d2);
    RemainderTwice(d1, HALF, 0x1_0000, 0x1_0000);
    RemainderTwice(d2, HALF, 0x1_0000, 0x1_0000);
    HalvesAdd(d1 % HALF, d2 % HALF, Sum(d1, d2) % HALF);
  }

  lemma HalvesAdd(e1: nat, e2: nat, e: nat)
    requires e1 < HALF && e2 < HALF && e == (e1 + e2) % HALF
    ensures (e1 / 0x1_0000 + e2 / 0x1_0000) % 0x1_0000 == e / 0x1_0000 % 0x1_0000
            <==> e1 % 0x1_0000 + e2 % 0x1_0000 < 0x1_0000
  {
    var q1, q2, r1, r2 := e1 / 0x1_0000, e2 / 0x1_0000, e1 % 0x1_0000, e2 % 0x1_0000;
    assert e1 + e2 == (q1 + q2) * 0x1_0000 + (r1 + r2);
    assert e == e1 + e2 || e == e1 + e2 - HALF;
  }

  /** Only HIGH can tell a sum of deltas from adding them one by one. */
  lemma AddendsCompose(k: Kind, d1: nat, d2: nat)
    requires Adds(k) && d1 < WORD && d2 < WORD
    ensures ToBytes(Width(k), Addend(k, d1) + Addend(k, d2)) == ToBytes(Width(k), Addend(k, Sum(d1, d2)))
            <==> k != High || !CarriesOver(d1, d2)
  {
    match k {
      case Absolute =>
      case Low => LowStored(d1, d2);
      case High => HighStored(d1, d2);
      case HighLow => HighLowStored(d1, d2);
      case Dir64 => Dir64Stored(d1, d2);
    }
  }

  lemma LowStored(d1: nat, d2: nat)
    ensures ToBytes(2, d1 % 0x1_0000 + d2 % 0x1_0000) == ToBytes(2, Sum(d1, d2) % 0x1_0000)
  {
    LowSum(d1, d2);
    Stored2(d1 % 0x1_0000 + d2 % 0x1_0000, Sum(d1, d2) % 0x1_0000);
  }

  lemma HighStored(d1: nat, d2: nat)
    ensures ToBytes(2, d1 % HALF / 0x1_0000 + d2 % HALF / 0x1_0000) == ToBytes(2, Sum(d1, d2) % HALF / 0x1_0000)
            <==> !CarriesOver(d1, d2)
  {
    HighSum(d1, d2);
    Stored2(d1 % HALF / 0x1_0000 + d2 % HALF / 0x1_0000, Sum(d1, d2) % HALF / 0x1_0000);
  }

  lemma HighLowStored(d1: nat, d2: nat)
    ensures ToBytes(4, d1 % HALF + d2 % HALF) == ToBytes(4, Sum(d1, d2) % HALF)
  {
    HighLowSum(d1, d2);
    Stored4(d1 % HALF + d2 % HALF, Sum(d1, d2) % HALF);
  }

  lemma Dir64Stored(d1: nat, d2: nat)
    ensures ToBytes(8, d1 + d2) == ToBytes(8, Sum(d1, d2))
  {
    Stored8(d1 + d2, Sum(d1, d2));
  }

  /** Two relocations of one site compose to one by the sum of the deltas, except that at a HIGH site
      they do so exactly when the low halves of the deltas do not carry. */
  lemma AddingComposes(k: Kind, s: Bytes, d1: nat, d2: nat)
    requires |s| == Width(k) && Adds(k) && d1 < WORD && d2 < WORD
    ensures Patch(k, Patch(k, s, d1).bytes, d2).bytes == Patch(k, s, Sum(d1, d2)).bytes
            <==> k != High || !CarriesOver(d1, d2)
  {
    AddedTwice(s, Addend(k, d1), Addend(k, d2));
    CancelStored(|s|, Word(s), Addend(k, d1) + Addend(k, d2), Addend(k, Sum(d1, d2)));
    AddendsCompose(k, d1, d2);
  }

  // ---- MOVW/MOVT pairs in bytes ----

  function Moved(s: Bytes, delta: nat): Thumb.Patched
    requires |s| == 8
  {
    Thumb.Relocate(Word(s[..4]), Word(s[4..]), delta % HALF)
  }

  lemma FourBytes(s: Bytes)
    requires |s| == 4
    ensures Word(s) < HALF && ToBytes(4, Word(s)) == s
  {
    Pow256Table();
    WordIsSmall(s);
    WriteBack(s);
  }

  lemma FourBytesBack(w: nat)
    requires w < HALF
    ensures Word(ToBytes(4, w)) == w
  {
    Pow256Table();
    ReadBack(4, w);
  }

  /** The patched bytes hold the patched words. */
  lemma PairBytes(s: Bytes, delta: nat)
    requires |s| == 8 && delta < WORD && Moved(s, delta).ok
    ensures
      var t := Patch(ThumbMov32, s, delta).bytes;
      Word(t[..4]) == Moved(s, delta).movw && Word(t[4..]) == Moved(s, delta).movt
  {
    var t, r := Patch(ThumbMov32, s, delta).bytes, Moved(s, delta);
    FourBytes(s[..4]);
    FourBytes(s[4..]);
    Thumb.WordsStayWords(Word(s[..4]), Word(s[4..]), delta % HALF);
    FourBytesBack(r.movw);
    FourBytesBack(r.movt);
    assert t[..4] == ToBytes(4, r.movw) && t[4..] == ToBytes(4, r.movt);
  }

  /** A relocated pair loads the old constant plus the low half of the delta, without wrap-around. */
  lemma PairAdds(s: Bytes, delta: nat)
    requires |s| == 8 && delta < WORD && Patch(ThumbMov32, s, delta).ok
    ensures
      var t := Patch(ThumbMov32, s, delta).bytes;
      && Thumb.Constant(Word(t[..4]), Word(t[4..])) == Thumb.Constant(Word(s[..4]), Word(s[4..])) + delta % HALF < HALF
      && Thumb.Fixed(Word(t[..4])) == Thumb.Fixed(Word(s[..4]))
      && Thumb.Fixed(Word(t[4..])) == Thumb.Fixed(Word(s[4..]))
  {
    PairBytes(s, delta);
    Thumb.AddsDelta(Word(s[..4]), Word(s[4..]), delta % HALF);
  }

  lemma MovedAgain(s: Bytes, d1: nat, d2: nat)
    requires |s| == 8 && d1 < WORD && d2 < WORD && Moved(s, d1).ok
    ensures Moved(Patch(ThumbMov32, s, d1).bytes, d2)
            == Thumb.Relocate(Moved(s, d1).movw, Moved(s, d1).movt, d2 % HALF)
  {
    PairBytes(s, d1);
  }

  lemma PairComposes(s: Bytes, d1: nat, d2: nat)
    requires |s| == 8 && d1 < WORD && d2 < WORD
    requires Moved(s, d1).ok && Moved(Patch(ThumbMov32, s, d1).bytes, d2).ok
    ensures Moved(Patch(ThumbMov32, s, d1).bytes, d2) == Moved(s, Sum(d1, d2))
  {
    MovedAgain(s, d1, d2);
    FourBytes(s[..4]);
    FourBytes(s[4..]);
    LowHalvesAdd(d1, d2);
    Thumb.ComposesTo(Word(s[..4]), Word(s[4..]), d1 % HALF, d2 % HALF, Sum(d1, d2) % HALF);
  }

  lemma LowHalvesAdd(d1: nat, d2: nat)
    ensures d1 % HALF + d2 % HALF < HALF ==> Sum(d1, d2) % HALF == d1 % HALF + d2 % HALF
  {
    HighLowSum(d1, d2);
  }

  // ---- any site ----

  /** Two successful relocations of one site compose to one by the sum of the deltas, except that at a
      HIGH site they do so exactly when the low halves of the deltas do not carry. */
  lemma PatchComposes(k: Kind, s: Bytes, d1: nat, d2: nat)
    requires |s| == Width(k) && d1 < WORD && d2 < WORD
    requires Patch(k, s, d1).ok && Patch(k, Patch(k, s, d1).bytes, d2).ok
    ensures Patch(k, s, Sum(d1, d2)).ok
    ensures Patch(k, Patch(k, s, d1).bytes, d2).bytes == Patch(k, s, Sum(d1, d2)).bytes
            <==> k != High || !CarriesOver(d1, d2)
  {
    if k == ThumbMov32 { PairComposes(s, d1, d2); } else { AddingComposes(k, s, d1, d2); }
  }

  /** A relocation by zero changes nothing. */
  lemma PatchZero(k: Kind, s: Bytes)
    requires |s| == Width(k)
    ensures Patch(k, s, 0).bytes == s
  {
    if k == ThumbMov32 { PairZero(s); } else { AddedZero(s); }
  }

  lemma PairZero(s: Bytes)
    requires |s| == 8
    ensures Patch(ThumbMov32, s, 0).bytes == s
  {
    FourBytes(s[..4]);
    FourBytes(s[4..]);
    Thumb.MovesByZero(Word(s[..4]), Word(s[4..]));
    assert s == s[..4] + s[4..];
  }

  lemma BackAndForth(d: nat)
    requires d < WORD
    ensures Negated(d) < WORD && Sum(d, Negated(d)) == 0
    ensures CarriesOver(d, Negated(d)) <==> d % 0x1_0000 != 0
    ensures Negated(d) % HALF == if d % HALF == 0 then 0 else HALF - d % HALF
  {
    var q, r := Divide(d, 0x1_0000);
    var p, t := Divide(d, HALF);
    if d != 0 {
      var e := WORD - d;
      if r != 0 { DivisionIsUnique(e, 0x1_0000, 0xffff_ffff_ffff - q, 0x1_0000 - r); }
      else { DivisionIsUnique(e, 0x1_0000, 0x1_0000_0000_0000 - q, 0); }
      if t != 0 { DivisionIsUnique(e, HALF, 0xffff_ffff - p, HALF - t); }
      else { DivisionIsUnique(e, HALF, HALF - p, 0); }
    }
  }

  /** A successful relocation can be taken back by the negated delta, except at a MOVW/MOVT pair, where
      that succeeds only if nothing was added. */
  lemma BackSucceeds(k: Kind, s: Bytes, d: nat)
    requires |s| == Width(k) && d < WORD && Patch(k, s, d).ok
    ensures Patch(k, Patch(k, s, d).bytes, Negated(d)).ok <==> k != ThumbMov32 || d % HALF == 0
  {
    if k == ThumbMov32 { PairBack(s, d); }
  }

  lemma PairBack(s: Bytes, d: nat)
    requires |s| == 8 && d < WORD && Patch(ThumbMov32, s, d).ok
    ensures Moved(Patch(ThumbMov32, s, d).bytes, Negated(d)).ok <==> d % HALF == 0
  {
    var a, b, e, r := Word(s[..4]), Word(s[4..]), d % HALF, Moved(s, d);
    BackAndForth(d);
    PairBytes(s, d);
    if e == 0 {
      Thumb.AddsDelta(a, b, e);
      Thumb.ImmIsSmall(r.movw);
      Thumb.SucceedsExactly(r.movw, r.movt, 0);
    } else {
      Thumb.CannotMoveBack(a, b, e);
    }
  }

  /** Taking a relocation back restores the bytes, except that at a HIGH site it does so exactly when the
      low half of the delta is zero. */
  lemma PatchRestores(k: Kind, s: Bytes, d: nat)
    requires |s| == Width(k) && d < WORD && Patch(k, s, d).ok && Patch(k, Patch(k, s, d).bytes, Negated(d)).ok
    ensures Patch(k, Patch(k, s, d).bytes, Negated(d)).bytes == s <==> k != High || d % 0x1_0000 == 0
  {
    BackAndForth(d);
    PatchComposes(k, s, d, Negated(d));
    PatchZero(k, s);
  }
}
