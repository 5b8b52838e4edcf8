/**
 What a relocation pass does, in the terms of the PE format: type numbers, words and bytes. Nothing here
 goes through the model of the relocation types.
 */
module RelocationLaws {
  import opened Bits
  import opened Wire
  import opened Words
  import opened Relocation
  import opened RelocationPass
  import opened RelocationTable
  import Thumb

  /** The word of `n` bytes at `at` becomes `w`. */
  ghost predicate Becomes(before: Bytes, after: Bytes, at: nat, n: nat, w: nat) {
    |after| == |before| && at + n <= |before| && Word(after[at..at + n]) == w
  }

  function OldWord(img: Bytes, at: nat, n: nat): nat {
    if at + n <= |img| then Word(img[at..at + n]) else 0
  }

  /** Entry `e` of a block for address `v` has had its effect. */
  ghost predicate Applied(before: Bytes, after: Bytes, v: nat, e: nat, delta: nat) {
    var at := v + e % 0x1000;
    match e / 0x1000
    case 0 => true
    case 1 => Becomes(before, after, at, 2, (OldWord(before, at, 2) + delta % 0x1_0000_0000 / 0x1_0000) % 0x1_0000)
    case 2 => Becomes(before, after, at, 2, (OldWord(before, at, 2) + delta) % 0x1_0000)
    case 3 => Becomes(before, after, at, 4, (OldWord(before, at, 4) + delta) % 0x1_0000_0000)
    case 7 =>
      var constant := Thumb.Constant(OldWord(before, at, 4), OldWord(before, at + 4, 4));
      && |after| == |before| && at + 8 <= |before|
      && Thumb.Constant(OldWord(after, at, 4), OldWord(after, at + 4, 4)) == constant + delta % 0x1_0000_0000
    case 10 => Becomes(before, after, at, 8, (OldWord(before, at, 8) + delta) % 0x1_0000_0000_0000_0000)
    case _ => false
  }

  /** The bytes that entries of a type change. */
  function BytesOf(t: nat): nat {
    if t == 7 || t == 10 then 8 else if t == 3 then 4 else if t == 1 || t == 2 then 2 else 0
  }

  predicate Changes(v: nat, e: nat, k: nat) {
    v + e % 0x1000 <= k < v + e % 0x1000 + BytesOf(e / 0x1000)
  }

  ghost predicate ChangedBy(blocks: seq<Block>, k: nat) {
    exists i, j :: 0 <= i < |blocks| && 0 <= j < |blocks[i].entries|
                   && Changes(blocks[i].virtualAddress, blocks[i].entries[j], k)
  }

  /** All entries have had their effect, and nothing else has changed. */
  ghost predicate TableApplied(before: Bytes, after: Bytes, blocks: seq<Block>, delta: nat) {
    && |after| == |before|
    && (forall i, j | 0 <= i < |blocks| && 0 <= j < |blocks[i].entries| ::
          Applied(before, after, blocks[i].virtualAddress, blocks[i].entries[j], delta))
    && (forall k | 0 <= k < |before| && !ChangedBy(blocks, k) :: after[k] == before[k])
  }

  /** A site is relocated as its number says. */
  lemma SiteApplied(before: Bytes, after: Bytes, sites: seq<Site>, n: nat, v: nat, e: nat, delta: nat)
    requires Pass(before, after, sites, delta) && n < |sites| && sites[n] == SiteOf(v, e)
    ensures Applied(before, after, v, e, delta)
  {
    assert Relocated(before, after, sites, n, delta) && Succeeds(before, sites, n, delta);
    NumberApplied(before, after, sites[n], v, e, delta);
  }

  lemma NumberApplied(before: Bytes, after: Bytes, t: Site, v: nat, e: nat, delta: nat)
    requires t == SiteOf(v, e) && Fits(t, |before|) && |after| == |before| && delta < WORD
    requires Slice(after, t) == PatchAt(before, t, delta).bytes && PatchAt(before, t, delta).ok
    ensures Applied(before, after, v, e, delta)
  {
    match e / 0x1000 {
      case 0 =>
      case 1 => HighApplied(before, after, t, delta);
      case 2 => LowApplied(before, after, t, delta);
      case 3 => HighLowApplied(before, after, t, delta);
      case 7 => PairApplied(before, after, t, delta);
      case 10 => Dir64Applied(before, after, t, delta);
      case _ =>
    }
  }

  lemma HighApplied(before: Bytes, after: Bytes, t: Site, delta: nat)
    requires t.kind == High && t.at + 2 <= |before| == |after| && delta < WORD
    requires Slice(after, t) == PatchAt(before, t, delta).bytes
    ensures Becomes(before, after, t.at, 2,
                    (OldWord(before, t.at, 2) + delta % 0x1_0000_0000 / 0x1_0000) % 0x1_0000)
  {
    WordMoves(High, before[t.at..t.at + 2], delta);
  }

  lemma LowApplied(before: Bytes, after: Bytes, t: Site, delta: nat)
    requires t.kind == Low && t.at + 2 <= |before| == |after| && delta < WORD
    requires Slice(after, t) == PatchAt(before, t, delta).bytes
    ensures Becomes(before, after, t.at, 2, (OldWord(before, t.at, 2) + delta) % 0x1_0000)
  {
    WordMoves(Low, before[t.at..t.at + 2], delta);
  }

  lemma HighLowApplied(before: Bytes, after: Bytes, t: Site, delta: nat)
    requires t.kind == HighLow && t.at + 4 <= |before| == |after| && delta < WORD
    requires Slice(after, t) == PatchAt(before, t, delta).bytes
    ensures Becomes(before, after, t.at, 4, (OldWord(before, t.at, 4) + delta) % 0x1_0000_0000)
  {
    WordMoves(HighLow, before[t.at..t.at + 4], delta);
  }

  lemma Dir64Applied(before: Bytes, after: Bytes, t: Site, delta: nat)
    requires t.kind == Dir64 && t.at + 8 <= |before| == |after| && delta < WORD
    requires Slice(after, t) == PatchAt(before, t, delta).bytes
    ensures Becomes(before, after, t.at, 8, (OldWord(before, t.at, 8) + delta) % 0x1_0000_0000_0000_0000)
  {
    WordMoves(Dir64, before[t.at..t.at + 8], delta);
  }

  lemma PairApplied(before: Bytes, after: Bytes, t: Site, delta: nat)
    requires t.kind == ThumbMov32 && t.at + 8 <= |before| == |after| && delta < WORD
    requires Slice(after, t) == PatchAt(before, t, delta).bytes && PatchAt(before, t, delta).ok
    ensures Thumb.Constant(OldWord(after, t.at, 4), OldWord(after, t.at + 4, 4)) ==
            Thumb.Constant(OldWord(before, t.at, 4), OldWord(before, t.at + 4, 4)) + delta % 0x1_0000_0000
  {
    var s, s' := Slice(before, t), Slice(after, t);
    PairAdds(s, delta);
    assert s[..4] == before[t.at..t.at + 4] && s[4..] == before[t.at + 4..t.at + 4 + 4];
    assert s'[..4] == after[t.at..t.at + 4] && s'[4..] == after[t.at + 4..t.at + 4 + 4];
  }

  /** Every site is that of some entry. */
  lemma {:induction false} EntryOf(blocks: seq<Block>, m: nat, n: nat) returns (i: nat, j: nat)
    requires m <= |blocks| && n < First(blocks, m)
    ensures i < m && j < |blocks[i].entries| && n == First(blocks, i) + j
  {
    if n >= First(blocks, m - 1) {
      i, j := m - 1, n - First(blocks, m - 1);
    } else {
      i, j := EntryOf(blocks, m - 1, n);
    }
  }

  lemma CoveredIsChanged(blocks: seq<Block>, sites: seq<Site>, k: nat)
    requires Lists(blocks, sites) && Covered(sites, |sites|, k)
    ensures ChangedBy(blocks, k)
  {
    var n :| 0 <= n < |sites| && Within(sites[n], k);
    var i, j := EntryOf(blocks, |blocks|, n);
    SiteIs(blocks, sites, i, j, n);
    assert Changes(blocks[i].virtualAddress, blocks[i].entries[j], k);
  }

  /** A pass over the sites of a table applies the table. */
  lemma PassApplies(before: Bytes, after: Bytes, blocks: seq<Block>, sites: seq<Site>, delta: nat)
    requires Lists(blocks, sites) && Pass(before, after, sites, delta)
    ensures TableApplied(before, after, blocks, delta)
  {
    forall i, j | 0 <= i < |blocks| && 0 <= j < |blocks[i].entries|
      ensures Applied(before, after, blocks[i].virtualAddress, blocks[i].entries[j], delta)
    {
      EntryApplied(before, after, blocks, sites, delta, i, j);
    }
    forall k | 0 <= k < |before| && !ChangedBy(blocks, k) ensures after[k] == before[k] {
      assert Kept(before, after, sites, |sites|, k);
      if Covered(sites, |sites|, k) { CoveredIsChanged(blocks, sites, k); }
    }
  }

  lemma EntryApplied(
    before: Bytes, after: Bytes, blocks: seq<Block>, sites: seq<Site>, delta: nat, i: nat, j: nat)
    requires Lists(blocks, sites) && Pass(before, after, sites, delta)
    requires i < |blocks| && j < |blocks[i].entries|
    ensures Applied(before, after, blocks[i].virtualAddress, blocks[i].entries[j], delta)
  {
    var n := First(blocks, i) + j;
    SiteIs(blocks, sites, i, j, n);
    SiteApplied(before, after, sites, n, blocks[i].virtualAddress, blocks[i].entries[j], delta);
  }

  /** The type of an entry that stopped the walk: a MOVW/MOVT pair or a type that is not supported. */
  predicate MayRefuse(t: nat) {
    t != 0 && t != 1 && t != 2 && t != 3 && t != 10
  }

  ghost predicate RefusedAt(blocks: seq<Block>, done: nat) {
    exists i, j :: 0 <= i < |blocks| && 0 <= j < |blocks[i].entries|
                   && First(blocks, i) + j == done && MayRefuse(blocks[i].entries[j] / 0x1000)
  }

  /** A walk that fails stops at an entry of such a type. */
  lemma RefusedEntry(before: Bytes, after: Bytes, blocks: seq<Block>, sites: seq<Site>, done: nat, delta: nat)
    requires Lists(blocks, sites) && Failed(before, after, sites, done, delta)
    ensures RefusedAt(blocks, done)
  {
    var i, j := EntryOf(blocks, |blocks|, done);
    SiteIs(blocks, sites, i, j, done);
    assert MayRefuse(blocks[i].entries[j] / 0x1000);
  }
}
