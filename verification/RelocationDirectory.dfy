/**
 The relocation directory of the PE format is bounded by its size; performBaseRelocation does not look at
 the size, other than for zero, and walks on to the first block with address zero. When is that the same?
 */
module RelocationDirectory {
  import opened Arithmetic
  import opened Bits
  import opened Wire
  import opened Words
  import opened Relocation
  import opened RelocationPass
  import opened RelocationTable
  import opened RelocationLaws

  ghost predicate Stored(img: Bytes, p: nat, blocks: seq<Block>, i: nat) {
    i < |blocks| && BlockStored(img, PosOf(p, blocks, i), blocks[i])
  }

  /** The blocks of a directory of `size` bytes at `p`. */
  ghost predicate DirectoryAt(img: Bytes, p: nat, size: nat, blocks: seq<Block>) {
    && (forall i | 0 <= i < |blocks| :: Stored(img, p, blocks, i))
    && PosOf(p, blocks, |blocks|) == p + size
  }

  /** No block of the directory has address zero, and behind it is a zero word. */
  ghost predicate EndsCleanly(img: Bytes, p: nat, size: nat, blocks: seq<Block>) {
    (forall i | 0 <= i < |blocks| :: blocks[i].virtualAddress > 0) && WordAt(img, p + size, 4, 0)
  }

  lemma SameBlock(img: Bytes, p: nat, a: Block, b: Block)
    requires BlockStored(img, p, a) && BlockStored(img, p, b)
    ensures a == b
  {
    forall j | 0 <= j < |a.entries| ensures a.entries[j] == b.entries[j] {
      assert WordAt(img, p + 8 + 2 * j, 2, a.entries[j]) && WordAt(img, p + 8 + 2 * j, 2, b.entries[j]);
    }
  }

  /** Blocks that are stored one after the other from `p` on are determined by the image. */
  lemma {:induction false} SameUpTo(img: Bytes, p: nat, a: seq<Block>, b: seq<Block>, n: nat)
    requires n <= |a| && n <= |b|
    requires forall i | 0 <= i < |a| :: Stored(img, p, a, i)
    requires forall i | 0 <= i < |b| :: Stored(img, p, b, i)
    ensures a[..n] == b[..n] && PosOf(p, a, n) == PosOf(p, b, n)
  {
    if n > 0 {
      SameUpTo(img, p, a, b, n - 1);
      assert Stored(img, p, a, n - 1) && Stored(img, p, b, n - 1);
      SameBlock(img, PosOf(p, a, n - 1), a[n - 1], b[n - 1]);
      assert a[..n] == a[..n - 1] + [a[n - 1]] && b[..n] == b[..n - 1] + [b[n - 1]];
    }
  }

  lemma WalkIsStored(img: Bytes, p: nat, walk: seq<Block>, i: nat)
    requires TableAt(img, p, walk) && i < |walk|
    ensures Stored(img, p, walk, i) && walk[i].virtualAddress > 0
  {
    assert InPlace(img, p, walk, i);
  }

  /** Of the walk and the directory one is a beginning of the other. */
  lemma WalkAndDirectory(img: Bytes, p: nat, size: nat, dir: seq<Block>, walk: seq<Block>)
    requires DirectoryAt(img, p, size, dir) && TableAt(img, p, walk)
    ensures dir <= walk || walk <= dir
  {
    forall i | 0 <= i < |walk| ensures Stored(img, p, walk, i) { WalkIsStored(img, p, walk, i); }
    SameUpTo(img, p, dir, walk, if |dir| <= |walk| then |dir| else |walk|);
  }

  /** The word that the walk reads behind the blocks that both have. */
  lemma WordBehind(img: Bytes, p: nat, dir: seq<Block>, walk: seq<Block>, n: nat)
    requires (forall i | 0 <= i < |dir| :: Stored(img, p, dir, i)) && TableAt(img, p, walk)
    requires n == if |dir| <= |walk| then |dir| else |walk|
    ensures PosOf(p, dir, n) == PosOf(p, walk, n)
    ensures WordAt(img, PosOf(p, walk, n), 4, if n < |walk| then walk[n].virtualAddress else 0)
    ensures n < |dir| ==> WordAt(img, PosOf(p, dir, n), 4, dir[n].virtualAddress)
  {
    forall i | 0 <= i < |walk| ensures Stored(img, p, walk, i) { WalkIsStored(img, p, walk, i); }
    SameUpTo(img, p, dir, walk, n);
    assert n < |walk| ==> Stored(img, p, walk, n);
    assert n < |dir| ==> Stored(img, p, dir, n);
  }

  /** The walk is over exactly the blocks of the directory if and only if none of them has address zero and
      the word behind the directory is zero. */
  lemma WalksDirectoryExactly(img: Bytes, p: nat, size: nat, dir: seq<Block>, walk: seq<Block>)
    requires DirectoryAt(img, p, size, dir) && TableAt(img, p, walk)
    ensures walk == dir <==> EndsCleanly(img, p, size, dir)
  {
    if walk == dir {
      forall i | 0 <= i < |dir| ensures dir[i].virtualAddress > 0 { WalkIsStored(img, p, walk, i); }
    }
    if EndsCleanly(img, p, size, dir) {
      var n := if |dir| <= |walk| then |dir| else |walk|;
      WordBehind(img, p, dir, walk, n);
      if n < |walk| { WalkIsStored(img, p, walk, n); }
      WalkAndDirectory(img, p, size, dir, walk);
    }
  }

  /** performBaseRelocation, in terms of the directory. If the directory ends cleanly, a pass that succeeds
      has relocated the sites of the directory's blocks and changed no other byte. */
  lemma DirectoryIsRelocated(
    before: Bytes, after: Bytes, p: nat, size: nat, dir: seq<Block>, walk: seq<Block>, sites: seq<Site>, delta: nat)
    requires DirectoryAt(before, p, size, dir) && EndsCleanly(before, p, size, dir)
    requires WellFormed(before, p, walk, sites) && Pass(before, after, sites, delta)
    ensures Lists(dir, sites)
  {
    WalksDirectoryExactly(before, p, size, dir, walk);
  }

  /** performBaseRelocation. A pass that succeeds has relocated every site of the blocks walked and changed no
      other byte; one that fails stops at the first site that cannot be relocated. The blocks walked are
      those of the directory if and only if that ends cleanly. Without a table there is nothing to do, and
      `relocated` says whether that was enough. */
  method PerformBaseRelocation(
    image: array<byte>, directory: nat, directorySize: nat, delta: nat, ghost blocks: seq<Block>,
    ghost sites: seq<Site>)
    returns (relocated: bool, ok: bool, ghost done: nat)
    requires delta < WORD && (directorySize != 0 ==> WellFormed(image[..], directory, blocks, sites))
    modifies image
    ensures directorySize == 0 ==> ok && relocated == (delta == 0) && image[..] == old(image[..])
    ensures directorySize != 0 ==> relocated == ok
    ensures directorySize != 0 && ok ==> Pass(old(image[..]), image[..], sites, delta)
    ensures directorySize != 0 && ok ==> TableApplied(old(image[..]), image[..], blocks, delta)
    ensures directorySize != 0 && !ok ==> Failed(old(image[..]), image[..], sites, done, delta)
    ensures directorySize != 0 && !ok ==> RefusedAt(blocks, done)
    ensures directorySize != 0 ==> forall dir | DirectoryAt(old(image[..]), directory, directorySize, dir) ::
      blocks == dir <==> EndsCleanly(old(image[..]), directory, directorySize, dir)
  {
    if directorySize == 0 {
      return delta == 0, true, 0;
    }
    forall dir | DirectoryAt(image[..], directory, directorySize, dir)
      ensures blocks == dir <==> EndsCleanly(image[..], directory, directorySize, dir)
    {
      WalksDirectoryExactly(image[..], directory, directorySize, dir, blocks);
    }
    ghost var before := image[..];
    ok, done := RelocateBlocks(image, directory, delta, blocks, sites);
    if ok {
      PassApplies(before, image[..], blocks, sites, delta);
    } else {
      RefusedEntry(before, image[..], blocks, sites, done, delta);
    }
    relocated := ok;
  }

  // ---- an image in which the walk goes on ----

  lemma WordOf4(img: Bytes, p: nat)
    requires p + 4 <= |img|
    ensures Word(img[p..p + 4]) ==
            img[p] as nat + 256 * (img[p + 1] as nat + 256 * (img[p + 2] as nat + 256 * (img[p + 3] as nat)))
  {
    var s := img[p..p + 4];
    assert s[1..][1..][1..][1..] == [];
    assert Word(s) == s[0] as nat + 256 * Word(s[1..]);
    assert Word(s[1..]) == s[1] as nat + 256 * Word(s[1..][1..]);
    assert Word(s[1..][1..]) == s[2] as nat + 256 * Word(s[1..][1..][1..]);
  }

  lemma WordOf2(img: Bytes, p: nat)
    requires p + 2 <= |img|
    ensures Word(img[p..p + 2]) == img[p] as nat + 256 * (img[p + 1] as nat)
  {
    var s := img[p..p + 2];
    assert s[1..][1..] == [];
    assert Word(s) == s[0] as nat + 256 * Word(s[1..]);
  }

  /** 40 bytes: a directory of 8 bytes with one block without entries, then bytes that read as another block,
      with an entry for a 32-bit word at 32 and a padding entry, and then zeros. */
  function Foreign(): (img: Bytes)
    ensures |img| == 40
  {
    seq(40, k requires 0 <= k < 40 =>
      if k == 0 then 1 else if k == 4 then 8 else if k == 8 then 32 else if k == 12 then 12
      else if k == 17 then 0x30 else 0)
  }

  const OWN: Block := Block(1, 8, [])
  const NEXT: Block := Block(32, 12, [0x3000, 0])

  lemma SmallWordAt(img: Bytes, p: nat, w: nat)
    requires p + 4 <= |img| && img[p] as nat == w && img[p + 1] == img[p + 2] == img[p + 3] == 0
    ensures WordAt(img, p, 4, w)
  {
    WordOf4(img, p);
  }

  lemma OwnIsStored()
    ensures BlockStored(Foreign(), 0, OWN)
  {
    SmallWordAt(Foreign(), 0, 1);
    SmallWordAt(Foreign(), 4, 8);
  }

  lemma NextIsStored()
    ensures BlockStored(Foreign(), 8, NEXT) && WordAt(Foreign(), 20, 4, 0)
  {
    var img := Foreign();
    SmallWordAt(img, 8, 32);
    SmallWordAt(img, 12, 12);
    SmallWordAt(img, 20, 0);
    NextEntries(img);
  }

  lemma NextEntries(img: Bytes)
    requires img == Foreign()
    ensures forall j | 0 <= j < |NEXT.entries| :: WordAt(img, 8 + 8 + 2 * j, 2, NEXT.entries[j])
  {
    WordOf2(img, 16);
    WordOf2(img, 18);
    forall j | 0 <= j < |NEXT.entries| ensures WordAt(img, 8 + 8 + 2 * j, 2, NEXT.entries[j]) {
      if j == 0 { assert WordAt(img, 16, 2, 0x3000); } else { assert WordAt(img, 18, 2, 0); }
    }
  }

  /** The directory has no site at all, and yet every pass relocates the word at 32. */
  lemma WalkGoesOn() returns (img: Bytes, dir: seq<Block>, walk: seq<Block>, sites: seq<Site>)
    ensures DirectoryAt(img, 0, 8, dir) && Lists(dir, [])
    ensures WellFormed(img, 0, walk, sites) && |sites| > 0 && sites[0] == Site(HighLow, 32)
  {
    img, dir, walk := Foreign(), [OWN], [OWN, NEXT];
    sites := [Site(HighLow, 32), Site(Absolute, 32)];
    OwnIsStored();
    NextIsStored();
    assert PosOf(0, walk, 0) == 0 && PosOf(0, walk, 1) == 8 && PosOf(0, walk, 2) == 20;
    assert PosOf(0, dir, 0) == 0 && PosOf(0, dir, 1) == 8;
    assert InPlace(img, 0, walk, 0) && InPlace(img, 0, walk, 1);
    assert First(dir, 1) == 0;
    TwoSites(walk, sites);
  }

  lemma TwoSites(walk: seq<Block>, sites: seq<Site>)
    requires walk == [OWN, NEXT] && sites == [Site(HighLow, 32), Site(Absolute, 32)]
    ensures Lists(walk, sites) && SitesOk(sites, 40)
    ensures forall i | 0 <= i < |sites| :: Outside(sites[i], 0, walk)
  {
    TwoListed(walk, sites);
    TwoOk(sites);
    assert PosOf(0, walk, 1) == 8;
    assert PosOf(0, walk, 2) == 20;
  }

  lemma TwoListed(walk: seq<Block>, sites: seq<Site>)
    requires walk == [OWN, NEXT] && sites == [Site(HighLow, 32), Site(Absolute, 32)]
    ensures Lists(walk, sites)
  {
    assert First(walk, 1) == 0;
    assert First(walk, 2) == 2;
    forall i, j | 0 <= i < |walk| && 0 <= j < |walk[i].entries| ensures Listed(walk, sites, i, j) {
      assert i == 1;
      if j == 0 { FirstListed(walk, sites); } else { SecondListed(walk, sites); }
    }
  }

  lemma FirstListed(walk: seq<Block>, sites: seq<Site>)
    requires walk == [OWN, NEXT] && |sites| == 2 && sites[0] == Site(HighLow, 32) && First(walk, 1) == 0
    ensures Listed(walk, sites, 1, 0)
  {
  }

  lemma SecondListed(walk: seq<Block>, sites: seq<Site>)
    requires walk == [OWN, NEXT] && |sites| == 2 && sites[1] == Site(Absolute, 32) && First(walk, 1) == 0
    ensures Listed(walk, sites, 1, 1)
  {
  }

  lemma TwoOk(sites: seq<Site>)
    requires sites == [Site(HighLow, 32), Site(Absolute, 32)]
    ensures SitesOk(sites, 40)
  {
    assert Separate(sites, 0, 1);
  }
}
