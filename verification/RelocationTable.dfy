/**
 performBaseRelocation of node/tun/wintun/memmod/memmod_windows.go: its nested loops over the relocation
 blocks in the image. The table is walked up to a block with address zero; a well-formed image is one in
 which it leads there and whose sites lie in the image, apart from each other and from the table.
 */
module RelocationTable {
  import opened Bits
  import opened Wire
  import opened Words
  import opened Relocation
  import opened RelocationPass
  import Thumb

  /** A relocation block: the page it is about, its size in bytes with the eight of its header, and its
      entries, of which the upper four bits are the type and the others the offset in the page. */
  datatype Block = Block(virtualAddress: nat, size: nat, entries: seq<nat>)

  function SiteOf(virtualAddress: nat, entry: nat): Site {
    Site(KindOf(entry / 0x1000), virtualAddress + entry % 0x1000)
  }

  /** The word of `n` bytes at `p` of the image. */
  ghost predicate WordAt(img: Bytes, p: nat, n: nat, w: nat) {
    p + n <= |img| && Word(img[p..p + n]) == w
  }

  /** Block `b` is stored at `p` and does not end the walk. */
  ghost predicate BlockAt(img: Bytes, p: nat, b: Block) {
    0 < b.virtualAddress && BlockStored(img, p, b)
  }

  /** Block `b` is stored at `p`. */
  ghost predicate BlockStored(img: Bytes, p: nat, b: Block) {
    && 8 <= b.size && |b.entries| == (b.size - 8) / 2
    && WordAt(img, p, 4, b.virtualAddress) && WordAt(img, p + 4, 4, b.size)
    && forall j | 0 <= j < |b.entries| :: WordAt(img, p + 8 + 2 * j, 2, b.entries[j])
  }

  /** Where block `i` is in a table at `p`. */
  ghost function PosOf(p: nat, blocks: seq<Block>, i: nat): nat
    requires i <= |blocks|
  {
    if i == 0 then p else PosOf(p, blocks, i - 1) + blocks[i - 1].size
  }

  ghost predicate InPlace(img: Bytes, p: nat, blocks: seq<Block>, i: nat) {
    i < |blocks| && BlockAt(img, PosOf(p, blocks, i), blocks[i])
  }

  /** The blocks are stored one after the other from `p` on, and then comes a zero word. */
  ghost predicate TableAt(img: Bytes, p: nat, blocks: seq<Block>) {
    && (forall i | 0 <= i < |blocks| :: InPlace(img, p, blocks, i))
    && WordAt(img, PosOf(p, blocks, |blocks|), 4, 0)
  }

  /** The number of entries in the first `i` blocks. */
  ghost function First(blocks: seq<Block>, i: nat): nat
    requires i <= |blocks|
  {
    if i == 0 then 0 else First(blocks, i - 1) + |blocks[i - 1].entries|
  }

  /** Entry `j` of block `i` is about the site with its number. */
  ghost predicate Listed(blocks: seq<Block>, sites: seq<Site>, i: nat, j: nat)
    requires i < |blocks| && j < |blocks[i].entries|
  {
    && First(blocks, i) + j < |sites|
    && sites[First(blocks, i) + j] == SiteOf(blocks[i].virtualAddress, blocks[i].entries[j])
  }

  /** `sites` lists the sites of all entries in order. */
  ghost predicate Lists(blocks: seq<Block>, sites: seq<Site>) {
    && |sites| == First(blocks, |blocks|)
    && forall i, j | 0 <= i < |blocks| && 0 <= j < |blocks[i].entries| :: Listed(blocks, sites, i, j)
  }

  /** Site `t` has no byte in the table. */
  ghost predicate Outside(t: Site, p: nat, blocks: seq<Block>) {
    Width(t.kind) == 0 || t.at + Width(t.kind) <= p || PosOf(p, blocks, |blocks|) + 4 <= t.at
  }

  ghost predicate WellFormed(img: Bytes, p: nat, blocks: seq<Block>, sites: seq<Site>) {
    && TableAt(img, p, blocks) && Lists(blocks, sites) && SitesOk(sites, |img|)
    && forall i | 0 <= i < |sites| :: Outside(sites[i], p, blocks)
  }

  // ---- relocating leaves the table alone ----

  lemma {:induction false} PosGrows(p: nat, blocks: seq<Block>, i: nat, j: nat)
    requires i <= j <= |blocks|
    ensures PosOf(p, blocks, i) <= PosOf(p, blocks, j)
    ensures i < j ==> PosOf(p, blocks, i) + blocks[i].size <= PosOf(p, blocks, j)
    decreases j
  {
    if i < j { PosGrows(p, blocks, i, j - 1); }
  }

  lemma {:induction false} FirstGrows(blocks: seq<Block>, i: nat, j: nat)
    requires i <= j <= |blocks|
    ensures First(blocks, i) <= First(blocks, j)
  {
    if i < j { FirstGrows(blocks, i, j - 1); }
  }

  /** The images agree on the table. */
  ghost predicate SameTable(a: Bytes, b: Bytes, p: nat, blocks: seq<Block>) {
    |a| == |b| && forall k | p <= k < PosOf(p, blocks, |blocks|) + 4 && k < |a| :: a[k] == b[k]
  }

  lemma TableStays(before: Bytes, mid: Bytes, p: nat, blocks: seq<Block>, sites: seq<Site>, n: nat, delta: nat)
    requires WellFormed(before, p, blocks, sites) && n <= |sites| && delta < WORD && Done(before, mid, sites, n, delta)
    ensures SameTable(before, mid, p, blocks)
  {
    forall k | p <= k < PosOf(p, blocks, |blocks|) + 4 && k < |before| ensures before[k] == mid[k] {
      SiteStaysOut(p, blocks, sites, n, k);
      assert Kept(before, mid, sites, n, k);
    }
  }

  lemma SiteStaysOut(p: nat, blocks: seq<Block>, sites: seq<Site>, n: nat, k: nat)
    requires n <= |sites| && p <= k < PosOf(p, blocks, |blocks|) + 4
    requires forall i | 0 <= i < |sites| :: Outside(sites[i], p, blocks)
    ensures !Covered(sites, n, k)
  {
  }

  lemma WordStays(a: Bytes, b: Bytes, p: nat, blocks: seq<Block>, at: nat, n: nat, w: nat)
    requires SameTable(a, b, p, blocks) && p <= at && at + n <= PosOf(p, blocks, |blocks|) + 4 && WordAt(a, at, n, w)
    ensures WordAt(b, at, n, w)
  {
    assert b[at..at + n] == a[at..at + n];
  }

  /** Block `i` reads as before. */
  lemma BlockStays(a: Bytes, b: Bytes, p: nat, blocks: seq<Block>, i: nat)
    requires SameTable(a, b, p, blocks) && InPlace(a, p, blocks, i)
    ensures InPlace(b, p, blocks, i)
  {
    var at := PosOf(p, blocks, i);
    PosGrows(p, blocks, 0, i);
    PosGrows(p, blocks, i, |blocks|);
    WordStays(a, b, p, blocks, at, 4, blocks[i].virtualAddress);
    WordStays(a, b, p, blocks, at + 4, 4, blocks[i].size);
    forall j | 0 <= j < |blocks[i].entries| ensures WordAt(b, at + 8 + 2 * j, 2, blocks[i].entries[j]) {
      WordStays(a, b, p, blocks, at + 8 + 2 * j, 2, blocks[i].entries[j]);
    }
  }

  /** So does the whole table. */
  lemma TableReadsSame(before: Bytes, mid: Bytes, p: nat, blocks: seq<Block>, sites: seq<Site>, n: nat, delta: nat)
    requires WellFormed(before, p, blocks, sites) && n <= |sites| && delta < WORD && Done(before, mid, sites, n, delta)
    ensures TableAt(mid, p, blocks)
  {
    TableStays(before, mid, p, blocks, sites, n, delta);
    forall i | 0 <= i < |blocks| ensures InPlace(mid, p, blocks, i) {
      BlockStays(before, mid, p, blocks, i);
    }
    PosGrows(p, blocks, 0, |blocks|);
    WordStays(before, mid, p, blocks, PosOf(p, blocks, |blocks|), 4, 0);
  }

  // ---- the code ----

  function Load(image: array<byte>, at: nat, n: nat): nat
    requires at + n <= image.Length
    reads image
  {
    Word(image[at..at + n])
  }

  method Store(image: array<byte>, at: nat, n: nat, w: nat)
    requires at + n <= image.Length
    modifies image
    ensures image[at..at + n] == ToBytes(n, w)
    ensures forall k | 0 <= k < image.Length && !(at <= k < at + n) :: image[k] == old(image[k])
  {
    var bytes := ToBytes(n, w);
    for i := 0 to n
      invariant image[at..at + i] == bytes[..i]
      invariant forall k | 0 <= k < image.Length && !(at <= k < at + i) :: image[k] == old(image[k])
    {
      image[at + i] := bytes[i];
    }
  }

  /** The second instruction of a MOVW/MOVT pair. */
  method PatchMovt(image: array<byte>, at: nat, hiDelta: nat) returns (ok: bool)
    requires at + 4 <= image.Length
    modifies image
    ensures
      var r := Thumb.Raise(old(Load(image, at, 4)), hiDelta);
      ok == r.ok && image[at..at + 4] == ToBytes(4, r.word)
    ensures forall k | 0 <= k < image.Length && !(at <= k < at + 4) :: image[k] == old(image[k])
  {
    FourBytes(image[at..at + 4]);
    ok := true;
    if hiDelta != 0 {
      var inst := Load(image, at, 4);
      if !Thumb.IsMovt(inst) {
        return false;
      }
      var imm16 := Thumb.Imm(inst) + hiDelta;
      if imm16 > 0xffff {
        return false;
      }
      Store(image, at, 4, Thumb.WithImm(inst, imm16));
    }
  }

  /** The MOVW/MOVT case. */
  method PatchPair(image: array<byte>, at: nat, delta: nat) returns (ok: bool)
    requires at + 8 <= image.Length && delta < HALF
    modifies image
    ensures
      var r := Thumb.Relocate(old(Load(image, at, 4)), old(Load(image, at + 4, 4)), delta);
      ok == r.ok && image[at..at + 4] == ToBytes(4, r.movw) && image[at + 4..at + 8] == ToBytes(4, r.movt)
    ensures forall k | 0 <= k < image.Length && !(at <= k < at + 8) :: image[k] == old(image[k])
  {
    FourBytes(image[at..at + 4]);
    FourBytes(image[at + 4..at + 8]);
    var inst := Load(image, at, 4);
    if !Thumb.IsMovw(inst) {
      return false;
    }
    var imm16 := Thumb.Imm(inst) + delta % 0x1_0000;
    ghost var high := image[at + 4..at + 8];
    Store(image, at, 4, Thumb.WithImm(inst, imm16));
    assert image[at + 4..at + 8] == high;
    ghost var low := image[at..at + 4];
    assert Load(image, at + 4, 4) == Word(high);
    ok := PatchMovt(image, at + 4, delta / 0x1_0000 + imm16 / 0x1_0000);
    assert image[at..at + 4] == low;
  }

  /** Bytes of a pair. */
  lemma PairAt(img: Bytes, img': Bytes, at: nat, delta: nat, ok: bool)
    requires at + 8 <= |img| == |img'| && delta < WORD
    requires
      var r := Thumb.Relocate(Word(img[at..at + 4]), Word(img[at + 4..at + 8]), delta % HALF);
      ok == r.ok && img'[at..at + 4] == ToBytes(4, r.movw) && img'[at + 4..at + 8] == ToBytes(4, r.movt)
    ensures Patched(img'[at..at + 8], ok) == Patch(ThumbMov32, img[at..at + 8], delta)
  {
    var s := img[at..at + 8];
    assert s[..4] == img[at..at + 4] && s[4..] == img[at + 4..at + 8];
    assert img'[at..at + 8] == img'[at..at + 4] + img'[at + 4..at + 8];
  }

  method PatchPairAt(image: array<byte>, at: nat, delta: nat) returns (ok: bool)
    requires at + 8 <= image.Length && delta < WORD
    modifies image
    ensures Patched(Slice(image[..], Site(ThumbMov32, at)), ok) == PatchAt(old(image[..]), Site(ThumbMov32, at), delta)
    ensures forall k | 0 <= k < image.Length && !(at <= k < at + 8) :: image[k] == old(image[k])
  {
    ghost var before := image[..];
    ok := PatchPair(image, at, delta % HALF);
    PairAt(before, image[..], at, delta, ok);
  }

  /** Adding to the word at a site. */
  method AddAt(image: array<byte>, at: nat, n: nat, x: nat)
    requires at + n <= image.Length
    modifies image
    ensures image[at..at + n] == Added(old(image[at..at + n]), x)
    ensures forall k | 0 <= k < image.Length && !(at <= k < at + n) :: image[k] == old(image[k])
  {
    Store(image, at, n, Load(image, at, n) + x);
  }

  lemma AddedAt(before: Bytes, after: Bytes, t: Site, delta: nat)
    requires |before| == |after| && Adds(t.kind) && t.at + Width(t.kind) <= |before| && delta < WORD
    requires
      var e := t.at + Width(t.kind);
      after[t.at..e] == Added(before[t.at..e], Addend(t.kind, delta))
    ensures Patched(Slice(after, t), true) == PatchAt(before, t, delta)
  {
  }

  /** The switch over the relocation types. */
  method PatchSite(image: array<byte>, relType: nat, at: nat, delta: nat) returns (ok: bool)
    requires Fits(Site(KindOf(relType), at), image.Length) && delta < WORD
    modifies image
    ensures
      var t := Site(KindOf(relType), at);
      Patched(Slice(image[..], t), ok) == PatchAt(old(image[..]), t, delta)
    ensures forall k | 0 <= k < image.Length && !Within(Site(KindOf(relType), at), k) :: image[k] == old(image[k])
  {
    ghost var before := image[..];
    ok := true;
    if relType == 0 {
      AddedZero([]);
    } else if relType == 2 {
      AddAt(image, at, 2, delta % 0x1_0000);
      AddedAt(before, image[..], Site(Low, at), delta);
    } else if relType == 1 {
      AddAt(image, at, 2, delta % HALF / 0x1_0000);
      AddedAt(before, image[..], Site(High, at), delta);
    } else if relType == 3 {
      AddAt(image, at, 4, delta % HALF);
      AddedAt(before, image[..], Site(HighLow, at), delta);
    } else if relType == 10 {
      AddAt(image, at, 8, delta);
      AddedAt(before, image[..], Site(Dir64, at), delta);
    } else if relType == 7 {
      ok := PatchPairAt(image, at, delta);
    } else {
      ok := false;
    }
  }

  /** Where the walk over the table is: `done` sites of a well-formed image have been relocated. */
  ghost predicate Walking(
    before: Bytes, img: Bytes, p: nat, blocks: seq<Block>, sites: seq<Site>, done: nat, delta: nat)
  {
    && delta < WORD && WellFormed(before, p, blocks, sites) && done <= |sites|
    && Done(before, img, sites, done, delta) && AllOk(before, sites, done, delta)
  }

  /** The walk ended at a site that could not be relocated. */
  ghost predicate Failed(before: Bytes, img: Bytes, sites: seq<Site>, done: nat, delta: nat) {
    && SitesOk(sites, |before|) && delta < WORD && done < |sites|
    && AllOk(before, sites, done, delta) && !Succeeds(before, sites, done, delta)
    && Done(before, img, sites, done + 1, delta)
  }

  /** What the guard of the outer loop reads. */
  function Header(blocks: seq<Block>, i: nat): nat
    requires i <= |blocks|
  {
    if i < |blocks| then blocks[i].virtualAddress else 0
  }

  lemma LoadIs(image: array<byte>, at: nat, n: nat, w: nat)
    requires WordAt(image[..], at, n, w)
    ensures at + n <= image.Length && Load(image, at, n) == w
  {
    assert image[..][at..at + n] == image[at..at + n];
  }

  lemma ReadHeader(
    before: Bytes, image: array<byte>, p: nat, blocks: seq<Block>, sites: seq<Site>, done: nat, delta: nat, i: nat)
    requires Walking(before, image[..], p, blocks, sites, done, delta) && i <= |blocks|
    ensures PosOf(p, blocks, i) + 4 <= image.Length && Load(image, PosOf(p, blocks, i), 4) == Header(blocks, i)
    ensures i < |blocks| ==> 0 < Header(blocks, i)
  {
    TableReadsSame(before, image[..], p, blocks, sites, done, delta);
    HeaderLoads(image, p, blocks, i);
  }

  lemma HeaderLoads(image: array<byte>, p: nat, blocks: seq<Block>, i: nat)
    requires TableAt(image[..], p, blocks) && i <= |blocks|
    ensures PosOf(p, blocks, i) + 4 <= image.Length && Load(image, PosOf(p, blocks, i), 4) == Header(blocks, i)
    ensures i < |blocks| ==> 0 < Header(blocks, i)
  {
    assert i < |blocks| ==> InPlace(image[..], p, blocks, i);
    LoadIs(image, PosOf(p, blocks, i), 4, Header(blocks, i));
  }

  lemma ReadSize(
    before: Bytes, image: array<byte>, p: nat, blocks: seq<Block>, sites: seq<Site>, done: nat, delta: nat, i: nat)
    requires Walking(before, image[..], p, blocks, sites, done, delta) && i < |blocks|
    ensures PosOf(p, blocks, i) + 8 <= image.Length && Load(image, PosOf(p, blocks, i) + 4, 4) == blocks[i].size
    ensures 8 <= blocks[i].size && |blocks[i].entries| == (blocks[i].size - 8) / 2
  {
    TableReadsSame(before, image[..], p, blocks, sites, done, delta);
    SizeLoads(image, p, blocks, i);
  }

  lemma SizeLoads(image: array<byte>, p: nat, blocks: seq<Block>, i: nat)
    requires TableAt(image[..], p, blocks) && i < |blocks|
    ensures PosOf(p, blocks, i) + 8 <= image.Length && Load(image, PosOf(p, blocks, i) + 4, 4) == blocks[i].size
    ensures 8 <= blocks[i].size && |blocks[i].entries| == (blocks[i].size - 8) / 2
  {
    assert InPlace(image[..], p, blocks, i);
    LoadIs(image, PosOf(p, blocks, i) + 4, 4, blocks[i].size);
  }

  lemma ReadEntry(
    before: Bytes, image: array<byte>, p: nat, blocks: seq<Block>, sites: seq<Site>, done: nat, delta: nat, i: nat,
    j: nat)
    requires Walking(before, image[..], p, blocks, sites, done, delta) && i < |blocks| && j < |blocks[i].entries|
    ensures PosOf(p, blocks, i) + 8 + 2 * j + 2 <= image.Length
    ensures Load(image, PosOf(p, blocks, i) + 8 + 2 * j, 2) == blocks[i].entries[j]
  {
    TableReadsSame(before, image[..], p, blocks, sites, done, delta);
    assert InPlace(image[..], p, blocks, i);
    EntryLoads(image, PosOf(p, blocks, i), blocks[i], j);
  }

  lemma EntryLoads(image: array<byte>, at: nat, b: Block, j: nat)
    requires BlockAt(image[..], at, b) && j < |b.entries|
    ensures at + 8 + 2 * j + 2 <= image.Length && Load(image, at + 8 + 2 * j, 2) == b.entries[j]
  {
    LoadIs(image, at + 8 + 2 * j, 2, b.entries[j]);
  }

  lemma SiteIs(blocks: seq<Block>, sites: seq<Site>, i: nat, j: nat, n: nat)
    requires Lists(blocks, sites) && i < |blocks| && j < |blocks[i].entries| && n == First(blocks, i) + j
    ensures n < |sites| && sites[n] == SiteOf(blocks[i].virtualAddress, blocks[i].entries[j])
  {
    assert Listed(blocks, sites, i, j);
  }

  /** One entry of a block, which is about site `t`. */
  method PatchEntry(image: array<byte>, ghost t: Site, dest: nat, relInfo: nat, delta: nat) returns (ok: bool)
    requires t == SiteOf(dest, relInfo) && Fits(t, image.Length) && delta < WORD
    modifies image
    ensures Patched(Slice(image[..], t), ok) == PatchAt(old(image[..]), t, delta)
    ensures forall k | 0 <= k < image.Length && !Within(t, k) :: image[k] == old(image[k])
  {
    ok := PatchSite(image, relInfo / 0x1000, dest + relInfo % 0x1000, delta);
  }

  /** One entry of a block, which is about site `n`. */
  method RelocateEntry(
    image: array<byte>, ghost before: Bytes, ghost p: nat, ghost blocks: seq<Block>, ghost sites: seq<Site>,
    ghost n: nat, dest: nat, relInfo: nat, delta: nat)
    returns (ok: bool)
    requires n < |sites| && sites[n] == SiteOf(dest, relInfo)
    requires Walking(before, image[..], p, blocks, sites, n, delta)
    modifies image
    ensures ok ==> Walking(before, image[..], p, blocks, sites, n + 1, delta)
    ensures !ok ==> Failed(before, image[..], sites, n, delta)
  {
    ghost var mid := image[..];
    SiteFits(before, mid, p, blocks, sites, n, delta);
    ok := PatchEntry(image, sites[n], dest, relInfo, delta);
    EntryDone(before, mid, image[..], p, blocks, sites, n, delta, ok);
  }

  lemma SiteFits(before: Bytes, mid: Bytes, p: nat, blocks: seq<Block>, sites: seq<Site>, n: nat, delta: nat)
    requires n < |sites| && Walking(before, mid, p, blocks, sites, n, delta)
    ensures Fits(sites[n], |mid|)
  {
  }

  lemma EntryDone(
    before: Bytes, mid: Bytes, after: Bytes, p: nat, blocks: seq<Block>, sites: seq<Site>, n: nat, delta: nat, ok: bool)
    requires n < |sites| && Walking(before, mid, p, blocks, sites, n, delta) && |after| == |mid|
    requires Patched(Slice(after, sites[n]), ok) == PatchAt(mid, sites[n], delta)
    requires forall k | 0 <= k < |mid| && !Within(sites[n], k) :: after[k] == mid[k]
    ensures ok ==> Walking(before, after, p, blocks, sites, n + 1, delta)
    ensures !ok ==> Failed(before, after, sites, n, delta)
  {
    DoneStep(before, mid, after, sites, n, delta);
    assert Succeeds(before, sites, n, delta) == ok;
  }

  /** The loop over the entries of block `i`, which is at `hdr`. */
  method RelocateBlock(
    image: array<byte>, ghost before: Bytes, ghost p: nat, ghost blocks: seq<Block>, ghost sites: seq<Site>,
    ghost i: nat, hdr: nat, dest: nat, count: nat, delta: nat)
    returns (ok: bool, ghost done: nat)
    requires i < |blocks| && hdr == PosOf(p, blocks, i)
    requires dest == blocks[i].virtualAddress && count == |blocks[i].entries|
    requires Walking(before, image[..], p, blocks, sites, First(blocks, i), delta)
    modifies image
    ensures ok ==> done == First(blocks, i + 1) && Walking(before, image[..], p, blocks, sites, done, delta)
    ensures !ok ==> Failed(before, image[..], sites, done, delta)
  {
    done := First(blocks, i);
    for j := 0 to count
      invariant done == First(blocks, i) + j
      invariant Walking(before, image[..], p, blocks, sites, done, delta)
    {
      SiteIs(blocks, sites, i, j, done);
      ReadEntry(before, image, p, blocks, sites, done, delta, i, j);
      var relInfo := Load(image, hdr + 8 + 2 * j, 2);
      ok := RelocateEntry(image, before, p, blocks, sites, done, dest, relInfo, delta);
      if !ok {
        return;
      }
      done := done + 1;
    }
    ok := true;
  }

  /** The body of the loop over the blocks: relocates block `i`, which is at `hdr`, and finds the next. */
  method RelocateNext(
    image: array<byte>, ghost before: Bytes, ghost p: nat, ghost blocks: seq<Block>, ghost sites: seq<Site>,
    ghost i: nat, hdr: nat, delta: nat)
    returns (ok: bool, next: nat, ghost done: nat)
    requires i < |blocks| && hdr == PosOf(p, blocks, i)
    requires Walking(before, image[..], p, blocks, sites, First(blocks, i), delta)
    modifies image
    ensures ok ==> next == PosOf(p, blocks, i + 1)
    ensures ok ==> done == First(blocks, i + 1) && Walking(before, image[..], p, blocks, sites, done, delta)
    ensures !ok ==> Failed(before, image[..], sites, done, delta)
  {
    ReadHeader(before, image, p, blocks, sites, First(blocks, i), delta, i);
    ReadSize(before, image, p, blocks, sites, First(blocks, i), delta, i);
    var dest, size := Load(image, hdr, 4), Load(image, hdr + 4, 4);
    ok, done := RelocateBlock(image, before, p, blocks, sites, i, hdr, dest, (size - 8) / 2, delta);
    next := hdr + size;
  }

  /** The loop over the blocks. */
  method RelocateBlocks(
    image: array<byte>, directory: nat, delta: nat, ghost blocks: seq<Block>, ghost sites: seq<Site>)
    returns (ok: bool, ghost done: nat)
    requires Walking(image[..], image[..], directory, blocks, sites, 0, delta)
    modifies image
    ensures ok ==> Pass(old(image[..]), image[..], sites, delta)
    ensures !ok ==> Failed(old(image[..]), image[..], sites, done, delta)
  {
    ghost var before := image[..];
    var hdr := directory;
    ghost var i := 0;
    done := 0;
    ReadHeader(before, image, directory, blocks, sites, done, delta, i);
    while Load(image, hdr, 4) > 0
      invariant i <= |blocks| && hdr == PosOf(directory, blocks, i) && done == First(blocks, i)
      invariant Walking(before, image[..], directory, blocks, sites, done, delta)
      invariant hdr + 4 <= image.Length && Load(image, hdr, 4) == Header(blocks, i)
      invariant i < |blocks| ==> 0 < Header(blocks, i)
      decreases |blocks| - i
    {
      ok, hdr, done := RelocateNext(image, before, directory, blocks, sites, i, hdr, delta);
      if !ok {
        return;
      }
      i := i + 1;
      ReadHeader(before, image, directory, blocks, sites, done, delta, i);
    }
    ok := true;
    assert i == |blocks|;
    WalkIsPass(before, image[..], directory, blocks, sites, delta);
  }

  lemma WalkIsPass(before: Bytes, img: Bytes, p: nat, blocks: seq<Block>, sites: seq<Site>, delta: nat)
    requires Walking(before, img, p, blocks, sites, First(blocks, |blocks|), delta)
    ensures Pass(before, img, sites, delta)
  {
  }
}
