/**
 LoadLibrary of node/tun/wintun/memmod/memmod_windows.go from the size check to finalizeSections, in the
 order of the source: size check, reservation, 4 GB check, headers, sections, relocation, protection. What
 is promised here of a loaded image needs all of them.
 */
module Loader {
  import opened Arithmetic
  import opened Bits
  import opened Wire
  import opened Words
  import opened Image
  import opened Reservation
  import opened Relocation
  import opened RelocationPass
  import opened RelocationTable
  import opened RelocationDirectory
  import opened RelocationLaws
  import opened Sections
  import opened SectionPages

  /** What the file's headers say. */
  datatype Headers = Headers(
    imageBase: nat, sizeOfImage: nat, sizeOfHeaders: nat, alignment: nat, sections: seq<Section>,
    initialized: nat, uninitialized: nat, relocDirectory: nat, relocSize: nat)
  {
    function Size(): nat
      requires alignment < HALF
    {
      AlignUp(sizeOfImage, alignment)
    }

    /** Sections are in order, do not overlap, and are found in order. Any alignment will do. */
    ghost predicate WellFormed() {
      && alignment < HALF && imageBase < WORD && sizeOfImage < HALF
      && |sections| > 0 && SectionsOk(sections)
      && InOrder(sections, initialized, uninitialized) && NoneGoesBack(sections)
    }

    ghost predicate StartOnPages() {
      forall i | 0 <= i < |sections| :: sections[i].virtualAddress % PAGE == 0
    }
  }

  // ---- the image before relocation ----

  /** Zeroed memory with the headers copied to its start. */
  function WithHeaders(file: Bytes, h: Headers): (r: Bytes)
    requires h.alignment < HALF && h.sizeOfHeaders <= |file| && h.sizeOfHeaders <= h.Size()
    ensures |r| == h.Size()
  {
    seq(h.Size(), k requires 0 <= k < h.Size() => if k < h.sizeOfHeaders then file[k] else 0)
  }

  /** The file holds the headers and all sections. */
  ghost predicate FileComplete(file: Bytes, h: Headers) {
    && h.alignment < HALF && h.sizeOfHeaders <= |file| && h.sizeOfHeaders <= h.Size()
    && Copyable(file, h.sections, |h.sections|)
  }

  /** Headers and sections in place. */
  ghost function Layout(file: Bytes, h: Headers): (r: Bytes)
    requires FileComplete(file, h)
    ensures |r| == h.Size()
  {
    seq(h.Size(), k requires 0 <= k < h.Size() =>
      ByteAfter(WithHeaders(file, h), file, h.sections, h.alignment, |h.sections|, k))
  }

  /** The relocation table, if there is one, is in order in the image as laid out. */
  ghost predicate Relocatable(file: Bytes, h: Headers, blocks: seq<Block>, sites: seq<Site>) {
    FileComplete(file, h) && h.relocSize != 0 ==>
      RelocationTable.WellFormed(Layout(file, h), h.relocDirectory, blocks, sites)
  }

  // ---- what is promised of a loaded image ----

  /** How far the image was moved. */
  function Delta(codeBase: nat, imageBase: nat): nat
    requires imageBase < WORD
  {
    if codeBase >= imageBase then codeBase - imageBase else WORD - (imageBase - codeBase)
  }

  /** Moving the preferred base by the delta leads to where the image is. */
  lemma DeltaMovesBase(codeBase: nat, imageBase: nat)
    requires codeBase < WORD && imageBase < WORD
    ensures Delta(codeBase, imageBase) < WORD
    ensures (imageBase + Delta(codeBase, imageBase)) % 0x1_0000_0000_0000_0000 == codeBase
  {
  }

  /** The word at an entry of type 10 (DIR64) is as far from the base as it was from the preferred base. */
  ghost predicate PointerMoved(layout: Bytes, image: Bytes, v: nat, e: nat, imageBase: nat, base: nat) {
    var at := v + e % 0x1000;
    e / 0x1000 == 10 ==>
      && at + 8 <= |layout| == |image|
      && (Word(image[at..at + 8]) + imageBase) % 0x1_0000_0000_0000_0000
         == (Word(layout[at..at + 8]) + base) % 0x1_0000_0000_0000_0000
  }

  /** So are all of them. */
  ghost predicate PointersMoved(layout: Bytes, image: Bytes, blocks: seq<Block>, imageBase: nat, base: nat) {
    forall i, j | 0 <= i < |blocks| && 0 <= j < |blocks[i].entries| ::
      PointerMoved(layout, image, blocks[i].virtualAddress, blocks[i].entries[j], imageBase, base)
  }

  /** In particular a pointer to `x` in the file is one to `x` in the loaded image. */
  lemma PointerLoaded(w: nat, w': nat, imageBase: nat, base: nat, x: nat)
    requires w' < WORD && imageBase < WORD && base < WORD
    requires (w' + imageBase) % WORD == (w + base) % WORD && w == (imageBase + x) % WORD
    ensures w' == (base + x) % WORD
  {
    var y := (imageBase + x) % WORD;
    AddRemainder(base, imageBase + x, WORD);
    AddRemainder(imageBase, base + x, WORD);
    Cancel(imageBase, w', (base + x) % WORD);
  }

  lemma Cancel(a: nat, x: nat, y: nat)
    requires a < WORD && x < WORD && y < WORD && (x + a) % WORD == (a + y) % WORD
    ensures x == y
  {
  }

  lemma MovedByDelta(w: nat, w': nat, delta: nat, imageBase: nat, base: nat)
    requires base < WORD && w' == (w + delta) % WORD && (imageBase + delta) % WORD == base
    ensures (w' + imageBase) % WORD == (w + base) % WORD
  {
    AddRemainder(imageBase, w + delta, WORD);
    AddRemainder(w, imageBase + delta, WORD);
  }

  lemma PointersMove(
    layout: Bytes, image: Bytes, h: Headers, blocks: seq<Block>, sites: seq<Site>, base: nat)
    requires h.relocSize != 0 && h.imageBase < WORD && base < WORD
    requires RelocationTable.WellFormed(layout, h.relocDirectory, blocks, sites)
    requires Relocates(layout, image, h, sites, Delta(base, h.imageBase))
    ensures PointersMoved(layout, image, blocks, h.imageBase, base)
  {
    forall i, j | 0 <= i < |blocks| && 0 <= j < |blocks[i].entries|
      ensures PointerMoved(layout, image, blocks[i].virtualAddress, blocks[i].entries[j], h.imageBase, base)
    {
      PointerMoves(layout, image, h, blocks, sites, base, i, j);
    }
  }

  lemma PointerMoves(
    layout: Bytes, image: Bytes, h: Headers, blocks: seq<Block>, sites: seq<Site>, base: nat, i: nat, j: nat)
    requires h.relocSize != 0 && h.imageBase < WORD && base < WORD
    requires RelocationTable.WellFormed(layout, h.relocDirectory, blocks, sites)
    requires Relocates(layout, image, h, sites, Delta(base, h.imageBase))
    requires i < |blocks| && j < |blocks[i].entries|
    ensures PointerMoved(layout, image, blocks[i].virtualAddress, blocks[i].entries[j], h.imageBase, base)
  {
    var delta, v, e := Delta(base, h.imageBase), blocks[i].virtualAddress, blocks[i].entries[j];
    var at := v + e % 0x1000;
    DeltaMovesBase(base, h.imageBase);
    if e / 0x1000 == 10 {
      if delta == 0 {
        SiteIs(blocks, sites, i, j, First(blocks, i) + j);
        assert Fits(sites[First(blocks, i) + j], |layout|);
      } else {
        EntryApplied(layout, image, blocks, sites, delta, i, j);
        MovedByDelta(Word(layout[at..at + 8]), Word(image[at..at + 8]), delta, h.imageBase, base);
      }
    }
  }

  /** The image is the file's headers and sections in place, moved by the delta at the sites of the
      table and nowhere else. */
  ghost predicate Relocates(layout: Bytes, image: Bytes, h: Headers, sites: seq<Site>, delta: nat) {
    if delta == 0 || h.relocSize == 0 then image == layout else Pass(layout, image, sites, delta)
  }

  ghost predicate IsKept(s: Section, h: Headers) {
    DISCARDABLE !in s.characteristics && RealSectionSize(s, h.initialized, h.uninitialized) > 0
  }

  /** Address `x` lies in section `s`. */
  ghost predicate InImage(s: Section, h: Headers, codeBase: nat, x: nat) {
    codeBase + s.virtualAddress <= x < codeBase + s.virtualAddress + RealSectionSize(s, h.initialized, h.uninitialized)
  }

  /** The call touches every page of section `s` of the image at `codeBase`, and grants all it asks for. */
  ghost predicate Protects(c: Call, s: Section, h: Headers, codeBase: nat) {
    && Grants(c, s.characteristics)
    && forall x | InImage(s, h, codeBase, x) :: Touches(c.address, c.size, PAGE, x)
  }

  /** The call touches no page of section `s`. */
  ghost predicate Spares(c: Call, s: Section, h: Headers, codeBase: nat) {
    forall x | InImage(s, h, codeBase, x) :: !Touches(c.address, c.size, PAGE, x)
  }

  /** One call protects section `s`, and no other call, decommit or protection, touches a page of it. */
  ghost predicate IsSafe(calls: seq<Call>, s: Section, h: Headers, codeBase: nat) {
    exists c ::
      && c in calls && Protects(c, s, h, codeBase)
      && forall d | d in calls && d != c :: Spares(d, s, h, codeBase)
  }

  ghost predicate SectionsSafe(calls: seq<Call>, h: Headers, codeBase: nat) {
    forall i | 0 <= i < |h.sections| && IsKept(h.sections[i], h) :: IsSafe(calls, h.sections[i], h, codeBase)
  }

  lemma CallsAreSafe(
    h: Headers, codeBase: nat, pieces: seq<Piece>, starts: seq<nat>, cuts: seq<nat>, i: nat)
    requires 0 < h.alignment && |pieces| == |h.sections| && Recorded(pieces, starts, PAGE)
    requires Partition(pieces, cuts, |pieces|) && RunsSeparate(pieces, starts, cuts, PAGE)
    requires forall j | 0 <= j < |pieces| :: Reaches(pieces, starts, PAGE, j)
    requires i < |pieces| && IsKept(h.sections[i], h)
    requires starts[i] == codeBase + h.sections[i].virtualAddress
    requires pieces[i].size == RealSectionSize(h.sections[i], h.initialized, h.uninitialized)
    requires pieces[i].flags == h.sections[i].characteristics
    ensures IsSafe(AllCalls(pieces, h.alignment, cuts), h.sections[i], h, codeBase)
  {
    var a, s := h.alignment, h.sections[i];
    var t, c := KeptIsProtected(pieces, starts, a, cuts, PAGE, i);
    KeptIsReached(pieces, starts, a, cuts, PAGE, t, c, i);
    forall x | InImage(s, h, codeBase, x) ensures Touches(c.address, c.size, PAGE, x) {
      assert InSection(pieces, starts, i, x);
    }
    assert Protects(c, s, h, codeBase);
    forall d | d in AllCalls(pieces, a, cuts) && d != c ensures Spares(d, s, h, codeBase) {
      OthersSpare(h, codeBase, pieces, starts, cuts, i, t, c, d);
    }
  }

  lemma OthersSpare(
    h: Headers, codeBase: nat, pieces: seq<Piece>, starts: seq<nat>, cuts: seq<nat>, i: nat, t: nat, c: Call, d: Call)
    requires 0 < h.alignment && |pieces| == |h.sections| && Recorded(pieces, starts, PAGE)
    requires Partition(pieces, cuts, |pieces|) && RunsSeparate(pieces, starts, cuts, PAGE)
    requires t < |cuts| && CallsAt(pieces, h.alignment, cuts, t) == [c]
    requires i < |pieces| && Belongs(cuts, t, i, |pieces|)
    requires starts[i] == codeBase + h.sections[i].virtualAddress
    requires pieces[i].size == RealSectionSize(h.sections[i], h.initialized, h.uninitialized)
    requires d in AllCalls(pieces, h.alignment, cuts) && d != c
    ensures Spares(d, h.sections[i], h, codeBase)
  {
    forall x, y | InImage(h.sections[i], h, codeBase, x) && d.address <= y < d.address + d.size
      ensures !SamePage(x, y, PAGE)
    {
      assert InSection(pieces, starts, i, x);
      OtherCallsStayAway(pieces, starts, h.alignment, cuts, PAGE, t, c, d, i, x, y);
    }
  }

  // ---- the steps after the reservation ----

  /** Commits and copies the headers, then the sections. */
  method LayOut(file: Bytes, h: Headers, codeBase: nat, headersOk: bool, commitOk: seq<bool>)
    returns (ok: bool, image: array<byte>, placed: seq<Section>)
    requires h.alignment < HALF && |commitOk| == |h.sections| && AllWithin(h.sections, h.alignment, h.Size())
    ensures fresh(image) && |placed| == |h.sections|
    ensures ok ==> FileComplete(file, h) && image[..] == Layout(file, h)
    ensures ok ==> forall i | 0 <= i < |placed| ::
      placed[i] == h.sections[i].(physical := Placed(codeBase, h.sections[i], h.alignment))
    ensures !ok ==> !headersOk || false in commitOk || !FileComplete(file, h)
  {
    var size := h.Size();
    image, placed, ok := new byte[size](_ => 0), h.sections, false;
    // Memory beyond the reserved block cannot be committed.
    if |file| < h.sizeOfHeaders || !headersOk || size < h.sizeOfHeaders { return; }
    for k := 0 to h.sizeOfHeaders
      invariant forall j | 0 <= j < size :: image[j] == if j < k then file[j] else 0
    {
      image[k] := file[k];
    }
    assert image[..] == WithHeaders(file, h);
    var done;
    done, placed := CopySections(image, codeBase, file, h.sections, h.alignment, commitOk);
    ok := done == |h.sections|;
    if ok {
      assert image[..] == Layout(file, h);
    } else {
      assert !Copies(file, h.sections[done], h.alignment, commitOk[done]);
      assert commitOk[done] in commitOk;
    }
  }

  /** No relocation that is needed meets an error. */
  ghost predicate CanMove(file: Bytes, h: Headers, sites: seq<Site>, codeBase: nat)
    requires FileComplete(file, h) && h.imageBase < WORD
  {
    var delta := Delta(codeBase, h.imageBase);
    delta != 0 && h.relocSize != 0 ==>
      delta < WORD && SitesOk(sites, h.Size()) && AllOk(Layout(file, h), sites, |sites|, delta)
  }

  /** Relocates the image if it is not where it wants to be. `ok` is false if that met an error. */
  method Move(
    image: array<byte>, file: Bytes, h: Headers, codeBase: nat, ghost blocks: seq<Block>, ghost sites: seq<Site>)
    returns (ok: bool, relocated: bool)
    requires FileComplete(file, h) && image[..] == Layout(file, h) && Relocatable(file, h, blocks, sites)
    requires codeBase < WORD && h.imageBase < WORD
    modifies image
    ensures ok ==> Relocates(Layout(file, h), image[..], h, sites, Delta(codeBase, h.imageBase))
    ensures ok && h.relocSize != 0 ==> PointersMoved(Layout(file, h), image[..], blocks, h.imageBase, codeBase)
    ensures ok ==> (relocated <==> h.relocSize != 0 || Delta(codeBase, h.imageBase) == 0)
    ensures ok <==> CanMove(file, h, sites, codeBase)
  {
    var delta := Delta(codeBase, h.imageBase);
    ok, relocated := true, true;
    if delta != 0 {
      ghost var done;
      relocated, ok, done := PerformBaseRelocation(image, h.relocDirectory, h.relocSize, delta, blocks, sites);
    }
    if ok && h.relocSize != 0 {
      PointersMove(Layout(file, h), image[..], h, blocks, sites, codeBase);
    }
  }

  /** Protects the sections of the image at `codeBase`. If they start on pages, each that is kept is then
      safe; what happens otherwise is in SectionPages.dfy. */
  method Protect(h: Headers, placed: seq<Section>, codeBase: nat, protectOk: Call -> bool)
    returns (ok: bool, calls: seq<Call>)
    requires h.WellFormed() && h.alignment > 0
    requires Usable(codeBase, h.Size()) && !CrossesBoundary(codeBase, h.Size())
    requires AllWithin(h.sections, h.alignment, h.Size()) && |placed| == |h.sections|
    requires forall i | 0 <= i < |placed| ::
      placed[i] == h.sections[i].(physical := Placed(codeBase, h.sections[i], h.alignment))
    ensures ok == AllSucceed(calls, protectOk)
    ensures ok && h.StartOnPages() ==> SectionsSafe(calls, h, codeBase)
  {
    ghost var pieces, starts :=
      PlacedPieces(h.sections, placed, codeBase, h.Size(), h.alignment, h.initialized, h.uninitialized);
    ghost var cuts;
    ok, calls, cuts :=
      FinalizeSections(placed, pieces, codeBase, h.alignment, h.initialized, h.uninitialized, protectOk);
    if ok && h.StartOnPages() {
      OnPagesSuffices(pieces, starts, h.alignment, cuts, PAGE);
      forall i | 0 <= i < |h.sections| && IsKept(h.sections[i], h)
        ensures IsSafe(calls, h.sections[i], h, codeBase)
      {
        CallsAreSafe(h, codeBase, pieces, starts, cuts, i);
      }
    }
  }

  /** What the system and the parts of LoadLibrary outside this model answer. */
  datatype Answers = Answers(headersOk: bool, commitOk: seq<bool>, importsOk: bool, protectOk: Call -> bool) {
    ghost predicate AllGranted() {
      headersOk && importsOk && false !in commitOk && forall c :: protectOk(c)
    }
  }

  /** LoadLibrary. After a success the image lies at a block of its own within 4 GB, holds the file's
      headers and sections moved to where they are and, if its sections start on pages, is protected section
      by section. After a failure, for which there is always one of the reasons listed, nothing is reserved
      that was not before. `base` is where the image was put, if it was. */
  method LoadLibrary(
    system: System, m: Module, file: Bytes, h: Headers, answers: Answers,
    ghost blocks: seq<Block>, ghost sites: seq<Site>)
    returns (ok: bool, image: array?<byte>, calls: seq<Call>, ghost base: nat)
    requires h.WellFormed() && |answers.commitOk| == |h.sections| && Relocatable(file, h, blocks, sites)
    requires m.codeBase == 0 && m.blockedMemory == Nil
    modifies system, m
    ensures ok ==> m.Accounts(system, old(system.reserved)) && system.released == old(system.released)
    ensures ok ==> m.codeBase == base && Usable(base, h.Size()) && !CrossesBoundary(base, h.Size())
    ensures ok ==> AllWithin(h.sections, h.alignment, h.Size()) && FileComplete(file, h)
    ensures ok ==> image != null && fresh(image)
    ensures ok ==> Relocates(Layout(file, h), image[..], h, sites, Delta(base, h.imageBase))
    ensures ok && h.relocSize != 0 ==> PointersMoved(Layout(file, h), image[..], blocks, h.imageBase, base)
    ensures ok ==> AllSucceed(calls, answers.protectOk)
    ensures ok && h.StartOnPages() ==> SectionsSafe(calls, h, base)
    ensures !ok ==> m.Blocks() == [] && system.reserved == old(system.reserved)
    ensures !ok ==>
      || h.alignment % 2 != 0 || !SizeFits(h.sections, h.sizeOfImage, h.alignment)
      || system.refusals > old(system.refusals) || !answers.AllGranted() || !FileComplete(file, h)
      || (Usable(base, h.Size()) && !CanMove(file, h, sites, base))
  {
    ok, image, calls, base := false, null, [], 0;
    if h.alignment % 2 != 0 { return; }
    var fits, size := ImageSize(h.sections, h.sizeOfImage, h.alignment);
    if !fits { return; }
    ghost var others := system.reserved;
    ok := m.Reserve(system, size);
    if ok {
      base := m.codeBase;
      ok, image, calls := Populate(m.codeBase, file, h, answers, blocks, sites);
    }
    if !ok {
      m.Free(system, others);
    }
  }

  /** Everything between the reservation and the entry point. */
  method Populate(
    codeBase: nat, file: Bytes, h: Headers, answers: Answers, ghost blocks: seq<Block>, ghost sites: seq<Site>)
    returns (ok: bool, image: array<byte>, calls: seq<Call>)
    requires h.WellFormed() && |answers.commitOk| == |h.sections| && Relocatable(file, h, blocks, sites)
    requires h.alignment > 0 && Usable(codeBase, h.Size()) && !CrossesBoundary(codeBase, h.Size())
    requires AllWithin(h.sections, h.alignment, h.Size())
    ensures fresh(image)
    ensures ok ==> FileComplete(file, h)
    ensures ok ==> Relocates(Layout(file, h), image[..], h, sites, Delta(codeBase, h.imageBase))
    ensures ok && h.relocSize != 0 ==> PointersMoved(Layout(file, h), image[..], blocks, h.imageBase, codeBase)
    ensures ok ==> AllSucceed(calls, answers.protectOk)
    ensures ok && h.StartOnPages() ==> SectionsSafe(calls, h, codeBase)
    ensures !ok ==> !answers.AllGranted() || !FileComplete(file, h) || !CanMove(file, h, sites, codeBase)
  {
    calls := [];
    var placed;
    ok, image, placed := LayOut(file, h, codeBase, answers.headersOk, answers.commitOk);
    if !ok { return; }
    var relocated;
    ok, relocated := Move(image, file, h, codeBase, blocks, sites);
    if !ok || !answers.importsOk { ok := false; return; }
    ok, calls := Protect(h, placed, codeBase, answers.protectOk);
  }

  /** What that means for a byte of a section that does not overlap the others: unless a relocation covers
      it, the loaded image holds the file's byte there, or zero if the file has none. */
  lemma SectionByteLoaded(file: Bytes, h: Headers, image: Bytes, sites: seq<Site>, delta: nat, i: nat, j: nat)
    requires FileComplete(file, h) && Relocates(Layout(file, h), image, h, sites, delta)
    requires AllWithin(h.sections, h.alignment, h.Size())
    requires i < |h.sections|
    requires j < if h.sections[i].sizeOfRawData == 0 then h.alignment else h.sections[i].sizeOfRawData
    requires forall m | i < m < |h.sections| :: Apart(h.sections[i], h.sections[m], h.alignment)
    requires delta != 0 && h.relocSize != 0 ==> !Covered(sites, |sites|, h.sections[i].virtualAddress + j)
    ensures
      var s := h.sections[i];
      && s.virtualAddress + j < |image|
      && (s.sizeOfRawData == 0 ==> image[s.virtualAddress + j] == 0)
      && (s.sizeOfRawData != 0 ==>
            && s.pointerToRawData + j < |file|
            && image[s.virtualAddress + j] == file[s.pointerToRawData + j])
  {
    var layout, s, k := Layout(file, h), h.sections[i], h.sections[i].virtualAddress + j;
    SectionIsCopied(WithHeaders(file, h), file, h.sections, h.alignment, |h.sections|, i, k);
    assert layout[k] == ByteFor(file, s, h.alignment, k);
    OutsideSites(layout, image, h, sites, delta, k);
  }

  /** A byte of the headers that no section and no relocation covers is the file's byte; one behind the
      headers is zero. */
  lemma HeaderByteLoaded(file: Bytes, h: Headers, image: Bytes, sites: seq<Site>, delta: nat, k: nat)
    requires FileComplete(file, h) && Relocates(Layout(file, h), image, h, sites, delta)
    requires k < h.Size() && forall i | 0 <= i < |h.sections| :: !Covers(h.sections[i], h.alignment, k)
    requires delta != 0 && h.relocSize != 0 ==> !Covered(sites, |sites|, k)
    ensures k < |image| && (k < h.sizeOfHeaders ==> image[k] == file[k]) && (k >= h.sizeOfHeaders ==> image[k] == 0)
  {
    RestIsUntouched(WithHeaders(file, h), file, h.sections, h.alignment, |h.sections|, k);
    OutsideSites(Layout(file, h), image, h, sites, delta, k);
  }

  lemma OutsideSites(layout: Bytes, image: Bytes, h: Headers, sites: seq<Site>, delta: nat, k: nat)
    requires Relocates(layout, image, h, sites, delta) && k < |layout|
    requires delta != 0 && h.relocSize != 0 ==> !Covered(sites, |sites|, k)
    ensures k < |image| && image[k] == layout[k]
  {
    if delta != 0 && h.relocSize != 0 {
      assert RelocationPass.Kept(layout, image, sites, |sites|, k);
    }
  }
}
