/**
 Laying out the image on a 64-bit system (node/tun/wintun/memmod): the size check of LoadLibrary,
 copySections, and the 32-bit section addresses that are expanded again later. The file headers are
 assumed to be well-formed to the extent that pointer plus size of a section does not wrap.
 */
module Image {
  import opened Arithmetic
  import opened Bits
  import opened Wire

  const PAGE: nat := 0x1000

  /** A 32-bit word of flags as the set of its one-bits: `|` is union and `&^` is difference. */
  type Flags = set<nat>

  /** A section header. `physical` is the field shared by VirtualSize and PhysicalAddress. */
  datatype Section = Section(
    physical: nat, virtualAddress: nat, sizeOfRawData: nat, pointerToRawData: nat, characteristics: Flags)

  ghost predicate SectionOk(s: Section) {
    && s.physical < HALF && s.virtualAddress < HALF && s.sizeOfRawData < HALF
    && s.pointerToRawData + s.sizeOfRawData < HALF
  }

  ghost predicate SectionsOk(sections: seq<Section>) {
    forall i | 0 <= i < |sections| :: SectionOk(sections[i])
  }

  /** The bytes a section occupies in memory: one alignment unit when the file has no data for it. */
  function MemorySize(s: Section, alignment: nat): nat {
    if s.sizeOfRawData == 0 then alignment else s.sizeOfRawData
  }

  function EndOf(s: Section, alignment: nat): nat {
    s.virtualAddress + MemorySize(s, alignment)
  }

  /** The loop of LoadLibrary over the sections: the greatest section end. */
  method LastSectionEnd(sections: seq<Section>, alignment: nat) returns (last: nat)
    ensures IsLastEnd(sections, alignment, last)
  {
    last := 0;
    for i := 0 to |sections|
      invariant forall j | 0 <= j < i :: EndOf(sections[j], alignment) <= last
      invariant last == 0 || exists j :: 0 <= j < i && EndOf(sections[j], alignment) == last
    {
      var endOfSection := sections[i].virtualAddress +
        if sections[i].sizeOfRawData == 0 then alignment else sections[i].sizeOfRawData;
      if endOfSection > last {
        last := endOfSection;
      }
    }
  }

  /** The size check of LoadLibrary: the image size it will reserve, if the check passes. A passed check
      means that all sections lie within the image, exactly when the alignment is not zero or there is
      nothing to place; with zero alignment it always passes. */
  method ImageSize(sections: seq<Section>, sizeOfImage: nat, alignment: nat) returns (ok: bool, size: nat)
    requires SectionsOk(sections) && sizeOfImage < HALF && alignment < HALF
    ensures size == AlignUp(sizeOfImage, alignment)
    ensures alignment == 0 ==> ok && size == 0
    ensures ok ==> (AllWithin(sections, alignment, size) <==> alignment != 0 || AllEmpty(sections))
    ensures ok <==> SizeFits(sections, sizeOfImage, alignment)
  {
    var last := LastSectionEnd(sections, alignment);
    size := AlignUp(sizeOfImage, alignment);
    ok := size == AlignUp(last, alignment);
    assert IsLastEnd(sections, alignment, last);
    forall other | IsLastEnd(sections, alignment, other) ensures other == last {
      LastEndIsUnique(sections, alignment, other, last);
    }
    if alignment == 0 {
      AlignUpZero(sizeOfImage);
      AlignUpZero(last);
    } else if ok {
      assert last + alignment <= WORD;
      AlignUpBounds(last, alignment);
    }
  }

  /** The size of the image and the end of the last section round up to the same. */
  ghost predicate SizeFits(sections: seq<Section>, sizeOfImage: nat, alignment: nat)
    requires alignment < WORD
  {
    exists last :: IsLastEnd(sections, alignment, last) && AlignUp(last, alignment) == AlignUp(sizeOfImage, alignment)
  }

  lemma LastEndIsUnique(sections: seq<Section>, alignment: nat, a: nat, b: nat)
    requires IsLastEnd(sections, alignment, a) && IsLastEnd(sections, alignment, b)
    ensures a == b
  {
  }

  /** All sections end within `size` bytes. */
  ghost predicate AllWithin(sections: seq<Section>, alignment: nat, size: nat) {
    forall i | 0 <= i < |sections| :: EndOf(sections[i], alignment) <= size
  }

  /** All sections are at the start of the image and have no data. */
  ghost predicate AllEmpty(sections: seq<Section>) {
    forall i | 0 <= i < |sections| :: sections[i].virtualAddress == 0 && sections[i].sizeOfRawData == 0
  }

  ghost predicate IsLastEnd(sections: seq<Section>, alignment: nat, last: nat) {
    && AllWithin(sections, alignment, last)
    && (last == 0 || exists i :: 0 <= i < |sections| && EndOf(sections[i], alignment) == last)
  }

  /** With zero alignment the check accepts anything: here a section of 4096 bytes in an image for which
      no byte will be reserved. */
  lemma ZeroAlignmentDefeatsCheck(sizeOfImage: nat) returns (s: Section)
    ensures SectionOk(s)
    ensures AlignUp(sizeOfImage, 0) == AlignUp(EndOf(s, 0), 0) < EndOf(s, 0)
  {
    s := Section(0, 0, 0x1000, 0, {});
    AlignUpZero(sizeOfImage);
    AlignUpZero(EndOf(s, 0));
  }

  // ---- copySections ----

  /** The file holds all of the section's data. */
  predicate Complete(file: Bytes, s: Section) {
    s.sizeOfRawData == 0 || s.pointerToRawData + s.sizeOfRawData <= |file|
  }

  /** Byte `k` of the image lies in the memory of section `s`. */
  predicate Covers(s: Section, alignment: nat, k: nat) {
    s.virtualAddress <= k < EndOf(s, alignment)
  }

  /** The byte that section `s` gives to place `k` of its memory. */
  function ByteFor(file: Bytes, s: Section, alignment: nat, k: nat): byte
    requires Complete(file, s) && Covers(s, alignment, k)
  {
    if s.sizeOfRawData == 0 then 0 else file[s.pointerToRawData + (k - s.virtualAddress)]
  }

  /** The data of the first `n` sections is in the file. */
  ghost predicate Copyable(file: Bytes, sections: seq<Section>, n: nat) {
    n <= |sections| && forall i | 0 <= i < n :: Complete(file, sections[i])
  }

  /** Byte `k` of the image after copying the first `n` sections: the last one that covers it decides. */
  function ByteAfter(img: Bytes, file: Bytes, sections: seq<Section>, alignment: nat, n: nat, k: nat): byte
    requires Copyable(file, sections, n) && k < |img|
  {
    if n == 0 then img[k]
    else if Covers(sections[n - 1], alignment, k) then ByteFor(file, sections[n - 1], alignment, k)
    else ByteAfter(img, file, sections, alignment, n - 1, k)
  }

  /** Where copySections says a section is: for data, the page that VirtualAlloc reports. */
  function Placed(codeBase: nat, s: Section, alignment: nat): nat {
    if s.sizeOfRawData == 0 then
      if alignment == 0 then s.physical else (codeBase + s.virtualAddress) % HALF
    else AlignDown(codeBase + s.virtualAddress, PAGE) % HALF
  }

  /** Committing and filling one section. */
  method CopySection(image: array<byte>, codeBase: nat, file: Bytes, s: Section, alignment: nat, commitOk: bool)
    returns (ok: bool, placed: Section)
    requires EndOf(s, alignment) <= image.Length
    modifies image
    ensures ok <==> Copies(file, s, alignment, commitOk)
    ensures ok ==> placed == s.(physical := Placed(codeBase, s, alignment))
    ensures forall k | 0 <= k < image.Length ::
      image[k] == if ok && Covers(s, alignment, k) then ByteFor(file, s, alignment, k) else old(image[k])
  {
    ok, placed := true, s;
    if s.sizeOfRawData == 0 {
      if alignment == 0 { return; }
      if !commitOk { ok := false; return; }
      placed := s.(physical := (codeBase + s.virtualAddress) % HALF);
      for j := 0 to alignment
        invariant forall k | 0 <= k < image.Length ::
          image[k] == if s.virtualAddress <= k < s.virtualAddress + j then 0 else old(image[k])
      {
        image[s.virtualAddress + j] := 0;
      }
    } else {
      if |file| < s.pointerToRawData + s.sizeOfRawData { ok := false; return; }
      if !commitOk { ok := false; return; }
      for j := 0 to s.sizeOfRawData
        invariant forall k | 0 <= k < image.Length ::
          image[k] == if s.virtualAddress <= k < s.virtualAddress + j
                      then file[s.pointerToRawData + (k - s.virtualAddress)] else old(image[k])
      {
        image[s.virtualAddress + j] := file[s.pointerToRawData + j];
      }
      placed := s.(physical := AlignDown(codeBase + s.virtualAddress, PAGE) % HALF);
    }
  }

  /** The section is copied: its data is all there and its memory could be committed, or it needs none. */
  predicate Copies(file: Bytes, s: Section, alignment: nat, commitOk: bool) {
    Complete(file, s) && (commitOk || (s.sizeOfRawData == 0 && alignment == 0))
  }

  /** copySections. `commitOk` gives the outcome of each VirtualAlloc. On an error, `done` sections have
      been copied. That no write leaves the image is checked at every write. */
  method CopySections(
    image: array<byte>, codeBase: nat, file: Bytes, sections: seq<Section>, alignment: nat, commitOk: seq<bool>)
    returns (done: nat, placed: seq<Section>)
    requires |commitOk| == |sections|
    requires forall i | 0 <= i < |sections| :: EndOf(sections[i], alignment) <= image.Length
    modifies image
    ensures done <= |sections| == |placed|
    ensures forall i | 0 <= i < done :: Copies(file, sections[i], alignment, commitOk[i])
    ensures done < |sections| ==> !Copies(file, sections[done], alignment, commitOk[done])
    ensures Copyable(file, sections, done)
    ensures forall k | 0 <= k < image.Length ::
      image[k] == ByteAfter(old(image[..]), file, sections, alignment, done, k)
    ensures forall i | 0 <= i < done :: placed[i] == sections[i].(physical := Placed(codeBase, sections[i], alignment))
  {
    placed, done := sections, 0;
    ghost var initial := image[..];
    while done < |sections|
      invariant done <= |sections| == |placed|
      invariant forall i | 0 <= i < done :: Copies(file, sections[i], alignment, commitOk[i])
      invariant Copyable(file, sections, done)
      invariant forall k | 0 <= k < image.Length ::
        image[k] == ByteAfter(initial, file, sections, alignment, done, k)
      invariant forall i | 0 <= i < done ::
        placed[i] == sections[i].(physical := Placed(codeBase, sections[i], alignment))
    {
      var ok, p := CopySection(image, codeBase, file, sections[done], alignment, commitOk[done]);
      if !ok { return; }
      placed := placed[done := p];
      done := done + 1;
    }
  }

  /** Sections that do not overlap in memory. */
  ghost predicate Apart(s: Section, t: Section, alignment: nat) {
    EndOf(s, alignment) <= t.virtualAddress || EndOf(t, alignment) <= s.virtualAddress
  }

  /** Copying non-overlapping sections: each ends up with its own bytes of the file, or with zeros,
      whatever was copied after it. */
  lemma {:induction false} SectionIsCopied(
    img: Bytes, file: Bytes, sections: seq<Section>, alignment: nat, n: nat, i: nat, k: nat)
    requires Copyable(file, sections, n) && k < |img|
    requires i < n && Covers(sections[i], alignment, k)
    requires forall m | i < m < n :: Apart(sections[i], sections[m], alignment)
    ensures ByteAfter(img, file, sections, alignment, n, k) == ByteFor(file, sections[i], alignment, k)
    ensures
      var s, b := sections[i], ByteAfter(img, file, sections, alignment, n, k);
      && (s.sizeOfRawData == 0 ==> b == 0)
      && (s.sizeOfRawData != 0 ==>
            && s.pointerToRawData + (k - s.virtualAddress) < |file|
            && b == file[s.pointerToRawData + (k - s.virtualAddress)])
  {
    if i < n - 1 {
      assert Apart(sections[i], sections[n - 1], alignment);
      SectionIsCopied(img, file, sections, alignment, n - 1, i, k);
    }
  }

  /** Memory outside all sections is untouched. */
  lemma {:induction false} RestIsUntouched(
    img: Bytes, file: Bytes, sections: seq<Section>, alignment: nat, n: nat, k: nat)
    requires Copyable(file, sections, n)
    requires k < |img| && forall i | 0 <= i < n :: !Covers(sections[i], alignment, k)
    ensures ByteAfter(img, file, sections, alignment, n, k) == img[k]
  {
    if n > 0 { RestIsUntouched(img, file, sections, alignment, n - 1, k); }
  }

  // ---- 32-bit section addresses ----

  function ImageOffset(imageBase: nat): nat {
    And(imageBase, 0xffff_ffff_0000_0000)
  }

  /** The guard of the loop in check4GBBoundaries. */
  predicate CrossesBoundary(codeBase: nat, size: nat) {
    codeBase / HALF < (codeBase + size) % WORD / HALF
  }

  lemma HalfIsPow2()
    ensures Pow2(32) == HALF
  {
    Pow2Constants();
  }

  lemma ImageOffsetIsHighHalf(base: nat)
    requires base < WORD
    ensures ImageOffset(base) == base - base % HALF
  {
    ClearBits(base, HALF - 1);
    HalfIsPow2();
    AndLowBits(base, 32);
  }

  /** Keeping the low 32 bits of an address and OR-ing in the high half of the base gives it back. */
  predicate Lossless(base: nat, address: nat) {
    Or(address % HALF, ImageOffset(base)) == address
  }

  /** That is so exactly when both lie in the same 4 GB. */
  lemma LosslessExactly(base: nat, address: nat)
    requires base < WORD && address < WORD
    ensures Lossless(base, address) <==> address / HALF == base / HALF
  {
    ImageOffsetIsHighHalf(base);
    FloorBounds(base, HALF);
    HalfIsPow2();
    OrDisjoint(address % HALF, base - base % HALF, 32);
  }

  lemma SameHalf(codeBase: nat, size: nat, address: nat)
    requires codeBase + size < WORD && codeBase <= address <= codeBase + size && !CrossesBoundary(codeBase, size)
    ensures address / HALF == codeBase / HALF
  {
  }

  /** So truncate-then-expand is lossless for every address from the start of the image to its end, the
      address behind the last byte included, exactly when the 4 GB check lets the base pass. */
  lemma LosslessIffCheckPasses(codeBase: nat, size: nat)
    requires codeBase + size < WORD
    ensures (forall address | codeBase <= address <= codeBase + size :: Lossless(codeBase, address))
            <==> !CrossesBoundary(codeBase, size)
  {
    if CrossesBoundary(codeBase, size) {
      LosslessExactly(codeBase, codeBase + size);
      assert !Lossless(codeBase, codeBase + size);
    } else {
      forall address | codeBase <= address <= codeBase + size ensures Lossless(codeBase, address) {
        SameHalf(codeBase, size, address);
        LosslessExactly(codeBase, address);
      }
    }
  }

  /** The bytes alone: they are all lossless exactly when the check passes or the image ends on the first
      4 GB boundary after its start, in which case the check is stricter than it need be. */
  lemma BytesLosslessExactly(codeBase: nat, size: nat)
    requires codeBase + size < WORD && size > 0
    ensures (forall address | codeBase <= address < codeBase + size :: Lossless(codeBase, address))
            <==> !CrossesBoundary(codeBase, size) || codeBase + size == (codeBase / HALF + 1) * HALF
  {
    LastByte(codeBase, size);
    var last := codeBase + (size - 1);
    if CrossesBoundary(codeBase, size - 1) {
      LosslessExactly(codeBase, last);
      assert !Lossless(codeBase, last);
    } else {
      forall address | codeBase <= address < codeBase + size ensures Lossless(codeBase, address) {
        SameHalf(codeBase, size - 1, address);
        LosslessExactly(codeBase, address);
      }
    }
  }

  lemma LastByte(codeBase: nat, size: nat)
    requires codeBase + size < WORD && size > 0
    ensures !CrossesBoundary(codeBase, size - 1) <==>
            !CrossesBoundary(codeBase, size) || codeBase + size == (codeBase / HALF + 1) * HALF
  {
    var q, r := Divide(codeBase, HALF);
    assert (codeBase + size) % WORD == codeBase + size && (codeBase + (size - 1)) % WORD == codeBase + (size - 1);
  }

  lemma PageIsPow2()
    ensures Pow2(12) == PAGE
  {
    assert Pow2(4) == 16 && Pow2(8) == 256;
  }

  /** The page of an address in an image that starts on a page. */
  lemma PageOf(codeBase: nat, offset: nat)
    requires codeBase + offset < WORD && codeBase % PAGE == 0
    ensures AlignDown(codeBase + offset, PAGE) == codeBase + (offset - offset % PAGE)
  {
    PageIsPow2();
    AlignDownPow2(codeBase + offset, 12);
    var p, r := Divide(codeBase, PAGE);
    var q, t := Divide(offset, PAGE);
    Distribute(p, q, PAGE);
    DivisionIsUnique(codeBase + offset, PAGE, p + q, t);
  }

  lemma Expands(codeBase: nat, size: nat, address: nat)
    requires codeBase + size < WORD && codeBase <= address <= codeBase + size && !CrossesBoundary(codeBase, size)
    ensures Or(address % HALF, ImageOffset(codeBase)) == address
  {
    SameHalf(codeBase, size, address);
    LosslessExactly(codeBase, address);
  }

  /** Across the size check, the 4 GB check, copySections and the expansion in finalizeSections: a section
      without data is found at its place in the image, one with data at the page of its place, so at its
      place exactly when it starts on a page. */
  lemma SectionAddressesExactly(codeBase: nat, size: nat, s: Section, alignment: nat)
    requires codeBase + size < WORD && !CrossesBoundary(codeBase, size) && codeBase % PAGE == 0
    requires EndOf(s, alignment) <= size && alignment != 0
    ensures
      var found := Or(Placed(codeBase, s, alignment), ImageOffset(codeBase));
      var va := s.virtualAddress;
      && found == codeBase + (if s.sizeOfRawData == 0 then va else va - va % PAGE)
      && (found == codeBase + va <==> s.sizeOfRawData == 0 || va % PAGE == 0)
  {
    var at := PlacedIs(codeBase, s, alignment);
    Expands(codeBase, size, at);
  }

  lemma PlacedIs(codeBase: nat, s: Section, alignment: nat) returns (at: nat)
    requires codeBase + s.virtualAddress < WORD && codeBase % PAGE == 0 && alignment != 0
    ensures codeBase <= at <= codeBase + s.virtualAddress && Placed(codeBase, s, alignment) == at % HALF
    ensures
      var va := s.virtualAddress;
      at == codeBase + (if s.sizeOfRawData == 0 then va else va - va % PAGE)
  {
    at := codeBase + s.virtualAddress;
    if s.sizeOfRawData != 0 {
      PageOf(codeBase, s.virtualAddress);
      at := codeBase + (s.virtualAddress - s.virtualAddress % PAGE);
    }
  }
}
