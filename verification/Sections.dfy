/**
 Merging sections into page-protection runs: finalizeSections and finalizeSection of
 node/tun/wintun/memmod/memmod_windows.go, for any section alignment. VirtualProtect and VirtualFree become
 a log of calls. What the calls do to memory pages is in SectionPages.dfy.
 */
module Sections {
  import opened Arithmetic
  import opened Bits
  import opened Image

  // Bit numbers of the section characteristics.
  const INITIALIZED_DATA: nat := 6
  const UNINITIALIZED_DATA: nat := 7
  const DISCARDABLE: nat := 25
  const NOT_CACHED: nat := 26
  const EXECUTE: nat := 29
  const READ: nat := 30
  const WRITE: nat := 31

  /** The masks of the PE format. */
  lemma FlagMasks()
    ensures Pow2(INITIALIZED_DATA) == 0x0000_0040 && Pow2(UNINITIALIZED_DATA) == 0x0000_0080
    ensures Pow2(DISCARDABLE) == 0x0200_0000 && Pow2(NOT_CACHED) == 0x0400_0000
    ensures Pow2(EXECUTE) == 0x2000_0000 && Pow2(READ) == 0x4000_0000 && Pow2(WRITE) == 0x8000_0000
  {
    Pow2Table();
    assert Pow2(7) == 0x80 && Pow2(6) == 0x40;
    assert Pow2(25) == 0x0200_0000 && Pow2(26) == 0x0400_0000;
    assert Pow2(29) == 0x2000_0000 && Pow2(30) == 0x4000_0000;
  }

  /** A section as finalizeSections sees it: its address, that address rounded down to the alignment, its
      real size and its characteristics. */
  datatype Piece = Piece(address: nat, aligned: nat, size: nat, flags: Flags)

  function End(p: Piece): nat { p.address + p.size }

  /** A run of merged sections (sectionFinalizeData). */
  datatype Run = Run(address: nat, aligned: nat, size: nat, flags: Flags)

  // ---- what the code does with a run ----

  function Begin(p: Piece): Run {
    Run(p.address, p.aligned, p.size, p.flags)
  }

  predicate Shares(r: Run, p: Piece) {
    r.aligned == p.aligned || r.address + r.size > p.aligned
  }

  function MergedFlags(run: Flags, piece: Flags): Flags {
    if DISCARDABLE !in piece || DISCARDABLE !in run then run + piece - {DISCARDABLE} else run + piece
  }

  function Merge(r: Run, p: Piece): Run
    requires r.address <= End(p)
  {
    r.(flags := MergedFlags(r.flags, p.flags), size := End(p) - r.address)
  }

  // ---- what a run ought to be ----

  /** Addresses do not decrease, and rounding down does not increase them. Sections may overlap. */
  ghost predicate Ascending(pieces: seq<Piece>) {
    && (forall i | 0 <= i < |pieces| :: pieces[i].aligned <= pieces[i].address)
    && forall i, j | 0 <= i < j < |pieces| :: pieces[i].address <= pieces[j].address
  }

  ghost function Union(pieces: seq<Piece>, lo: nat, hi: nat): Flags
    requires lo <= hi <= |pieces|
    decreases hi
  {
    if lo == hi then {} else Union(pieces, lo, hi - 1) + pieces[hi - 1].flags
  }

  ghost predicate AllDiscardable(pieces: seq<Piece>, lo: nat, hi: nat)
    requires lo <= hi <= |pieces|
  {
    forall i | lo <= i < hi :: DISCARDABLE in pieces[i].flags
  }

  /** All flags of the sections lo..hi together, but discardable only if every one of them is. */
  ghost function FlagsOf(pieces: seq<Piece>, lo: nat, hi: nat): Flags
    requires lo < hi <= |pieces|
  {
    if AllDiscardable(pieces, lo, hi) then Union(pieces, lo, hi) else Union(pieces, lo, hi) - {DISCARDABLE}
  }

  /** The run of the sections lo..hi: from the start of the first to the end of the last. */
  ghost function RunFor(pieces: seq<Piece>, lo: nat, hi: nat): Run
    requires Ascending(pieces) && lo < hi <= |pieces|
  {
    Run(pieces[lo].address, pieces[lo].aligned, Span(pieces, lo, hi), FlagsOf(pieces, lo, hi))
  }

  ghost function Span(pieces: seq<Piece>, lo: nat, hi: nat): nat
    requires Ascending(pieces) && lo < hi <= |pieces|
  {
    assert lo < hi - 1 ==> pieces[lo].address <= pieces[hi - 1].address;
    End(pieces[hi - 1]) - pieces[lo].address
  }

  lemma {:induction false} UnionDiscardable(pieces: seq<Piece>, lo: nat, hi: nat)
    requires lo < hi <= |pieces| && AllDiscardable(pieces, lo, hi)
    ensures DISCARDABLE in Union(pieces, lo, hi)
    decreases hi
  {
    assert DISCARDABLE in pieces[hi - 1].flags;
  }

  /** A new run is the run of its one section. */
  lemma BeginIsRun(pieces: seq<Piece>, i: nat)
    requires Ascending(pieces) && i < |pieces|
    ensures Begin(pieces[i]) == RunFor(pieces, i, i + 1)
  {
    assert Union(pieces, i, i + 1) == Union(pieces, i, i) + pieces[i].flags;
    assert AllDiscardable(pieces, i, i + 1) <==> DISCARDABLE in pieces[i].flags;
    assert FlagsOf(pieces, i, i + 1) == pieces[i].flags;
  }

  lemma MergedFlagsAreUnion(pieces: seq<Piece>, lo: nat, hi: nat)
    requires lo < hi < |pieces|
    ensures MergedFlags(FlagsOf(pieces, lo, hi), pieces[hi].flags) == FlagsOf(pieces, lo, hi + 1)
  {
    var all := AllDiscardable(pieces, lo, hi);
    assert AllDiscardable(pieces, lo, hi + 1) <==> all && DISCARDABLE in pieces[hi].flags;
    assert Union(pieces, lo, hi + 1) == Union(pieces, lo, hi) + pieces[hi].flags;
    if all { UnionDiscardable(pieces, lo, hi); }
  }

  /** Merging the next section into the run of lo..hi gives the run of lo..hi + 1. */
  lemma MergeIsRun(pieces: seq<Piece>, lo: nat, hi: nat)
    requires Ascending(pieces) && lo < hi < |pieces|
    ensures pieces[lo].address <= End(pieces[hi])
    ensures Merge(RunFor(pieces, lo, hi), pieces[hi]) == RunFor(pieces, lo, hi + 1)
  {
    assert pieces[lo].address <= pieces[hi].address;
    MergedFlagsAreUnion(pieces, lo, hi);
  }

  lemma RunEnds(pieces: seq<Piece>, lo: nat, hi: nat)
    requires Ascending(pieces) && lo < hi <= |pieces|
    ensures RunFor(pieces, lo, hi).address + RunFor(pieces, lo, hi).size == End(pieces[hi - 1])
  {
  }

  // ---- the partition ----

  /** Section `i` continues the run that began at `lo`. */
  ghost predicate Continues(pieces: seq<Piece>, lo: nat, i: nat)
    requires Ascending(pieces) && lo < i < |pieces|
  {
    Shares(RunFor(pieces, lo, i), pieces[i])
  }

  /** `cuts` are the first sections of the runs among the first `n` sections. */
  ghost predicate Partition(pieces: seq<Piece>, cuts: seq<nat>, n: nat)
    requires Ascending(pieces)
  {
    && |cuts| > 0 && cuts[0] == 0 && n <= |pieces|
    && (forall r | 0 <= r < |cuts| :: cuts[r] < n)
    && (forall r, t | 0 <= r < t < |cuts| :: cuts[r] < cuts[t])
    && (forall r | 0 < r < |cuts| :: !Continues(pieces, cuts[r - 1], cuts[r]))
  }

  /** Where run `r` stops. */
  ghost function Stop(cuts: seq<nat>, r: nat, n: nat): nat
    requires r < |cuts|
  {
    if r + 1 < |cuts| then cuts[r + 1] else n
  }

  /** Within a run every section continues it. */
  ghost predicate Joined(pieces: seq<Piece>, cuts: seq<nat>, n: nat)
    requires Ascending(pieces) && Partition(pieces, cuts, n)
  {
    forall r, i | 0 <= r < |cuts| && cuts[r] < i < Stop(cuts, r, n) :: Continues(pieces, cuts[r], i)
  }

  /** There is only one way to cut the sections into such runs. */
  lemma {:induction false} SameCuts(pieces: seq<Piece>, cuts: seq<nat>, cuts': seq<nat>, n: nat, r: nat)
    requires Ascending(pieces) && Partition(pieces, cuts, n) && Partition(pieces, cuts', n)
    requires Joined(pieces, cuts, n) && Joined(pieces, cuts', n) && r < |cuts| && r < |cuts'|
    ensures cuts[r] == cuts'[r] && Stop(cuts, r, n) == Stop(cuts', r, n)
  {
    if r > 0 { SameCuts(pieces, cuts, cuts', n, r - 1); }
    StopsNoEarlier(pieces, cuts, cuts', n, r);
    StopsNoEarlier(pieces, cuts', cuts, n, r);
  }

  lemma StopsNoEarlier(pieces: seq<Piece>, cuts: seq<nat>, cuts': seq<nat>, n: nat, r: nat)
    requires Ascending(pieces) && Partition(pieces, cuts, n) && Partition(pieces, cuts', n)
    requires Joined(pieces, cuts', n) && r < |cuts| && r < |cuts'| && cuts[r] == cuts'[r]
    ensures Stop(cuts', r, n) <= Stop(cuts, r, n)
  {
    var t := r + 1;
    assert t < |cuts| ==> !Continues(pieces, cuts[t - 1], cuts[t]);
  }

  lemma RunsAreUnique(pieces: seq<Piece>, cuts: seq<nat>, cuts': seq<nat>, n: nat)
    requires Ascending(pieces) && Partition(pieces, cuts, n) && Partition(pieces, cuts', n)
    requires Joined(pieces, cuts, n) && Joined(pieces, cuts', n)
    ensures cuts == cuts'
  {
    var k := if |cuts| <= |cuts'| then |cuts| else |cuts'|;
    SameCuts(pieces, cuts, cuts', n, k - 1);
    forall r | 0 <= r < k ensures cuts[r] == cuts'[r] {
      SameCuts(pieces, cuts, cuts', n, r);
    }
  }

  lemma CutSeparates(pieces: seq<Piece>, lo: nat, c: nat)
    requires Ascending(pieces) && lo < c < |pieces| && !Continues(pieces, lo, c)
    ensures End(pieces[c - 1]) <= pieces[c].aligned
  {
    RunEnds(pieces, lo, c);
  }

  /** Byte `x` lies in run `r`. */
  ghost predicate InRun(pieces: seq<Piece>, cuts: seq<nat>, r: nat, x: nat)
    requires Ascending(pieces) && Partition(pieces, cuts, |pieces|) && r < |cuts|
  {
    var run := RunFor(pieces, cuts[r], Stop(cuts, r, |pieces|));
    run.address <= x < run.address + run.size
  }

  /** A run ends before the alignment unit in which the next run begins. */
  lemma RunsOrdered(pieces: seq<Piece>, cuts: seq<nat>, r: nat, t: nat, x: nat, y: nat)
    requires Ascending(pieces) && Partition(pieces, cuts, |pieces|) && r < t < |cuts|
    requires InRun(pieces, cuts, r, x) && InRun(pieces, cuts, t, y)
    ensures x < pieces[cuts[r + 1]].aligned <= pieces[cuts[r + 1]].address <= pieces[cuts[t]].address <= y
  {
    var c, d := cuts[r + 1], cuts[t];
    RunEnds(pieces, cuts[r], c);
    CutSeparates(pieces, cuts[r], c);
    if r + 1 < t { assert cuts[r + 1] < cuts[t]; }
  }

  /** The alignment is a number by which addresses are rounded down: a power of two. */
  ghost predicate RoundedBy(pieces: seq<Piece>, a: nat)
    requires a > 0
  {
    forall i | 0 <= i < |pieces| :: pieces[i].aligned == Floor(pieces[i].address, a)
  }

  /** Then bytes of two different runs never share an alignment page. */
  lemma RunsApart(pieces: seq<Piece>, a: nat, cuts: seq<nat>, r: nat, t: nat, x: nat, y: nat)
    requires a > 0 && Ascending(pieces) && RoundedBy(pieces, a)
    requires Partition(pieces, cuts, |pieces|) && r < t < |cuts|
    requires InRun(pieces, cuts, r, x) && InRun(pieces, cuts, t, y)
    ensures Floor(x, a) < Floor(y, a)
  {
    var start := pieces[cuts[r + 1]].address;
    RunsOrdered(pieces, cuts, r, t, x, y);
    FloorBelow(x, start, a);
    FloorMonotone(start, y, a);
  }

  /** A section continues a run exactly when it shares an alignment page with the section before it. */
  lemma ContinuesExactly(pieces: seq<Piece>, a: nat, lo: nat, i: nat)
    requires a > 0 && Ascending(pieces) && Sorted(pieces) && RoundedBy(pieces, a) && lo < i < |pieces|
    requires pieces[i - 1].size > 0
    ensures Continues(pieces, lo, i) <==> Floor(End(pieces[i - 1]) - 1, a) == Floor(pieces[i].address, a)
  {
    var last, start := End(pieces[i - 1]) - 1, pieces[i].address;
    RunEnds(pieces, lo, i);
    assert pieces[lo].address <= pieces[i - 1].address <= last;
    FloorMonotone(pieces[lo].address, last, a);
    FloorMonotone(last, start, a);
    FloorBounds(start, a);
    FloorBounds(last, a);
    if last >= Floor(start, a) && Floor(last, a) < Floor(start, a) { NextMultiple(Floor(last, a), Floor(start, a), a); }
  }

  /** Sorted by address and not overlapping. */
  ghost predicate Sorted(pieces: seq<Piece>) {
    forall i, j | 0 <= i < j < |pieces| :: End(pieces[i]) <= pieces[j].address
  }

  /** Every section belongs to a run, which starts no later and, if sections do not overlap, spans it. */
  lemma {:induction false} RunOf(pieces: seq<Piece>, cuts: seq<nat>, n: nat, i: nat) returns (r: nat)
    requires Ascending(pieces) && Partition(pieces, cuts, n) && i < n
    ensures r < |cuts| && cuts[r] <= i < Stop(cuts, r, n) <= |pieces|
    ensures
      var run := RunFor(pieces, cuts[r], Stop(cuts, r, n));
      run.address <= pieces[i].address && (Sorted(pieces) ==> End(pieces[i]) <= run.address + run.size)
  {
    r := 0;
    while r + 1 < |cuts| && cuts[r + 1] <= i
      invariant r < |cuts| && cuts[r] <= i
    {
      r := r + 1;
    }
    var hi := Stop(cuts, r, n);
    RunEnds(pieces, cuts[r], hi);
    if cuts[r] < i { assert pieces[cuts[r]].address <= pieces[i].address; }
    assert Sorted(pieces) && i < hi - 1 ==> End(pieces[i]) <= pieces[hi - 1].address;
  }

  // ---- the calls ----

  datatype Call = Decommit(address: nat, size: nat) | Protect(address: nat, size: nat, protection: Protection)

  /** A page protection constant, by what it allows, with the NOCACHE modifier. */
  datatype Protection = Protection(access: Access, nocache: bool)
  datatype Access =
    | NoAccess | Execute | ReadOnly | ExecuteRead
    | WriteCopy | ExecuteWriteCopy | ReadWrite | ExecuteReadWrite

  const PROTECTION_FLAGS: seq<Access> :=
    [NoAccess, Execute, ReadOnly, ExecuteRead, WriteCopy, ExecuteWriteCopy, ReadWrite, ExecuteReadWrite]

  /** characteristics >> 29 */
  function TopBits(flags: Flags): nat {
    (if EXECUTE in flags then 1 else 0) + (if READ in flags then 2 else 0) + (if WRITE in flags then 4 else 0)
  }

  function ProtectionOf(flags: Flags): Protection {
    Protection(PROTECTION_FLAGS[TopBits(flags)], NOT_CACHED in flags)
  }

  predicate MayExecute(x: Access) {
    x == Execute || x == ExecuteRead || x == ExecuteWriteCopy || x == ExecuteReadWrite
  }

  predicate MayRead(x: Access) {
    || x == ReadOnly || x == ExecuteRead || x == ReadWrite || x == ExecuteReadWrite
    || x == WriteCopy || x == ExecuteWriteCopy
  }

  predicate MayWrite(x: Access) {
    x == WriteCopy || x == ExecuteWriteCopy || x == ReadWrite || x == ExecuteReadWrite
  }

  predicate CopiesOnWrite(x: Access) {
    x == WriteCopy || x == ExecuteWriteCopy
  }

  /** The protection that a run with these flags asks for: execution and writing exactly as flagged; reading
      when reading or writing is flagged; writes to a private copy exactly if writing is flagged without
      reading; no caching exactly if flagged. */
  predicate AsFlagged(p: Protection, flags: Flags) {
    && (MayExecute(p.access) <==> EXECUTE in flags)
    && (MayWrite(p.access) <==> WRITE in flags)
    && (MayRead(p.access) <==> READ in flags || WRITE in flags)
    && (CopiesOnWrite(p.access) <==> WRITE in flags && READ !in flags)
    && (p.nocache <==> NOT_CACHED in flags)
  }

  /** The table gives that protection, and there is only one. */
  lemma ProtectionTable(flags: Flags, p: Protection)
    ensures AsFlagged(p, flags) <==> p == ProtectionOf(flags)
  {
  }

  /** finalizeSection: at most one call. */
  function CallFor(r: Run, a: nat, last: bool): seq<Call>
    requires a > 0
  {
    if r.size == 0 then []
    else if DISCARDABLE in r.flags then
      if r.address == r.aligned && (last || r.size % a == 0) then [Decommit(r.address, r.size)] else []
    else [Protect(r.address, r.size, ProtectionOf(r.flags))]
  }

  /** The calls for the first `m` runs of a partition, none of which is the last run of all. */
  ghost function CallsBefore(pieces: seq<Piece>, a: nat, cuts: seq<nat>, n: nat, m: nat): seq<Call>
    requires a > 0 && Ascending(pieces) && Partition(pieces, cuts, n) && m < |cuts|
  {
    if m == 0 then []
    else CallsBefore(pieces, a, cuts, n, m - 1) + CallFor(RunFor(pieces, cuts[m - 1], cuts[m]), a, false)
  }

  ghost function AllCalls(pieces: seq<Piece>, a: nat, cuts: seq<nat>): seq<Call>
    requires a > 0 && Ascending(pieces) && Partition(pieces, cuts, |pieces|)
  {
    var last := |cuts| - 1;
    CallsBefore(pieces, a, cuts, |pieces|, last) + CallFor(RunFor(pieces, cuts[last], |pieces|), a, true)
  }

  /** The calls for run `r`. */
  ghost function CallsAt(pieces: seq<Piece>, a: nat, cuts: seq<nat>, r: nat): seq<Call>
    requires a > 0 && Ascending(pieces) && Partition(pieces, cuts, |pieces|) && r < |cuts|
  {
    CallFor(RunFor(pieces, cuts[r], Stop(cuts, r, |pieces|)), a, r == |cuts| - 1)
  }

  lemma {:induction false} CallBeforeOrigin(pieces: seq<Piece>, a: nat, cuts: seq<nat>, m: nat, c: Call)
    returns (r: nat)
    requires a > 0 && Ascending(pieces) && Partition(pieces, cuts, |pieces|) && m < |cuts|
    requires c in CallsBefore(pieces, a, cuts, |pieces|, m)
    ensures r < m && c in CallsAt(pieces, a, cuts, r)
  {
    if c in CallsAt(pieces, a, cuts, m - 1) { r := m - 1; } else { r := CallBeforeOrigin(pieces, a, cuts, m - 1, c); }
  }

  /** Every call is made for some run. */
  lemma CallOrigin(pieces: seq<Piece>, a: nat, cuts: seq<nat>, c: Call) returns (r: nat)
    requires a > 0 && Ascending(pieces) && Partition(pieces, cuts, |pieces|) && c in AllCalls(pieces, a, cuts)
    ensures r < |cuts| && c in CallsAt(pieces, a, cuts, r)
  {
    var last := |cuts| - 1;
    if c in CallsAt(pieces, a, cuts, last) { r := last; } else { r := CallBeforeOrigin(pieces, a, cuts, last, c); }
  }

  lemma {:induction false} CallsMade(pieces: seq<Piece>, a: nat, cuts: seq<nat>, m: nat, r: nat, c: Call)
    requires a > 0 && Ascending(pieces) && Partition(pieces, cuts, |pieces|) && r < m < |cuts|
    requires c in CallsAt(pieces, a, cuts, r)
    ensures c in CallsBefore(pieces, a, cuts, |pieces|, m)
  {
    var earlier := CallsBefore(pieces, a, cuts, |pieces|, m - 1);
    assert CallsBefore(pieces, a, cuts, |pieces|, m) == earlier + CallsAt(pieces, a, cuts, m - 1);
    if r < m - 1 {
      CallsMade(pieces, a, cuts, m - 1, r, c);
      assert c in earlier;
    }
  }

  lemma CallIsMade(pieces: seq<Piece>, a: nat, cuts: seq<nat>, r: nat, c: Call)
    requires a > 0 && Ascending(pieces) && Partition(pieces, cuts, |pieces|) && r < |cuts|
    requires CallsAt(pieces, a, cuts, r) == [c]
    ensures c in AllCalls(pieces, a, cuts)
  {
    var last := |cuts| - 1;
    var earlier := CallsBefore(pieces, a, cuts, |pieces|, last);
    assert AllCalls(pieces, a, cuts) == earlier + CallsAt(pieces, a, cuts, last);
    assert c in CallsAt(pieces, a, cuts, r);
    if r < last {
      CallsMade(pieces, a, cuts, last, r, c);
      assert c in earlier;
    }
  }

  /** A run of discardable sections that is not empty is decommitted exactly if it starts on its alignment and
      is the last run or fills whole alignment units. */
  lemma DecommittedExactly(pieces: seq<Piece>, a: nat, cuts: seq<nat>, r: nat)
    requires a > 0 && Ascending(pieces) && Partition(pieces, cuts, |pieces|) && r < |cuts|
    requires AllDiscardable(pieces, cuts[r], Stop(cuts, r, |pieces|))
    requires RunFor(pieces, cuts[r], Stop(cuts, r, |pieces|)).size > 0
    ensures
      var size := End(pieces[Stop(cuts, r, |pieces|) - 1]) - pieces[cuts[r]].address;
      CallsAt(pieces, a, cuts, r) ==
        if pieces[cuts[r]].address == pieces[cuts[r]].aligned && (r == |cuts| - 1 || size % a == 0)
        then [Decommit(pieces[cuts[r]].address, size)] else []
  {
    UnionDiscardable(pieces, cuts[r], Stop(cuts, r, |pieces|));
  }

  /** A call covers only bytes of its run. */
  lemma CallStaysInRun(pieces: seq<Piece>, a: nat, cuts: seq<nat>, r: nat, c: Call, y: nat)
    requires a > 0 && Ascending(pieces) && Partition(pieces, cuts, |pieces|) && r < |cuts|
    requires c in CallsAt(pieces, a, cuts, r) && c.address <= y < c.address + c.size
    ensures InRun(pieces, cuts, r, y)
  {
  }

  lemma {:induction false} UnionHolds(pieces: seq<Piece>, lo: nat, hi: nat, i: nat)
    requires lo <= i < hi <= |pieces|
    ensures pieces[i].flags <= Union(pieces, lo, hi)
    decreases hi
  {
    if i < hi - 1 { UnionHolds(pieces, lo, hi - 1, i); }
  }

  ghost predicate Grants(c: Call, flags: Flags) {
    && c.Protect?
    && (EXECUTE in flags ==> MayExecute(c.protection.access))
    && (READ in flags ==> MayRead(c.protection.access) && !CopiesOnWrite(c.protection.access))
    && (WRITE in flags ==> MayWrite(c.protection.access))
    && (NOT_CACHED in flags ==> c.protection.nocache)
  }

  /** The call for a run that keeps section `i` spans the run and grants what the section asks for. */
  lemma KeptRun(pieces: seq<Piece>, a: nat, lo: nat, hi: nat, i: nat, last: bool) returns (c: Call)
    requires a > 0 && Ascending(pieces) && lo <= i < hi <= |pieces|
    requires DISCARDABLE !in pieces[i].flags && RunFor(pieces, lo, hi).size > 0
    ensures CallFor(RunFor(pieces, lo, hi), a, last) == [c] && Grants(c, pieces[i].flags)
    ensures c.address == RunFor(pieces, lo, hi).address && c.size == RunFor(pieces, lo, hi).size
    ensures AsFlagged(c.protection, FlagsOf(pieces, lo, hi))
  {
    var run := RunFor(pieces, lo, hi);
    assert !AllDiscardable(pieces, lo, hi);
    UnionHolds(pieces, lo, hi, i);
    ProtectionTable(run.flags, ProtectionOf(run.flags));
    c := Protect(run.address, run.size, ProtectionOf(run.flags));
  }

  // ---- finalizeSections ----

  function RealSectionSize(s: Section, initialized: nat, uninitialized: nat): nat {
    if s.sizeOfRawData != 0 then s.sizeOfRawData
    else if INITIALIZED_DATA in s.characteristics then initialized
    else if UNINITIALIZED_DATA in s.characteristics then uninitialized
    else 0
  }

  /** The section at its expanded address. */
  function PieceOf(s: Section, base: nat, a: nat, initialized: nat, uninitialized: nat): Piece
    requires a < WORD
  {
    var address := Or(s.physical, ImageOffset(base));
    Piece(address, AlignDown(address, a), RealSectionSize(s, initialized, uninitialized), s.characteristics)
  }

  /** For an alignment of 2^k the rounded address is the multiple at or below the address. */
  lemma PieceIsRounded(s: Section, base: nat, k: nat, initialized: nat, uninitialized: nat)
    requires k < 64 && Or(s.physical, ImageOffset(base)) < WORD
    ensures Pow2(k) < WORD
    ensures
      var p := PieceOf(s, base, Pow2(k), initialized, uninitialized);
      p.aligned == Floor(p.address, Pow2(k))
  {
    AlignDownPow2(Or(s.physical, ImageOffset(base)), k);
  }

  ghost predicate PiecesOf(
    pieces: seq<Piece>, sections: seq<Section>, base: nat, a: nat, initialized: nat, uninitialized: nat)
    requires a < WORD
  {
    && |pieces| == |sections|
    && forall i | 0 <= i < |pieces| :: pieces[i] == PieceOf(sections[i], base, a, initialized, uninitialized)
  }

  ghost predicate AllSucceed(calls: seq<Call>, protectOk: Call -> bool) {
    forall j | 0 <= j < |calls| :: calls[j].Protect? ==> protectOk(calls[j])
  }

  /** `protectOk` says which VirtualProtect calls succeed. */
  method FinalizeSection(r: Run, a: nat, last: bool, protectOk: Call -> bool) returns (ok: bool, calls: seq<Call>)
    requires a > 0
    ensures calls == CallFor(r, a, last)
    ensures r.size > 0 && DISCARDABLE !in r.flags ==>
      && |calls| == 1 && calls[0].Protect? && calls[0].address == r.address && calls[0].size == r.size
      && AsFlagged(calls[0].protection, r.flags)
    ensures ok == AllSucceed(calls, protectOk)
    ensures !ok ==> |calls| == 1
  {
    ok, calls := true, [];
    if r.size == 0 { return; }
    if DISCARDABLE in r.flags {
      if r.address == r.aligned && (last || r.size % a == 0) {
        calls := [Decommit(r.address, r.size)];
      }
      return;
    }
    var c := Protect(r.address, r.size, ProtectionOf(r.flags));
    ProtectionTable(r.flags, ProtectionOf(r.flags));
    calls := [c];
    ok := protectOk(c);
    assert calls[0] == c;
  }

  /** More cuts leave the calls for earlier runs alone. */
  lemma {:induction false} CallsBeforeStable(
    pieces: seq<Piece>, a: nat, cuts: seq<nat>, n: nat, cuts': seq<nat>, n': nat, m: nat)
    requires a > 0 && Ascending(pieces) && Partition(pieces, cuts, n) && Partition(pieces, cuts', n')
    requires cuts <= cuts' && m < |cuts|
    ensures CallsBefore(pieces, a, cuts', n', m) == CallsBefore(pieces, a, cuts, n, m)
  {
    if m > 0 { CallsBeforeStable(pieces, a, cuts, n, cuts', n', m - 1); }
  }

  /** Where the loop of finalizeSections stands before section `i`. */
  ghost predicate Merging(pieces: seq<Piece>, a: nat, cuts: seq<nat>, i: nat, run: Run, log: seq<Call>) {
    && a > 0 && Ascending(pieces) && Partition(pieces, cuts, i)
    && Joined(pieces, cuts, i)
    && run == RunFor(pieces, cuts[|cuts| - 1], i)
    && log == CallsBefore(pieces, a, cuts, i, |cuts| - 1)
  }

  lemma MergingBegins(pieces: seq<Piece>, a: nat)
    requires a > 0 && Ascending(pieces) && |pieces| > 0
    ensures Merging(pieces, a, [0], 1, Begin(pieces[0]), [])
  {
    BeginIsRun(pieces, 0);
  }

  lemma MergingJoins(pieces: seq<Piece>, a: nat, cuts: seq<nat>, i: nat, run: Run, log: seq<Call>)
    requires Merging(pieces, a, cuts, i, run, log) && i < |pieces| && Shares(run, pieces[i])
    ensures run.address <= pieces[i].address
    ensures Merging(pieces, a, cuts, i + 1, Merge(run, pieces[i]), log)
  {
    JoinedGrows(pieces, cuts, i);
    var lo := cuts[|cuts| - 1];
    assert pieces[lo].address <= pieces[i].address;
    MergeIsRun(pieces, lo, i);
    CallsBeforeStable(pieces, a, cuts, i, cuts, i + 1, |cuts| - 1);
  }

  lemma JoinedGrows(pieces: seq<Piece>, cuts: seq<nat>, i: nat)
    requires Ascending(pieces) && i < |pieces| && Partition(pieces, cuts, i) && Joined(pieces, cuts, i)
    requires Continues(pieces, cuts[|cuts| - 1], i)
    ensures Partition(pieces, cuts, i + 1) && Joined(pieces, cuts, i + 1)
  {
    var n := i + 1;
    forall r, j | 0 <= r < |cuts| && cuts[r] < j < Stop(cuts, r, n) ensures Continues(pieces, cuts[r], j) {
      if j < i { assert j < Stop(cuts, r, i); }
    }
  }

  lemma JoinedCuts(pieces: seq<Piece>, cuts: seq<nat>, i: nat)
    requires Ascending(pieces) && i < |pieces| && Partition(pieces, cuts, i) && Joined(pieces, cuts, i)
    requires Partition(pieces, cuts + [i], i + 1)
    ensures Joined(pieces, cuts + [i], i + 1)
  {
    var cuts', n := cuts + [i], i + 1;
    forall r, j | 0 <= r < |cuts'| && cuts'[r] < j < Stop(cuts', r, n) ensures Continues(pieces, cuts'[r], j) {
      assert r < |cuts| && cuts[r] == cuts'[r] && Stop(cuts', r, n) == Stop(cuts, r, i);
      assert Continues(pieces, cuts[r], j);
    }
  }

  lemma PartitionGrows(pieces: seq<Piece>, cuts: seq<nat>, i: nat)
    requires Ascending(pieces) && Partition(pieces, cuts, i) && i < |pieces|
    requires !Continues(pieces, cuts[|cuts| - 1], i)
    ensures Partition(pieces, cuts + [i], i + 1)
  {
    var cuts' := cuts + [i];
    forall r | 0 < r < |cuts'| ensures !Continues(pieces, cuts'[r - 1], cuts'[r]) {
      if r < |cuts| { assert !Continues(pieces, cuts[r - 1], cuts[r]); }
    }
  }

  lemma CallsGrow(pieces: seq<Piece>, a: nat, cuts: seq<nat>, i: nat)
    requires a > 0 && Ascending(pieces) && Partition(pieces, cuts, i) && i < |pieces|
    requires Partition(pieces, cuts + [i], i + 1)
    ensures CallsBefore(pieces, a, cuts + [i], i + 1, |cuts|) ==
            CallsBefore(pieces, a, cuts, i, |cuts| - 1)
            + CallFor(RunFor(pieces, cuts[|cuts| - 1], i), a, false)
  {
    CallsBeforeStable(pieces, a, cuts, i, cuts + [i], i + 1, |cuts| - 1);
    assert (cuts + [i])[|cuts| - 1] == cuts[|cuts| - 1] && (cuts + [i])[|cuts|] == i;
  }

  lemma MergingCuts(pieces: seq<Piece>, a: nat, cuts: seq<nat>, i: nat, run: Run, log: seq<Call>)
    requires Merging(pieces, a, cuts, i, run, log) && i < |pieces| && !Shares(run, pieces[i])
    ensures Merging(pieces, a, cuts + [i], i + 1, Begin(pieces[i]), log + CallFor(run, a, false))
  {
    PartitionGrows(pieces, cuts, i);
    JoinedCuts(pieces, cuts, i);
    CallsGrow(pieces, a, cuts, i);
    BeginIsRun(pieces, i);
    assert (cuts + [i])[|cuts + [i]| - 1] == i;
  }

  lemma MergingEnds(pieces: seq<Piece>, a: nat, cuts: seq<nat>, run: Run, log: seq<Call>)
    requires Merging(pieces, a, cuts, |pieces|, run, log)
    ensures Partition(pieces, cuts, |pieces|) && Joined(pieces, cuts, |pieces|)
    ensures log + CallFor(run, a, true) == AllCalls(pieces, a, cuts)
  {
  }

  /** Combining the access flags of sections that share a page. */
  method Combine(run: Run, p: Piece) returns (r: Run)
    requires run.address <= p.address
    ensures r == Merge(run, p)
  {
    var flags := run.flags;
    if DISCARDABLE !in p.flags || DISCARDABLE !in run.flags {
      flags := flags + p.flags - {DISCARDABLE};
    } else {
      flags := flags + p.flags;
    }
    r := run.(flags := flags, size := p.address + p.size - run.address);
  }

  /** Finalizing a run after the calls in `log`, all of which succeeded. */
  method Emit(run: Run, a: nat, last: bool, protectOk: Call -> bool, log: seq<Call>)
    returns (ok: bool, log': seq<Call>)
    requires a > 0 && AllSucceed(log, protectOk)
    ensures log' == log + CallFor(run, a, last)
    ensures ok == AllSucceed(log', protectOk)
    ensures !ok ==> OnlyLastFails(log', protectOk)
  {
    var calls;
    ok, calls := FinalizeSection(run, a, last, protectOk);
    log' := log + calls;
    forall j | 0 <= j < |calls| ensures log'[|log| + j] == calls[j] {}
    if !ok { assert log'[..|log'| - 1] == log; }
  }

  ghost predicate OnlyLastFails(log: seq<Call>, protectOk: Call -> bool) {
    |log| > 0 && log[|log| - 1].Protect? && !protectOk(log[|log| - 1]) && AllSucceed(log[..|log| - 1], protectOk)
  }

  /** finalizeSections: on success the calls are those of the runs of the partition; a failed call ends
      the loop. */
  method FinalizeSections(
    sections: seq<Section>, ghost pieces: seq<Piece>, base: nat, a: nat, initialized: nat, uninitialized: nat,
    protectOk: Call -> bool)
    returns (ok: bool, log: seq<Call>, ghost cuts: seq<nat>)
    requires |sections| > 0 && 0 < a < WORD
    requires PiecesOf(pieces, sections, base, a, initialized, uninitialized) && Ascending(pieces)
    ensures ok == AllSucceed(log, protectOk)
    ensures !ok ==> OnlyLastFails(log, protectOk)
    ensures ok ==> Partition(pieces, cuts, |pieces|) && Joined(pieces, cuts, |pieces|)
    ensures ok ==> log == AllCalls(pieces, a, cuts)
  {
    var p := Measure(sections[0], base, a, initialized, uninitialized);
    var run := Run(p.address, p.aligned, p.size, p.flags);
    cuts, log, ok := [0], [], true;
    MergingBegins(pieces, a);
    for i := 1 to |sections|
      invariant Merging(pieces, a, cuts, i, run, log) && AllSucceed(log, protectOk)
    {
      p := Measure(sections[i], base, a, initialized, uninitialized);
      assert p == pieces[i];
      if run.aligned == p.aligned || run.address + run.size > p.aligned {
        MergingJoins(pieces, a, cuts, i, run, log);
        run := Combine(run, p);
      } else {
        MergingCuts(pieces, a, cuts, i, run, log);
        ok, log := Emit(run, a, false, protectOk, log);
        if !ok { return; }
        cuts := cuts + [i];
        run := Run(p.address, p.aligned, p.size, p.flags);
      }
    }
    MergingEnds(pieces, a, cuts, run, log);
    ok, log := Emit(run, a, true, protectOk, log);
  }

  /** The address, real size and flags of a section, as the loop computes them. */
  method Measure(s: Section, base: nat, a: nat, initialized: nat, uninitialized: nat) returns (p: Piece)
    requires a < WORD
    ensures p == PieceOf(s, base, a, initialized, uninitialized)
    ensures s.sizeOfRawData != 0 ==> p.size == s.sizeOfRawData
    ensures s.sizeOfRawData == 0 ==>
      && (6 in s.characteristics ==> p.size == initialized)
      && (6 !in s.characteristics && 7 in s.characteristics ==> p.size == uninitialized)
      && (6 !in s.characteristics && 7 !in s.characteristics ==> p.size == 0)
  {
    var address := Or(s.physical, ImageOffset(base));
    var aligned := AlignDown(address, a);
    var size := s.sizeOfRawData;
    if size == 0 {
      if INITIALIZED_DATA in s.characteristics {
        size := initialized;
      } else if UNINITIALIZED_DATA in s.characteristics {
        size := uninitialized;
      }
    }
    p := Piece(address, aligned, size, s.characteristics);
  }
}
