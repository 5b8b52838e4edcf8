/**
 What finalizeSections does to memory pages. VirtualProtect and VirtualFree act on every page that holds a
 byte of their range, and copySections records a section with data at the page where it starts; so a call
 may reach fewer pages than its sections, or pages of other sections. Here are the exact conditions. They
 concern the memory page, whatever the section alignment.
 */
module SectionPages {
  import opened Arithmetic
  import opened Bits
  import opened Image
  import opened Sections

  predicate SamePage(x: nat, y: nat, page: nat)
    requires page > 0
  {
    Floor(x, page) == Floor(y, page)
  }

  /** A section that starts at `start` is recorded there, or before it on the same page. */
  ghost predicate RecordedAt(p: Piece, start: nat, page: nat)
    requires page > 0
  {
    p.address <= start && SamePage(p.address, start, page) && (p.size == 0 ==> p.address == start)
  }

  /** `starts` says where the recorded sections really start. They are in order and do not overlap. */
  ghost predicate Recorded(pieces: seq<Piece>, starts: seq<nat>, page: nat)
    requires page > 0
  {
    && Ascending(pieces) && |starts| == |pieces|
    && (forall i | 0 <= i < |pieces| :: RecordedAt(pieces[i], starts[i], page))
    && forall i, j | 0 <= i < j < |pieces| :: starts[i] + pieces[i].size <= starts[j]
  }

  /** Byte `x` belongs to section `i`. */
  ghost predicate InSection(pieces: seq<Piece>, starts: seq<nat>, i: nat, x: nat)
    requires i < |pieces| == |starts|
  {
    starts[i] <= x < starts[i] + pieces[i].size
  }

  // ---- do different runs share pages? ----

  /** The sections before a run end before the page on which the run begins. */
  ghost predicate RunsSeparate(pieces: seq<Piece>, starts: seq<nat>, cuts: seq<nat>, page: nat)
    requires page > 0 && Recorded(pieces, starts, page) && Partition(pieces, cuts, |pieces|)
  {
    forall t | 0 < t < |cuts| :: SeparateAt(pieces, starts, cuts[t], page)
  }

  ghost predicate SeparateAt(pieces: seq<Piece>, starts: seq<nat>, c: nat, page: nat)
    requires page > 0 && 0 < c < |pieces| == |starts|
  {
    starts[c - 1] + pieces[c - 1].size <= Floor(pieces[c].address, page)
  }

  /** Section `i` belongs to run `t`. */
  ghost predicate Belongs(cuts: seq<nat>, t: nat, i: nat, n: nat) {
    t < |cuts| && cuts[t] <= i < Stop(cuts, t, n)
  }

  /** A byte of section `i` of run `t`, and a byte of the range of another run's call. */
  ghost predicate Touching(
    pieces: seq<Piece>, starts: seq<nat>, cuts: seq<nat>, t: nat, i: nat, r: nat, x: nat, y: nat)
    requires Ascending(pieces) && |starts| == |pieces| && Partition(pieces, cuts, |pieces|)
  {
    && i < |pieces| && r < |cuts| && r != t && Belongs(cuts, t, i, |pieces|)
    && InSection(pieces, starts, i, x) && InRun(pieces, cuts, r, y)
  }

  /** Such bytes are on one page. */
  ghost predicate Meet(
    pieces: seq<Piece>, starts: seq<nat>, cuts: seq<nat>, page: nat, t: nat, i: nat, r: nat, x: nat, y: nat)
    requires page > 0 && Recorded(pieces, starts, page) && Partition(pieces, cuts, |pieces|)
  {
    Touching(pieces, starts, cuts, t, i, r, x, y) && SamePage(x, y, page)
  }

  lemma SectionBefore(pieces: seq<Piece>, starts: seq<nat>, page: nat, i: nat, c: nat)
    requires page > 0 && Recorded(pieces, starts, page) && i < c < |pieces|
    ensures starts[i] + pieces[i].size <= starts[c - 1] + pieces[c - 1].size
  {
  }

  /** What run `t` covers ends no later than its last section. */
  lemma RunWithin(pieces: seq<Piece>, starts: seq<nat>, cuts: seq<nat>, page: nat, t: nat, y: nat)
    requires page > 0 && Recorded(pieces, starts, page) && Partition(pieces, cuts, |pieces|)
    requires t < |cuts| && InRun(pieces, cuts, t, y)
    ensures
      var last := Stop(cuts, t, |pieces|) - 1;
      pieces[cuts[t]].address <= y < starts[last] + pieces[last].size
  {
    var last := Stop(cuts, t, |pieces|) - 1;
    RunEnds(pieces, cuts[t], last + 1);
    assert RecordedAt(pieces[last], starts[last], page);
  }

  lemma CutsOrdered(pieces: seq<Piece>, cuts: seq<nat>, r: nat, t: nat)
    requires Ascending(pieces) && Partition(pieces, cuts, |pieces|) && r < t < |cuts|
    ensures cuts[r] < cuts[r + 1] <= cuts[t] && pieces[cuts[r + 1]].address <= pieces[cuts[t]].address
  {
    if r + 1 < t { assert cuts[r + 1] < cuts[t]; }
  }

  lemma EarlierPage(x: nat, start: nat, y: nat, page: nat)
    requires page > 0 && x < Floor(start, page) && start <= y
    ensures !SamePage(x, y, page)
  {
    FloorBelow(x, start, page);
    FloorMonotone(start, y, page);
  }

  /** A section of run `t` and the call of a later run. */
  lemma MeetsNoLaterRun(
    pieces: seq<Piece>, starts: seq<nat>, cuts: seq<nat>, page: nat, t: nat, i: nat, r: nat, x: nat, y: nat)
    requires page > 0 && Recorded(pieces, starts, page) && Partition(pieces, cuts, |pieces|)
    requires RunsSeparate(pieces, starts, cuts, page) && t < r < |cuts| && i < |pieces|
    requires Belongs(cuts, t, i, |pieces|) && InSection(pieces, starts, i, x) && InRun(pieces, cuts, r, y)
    ensures !SamePage(x, y, page)
  {
    var c := cuts[t + 1];
    CutsOrdered(pieces, cuts, t, r);
    assert SeparateAt(pieces, starts, c, page);
    SectionBefore(pieces, starts, page, i, c);
    EarlierPage(x, pieces[c].address, y, page);
  }

  /** A section of run `t` and the call of an earlier run. */
  lemma MeetsNoEarlierRun(
    pieces: seq<Piece>, starts: seq<nat>, cuts: seq<nat>, page: nat, t: nat, i: nat, r: nat, x: nat, y: nat)
    requires page > 0 && Recorded(pieces, starts, page) && Partition(pieces, cuts, |pieces|)
    requires RunsSeparate(pieces, starts, cuts, page) && r < t < |cuts| && i < |pieces|
    requires Belongs(cuts, t, i, |pieces|) && InSection(pieces, starts, i, x) && InRun(pieces, cuts, r, y)
    ensures !SamePage(x, y, page)
  {
    var c := cuts[r + 1];
    RunWithin(pieces, starts, cuts, page, r, y);
    CutsOrdered(pieces, cuts, r, t);
    assert SeparateAt(pieces, starts, c, page);
    assert RecordedAt(pieces[i], starts[i], page);
    assert pieces[c].address <= pieces[i].address;
    EarlierPage(y, pieces[c].address, x, page);
  }

  /** If the runs are separate, nothing of a section shares a page with another run's call. */
  lemma SeparateRunsDoNotMeet(
    pieces: seq<Piece>, starts: seq<nat>, cuts: seq<nat>, page: nat, t: nat, i: nat, r: nat, x: nat, y: nat)
    requires page > 0 && Recorded(pieces, starts, page) && Partition(pieces, cuts, |pieces|)
    requires RunsSeparate(pieces, starts, cuts, page)
    requires i < |pieces| && t < |cuts| && r < |cuts| && r != t && Belongs(cuts, t, i, |pieces|)
    requires InSection(pieces, starts, i, x) && InRun(pieces, cuts, r, y)
    ensures !SamePage(x, y, page)
  {
    if t < r {
      MeetsNoLaterRun(pieces, starts, cuts, page, t, i, r, x, y);
    } else {
      MeetsNoEarlierRun(pieces, starts, cuts, page, t, i, r, x, y);
    }
  }

  /** Exactly then: for sections that are not empty, no section shares a page with the call of another run
      if and only if every run begins on a page after all earlier sections. */
  lemma SeparateExactly(pieces: seq<Piece>, starts: seq<nat>, cuts: seq<nat>, page: nat)
    requires page > 0 && Recorded(pieces, starts, page) && Partition(pieces, cuts, |pieces|)
    requires forall i | 0 <= i < |pieces| :: pieces[i].size > 0
    ensures RunsSeparate(pieces, starts, cuts, page) <==>
            forall t, i, r, x, y :: !Meet(pieces, starts, cuts, page, t, i, r, x, y)
  {
    if RunsSeparate(pieces, starts, cuts, page) {
      forall t, i, r, x, y | Touching(pieces, starts, cuts, t, i, r, x, y) ensures !SamePage(x, y, page) {
        SeparateRunsDoNotMeet(pieces, starts, cuts, page, t, i, r, x, y);
      }
    } else {
      var r :| 0 < r < |cuts| && !SeparateAt(pieces, starts, cuts[r], page);
      MeetAtCut(pieces, starts, cuts, page, r);
    }
  }

  /** The last byte before a run that is not separate is on the page where the run begins. */
  lemma MeetAtCut(pieces: seq<Piece>, starts: seq<nat>, cuts: seq<nat>, page: nat, r: nat)
    requires page > 0 && Recorded(pieces, starts, page) && Partition(pieces, cuts, |pieces|)
    requires forall i | 0 <= i < |pieces| :: pieces[i].size > 0
    requires 0 < r < |cuts| && !SeparateAt(pieces, starts, cuts[r], page)
    ensures
      var c := cuts[r];
      Meet(pieces, starts, cuts, page, r - 1, c - 1, r, starts[c - 1] + pieces[c - 1].size - 1, pieces[c].address)
  {
    var c := cuts[r];
    var x, y := starts[c - 1] + pieces[c - 1].size - 1, pieces[c].address;
    assert cuts[r - 1] < c && RecordedAt(pieces[c], starts[c], page);
    FloorMonotone(x, starts[c], page);
    FloorBounds(y, page);
    MultipleBelow(Floor(y, page), x, page);
    BeginsInside(pieces, cuts, r);
  }

  lemma MultipleBelow(m: nat, x: nat, page: nat)
    requires page > 0 && m % page == 0 && m <= x
    ensures m <= Floor(x, page)
  {
    FloorBounds(x, page);
    if Floor(x, page) < m { NextMultiple(Floor(x, page), m, page); }
  }

  lemma BeginsInside(pieces: seq<Piece>, cuts: seq<nat>, r: nat)
    requires Ascending(pieces) && Partition(pieces, cuts, |pieces|) && r < |cuts|
    requires forall i | 0 <= i < |pieces| :: pieces[i].size > 0
    ensures InRun(pieces, cuts, r, pieces[cuts[r]].address)
  {
    var hi := Stop(cuts, r, |pieces|);
    RunEnds(pieces, cuts[r], hi);
    assert pieces[cuts[r]].address <= pieces[hi - 1].address;
  }

  // ---- decommitting ----

  lemma DecommitsDiscardable(pieces: seq<Piece>, a: nat, cuts: seq<nat>, r: nat, c: Call)
    requires a > 0 && Ascending(pieces) && Partition(pieces, cuts, |pieces|) && r < |cuts|
    requires c in CallsAt(pieces, a, cuts, r) && c.Decommit?
    ensures AllDiscardable(pieces, cuts[r], Stop(cuts, r, |pieces|))
  {
  }

  /** If the runs are separate, no decommit frees a page with a byte of a section that is kept. */
  lemma DecommitIsSafe(
    pieces: seq<Piece>, starts: seq<nat>, a: nat, cuts: seq<nat>, page: nat, c: Call, i: nat, x: nat, y: nat)
    requires page > 0 && a > 0 && Recorded(pieces, starts, page) && Partition(pieces, cuts, |pieces|)
    requires RunsSeparate(pieces, starts, cuts, page)
    requires c in AllCalls(pieces, a, cuts) && c.Decommit? && c.address <= y < c.address + c.size
    requires i < |pieces| && DISCARDABLE !in pieces[i].flags && InSection(pieces, starts, i, x)
    ensures !SamePage(x, y, page)
  {
    var r := CallOrigin(pieces, a, cuts, c);
    var t := RunOf(pieces, cuts, |pieces|, i);
    CallStaysInRun(pieces, a, cuts, r, c, y);
    DecommitsDiscardable(pieces, a, cuts, r, c);
    SeparateRunsDoNotMeet(pieces, starts, cuts, page, t, i, r, x, y);
  }

  /** If the runs are separate, no call but that of its own run touches a page of a section. */
  lemma OtherCallsStayAway(
    pieces: seq<Piece>, starts: seq<nat>, a: nat, cuts: seq<nat>, page: nat, t: nat, c: Call, d: Call, i: nat,
    x: nat, y: nat)
    requires page > 0 && a > 0 && Recorded(pieces, starts, page) && Partition(pieces, cuts, |pieces|)
    requires RunsSeparate(pieces, starts, cuts, page)
    requires t < |cuts| && CallsAt(pieces, a, cuts, t) == [c] && i < |pieces| && Belongs(cuts, t, i, |pieces|)
    requires d in AllCalls(pieces, a, cuts) && d != c && d.address <= y < d.address + d.size
    requires InSection(pieces, starts, i, x)
    ensures !SamePage(x, y, page)
  {
    var r := CallOrigin(pieces, a, cuts, d);
    assert r != t;
    CallStaysInRun(pieces, a, cuts, r, d, y);
    SeparateRunsDoNotMeet(pieces, starts, cuts, page, t, i, r, x, y);
  }

  /** Exactly when a call hits a section: their page ranges overlap. */
  lemma HitsExactly(pieces: seq<Piece>, starts: seq<nat>, page: nat, c: Call, i: nat)
    requires page > 0 && i < |pieces| == |starts| && pieces[i].size > 0 && c.size > 0
    ensures (exists x :: InSection(pieces, starts, i, x) && Touches(c.address, c.size, page, x)) <==>
            && Floor(c.address, page) <= Floor(starts[i] + pieces[i].size - 1, page)
            && Floor(starts[i], page) <= Floor(c.address + c.size - 1, page)
  {
    var first, last, p := starts[i], starts[i] + pieces[i].size - 1, Floor(c.address, page);
    forall x | InSection(pieces, starts, i, x)
      ensures Floor(first, page) <= Floor(x, page) <= Floor(last, page)
      ensures Touches(c.address, c.size, page, x) <==> p <= Floor(x, page) <= Floor(c.address + c.size - 1, page)
    {
      FloorMonotone(first, x, page);
      FloorMonotone(x, last, page);
      TouchesExactly(c.address, c.size, page, x);
    }
    if p <= Floor(last, page) && Floor(first, page) <= Floor(c.address + c.size - 1, page) {
      var x := if p <= first then first else p;
      FloorBounds(c.address, page);
      FloorBounds(last, page);
      FloorOfMultiple(p, page);
      FloorMonotone(c.address, c.address + c.size - 1, page);
      if p <= first { MultipleBelow(p, first, page); }
      assert InSection(pieces, starts, i, x);
    }
  }

  // ---- protecting ----

  /** The range holds a byte of the page of `x`. */
  ghost predicate Touches(address: nat, size: nat, page: nat, x: nat)
    requires page > 0
  {
    exists y :: address <= y < address + size && SamePage(x, y, page)
  }

  /** A range touches the pages from that of its first to that of its last byte. */
  lemma TouchesExactly(address: nat, size: nat, page: nat, x: nat)
    requires page > 0 && size > 0
    ensures Touches(address, size, page, x) <==>
            Floor(address, page) <= Floor(x, page) <= Floor(address + size - 1, page)
  {
    var p, last := Floor(x, page), address + size - 1;
    forall y | address <= y < address + size ensures Floor(address, page) <= Floor(y, page) <= Floor(last, page) {
      FloorMonotone(address, y, page);
      FloorMonotone(y, last, page);
    }
    if Floor(address, page) <= p <= Floor(last, page) {
      FloorBounds(x, page);
      FloorBounds(address, page);
      FloorBounds(last, page);
      if p <= address {
        MultipleBelow(p, address, page);
        assert SamePage(x, address, page);
      } else {
        FloorOfMultiple(p, page);
        assert SamePage(x, p, page);
      }
    }
  }

  lemma FloorOfMultiple(m: nat, page: nat)
    requires page > 0 && m % page == 0
    ensures Floor(m, page) == m
  {
  }

  /** From where it is recorded, section `i` ends on the page where it really ends. */
  ghost predicate Reaches(pieces: seq<Piece>, starts: seq<nat>, page: nat, i: nat)
    requires page > 0 && i < |pieces| == |starts|
  {
    pieces[i].size == 0 || SamePage(End(pieces[i]) - 1, starts[i] + pieces[i].size - 1, page)
  }

  /** The range of the run lo..hi touches every page of its sections. */
  ghost predicate RunReaches(pieces: seq<Piece>, starts: seq<nat>, page: nat, lo: nat, hi: nat)
    requires page > 0 && Recorded(pieces, starts, page) && lo < hi <= |pieces|
  {
    var run := RunFor(pieces, lo, hi);
    forall i, x | lo <= i < hi && InSection(pieces, starts, i, x) :: Touches(run.address, run.size, page, x)
  }

  /** The first page of a section of a run is not before the run. */
  lemma NotBeforeRun(pieces: seq<Piece>, starts: seq<nat>, page: nat, lo: nat, i: nat, x: nat)
    requires page > 0 && Recorded(pieces, starts, page) && lo <= i < |pieces| && InSection(pieces, starts, i, x)
    ensures Floor(pieces[lo].address, page) <= Floor(x, page)
  {
    assert RecordedAt(pieces[i], starts[i], page);
    assert pieces[lo].address <= pieces[i].address;
    FloorMonotone(pieces[lo].address, x, page);
  }

  /** All sections of a run but the last end on a page that the run touches. */
  lemma EarlierReach(pieces: seq<Piece>, starts: seq<nat>, page: nat, i: nat, last: nat, x: nat)
    requires page > 0 && Recorded(pieces, starts, page) && i < last < |pieces| && InSection(pieces, starts, i, x)
    ensures 0 < End(pieces[last]) && Floor(x, page) <= Floor(End(pieces[last]) - 1, page)
  {
    assert RecordedAt(pieces[last], starts[last], page) && x < starts[last];
    if pieces[last].size == 0 {
      FloorMonotone(x, End(pieces[last]) - 1, page);
    } else {
      FloorMonotone(x, starts[last], page);
      FloorMonotone(pieces[last].address, End(pieces[last]) - 1, page);
    }
  }

  lemma TouchesSection(pieces: seq<Piece>, starts: seq<nat>, page: nat, lo: nat, hi: nat, i: nat, x: nat)
    requires page > 0 && Recorded(pieces, starts, page) && lo <= i < hi <= |pieces|
    requires InSection(pieces, starts, i, x) && Reaches(pieces, starts, page, hi - 1)
    ensures Touches(RunFor(pieces, lo, hi).address, RunFor(pieces, lo, hi).size, page, x)
  {
    var run, last := RunFor(pieces, lo, hi), hi - 1;
    RunEnds(pieces, lo, hi);
    RunIsNotEmpty(pieces, starts, page, lo, hi, i);
    NotBeforeRun(pieces, starts, page, lo, i, x);
    if i < last { EarlierReach(pieces, starts, page, i, last, x); } else { LastReach(pieces, starts, page, last, x); }
    TouchesExactly(run.address, run.size, page, x);
  }

  lemma LastReach(pieces: seq<Piece>, starts: seq<nat>, page: nat, last: nat, x: nat)
    requires page > 0 && last < |pieces| == |starts| && InSection(pieces, starts, last, x)
    requires Reaches(pieces, starts, page, last)
    ensures 0 < End(pieces[last]) && Floor(x, page) <= Floor(End(pieces[last]) - 1, page)
  {
    FloorMonotone(x, starts[last] + pieces[last].size - 1, page);
  }

  lemma RunIsNotEmpty(pieces: seq<Piece>, starts: seq<nat>, page: nat, lo: nat, hi: nat, i: nat)
    requires page > 0 && Recorded(pieces, starts, page) && lo <= i < hi <= |pieces| && pieces[i].size > 0
    ensures RunFor(pieces, lo, hi).size > 0
  {
    var last := hi - 1;
    assert RecordedAt(pieces[last], starts[last], page) && RecordedAt(pieces[i], starts[i], page);
    assert pieces[lo].address <= pieces[i].address;
    if i < last { assert starts[i] + pieces[i].size <= starts[last] && pieces[i].address <= pieces[last].address; }
  }

  /** A run touches every page of its sections exactly when its last section, from where it is recorded,
      ends on the page where it really ends; only the last section can be missed. */
  lemma RunReachesExactly(pieces: seq<Piece>, starts: seq<nat>, page: nat, lo: nat, hi: nat)
    requires page > 0 && Recorded(pieces, starts, page) && lo < hi <= |pieces|
    ensures RunReaches(pieces, starts, page, lo, hi) <==> Reaches(pieces, starts, page, hi - 1)
  {
    var run, last := RunFor(pieces, lo, hi), hi - 1;
    if Reaches(pieces, starts, page, last) {
      forall i, x | lo <= i < hi && InSection(pieces, starts, i, x)
        ensures Touches(run.address, run.size, page, x)
      {
        TouchesSection(pieces, starts, page, lo, hi, i, x);
      }
    } else {
      FallsShort(pieces, starts, page, lo, hi);
    }
  }

  lemma FallsShort(pieces: seq<Piece>, starts: seq<nat>, page: nat, lo: nat, hi: nat)
    requires page > 0 && Recorded(pieces, starts, page) && lo < hi <= |pieces|
    requires !Reaches(pieces, starts, page, hi - 1)
    ensures !RunReaches(pieces, starts, page, lo, hi)
  {
    var run, last := RunFor(pieces, lo, hi), hi - 1;
    var x := starts[last] + pieces[last].size - 1;
    assert InSection(pieces, starts, last, x);
    LastIsMissed(pieces, starts, page, lo, hi, x);
    assert !Touches(run.address, run.size, page, x);
  }

  lemma LastIsMissed(pieces: seq<Piece>, starts: seq<nat>, page: nat, lo: nat, hi: nat, x: nat)
    requires page > 0 && Recorded(pieces, starts, page) && lo < hi <= |pieces|
    requires !Reaches(pieces, starts, page, hi - 1) && x == starts[hi - 1] + pieces[hi - 1].size - 1
    ensures !Touches(RunFor(pieces, lo, hi).address, RunFor(pieces, lo, hi).size, page, x)
  {
    var run, last := RunFor(pieces, lo, hi), hi - 1;
    RunEnds(pieces, lo, hi);
    RunIsNotEmpty(pieces, starts, page, lo, hi, last);
    assert RecordedAt(pieces[last], starts[last], page);
    FloorMonotone(End(pieces[last]) - 1, x, page);
    TouchesExactly(run.address, run.size, page, x);
  }

  /** Every kept section that is not empty is protected by the call of its run, with all the access it asks
      for. */
  lemma KeptIsProtected(pieces: seq<Piece>, starts: seq<nat>, a: nat, cuts: seq<nat>, page: nat, i: nat)
    returns (t: nat, c: Call)
    requires page > 0 && a > 0 && Recorded(pieces, starts, page) && Partition(pieces, cuts, |pieces|)
    requires i < |pieces| && DISCARDABLE !in pieces[i].flags && pieces[i].size > 0
    ensures t < |cuts| && Belongs(cuts, t, i, |pieces|) && Stop(cuts, t, |pieces|) <= |pieces|
    ensures CallsAt(pieces, a, cuts, t) == [c] && c in AllCalls(pieces, a, cuts) && Grants(c, pieces[i].flags)
    ensures c.address <= pieces[i].address && (Sorted(pieces) ==> End(pieces[i]) <= c.address + c.size)
    ensures AsFlagged(c.protection, FlagsOf(pieces, cuts[t], Stop(cuts, t, |pieces|)))
  {
    t := RunOf(pieces, cuts, |pieces|, i);
    c := KeptCall(pieces, starts, a, cuts, page, t, i);
  }

  /** That call touches every page of the section if the last section of the run is reached. */
  lemma KeptIsReached(
    pieces: seq<Piece>, starts: seq<nat>, a: nat, cuts: seq<nat>, page: nat, t: nat, c: Call, i: nat)
    requires page > 0 && a > 0 && Recorded(pieces, starts, page) && Partition(pieces, cuts, |pieces|)
    requires t < |cuts| && CallsAt(pieces, a, cuts, t) == [c]
    requires cuts[t] <= i < Stop(cuts, t, |pieces|) <= |pieces|
    requires Reaches(pieces, starts, page, Stop(cuts, t, |pieces|) - 1)
    ensures TouchesAll(pieces, starts, page, c, i)
  {
    ReachedRunTouches(pieces, starts, page, cuts[t], Stop(cuts, t, |pieces|), i, c);
  }

  lemma KeptCall(pieces: seq<Piece>, starts: seq<nat>, a: nat, cuts: seq<nat>, page: nat, t: nat, i: nat)
    returns (c: Call)
    requires page > 0 && a > 0 && Recorded(pieces, starts, page) && Partition(pieces, cuts, |pieces|)
    requires t < |cuts| && cuts[t] <= i < Stop(cuts, t, |pieces|) <= |pieces|
    requires DISCARDABLE !in pieces[i].flags && pieces[i].size > 0
    ensures CallsAt(pieces, a, cuts, t) == [c] && c in AllCalls(pieces, a, cuts) && Grants(c, pieces[i].flags)
    ensures
      var run := RunFor(pieces, cuts[t], Stop(cuts, t, |pieces|));
      c.address == run.address && c.size == run.size && AsFlagged(c.protection, run.flags)
  {
    var lo, hi := cuts[t], Stop(cuts, t, |pieces|);
    RunIsNotEmpty(pieces, starts, page, lo, hi, i);
    c := KeptRun(pieces, a, lo, hi, i, t == |cuts| - 1);
    CallIsMade(pieces, a, cuts, t, c);
  }

  /** The call touches every page of section `i`. */
  ghost predicate TouchesAll(pieces: seq<Piece>, starts: seq<nat>, page: nat, c: Call, i: nat)
    requires page > 0 && i < |pieces| == |starts|
  {
    forall x | InSection(pieces, starts, i, x) :: Touches(c.address, c.size, page, x)
  }

  lemma ReachedRunTouches(pieces: seq<Piece>, starts: seq<nat>, page: nat, lo: nat, hi: nat, i: nat, c: Call)
    requires page > 0 && Recorded(pieces, starts, page) && lo <= i < hi <= |pieces|
    requires Reaches(pieces, starts, page, hi - 1)
    requires c.address == RunFor(pieces, lo, hi).address && c.size == RunFor(pieces, lo, hi).size
    ensures TouchesAll(pieces, starts, page, c, i)
  {
    forall x | InSection(pieces, starts, i, x) ensures Touches(c.address, c.size, page, x) {
      TouchesSection(pieces, starts, page, lo, hi, i, x);
    }
  }

  // ---- when all is well ----

  /** The sections are recorded where they start, and suit the pages: addresses are rounded down to
      multiples of a multiple of the page size or, whatever the alignment, every section starts on a page. */
  ghost predicate OnPages(pieces: seq<Piece>, starts: seq<nat>, a: nat, page: nat)
    requires page > 0 && a > 0 && |pieces| == |starts|
  {
    && (forall i | 0 <= i < |pieces| :: pieces[i].address == starts[i])
    && (|| (RoundedBy(pieces, a) && a % page == 0)
        || forall i | 0 <= i < |pieces| :: pieces[i].address % page == 0)
  }

  /** Then runs are separate and every run reaches its sections. */
  lemma OnPagesSuffices(pieces: seq<Piece>, starts: seq<nat>, a: nat, cuts: seq<nat>, page: nat)
    requires page > 0 && a > 0 && Recorded(pieces, starts, page) && Partition(pieces, cuts, |pieces|)
    requires OnPages(pieces, starts, a, page)
    ensures RunsSeparate(pieces, starts, cuts, page)
    ensures forall i | 0 <= i < |pieces| :: Reaches(pieces, starts, page, i)
  {
    forall t | 0 < t < |cuts| ensures SeparateAt(pieces, starts, cuts[t], page) {
      var c := cuts[t];
      CutSeparates(pieces, cuts[t - 1], c);
      if RoundedBy(pieces, a) && a % page == 0 {
        FloorFloor(pieces[c].address, page, a);
        FloorBounds(pieces[c].address, a);
        MultipleOfMultiple(pieces[c].aligned, page, a);
        MultipleBelow(pieces[c].aligned, pieces[c].address, page);
      } else {
        FloorOfMultiple(pieces[c].address, page);
      }
    }
  }

  // ---- from copySections to finalizeSections ----

  /** Sections in the order of their addresses in the image that do not overlap. */
  ghost predicate InOrder(sections: seq<Section>, initialized: nat, uninitialized: nat) {
    forall i, j | 0 <= i < j < |sections| ::
      sections[i].virtualAddress + RealSectionSize(sections[i], initialized, uninitialized)
      <= sections[j].virtualAddress
  }

  /** Where finalizeSections finds a section after copySections: with data, at the page of its start. */
  function FoundAt(codeBase: nat, s: Section): nat {
    codeBase + (if s.sizeOfRawData == 0 then s.virtualAddress else s.virtualAddress - s.virtualAddress % PAGE)
  }

  /** A section without data starts within a page, and `t` has data and starts later on that page: `t` is
      then found before it. */
  predicate GoesBack(s: Section, t: Section) {
    s.sizeOfRawData == 0 && t.sizeOfRawData != 0 && s.virtualAddress > t.virtualAddress - t.virtualAddress % PAGE
  }

  /** Sections are found in order exactly when none goes back. */
  lemma FoundInOrder(codeBase: nat, s: Section, t: Section)
    requires s.virtualAddress <= t.virtualAddress
    ensures FoundAt(codeBase, s) <= FoundAt(codeBase, t) <==> !GoesBack(s, t)
  {
    FloorMonotone(s.virtualAddress, t.virtualAddress, PAGE);
  }

  ghost predicate NoneGoesBack(sections: seq<Section>) {
    forall i, j | 0 <= i < j < |sections| :: !GoesBack(sections[i], sections[j])
  }

  lemma AlignDownBelow(value: nat, a: nat)
    requires a < WORD
    ensures AlignDown(value, a) <= value
  {
    AndBound(value, Not(Pred(a)));
  }

  lemma PieceFound(codeBase: nat, size: nat, s: Section, a: nat, initialized: nat, uninitialized: nat)
    requires codeBase + size < WORD && !CrossesBoundary(codeBase, size) && codeBase % PAGE == 0
    requires EndOf(s, a) <= size && 0 < a < WORD
    ensures PieceOf(s.(physical := Placed(codeBase, s, a)), codeBase, a, initialized, uninitialized) ==
            FoundPiece(codeBase, s, a, initialized, uninitialized)
  {
    SectionAddressesExactly(codeBase, size, s, a);
  }

  function FoundPiece(codeBase: nat, s: Section, a: nat, initialized: nat, uninitialized: nat): Piece
    requires a < WORD
  {
    var at := FoundAt(codeBase, s);
    Piece(at, AlignDown(at, a), RealSectionSize(s, initialized, uninitialized), s.characteristics)
  }

  /** A section is found on the page where it starts. */
  lemma FoundOnItsPage(codeBase: nat, s: Section, a: nat, initialized: nat, uninitialized: nat)
    requires codeBase % PAGE == 0 && a < WORD
    ensures
      var p := FoundPiece(codeBase, s, a, initialized, uninitialized);
      && RecordedAt(p, codeBase + s.virtualAddress, PAGE) && p.aligned <= p.address
      && (s.virtualAddress % PAGE == 0 ==> p.address == codeBase + s.virtualAddress && p.address % PAGE == 0)
  {
    var va := s.virtualAddress;
    AlignDownBelow(FoundAt(codeBase, s), a);
    FloorOfSum(codeBase, va);
    FloorOfSum(codeBase, va - va % PAGE);
    FloorBounds(va, PAGE);
    SumOfRemainders(codeBase, va, PAGE);
  }

  lemma FloorOfSum(codeBase: nat, offset: nat)
    requires codeBase % PAGE == 0
    ensures Floor(codeBase + offset, PAGE) == codeBase + Floor(offset, PAGE)
  {
    var p, r := Divide(codeBase, PAGE);
    var q, t := Divide(offset, PAGE);
    Distribute(p, q, PAGE);
    DivisionIsUnique(codeBase + offset, PAGE, p + q, t);
  }

  /** The headers that copySections leaves behind, with their 32-bit addresses, as finalizeSections reads
      them: every section is found, on the page where it starts. */
  lemma PlacedPieces(
    sections: seq<Section>, placed: seq<Section>, codeBase: nat, size: nat, a: nat, initialized: nat,
    uninitialized: nat)
    returns (pieces: seq<Piece>, starts: seq<nat>)
    requires codeBase + size < WORD && !CrossesBoundary(codeBase, size) && codeBase % PAGE == 0 && 0 < a < WORD
    requires AllWithin(sections, a, size) && InOrder(sections, initialized, uninitialized) && NoneGoesBack(sections)
    requires |placed| == |sections|
    requires forall i | 0 <= i < |placed| :: placed[i] == sections[i].(physical := Placed(codeBase, sections[i], a))
    ensures PiecesOf(pieces, placed, codeBase, a, initialized, uninitialized) && Recorded(pieces, starts, PAGE)
    ensures forall i | 0 <= i < |pieces| ::
              && pieces[i] == FoundPiece(codeBase, sections[i], a, initialized, uninitialized)
              && starts[i] == codeBase + sections[i].virtualAddress
    ensures (forall i | 0 <= i < |sections| :: sections[i].virtualAddress % PAGE == 0) ==>
              OnPages(pieces, starts, a, PAGE)
  {
    pieces := seq(|placed|, i requires 0 <= i < |placed| =>
      FoundPiece(codeBase, sections[i], a, initialized, uninitialized));
    starts := seq(|placed|, i requires 0 <= i < |placed| => codeBase + sections[i].virtualAddress);
    forall i | 0 <= i < |placed|
      ensures pieces[i] == PieceOf(placed[i], codeBase, a, initialized, uninitialized)
    {
      PieceFound(codeBase, size, sections[i], a, initialized, uninitialized);
    }
    FoundAreRecorded(sections, codeBase, a, initialized, uninitialized, pieces, starts);
  }

  lemma FoundAreRecorded(
    sections: seq<Section>, codeBase: nat, a: nat, initialized: nat, uninitialized: nat, pieces: seq<Piece>,
    starts: seq<nat>)
    requires codeBase % PAGE == 0 && 0 < a < WORD
    requires InOrder(sections, initialized, uninitialized) && NoneGoesBack(sections)
    requires |pieces| == |sections| == |starts|
    requires forall i | 0 <= i < |pieces| ::
              && pieces[i] == FoundPiece(codeBase, sections[i], a, initialized, uninitialized)
              && starts[i] == codeBase + sections[i].virtualAddress
    ensures Recorded(pieces, starts, PAGE)
    ensures (forall i | 0 <= i < |sections| :: sections[i].virtualAddress % PAGE == 0) ==>
              OnPages(pieces, starts, a, PAGE)
  {
    forall i | 0 <= i < |pieces|
      ensures RecordedAt(pieces[i], starts[i], PAGE) && pieces[i].aligned <= pieces[i].address
      ensures pieces[i].address == FoundAt(codeBase, sections[i])
      ensures pieces[i].size == RealSectionSize(sections[i], initialized, uninitialized)
      ensures sections[i].virtualAddress % PAGE == 0 ==> pieces[i].address == starts[i] && starts[i] % PAGE == 0
    {
      FoundOnItsPage(codeBase, sections[i], a, initialized, uninitialized);
    }
    forall i, j | 0 <= i < j < |pieces| ensures pieces[i].address <= pieces[j].address {
      FoundInOrder(codeBase, sections[i], sections[j]);
    }
  }

  /** Exactly when a section with data is reached from where it is found: its offset in its first page and
      that of its last byte from a page start together stay below a page. */
  lemma ReachesExactly(codeBase: nat, s: Section)
    requires codeBase % PAGE == 0 && s.sizeOfRawData > 0
    ensures
      var last := s.sizeOfRawData - 1;
      SamePage(FoundAt(codeBase, s) + last, codeBase + s.virtualAddress + last, PAGE) <==>
      s.virtualAddress % PAGE + last % PAGE < PAGE
  {
    var va, last := s.virtualAddress, s.sizeOfRawData - 1;
    var q, r := Divide(va, PAGE);
    var p, t := Divide(last, PAGE);
    FloorOfSum(codeBase, (va - r) + last);
    FloorOfSum(codeBase, va + last);
    Distribute(q, p, PAGE);
    DivisionIsUnique((va - r) + last, PAGE, q + p, t);
    if r + t < PAGE {
      DivisionIsUnique(va + last, PAGE, q + p, r + t);
    } else {
      Distribute(q + p, 1, PAGE);
      DivisionIsUnique(va + last, PAGE, q + p + 1, r + t - PAGE);
    }
  }

  // ---- inputs on which pages are missed or hit ----

  /** A place for the examples below. */
  ghost predicate Free(codeBase: nat) {
    codeBase + 0x4000 < WORD && !CrossesBoundary(codeBase, 0x4000) && codeBase % PAGE == 0
  }

  /** The section as finalizeSections finds it. */
  ghost predicate Finds(codeBase: nat, s: Section, a: nat, uninitialized: nat, p: Piece)
    requires a < WORD
  {
    p == PieceOf(s.(physical := Placed(codeBase, s, a)), codeBase, a, 0, uninitialized)
  }

  /** Rounding down to 0x200, in an image that starts on a page. */
  lemma RoundsDown(codeBase: nat, offset: nat, a: nat)
    requires codeBase % PAGE == 0 && codeBase + offset < WORD && a == 0x200
    ensures AlignDown(codeBase + offset, a) == codeBase + (offset - offset % 0x200)
  {
    assert Pow2(9) == 0x200 by { assert Pow2(4) == 16 && Pow2(8) == 256; }
    AlignDownPow2(codeBase + offset, 9);
    RemainderTwice(codeBase, PAGE, 0x200, 8);
    RemainderTwice(codeBase + offset, PAGE, 0x200, 8);
    var p, r := Divide(codeBase, 0x200);
    var q, t := Divide(offset, 0x200);
    MultipleOfMultiple(codeBase, 0x200, PAGE);
    Distribute(p, q, 0x200);
    DivisionIsUnique(codeBase + offset, 0x200, p + q, t);
  }

  lemma ExamplePiece(codeBase: nat, s: Section, a: nat, uninitialized: nat) returns (p: Piece)
    requires Free(codeBase) && a == 0x200 && EndOf(s, a) <= 0x4000
    ensures Finds(codeBase, s, a, uninitialized, p)
    ensures p.address == FoundAt(codeBase, s) && p.flags == s.characteristics
    ensures p.aligned == AlignedAt(codeBase, p.address) && p.size == RealSectionSize(s, 0, uninitialized)
  {
    ExampleFound(codeBase, s, a, uninitialized);
    var at := FoundAt(codeBase, s);
    RoundsDown(codeBase, at - codeBase, a);
    p := Piece(at, AlignedAt(codeBase, at), RealSectionSize(s, 0, uninitialized), s.characteristics);
  }

  function AlignedAt(codeBase: nat, address: nat): nat {
    if address < codeBase then 0 else codeBase + ((address - codeBase) - (address - codeBase) % 0x200)
  }

  lemma ExampleFound(codeBase: nat, s: Section, a: nat, uninitialized: nat)
    requires Free(codeBase) && a == 0x200 && EndOf(s, a) <= 0x4000
    ensures Finds(codeBase, s, a, uninitialized, FoundPiece(codeBase, s, a, 0, uninitialized))
  {
    PieceFound(codeBase, 0x4000, s, a, 0, uninitialized);
  }

  /** With an alignment below the page size, sections may start within a page. The run of two sections that
      share a page may then end too early: here, wherever the image is, the last 0x100 bytes of the second
      section, on a page of their own, get no protection. */
  lemma SubPageRunFallsShort(codeBase: nat, a: nat) returns (s: Section, t: Section, p: Piece, q: Piece)
    requires Free(codeBase) && a == 0x200
    ensures s.virtualAddress % a == t.virtualAddress % a == 0 && EndOf(s, a) <= t.virtualAddress
    ensures Finds(codeBase, s, a, 0, p) && Finds(codeBase, t, a, 0, q)
    ensures Shares(Begin(p), q) && Begin(p).address <= End(q)
    ensures
      var run := Merge(Begin(p), q);
      run.address + run.size < Floor(codeBase + EndOf(t, a) - 1, PAGE)
  {
    s, t := Section(0, 0x1000, 0x1200, 0, {READ}), Section(0, 0x2200, 0xf00, 0x1200, {READ, EXECUTE});
    p := ExamplePiece(codeBase, s, a, 0);
    q := ExamplePiece(codeBase, t, a, 0);
    FloorOfSum(codeBase, 0x30ff);
  }

  /** Worse, a decommit may free a page of a section that is kept: here a section with 0x100 bytes of data is
      followed, on its page but in another alignment unit, by a discardable one without data. */
  lemma DecommitHitsKept(codeBase: nat, a: nat)
    returns (s: Section, t: Section, pieces: seq<Piece>, starts: seq<nat>, c: Call, x: nat)
    requires Free(codeBase) && a == 0x200
    ensures s.virtualAddress % a == t.virtualAddress % a == 0 && EndOf(s, a) <= t.virtualAddress
    ensures |pieces| == 2 && Finds(codeBase, s, a, 0x200, pieces[0]) && Finds(codeBase, t, a, 0x200, pieces[1])
    ensures starts == [codeBase + s.virtualAddress, codeBase + t.virtualAddress]
    ensures Recorded(pieces, starts, PAGE) && Sorted(pieces)
    ensures Partition(pieces, [0, 1], 2) && Joined(pieces, [0, 1], 2)
    ensures c in AllCalls(pieces, a, [0, 1]) && c.Decommit? && c.size > 0
    ensures DISCARDABLE !in pieces[0].flags && InSection(pieces, starts, 0, x) && SamePage(x, c.address, PAGE)
  {
    var p, q;
    s, p := KeptExample(codeBase, a);
    t, q := DiscardableExample(codeBase, a);
    pieces, starts := [p, q], [codeBase + 0x1000, codeBase + 0x1200];
    x := codeBase + 0x1000;
    TwoOnOnePage(codeBase, p, q);
    c := TwoRuns(pieces);
  }

  lemma KeptExample(codeBase: nat, a: nat) returns (s: Section, p: Piece)
    requires Free(codeBase) && a == 0x200
    ensures s.virtualAddress == 0x1000 && EndOf(s, a) == 0x1100 && Finds(codeBase, s, a, 0x200, p)
    ensures p.address == p.aligned == codeBase + 0x1000 && p.size == 0x100 && DISCARDABLE !in p.flags
  {
    s := Section(0, 0x1000, 0x100, 0, {READ});
    p := ExamplePiece(codeBase, s, a, 0x200);
  }

  lemma DiscardableExample(codeBase: nat, a: nat) returns (t: Section, q: Piece)
    requires Free(codeBase) && a == 0x200
    ensures t.virtualAddress == 0x1200 && Finds(codeBase, t, a, 0x200, q)
    ensures q.address == q.aligned == codeBase + 0x1200 && q.size == 0x200 && DISCARDABLE in q.flags
  {
    t := Section(0, 0x1200, 0, 0, {UNINITIALIZED_DATA, DISCARDABLE});
    q := ExamplePiece(codeBase, t, a, 0x200);
  }

  lemma TwoOnOnePage(codeBase: nat, p: Piece, q: Piece)
    requires codeBase % PAGE == 0
    requires p.address == p.aligned == codeBase + 0x1000 && p.size == 0x100
    requires q.address == q.aligned == codeBase + 0x1200 && q.size == 0x200
    ensures Recorded([p, q], [codeBase + 0x1000, codeBase + 0x1200], PAGE) && Sorted([p, q])
    ensures SamePage(codeBase + 0x1000, codeBase + 0x1200, PAGE)
  {
    FloorOfSum(codeBase, 0x1000);
    FloorOfSum(codeBase, 0x1200);
  }

  lemma TwoRuns(pieces: seq<Piece>) returns (c: Call)
    requires |pieces| == 2 && Ascending(pieces) && End(pieces[0]) <= pieces[1].aligned == pieces[1].address
    requires pieces[0].aligned < pieces[1].aligned && DISCARDABLE in pieces[1].flags && pieces[1].size > 0
    ensures Partition(pieces, [0, 1], 2) && Joined(pieces, [0, 1], 2)
    ensures c in AllCalls(pieces, 0x200, [0, 1]) && c == Decommit(pieces[1].address, pieces[1].size)
  {
    RunEnds(pieces, 0, 1);
    assert !Continues(pieces, 0, 1);
    BeginIsRun(pieces, 1);
    c := Decommit(pieces[1].address, pieces[1].size);
    assert CallsAt(pieces, 0x200, [0, 1], 1) == [c];
    CallIsMade(pieces, 0x200, [0, 1], 1, c);
  }

  /** And where a section goes back, the run's size is computed as a negative number, that is, wraps around. */
  lemma RunSizeWraps(codeBase: nat, a: nat) returns (s: Section, t: Section, p: Piece, q: Piece)
    requires Free(codeBase) && a == 0x200
    ensures s.virtualAddress % a == t.virtualAddress % a == 0 && EndOf(s, a) <= t.virtualAddress
    ensures GoesBack(s, t) && Finds(codeBase, s, a, 0x200, p) && Finds(codeBase, t, a, 0x200, q)
    ensures Shares(Begin(p), q) && End(q) < Begin(p).address
  {
    s := Section(0, 0x1200, 0, 0, {UNINITIALIZED_DATA});
    t := Section(0, 0x1400, 0x80, 0, {READ});
    p := ExamplePiece(codeBase, s, a, 0x200);
    q := ExamplePiece(codeBase, t, a, 0x200);
  }
}
