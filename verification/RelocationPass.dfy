/**
 A whole relocation pass over an image: what it does to the bytes, and how two passes combine.
 */
module RelocationPass {
  import opened Bits
  import opened Wire
  import opened Relocation

  /** A place in the image to be relocated. */
  datatype Site = Site(kind: Kind, at: nat)

  predicate Within(t: Site, k: nat) {
    t.at <= k < t.at + Width(t.kind)
  }

  predicate Fits(t: Site, size: nat) {
    Width(t.kind) == 0 || t.at + Width(t.kind) <= size
  }

  function Slice(img: Bytes, t: Site): (r: Bytes)
    requires Fits(t, |img|)
    ensures |r| == Width(t.kind)
  {
    if Width(t.kind) == 0 then [] else img[t.at..t.at + Width(t.kind)]
  }

  /** The sites share a byte; one without width, such as padding, shares none. */
  predicate Overlap(t: Site, u: Site) {
    && Width(t.kind) > 0 && Width(u.kind) > 0
    && t.at < u.at + Width(u.kind) && u.at < t.at + Width(t.kind)
  }

  /** The sites lie in the image and do not overlap. */
  ghost predicate SitesOk(sites: seq<Site>, size: nat) {
    && (forall i | 0 <= i < |sites| :: Fits(sites[i], size))
    && forall i, j | 0 <= i < j < |sites| :: Separate(sites, i, j)
  }

  ghost predicate Separate(sites: seq<Site>, i: nat, j: nat)
    requires i < j < |sites|
  {
    !Overlap(sites[i], sites[j])
  }

  /** One of the first `n` sites covers byte `k`. */
  ghost predicate Covered(sites: seq<Site>, n: nat, k: nat)
    requires n <= |sites|
  {
    exists i :: 0 <= i < n && Within(sites[i], k)
  }

  /** What the relocation of site `t` makes of the image's bytes there. */
  function PatchAt(img: Bytes, t: Site, delta: nat): Patched
    requires Fits(t, |img|) && delta < WORD
  {
    Patch(t.kind, Slice(img, t), delta)
  }

  /** Site `i` is relocated. */
  ghost predicate Relocated(before: Bytes, after: Bytes, sites: seq<Site>, i: nat, delta: nat)
    requires SitesOk(sites, |before|) && |after| == |before| && i < |sites| && delta < WORD
  {
    Slice(after, sites[i]) == PatchAt(before, sites[i], delta).bytes
  }

  /** Byte `k` is as it was, unless one of the first `n` sites covers it. */
  ghost predicate Kept(before: Bytes, after: Bytes, sites: seq<Site>, n: nat, k: nat)
    requires |after| == |before| && n <= |sites| && k < |before|
  {
    Covered(sites, n, k) || after[k] == before[k]
  }

  /** `after` is `before` with the first `n` sites relocated and no other byte changed. */
  ghost predicate Done(before: Bytes, after: Bytes, sites: seq<Site>, n: nat, delta: nat)
    requires SitesOk(sites, |before|) && n <= |sites| && delta < WORD
  {
    && |after| == |before|
    && (forall i | 0 <= i < n :: Relocated(before, after, sites, i, delta))
    && forall k | 0 <= k < |before| :: Kept(before, after, sites, n, k)
  }

  /** The relocation of site `i` succeeds. */
  ghost predicate Succeeds(img: Bytes, sites: seq<Site>, i: nat, delta: nat)
    requires SitesOk(sites, |img|) && i < |sites| && delta < WORD
  {
    PatchAt(img, sites[i], delta).ok
  }

  /** The relocations of the first `n` sites succeed. */
  ghost predicate AllOk(img: Bytes, sites: seq<Site>, n: nat, delta: nat)
    requires SitesOk(sites, |img|) && n <= |sites| && delta < WORD
  {
    forall i | 0 <= i < n :: Succeeds(img, sites, i, delta)
  }

  /** A pass over all sites that succeeded. */
  ghost predicate Pass(before: Bytes, after: Bytes, sites: seq<Site>, delta: nat) {
    && SitesOk(sites, |before|) && delta < WORD
    && Done(before, after, sites, |sites|, delta) && AllOk(before, sites, |sites|, delta)
  }

  ghost predicate Without(sites: seq<Site>, k: Kind) {
    forall i | 0 <= i < |sites| :: sites[i].kind != k
  }

  // ---- one more site ----

  lemma SliceByBytes(a: Bytes, b: Bytes, t: Site)
    requires Fits(t, |a|) && |a| == |b|
    requires forall k | 0 <= k < |a| && Within(t, k) :: a[k] == b[k]
    ensures Slice(a, t) == Slice(b, t)
  {
  }

  lemma BytesBySlice(a: Bytes, b: Bytes, t: Site, k: nat)
    requires Fits(t, |a|) && |a| == |b| && Slice(a, t) == Slice(b, t) && Within(t, k)
    ensures k < |a| && a[k] == b[k]
  {
    assert Slice(a, t)[k - t.at] == Slice(b, t)[k - t.at];
  }

  lemma NotCovered(sites: seq<Site>, size: nat, n: nat, k: nat)
    requires SitesOk(sites, size) && n < |sites| && Within(sites[n], k)
    ensures !Covered(sites, n, k)
  {
    forall i | 0 <= i < n ensures !Within(sites[i], k) {
      assert Separate(sites, i, n);
    }
  }

  /** Earlier relocations do not disturb a site. */
  lemma SiteIsFresh(before: Bytes, mid: Bytes, sites: seq<Site>, n: nat, delta: nat)
    requires SitesOk(sites, |before|) && n < |sites| && delta < WORD && Done(before, mid, sites, n, delta)
    ensures Slice(mid, sites[n]) == Slice(before, sites[n])
  {
    forall k | 0 <= k < |mid| && Within(sites[n], k) ensures mid[k] == before[k] {
      NotCovered(sites, |before|, n, k);
      assert Kept(before, mid, sites, n, k);
    }
    SliceByBytes(mid, before, sites[n]);
  }

  /** Relocating the next site on top of the earlier ones. */
  lemma DoneStep(before: Bytes, mid: Bytes, after: Bytes, sites: seq<Site>, n: nat, delta: nat)
    requires SitesOk(sites, |before|) && n < |sites| && delta < WORD && Done(before, mid, sites, n, delta)
    requires |after| == |mid| && Slice(after, sites[n]) == PatchAt(mid, sites[n], delta).bytes
    requires forall k | 0 <= k < |mid| && !Within(sites[n], k) :: after[k] == mid[k]
    ensures Done(before, after, sites, n + 1, delta)
    ensures PatchAt(before, sites[n], delta) == PatchAt(mid, sites[n], delta)
  {
    SiteIsFresh(before, mid, sites, n, delta);
    forall i | 0 <= i < n ensures Relocated(before, after, sites, i, delta) {
      assert Relocated(before, mid, sites, i, delta);
      OthersStay(mid, after, sites, n, i);
    }
    var m := n + 1;
    assert Relocated(before, after, sites, n, delta);
    forall k | 0 <= k < |before| ensures Kept(before, after, sites, m, k) {
      assert Kept(before, mid, sites, n, k);
      KeptStep(before, mid, after, sites, n, k);
    }
  }

  lemma KeptStep(before: Bytes, mid: Bytes, after: Bytes, sites: seq<Site>, n: nat, k: nat)
    requires |before| == |mid| == |after| && n < |sites| && k < |before| && Kept(before, mid, sites, n, k)
    requires !Within(sites[n], k) ==> after[k] == mid[k]
    ensures Kept(before, after, sites, n + 1, k)
  {
  }

  lemma OthersStay(mid: Bytes, after: Bytes, sites: seq<Site>, n: nat, i: nat)
    requires SitesOk(sites, |mid|) && i < n < |sites| && |after| == |mid|
    requires forall k | 0 <= k < |mid| && !Within(sites[n], k) :: after[k] == mid[k]
    ensures Slice(after, sites[i]) == Slice(mid, sites[i])
  {
    assert Separate(sites, i, n);
    SliceByBytes(after, mid, sites[i]);
  }

  // ---- whole passes ----

  /** Images that agree on every site and every other byte are equal. */
  lemma SameImage(a: Bytes, b: Bytes, sites: seq<Site>)
    requires |a| == |b| && SitesOk(sites, |a|)
    requires forall i | 0 <= i < |sites| :: Slice(a, sites[i]) == Slice(b, sites[i])
    requires forall k | 0 <= k < |a| :: Kept(a, b, sites, |sites|, k)
    ensures a == b
  {
    forall k | 0 <= k < |a| ensures a[k] == b[k] {
      assert Kept(a, b, sites, |sites|, k);
      if Covered(sites, |sites|, k) {
        var i :| 0 <= i < |sites| && Within(sites[i], k);
        BytesBySlice(a, b, sites[i], k);
      }
    }
  }

  /** Bytes kept by two passes. */
  lemma KeptTwice(a: Bytes, b: Bytes, c: Bytes, sites: seq<Site>)
    requires |a| == |b| == |c|
    requires forall k | 0 <= k < |a| :: Kept(a, b, sites, |sites|, k)
    requires forall k | 0 <= k < |a| :: Kept(b, c, sites, |sites|, k)
    ensures forall k | 0 <= k < |a| :: Kept(a, c, sites, |sites|, k)
  {
    forall k | 0 <= k < |a| ensures Kept(a, c, sites, |sites|, k) {
      assert Kept(a, b, sites, |sites|, k) && Kept(b, c, sites, |sites|, k);
    }
  }

  /** The sites and the delta determine the outcome. */
  lemma PassIsUnique(before: Bytes, a: Bytes, b: Bytes, sites: seq<Site>, delta: nat)
    requires Pass(before, a, sites, delta) && Pass(before, b, sites, delta)
    ensures a == b
  {
    forall i | 0 <= i < |sites| ensures Slice(a, sites[i]) == Slice(b, sites[i]) {
      assert Relocated(before, a, sites, i, delta) && Relocated(before, b, sites, i, delta);
    }
    forall k | 0 <= k < |a| ensures Kept(a, b, sites, |sites|, k) {
      assert Kept(before, a, sites, |sites|, k) && Kept(before, b, sites, |sites|, k);
    }
    SameImage(a, b, sites);
  }

  /** Two passes are one pass by the sum of the deltas, exactly when there is no HIGH site or the low
      halves of the deltas do not carry. */
  lemma PassesCompose(a: Bytes, b: Bytes, c: Bytes, sites: seq<Site>, d1: nat, d2: nat)
    requires Pass(a, b, sites, d1) && Pass(b, c, sites, d2)
    ensures Pass(a, c, sites, Sum(d1, d2)) <==> Without(sites, High) || !CarriesOver(d1, d2)
  {
    forall i | 0 <= i < |sites|
      ensures Succeeds(a, sites, i, Sum(d1, d2))
      ensures Relocated(a, c, sites, i, Sum(d1, d2)) <==> sites[i].kind != High || !CarriesOver(d1, d2)
    {
      TwiceAt(a, b, c, sites, i, d1, d2);
    }
    KeptTwice(a, b, c, sites);
  }

  lemma TwiceAt(a: Bytes, b: Bytes, c: Bytes, sites: seq<Site>, i: nat, d1: nat, d2: nat)
    requires Pass(a, b, sites, d1) && Pass(b, c, sites, d2) && i < |sites|
    ensures Succeeds(a, sites, i, Sum(d1, d2))
    ensures Relocated(a, c, sites, i, Sum(d1, d2)) <==> sites[i].kind != High || !CarriesOver(d1, d2)
  {
    var t := sites[i];
    assert Relocated(a, b, sites, i, d1) && Relocated(b, c, sites, i, d2);
    assert Succeeds(a, sites, i, d1) && Succeeds(b, sites, i, d2);
    PatchComposes(t.kind, Slice(a, t), d1, d2);
  }

  /** A pass by zero changes nothing. */
  lemma PassByZero(a: Bytes, b: Bytes, sites: seq<Site>)
    requires Pass(a, b, sites, 0)
    ensures a == b
  {
    forall i | 0 <= i < |sites| ensures Slice(a, sites[i]) == Slice(b, sites[i]) {
      assert Relocated(a, b, sites, i, 0);
      PatchZero(sites[i].kind, Slice(a, sites[i]));
    }
    SameImage(a, b, sites);
  }

  /** After a pass, one by the negated delta meets no error exactly when there is no MOVW/MOVT pair or the
      low half of the delta is zero. */
  lemma PassBackSucceeds(a: Bytes, b: Bytes, sites: seq<Site>, d: nat)
    requires Pass(a, b, sites, d)
    ensures Negated(d) < WORD && (AllOk(b, sites, |sites|, Negated(d)) <==> Without(sites, ThumbMov32) || d % HALF == 0)
  {
    BackAndForth(d);
    forall i | 0 <= i < |sites|
      ensures Succeeds(b, sites, i, Negated(d)) <==> sites[i].kind != ThumbMov32 || d % HALF == 0
    {
      assert Succeeds(a, sites, i, d) && Relocated(a, b, sites, i, d);
      BackSucceeds(sites[i].kind, Slice(a, sites[i]), d);
    }
  }

  /** A successful pass by the negated delta restores the image exactly when there is no HIGH site or the
      low 16 bits of the delta are zero. */
  lemma PassRestores(a: Bytes, b: Bytes, c: Bytes, sites: seq<Site>, d: nat)
    requires Pass(a, b, sites, d) && Pass(b, c, sites, Negated(d))
    ensures a == c <==> Without(sites, High) || d % 0x1_0000 == 0
  {
    forall i | 0 <= i < |sites|
      ensures Slice(a, sites[i]) == Slice(c, sites[i]) <==> sites[i].kind != High || d % 0x1_0000 == 0
    {
      assert Relocated(a, b, sites, i, d) && Relocated(b, c, sites, i, Negated(d));
      assert Succeeds(a, sites, i, d) && Succeeds(b, sites, i, Negated(d));
      PatchRestores(sites[i].kind, Slice(a, sites[i]), d);
    }
    KeptTwice(a, b, c, sites);
    if Without(sites, High) || d % 0x1_0000 == 0 { SameImage(a, c, sites); }
  }
}
