/** Round-robin dispatch to the sending goroutines (gateway/notifier.go). */
module Dispatch {
  import opened NotifierModel
  import opened Arithmetic

  /** The dispatcher's state after sending `ps` in order. */
  function SendAll(n: Notifier, ps: seq<Packet>): (r: Notifier)
    requires |n.chs| > 0
    ensures |r.chs| == |n.chs|
  {
    if ps == [] then n else Send(SendAll(n, ps[..|ps| - 1]), ps[|ps| - 1])
  }

  /** How many of the first `sent` packets worker `i` of `workers` receives. */
  function Share(sent: nat, workers: nat, i: nat): nat
    requires workers > 0
  {
    sent / workers + if i < sent % workers then 1 else 0
  }

  lemma ShareStep(sent: nat, w: nat, i: nat)
    requires i < w
    ensures Share(sent + 1, w, i) == Share(sent, w, i) + if sent % w == i then 1 else 0
    ensures sent % w == i ==> Share(sent, w, i) == sent / w
  {
    var q, r := sent / w, sent % w;
    if r + 1 < w {
      DivisionIsUnique(sent + 1, w, q, r + 1);
    } else {
      assert sent + 1 == (q + 1) * w + 0;
      DivisionIsUnique(sent + 1, w, q + 1, 0);
    }
  }

  /** From a fresh start: packet j is the (j / w)-th packet of worker j % w, and nothing else arrives. */
  lemma {:induction false} RoundRobin(w: nat, ps: seq<Packet>)
    requires w > 0
    ensures
      var r := SendAll(NewNotifier(w), ps);
      && r.roundTrip == |ps|
      && (forall i | 0 <= i < w :: |r.chs[i]| == Share(|ps|, w, i))
      && (forall j | 0 <= j < |ps| :: 0 <= j / w < |r.chs[j % w]| && r.chs[j % w][j / w] == ps[j])
  {
    if ps == [] {
      assert forall i | 0 <= i < w :: Share(0, w, i) == 0 by { DivisionIsUnique(0, w, 0, 0); }
    } else {
      var last := |ps| - 1;
      RoundRobin(w, ps[..last]);
      var before := SendAll(NewNotifier(w), ps[..last]);
      var r := SendAll(NewNotifier(w), ps);
      forall i | 0 <= i < w ensures |r.chs[i]| == Share(|ps|, w, i) {
        ShareStep(last, w, i);
      }
      ShareStep(last, w, last % w);
      forall j | 0 <= j < |ps| ensures 0 <= j / w < |r.chs[j % w]| && r.chs[j % w][j / w] == ps[j] {
        if j < last { assert ps[..last][j] == ps[j]; }
      }
    }
  }

  lemma SlotInRange(sent: nat, w: nat, i: nat, k: nat)
    requires i < w && k < Share(sent, w, i)
    ensures k * w + i < sent
  {
    var q := sent / w;
    assert sent == q * w + sent % w;
    if k < q {
      MulMonotone(k + 1, q, w);
      assert (k + 1) * w == k * w + w;
    }
  }

  /** Fair dispatch: every slot of every channel holds the packet of its own turn, so each packet
      arrives exactly once and in sending order within its channel. */
  lemma FairDispatch(w: nat, ps: seq<Packet>, i: nat, k: nat)
    requires i < w && k < |SendAll(NewNotifier(w), ps).chs[i]|
    ensures k * w + i < |ps| && SendAll(NewNotifier(w), ps).chs[i][k] == ps[k * w + i]
  {
    CountIsShare(w, ps, i);
    SlotInRange(|ps|, w, i, k);
    var j := k * w + i;
    DivisionIsUnique(j, w, k, i);
    PlaceOf(w, ps, j, i, k);
  }

  lemma CountIsShare(w: nat, ps: seq<Packet>, i: nat)
    requires i < w
    ensures |SendAll(NewNotifier(w), ps).chs[i]| == Share(|ps|, w, i)
  {
    RoundRobin(w, ps);
  }

  lemma PlaceOf(w: nat, ps: seq<Packet>, j: nat, i: nat, k: nat)
    requires w > 0 && j < |ps| && i == j % w && k == j / w
    ensures i < w && k < |SendAll(NewNotifier(w), ps).chs[i]| && SendAll(NewNotifier(w), ps).chs[i][k] == ps[j]
  {
    RoundRobin(w, ps);
  }

  /** No two workers' counts differ by more than one. */
  lemma BalancedDispatch(w: nat, ps: seq<Packet>, i: nat, j: nat)
    requires i < w && j < w
    ensures |SendAll(NewNotifier(w), ps).chs[i]| <= |SendAll(NewNotifier(w), ps).chs[j]| + 1
  {
    RoundRobin(w, ps);
  }
}
