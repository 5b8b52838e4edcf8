/** What the dispatcher's steps keep of the packets in the gateway's queue and channels, whatever it is. */
module Channels {
  import opened Wire
  import opened NotifierModel

  /** Every packet in the queue and in the channels is good. */
  ghost predicate Carry(n: Notifier, good: Packet -> bool) {
    && |n.chs| > 0
    && (forall k | 0 <= k < |n.queue| :: good(n.queue[k]))
    && (forall w, k | 0 <= w < |n.chs| && 0 <= k < |n.chs[w]| :: good(n.chs[w][k]))
  }

  lemma SendKeeps(n: Notifier, p: Packet, good: Packet -> bool)
    requires Carry(n, good) && good(p)
    ensures Carry(Send(n, p), good)
  {
    var n' := Send(n, p);
    var i := n.roundTrip % |n.chs|;
    forall w, k | 0 <= w < |n'.chs| && 0 <= k < |n'.chs[w]| ensures good(n'.chs[w][k]) {
      if w == i && k == |n.chs[i]| {
        assert n'.chs[w][k] == p;
      } else {
        assert n'.chs[w][k] == n.chs[w][k];
      }
    }
  }

  lemma DequeueKeeps(n: Notifier, good: Packet -> bool)
    requires Carry(n, good) && n.queue != []
    ensures Carry(Dequeue(n), good)
  {
    SendKeeps(n.(queue := n.queue[1..]), n.queue[0], good);
  }

  lemma TakeKeeps(n: Notifier, w: nat, good: Packet -> bool)
    requires Carry(n, good) && w < |n.chs| && n.chs[w] != []
    ensures Carry(Take(n, w), good) && good(n.chs[w][0])
  {
    var n' := Take(n, w);
    forall u, k | 0 <= u < |n'.chs| && 0 <= k < |n'.chs[u]| ensures good(n'.chs[u][k]) {
      assert n'.chs[u][k] == if u == w then n.chs[w][k + 1] else n.chs[u][k];
    }
  }

  /** The retry scan resends live entries and, all counters being zero, drops none. */
  lemma {:induction false} RetryKeeps(n: Notifier, order: seq<int>, good: Packet -> bool)
    requires Carry(n, good) && forall id | id in n.data :: n.data[id].counter == 0 && good(n.data[id].packet)
    requires NoDuplicates(order) && (forall i | 0 <= i < |order| :: order[i] in n.data)
    ensures Carry(RetryPrefix(n, order), good)
    ensures RetryPrefix(n, order).data == n.data && RetryPrefix(n, order).ackID == n.ackID
  {
    if order != [] {
      var last := |order| - 1;
      RetryKeeps(n, order[..last], good);
      assert order[last] in n.data;
      SendKeeps(RetryPrefix(n, order[..last]), n.data[order[last]].packet, good);
    }
  }

  /** What is good for one purpose may be good for another. */
  lemma CarryMore(n: Notifier, good: Packet -> bool, better: Packet -> bool)
    requires Carry(n, good) && forall p :: good(p) ==> better(p)
    ensures Carry(n, better)
  {
  }
}
