/**
 Over every run the notifier implements a simple ledger: notifications are numbered 1, 2, 3, … in
 pairs, and one leaves only when it is acknowledged (gateway/notifier.go).
 */
module Bookkeeping {
  import opened Wire
  import opened NotifierModel
  import opened Dispatch

  datatype Event =
    | Opened(src: Peer, dst: Peer)
    | AckReceived(id: int)
    | Scanned(token: bool, order: seq<int>)
    | Relayed(dest: UdpAddr, data: Bytes)
    | Dequeued
    | Taken(w: nat)

  ghost predicate Possible(n: Notifier, e: Event) {
    match e
    case Opened(_, _) => true
    case AckReceived(_) => true
    case Scanned(token, order) =>
      |n.chs| > 0 && (token ==> n.tokens > 0) && Enumerates(order, n.data.Keys)
    case Relayed(_, _) => |n.queue| < QUEUE_CAPACITY
    case Dequeued => |n.chs| > 0 && n.queue != []
    case Taken(w) => w < |n.chs| && n.chs[w] != []
  }

  function After(n: Notifier, e: Event): Notifier
    requires Possible(n, e)
  {
    match e
    case Opened(src, dst) => Open(n, src, dst)
    case AckReceived(id) => Ack(n, id)
    case Scanned(token, order) => Retry(if token then n.(tokens := n.tokens - 1) else n, order)
    case Relayed(dest, data) => Enqueue(n, dest, data)
    case Dequeued => Dequeue(n)
    case Taken(w) => Take(n, w)
  }

  ghost predicate IsRun(states: seq<Notifier>, events: seq<Event>) {
    && |states| == |events| + 1
    && (exists workers :: states[0] == NewNotifier(workers))
    && (forall k | 0 <= k < |events| ::
          Possible(states[k], events[k]) && states[k + 1] == After(states[k], events[k]))
  }

  /** The reference: what has been issued, in order, and which numbers are still live. */
  datatype Ledger = Ledger(issued: seq<Packet>, live: set<int>)

  function Entered(l: Ledger, e: Event): Ledger {
    match e
    case Opened(src, dst) =>
      var k := |l.issued|;
      Ledger(l.issued + [Notification(k + 1, src, dst), Notification(k + 2, dst, src)], l.live + {k + 1, k + 2})
    case AckReceived(id) => l.(live := l.live - {id})
    case _ => l
  }

  function LedgerOf(events: seq<Event>): Ledger {
    if events == [] then Ledger([], {})
    else
      Entered(LedgerOf(events[..|events| - 1]), events[|events| - 1])
  }

  /** The notifier holds exactly the live notifications, each with a zero retry counter. */
  ghost predicate Agrees(n: Notifier, l: Ledger) {
    && n.ackID == |l.issued|
    && n.data.Keys == l.live
    && (forall id | id in l.live :: 1 <= id <= |l.issued| && n.data[id] == RetryPacket(l.issued[id - 1], 0))
  }

  /** The packets of the entries `order`. */
  function Packets(data: map<int, RetryPacket>, order: seq<int>): seq<Packet>
    requires forall i | 0 <= i < |order| :: order[i] in data
  {
    seq(|order|, i requires 0 <= i < |order| => data[order[i]].packet)
  }

  /** A scan of entries with zero counters sends each of them once, in order, and drops none: the
      branch for exhausted retries is unreachable. */
  lemma {:induction false} ScanSendsAll(n: Notifier, order: seq<int>)
    requires |n.chs| > 0 && NoDuplicates(order) && (forall i | 0 <= i < |order| :: order[i] in n.data)
    requires forall k | k in n.data :: n.data[k].counter == 0
    ensures RetryPrefix(n, order) == SendAll(n, Packets(n.data, order))
  {
    if order != [] {
      var last := |order| - 1;
      ScanSendsAll(n, order[..last]);
      SendAllFrame(n, Packets(n.data, order[..last]));
      assert Packets(n.data, order)[..last] == Packets(n.data, order[..last]);
      assert Packets(n.data, order)[last] == n.data[order[last]].packet;
    }
  }

  lemma {:induction false} SendAllFrame(n: Notifier, ps: seq<Packet>)
    requires |n.chs| > 0
    ensures SendAll(n, ps).data == n.data && SendAll(n, ps).ackID == n.ackID
  {
    if ps != [] { SendAllFrame(n, ps[..|ps| - 1]); }
  }

  /** The notifier is the ledger, in every run short of counter overflow. */
  lemma {:induction false} NotifierIsLedger(states: seq<Notifier>, events: seq<Event>, k: nat)
    requires IsRun(states, events) && k < |states| && |LedgerOf(events[..k]).issued| <= MAX_INT64
    ensures Agrees(states[k], LedgerOf(events[..k]))
  {
    if k > 0 {
      assert events[..k][..k - 1] == events[..k - 1];
      NotifierIsLedger(states, events, k - 1);
      EventKeepsAgreement(states[k - 1], LedgerOf(events[..k - 1]), events[k - 1]);
    }
  }

  lemma EventKeepsAgreement(n: Notifier, l: Ledger, e: Event)
    requires Possible(n, e) && Agrees(n, l) && |Entered(l, e).issued| <= MAX_INT64
    ensures Agrees(After(n, e), Entered(l, e))
  {
    match e {
      case Scanned(token, order) => ScanChangesNothing(if token then n.(tokens := n.tokens - 1) else n, order);
      case Opened(src, dst) => OpenAgrees(n, l, src, dst);
      case _ =>
    }
  }

  lemma ScanChangesNothing(n: Notifier, order: seq<int>)
    requires |n.chs| > 0 && Enumerates(order, n.data.Keys) && forall k | k in n.data :: n.data[k].counter == 0
    ensures Retry(n, order).data == n.data && Retry(n, order).ackID == n.ackID
  {
    ScanSendsAll(n, order);
    SendAllFrame(n, Packets(n.data, order));
  }

  lemma OpenAgrees(n: Notifier, l: Ledger, src: Peer, dst: Peer)
    requires Agrees(n, l) && |l.issued| + 2 <= MAX_INT64
    ensures Agrees(Open(n, src, dst), Entered(l, Opened(src, dst)))
  {
  }

  /** Numbers are never reused: the k-th notification ever issued has number k + 1, and the two of one
      open advertise each side to the other. */
  lemma {:induction false} NumbersAreConsecutive(events: seq<Event>, k: nat)
    requires k < |LedgerOf(events).issued|
    ensures
      var issued := LedgerOf(events).issued;
      && |issued| % 2 == 0
      && issued[k].payload.Control? && issued[k].payload.m.OpenTunnel? && issued[k].payload.m.ackId == k + 1
      && var twin := if k % 2 == 0 then k + 1 else k - 1;
         && twin < |issued|
         && issued[twin].payload.Control? && issued[twin].payload.m.OpenTunnel?
         && issued[twin].payload.m.udp == issued[k].destination
  {
    var last := |events| - 1;
    IssuedEven(events[..last]);
    var before := LedgerOf(events[..last]).issued;
    if k < |before| {
      NumbersAreConsecutive(events[..last], k);
      var twin := if k % 2 == 0 then k + 1 else k - 1;
      assert LedgerOf(events).issued[twin] == before[twin];
    }
  }

  lemma {:induction false} IssuedEven(events: seq<Event>)
    ensures |LedgerOf(events).issued| % 2 == 0
  {
    if events != [] { IssuedEven(events[..|events| - 1]); }
  }

  /** Acknowledging a number that is not live, 0 included, changes nothing. */
  lemma StrayAck(states: seq<Notifier>, events: seq<Event>, k: nat, id: int)
    requires IsRun(states, events) && k < |states| && |LedgerOf(events[..k]).issued| <= MAX_INT64
    requires id !in LedgerOf(events[..k]).live
    ensures Ack(states[k], id) == states[k]
    ensures 0 !in LedgerOf(events[..k]).live
  {
    NotifierIsLedger(states, events, k);
    assert states[k].data - {id} == states[k].data;
  }
}
