/**
 The gateway's notifier and peer table as values (gateway/notifier.go, gateway/processor.go,
 api/api_server.go). The classes in Gateway.dfy update their fields in place and are proved against
 these functions; the protocol machine in Protocol.dfy takes its gateway steps from them.
 */
module NotifierModel {
  import opened Wire

  const MAX_RETRY_SEND := 10
  const READ_CAPACITY := 16
  const QUEUE_CAPACITY := 16
  const MAX_INT64 := 0x7fff_ffff_ffff_ffff

  datatype Packet = Packet(destination: UdpAddr, payload: Payload)
  datatype RetryPacket = RetryPacket(packet: Packet, counter: int)
  datatype Peer = Peer(virt: VirtAddr, udp: UdpAddr)

  datatype Notifier = Notifier(
    ackID: int,
    data: map<int, RetryPacket>,
    tokens: nat,
    queue: seq<Packet>,
    chs: seq<seq<Packet>>,
    roundTrip: nat)

  /** A new notifier whose dispatcher runs `workers` sending goroutines. */
  function NewNotifier(workers: nat): Notifier {
    Notifier(0, map[], 0, [], seq(workers, _ => []), 0)
  }

  /** Adding one to an int64. */
  function Next(x: int): int {
    if x == MAX_INT64 then -MAX_INT64 - 1 else x + 1
  }

  /** The notification that tells `to` about `about`. */
  function Notification(id: int, to: Peer, about: Peer): Packet {
    Packet(to.udp, Control(OpenTunnel(id, about.virt, about.udp)))
  }

  function Insert(n: Notifier, to: Peer, about: Peer): Notifier {
    var id := Next(n.ackID);
    n.(ackID := id, data := n.data[id := RetryPacket(Notification(id, to, about), 0)])
  }

  /** A token is dropped when the channel is full. */
  function Notify(n: Notifier): Notifier {
    if n.tokens < READ_CAPACITY then n.(tokens := n.tokens + 1) else n
  }

  function Open(n: Notifier, src: Peer, dst: Peer): Notifier {
    Notify(Insert(Insert(n, src, dst), dst, src))
  }

  function Ack(n: Notifier, id: int): Notifier {
    n.(data := n.data - {id})
  }

  function Enqueue(n: Notifier, dest: UdpAddr, data: Bytes): Notifier {
    n.(queue := n.queue + [Packet(dest, Raw(data))])
  }

  function Send(n: Notifier, p: Packet): Notifier
    requires |n.chs| > 0
  {
    var i := n.roundTrip % |n.chs|;
    n.(chs := n.chs[i := n.chs[i] + [p]], roundTrip := n.roundTrip + 1)
  }

  /** One round of the retry scan: expired entries are dropped, the others are sent. */
  function RetryOne(n: Notifier, id: int): Notifier
    requires |n.chs| > 0 && id in n.data
  {
    if n.data[id].counter > MAX_RETRY_SEND then Ack(n, id) else Send(n, n.data[id].packet)
  }

  /** The retry scan over `order`, the order in which the map iteration happens to visit the keys. */
  function Retry(n: Notifier, order: seq<int>): (r: Notifier)
    requires |n.chs| > 0 && Enumerates(order, n.data.Keys)
    ensures |r.chs| == |n.chs|
  {
    RetryPrefix(n, order)
  }

  /** The scan over any duplicate-free sequence of keys. */
  function RetryPrefix(n: Notifier, order: seq<int>): (r: Notifier)
    requires |n.chs| > 0 && NoDuplicates(order) && (forall i | 0 <= i < |order| :: order[i] in n.data)
    ensures |r.chs| == |n.chs|
    ensures r.ackID == n.ackID && r.tokens == n.tokens && r.queue == n.queue
    ensures forall k | k in n.data && k !in order :: k in r.data
    ensures forall k | k in r.data :: k in n.data && r.data[k] == n.data[k]
  {
    if order == [] then n
    else
      var last := |order| - 1;
      assert order[last] !in order[..last];
      RetryOne(RetryPrefix(n, order[..last]), order[last])
  }

  ghost predicate NoDuplicates(s: seq<int>) {
    forall i, j :: 0 <= i < j < |s| ==> s[i] != s[j]
  }

  ghost predicate Enumerates(s: seq<int>, keys: set<int>) {
    && NoDuplicates(s)
    && (forall i | 0 <= i < |s| :: s[i] in keys)
    && (forall k | k in keys :: k in s)
  }

  lemma SomeElement(s: set<int>)
    ensures s == {} || exists x :: x in s
  {
    if forall x :: x !in s { assert s == {}; }
  }

  /** The dispatcher moves the head of the queue to a worker. */
  function Dequeue(n: Notifier): Notifier
    requires |n.chs| > 0 && n.queue != []
  {
    Send(n.(queue := n.queue[1..]), n.queue[0])
  }

  /** A worker takes the head of its channel. */
  function Take(n: Notifier, w: nat): Notifier
    requires w < |n.chs| && n.chs[w] != []
  {
    n.(chs := n.chs[w := n.chs[w][1..]])
  }

  /** The gateway: the peer table (virtual address to UDP address) and the notifier. */
  datatype Gateway = Gateway(peers: map<VirtAddr, UdpAddr>, notifier: Notifier)

  /** processor.process and the read loop of gateway.go. */
  function Process(codec: Protobuf, g: Gateway, source: UdpAddr, frame: Bytes): Gateway {
    match GatewayParse(codec, frame)
    case Some(Heartbeat(v)) => if v == "" then g else g.(peers := g.peers[v := source])
    case Some(OpenTunnelAck(id)) => g.(notifier := Ack(g.notifier, id))
    case Some(Relay(v, data)) =>
      if v in g.peers then g.(notifier := Enqueue(g.notifier, g.peers[v], data)) else g
    case _ => g
  }

  /** Handling the frame waits for room in the queue. */
  predicate ProcessBlocks(codec: Protobuf, g: Gateway, frame: Bytes) {
    match GatewayParse(codec, frame)
    case Some(Relay(v, _)) => v in g.peers && |g.notifier.queue| >= QUEUE_CAPACITY
    case _ => false
  }

  /** Server.OpenTunnel after the version check: both peers must be known. */
  function OpenRequest(g: Gateway, src: VirtAddr, dst: VirtAddr): Gateway {
    if src in g.peers && dst in g.peers then
      g.(notifier := Open(g.notifier, Peer(src, g.peers[src]), Peer(dst, g.peers[dst])))
    else g
  }

  /** The two notifications of one open. */
  function NewIssues(g: Gateway, src: VirtAddr, dst: VirtAddr): seq<Packet> {
    if src in g.peers && dst in g.peers then
      var p, q := Peer(src, g.peers[src]), Peer(dst, g.peers[dst]);
      var id := Next(g.notifier.ackID);
      [Notification(id, p, q), Notification(Next(id), q, p)]
    else []
  }

  /** What the gateway makes of every frame that is sent: heartbeats with a name set the sender's address,
      acknowledgements remove their entry, relayed data for a known peer is queued for its address; any
      other frame changes nothing. */
  lemma ProcessesFrames(codec: Protobuf, g: Gateway, source: UdpAddr, p: Payload)
    requires codec.Inverts()
    ensures
      var g' := Process(codec, g, source, Frame(codec, p));
      match p
      case Control(Heartbeat(v)) => g' == if v == "" then g else Gateway(g.peers[v := source], g.notifier)
      case Control(OpenTunnelAck(id)) =>
        g' == Gateway(g.peers, g.notifier.(data := map k | k in g.notifier.data && k != id :: g.notifier.data[k]))
      case Control(Relay(v, data)) =>
        g' == if v !in g.peers then g
              else g.(notifier := g.notifier.(queue := g.notifier.queue + [Packet(g.peers[v], Raw(data))]))
      case _ => g' == g
  {
    FramingRoundTrip(codec, p);
    match p {
      case Control(OpenTunnelAck(id)) =>
        var data := g.notifier.data;
        assert data - {id} == map k | k in data && k != id :: data[k];
      case _ =>
    }
  }

  /** Relayed data for a known peer has to wait exactly while 16 packets are queued. */
  lemma RelayWaits(codec: Protobuf, g: Gateway, v: VirtAddr, data: Bytes)
    requires codec.Inverts()
    ensures ProcessBlocks(codec, g, Encode(codec, Relay(v, data))) <==> v in g.peers && |g.notifier.queue| >= 16
  {
    FramingRoundTrip(codec, Control(Relay(v, data)));
    assert Frame(codec, Control(Relay(v, data))) == Encode(codec, Relay(v, data));
  }

  /** An entry that has been retried more than ten times is dropped; any other is sent and stays. */
  lemma ExhaustedIsDropped(n: Notifier, id: int)
    requires |n.chs| > 0 && id in n.data
    ensures id in RetryOne(n, id).data <==> n.data[id].counter <= 10
    ensures n.data[id].counter > 10 ==> RetryOne(n, id).chs == n.chs
  {
  }
}
