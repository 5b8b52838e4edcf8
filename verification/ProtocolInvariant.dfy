/**
 The inductive invariant of the mesh. Everything the gateway, the nodes and the network hold is
 justified by the history, the justifications only grow, and the history itself is closed: an accepted
 Pong implies an accepted Ping, an acknowledgement implies a registered connection, and so on.
 */
module ProtocolInvariant {
  import opened Wire
  import opened NodeModel
  import opened NotifierModel
  import opened Protocol
  import Registry
  import Channels

  // ---- justifications ----

  /** Some node's device produced `data` for the node at `dst`. */
  ghost predicate ReadFor(facts: set<Fact>, w: VirtAddr, data: Bytes) {
    exists v :: ReadFrom(v, w, data) in facts
  }

  ghost predicate RawOk(c: Config, h: History, dst: UdpAddr, data: Bytes) {
    exists w :: w in c.addr && c.addr[w] == dst && ReadFor(h.facts, w, data)
  }

  ghost predicate HasPing(facts: set<Fact>, b: VirtAddr, a: VirtAddr) {
    exists d :: PingSeen(b, a, d) in facts
  }

  ghost predicate PongOk(c: Config, h: History, b: VirtAddr, dst: UdpAddr) {
    exists w :: w in c.addr && c.addr[w] == dst && HasPing(h.facts, b, w)
  }

  ghost predicate IsIssued(h: History, m: Message, dst: UdpAddr) {
    m.OpenTunnel? && 1 <= m.ackId <= |h.issued| && h.issued[m.ackId - 1] == Packet(dst, Control(m))
  }

  /** `p`, travelling from `src` to `dst`, is something an honest sender had reason to send. */
  ghost predicate PayloadOk(c: Config, h: History, src: UdpAddr, dst: UdpAddr, p: Payload) {
    match p
    case Raw(data) => RawOk(c, h, dst, data)
    case Control(m) =>
      match m
      case Heartbeat(v) => v in c.addr && src == c.addr[v]
      case Relay(w, data) => ReadFor(h.facts, w, data)
      case OpenTunnel(_, _, _) => IsIssued(h, m, dst)
      case OpenTunnelAck(_) => true
      case Ping(a, _) => a in c.addr && src == c.addr[a]
      case Pong(b, _) => b in c.addr && src == c.addr[b] && PongOk(c, h, b, dst)
  }

  ghost predicate FrameOk(c: Config, h: History, src: UdpAddr, dst: UdpAddr, frame: Bytes) {
    exists p :: frame == Frame(c.codec, p) && PayloadOk(c, h, src, dst, p)
  }

  ghost predicate NetOk(c: Config, h: History) {
    forall d | d in h.net :: FrameOk(c, h, d.src, d.dst, d.frame)
  }

  // ---- the gateway ----

  ghost predicate PacketOk(c: Config, h: History, p: Packet) {
    PayloadOk(c, h, c.gateway, p.destination, p.payload)
  }

  ghost function Good(c: Config, h: History): Packet -> bool {
    (p: Packet) => PacketOk(c, h, p)
  }

  ghost predicate ChannelsOk(c: Config, h: History, n: Notifier) {
    Channels.Carry(n, Good(c, h))
  }

  /** Notifications wait under their numbers with a zero retry counter. */
  ghost predicate EntriesOk(h: History, n: Notifier) {
    && n.ackID == |h.issued|
    && (forall id | id in n.data :: 1 <= id <= |h.issued| && n.data[id] == RetryPacket(h.issued[id - 1], 0))
  }

  ghost predicate PeersOk(c: Config, g: Gateway) {
    forall v | v in g.peers :: v in c.addr && g.peers[v] == c.addr[v]
  }

  ghost predicate GatewayOk(c: Config, h: History, g: Gateway) {
    PeersOk(c, g) && ChannelsOk(c, h, g.notifier) && EntriesOk(h, g.notifier)
  }

  // ---- the nodes ----

  ghost predicate HasPong(facts: set<Fact>, a: VirtAddr, b: VirtAddr) {
    exists d :: PongSeen(a, b, d) in facts
  }

  ghost predicate ConnOk(c: Config, h: History, v: VirtAddr, conn: Conn) {
    && v in c.addr
    && conn.peerVirt in c.addr
    && conn.remote == c.addr[conn.peerVirt]
    && Held(v, conn.peerVirt, conn.remote) in h.facts
    && (conn.state == Established ==> HasPong(h.facts, v, conn.peerVirt))
    && (forall k | 0 <= k < |conn.pipeline| :: FrameOk(c, h, c.addr[v], conn.remote, conn.pipeline[k]))
  }

  ghost predicate NodeOk(c: Config, h: History, v: VirtAddr, n: Node) {
    && n.self == v
    && Registry.Registered(n)
    && (forall i | 0 <= i < |n.conns| :: ConnOk(c, h, v, n.conns[i]))
    && (forall k | 0 <= k < |n.pipeline| :: ReadFor(h.facts, v, n.pipeline[k]))
  }

  // ---- the history ----

  /** A message from `from` reached `node` in datagram `d`, between their own addresses. */
  ghost predicate Travelled(c: Config, h: History, node: VirtAddr, from: VirtAddr, d: Datagram, m: Message) {
    && node in c.addr && from in c.addr
    && d in h.net && d.src == c.addr[from] && d.dst == c.addr[node]
    && d.frame == Encode(c.codec, m)
  }

  ghost predicate PingFactOk(c: Config, h: History, b: VirtAddr, a: VirtAddr, d: Datagram) {
    && (exists nonce :: Travelled(c, h, b, a, d, Ping(a, nonce)))
    && Held(b, a, c.addr[a]) in h.facts
  }

  ghost predicate PongFactOk(c: Config, h: History, a: VirtAddr, b: VirtAddr, d: Datagram) {
    && (exists nonce :: Travelled(c, h, a, b, d, Pong(b, nonce)))
    && HasPing(h.facts, b, a)
  }

  ghost predicate FactOk(c: Config, h: History, f: Fact) {
    match f
    case ReadFrom(_, _, _) => true
    case Held(v, w, udp) => v in c.addr && w in c.addr && udp == c.addr[w]
    case PingSeen(b, a, d) => PingFactOk(c, h, b, a, d)
    case PongSeen(a, b, d) => PongFactOk(c, h, a, b, d)
    case Acked(_, _) => true
  }

  ghost predicate FactsOk(c: Config, h: History) {
    forall f | f in h.facts :: FactOk(c, h, f)
  }

  /** The k-th notification has number k + 1 and advertises its subject's own address. */
  ghost predicate IssueOk(c: Config, h: History, k: nat) {
    && k < |h.issued|
    && h.issued[k].payload.Control?
    && var m := h.issued[k].payload.m;
       m.OpenTunnel? && m.ackId == k + 1 && m.virt in c.addr && m.udp == c.addr[m.virt]
  }

  ghost predicate IssuedOk(c: Config, h: History) {
    forall k | 0 <= k < |h.issued| :: IssueOk(c, h, k)
  }

  ghost predicate HistoryOk(c: Config, h: History) {
    NetOk(c, h) && FactsOk(c, h) && IssuedOk(c, h)
  }

  ghost predicate Inv(c: Config, s: Mesh) {
    && HistoryOk(c, s.h)
    && GatewayOk(c, s.h, s.gateway)
    && s.nodes.Keys == c.addr.Keys
    && (forall v | v in s.nodes :: NodeOk(c, s.h, v, s.nodes[v]))
  }

  // ---- justifications only grow ----

  ghost predicate Extends(h: History, h': History) {
    h.net <= h'.net && h.facts <= h'.facts && h.issued <= h'.issued
  }

  lemma PayloadGrows(c: Config, h: History, h': History, src: UdpAddr, dst: UdpAddr, p: Payload)
    requires Extends(h, h') && PayloadOk(c, h, src, dst, p)
    ensures PayloadOk(c, h', src, dst, p)
  {
    match p {
      case Raw(data) =>
        var w :| w in c.addr && c.addr[w] == dst && ReadFor(h.facts, w, data);
        assert ReadFor(h'.facts, w, data);
      case Control(Pong(b, _)) =>
        var w :| w in c.addr && c.addr[w] == dst && HasPing(h.facts, b, w);
        assert HasPing(h'.facts, b, w);
      case _ =>
    }
  }

  lemma FrameGrows(c: Config, h: History, h': History, src: UdpAddr, dst: UdpAddr, frame: Bytes)
    requires Extends(h, h') && FrameOk(c, h, src, dst, frame)
    ensures FrameOk(c, h', src, dst, frame)
  {
    var p :| frame == Frame(c.codec, p) && PayloadOk(c, h, src, dst, p);
    PayloadGrows(c, h, h', src, dst, p);
  }

  lemma ConnGrows(c: Config, h: History, h': History, v: VirtAddr, conn: Conn)
    requires Extends(h, h') && ConnOk(c, h, v, conn)
    ensures ConnOk(c, h', v, conn)
  {
    forall k | 0 <= k < |conn.pipeline| ensures FrameOk(c, h', c.addr[v], conn.remote, conn.pipeline[k]) {
      FrameGrows(c, h, h', c.addr[v], conn.remote, conn.pipeline[k]);
    }
  }

  lemma NodeGrows(c: Config, h: History, h': History, v: VirtAddr, n: Node)
    requires Extends(h, h') && NodeOk(c, h, v, n)
    ensures NodeOk(c, h', v, n)
  {
    forall i | 0 <= i < |n.conns| ensures ConnOk(c, h', v, n.conns[i]) {
      ConnGrows(c, h, h', v, n.conns[i]);
    }
  }

  lemma ChannelsGrow(c: Config, h: History, h': History, n: Notifier)
    requires Extends(h, h') && ChannelsOk(c, h, n)
    ensures ChannelsOk(c, h', n)
  {
    forall p: Packet | PacketOk(c, h, p) ensures PacketOk(c, h', p) {
      PayloadGrows(c, h, h', c.gateway, p.destination, p.payload);
    }
    Channels.CarryMore(n, Good(c, h), Good(c, h'));
  }

  lemma FactGrows(c: Config, h: History, h': History, f: Fact)
    requires Extends(h, h') && FactOk(c, h, f)
    ensures FactOk(c, h', f)
  {
    match f {
      case PingSeen(b, a, d) =>
        var nonce :| Travelled(c, h, b, a, d, Ping(a, nonce));
        assert Travelled(c, h', b, a, d, Ping(a, nonce));
      case PongSeen(a, b, d) =>
        var nonce :| Travelled(c, h, a, b, d, Pong(b, nonce));
        assert Travelled(c, h', a, b, d, Pong(b, nonce));
      case _ =>
    }
  }

  /** A history extended by justified datagrams, facts and notifications is still in order. */
  lemma HistoryGrows(c: Config, h: History, h': History)
    requires Extends(h, h') && HistoryOk(c, h)
    requires forall d | d in h'.net && d !in h.net :: FrameOk(c, h', d.src, d.dst, d.frame)
    requires forall f | f in h'.facts && f !in h.facts :: FactOk(c, h', f)
    requires forall k | |h.issued| <= k < |h'.issued| :: IssueOk(c, h', k)
    ensures HistoryOk(c, h')
  {
    forall d | d in h'.net ensures FrameOk(c, h', d.src, d.dst, d.frame) {
      if d in h.net { FrameGrows(c, h, h', d.src, d.dst, d.frame); }
    }
    forall f | f in h'.facts ensures FactOk(c, h', f) {
      if f in h.facts { FactGrows(c, h, h', f); }
    }
    forall k | 0 <= k < |h'.issued| ensures IssueOk(c, h', k) {
      if k < |h.issued| { assert IssueOk(c, h, k); }
    }
  }
}
