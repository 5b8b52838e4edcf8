/**
 From nothing to a tunnel: two nodes that have just started announce themselves, one reads a packet for the
 other and asks for a tunnel, and both end up Established, with nothing left to acknowledge.
 */
module StartUp {
  import opened Wire
  import opened NodeModel
  import opened NotifierModel
  import opened Protocol
  import opened ProtocolProgress
  import opened Opening

  /** A heartbeat makes the gateway know the node at its own address. */
  lemma HeartbeatArrives(c: Config, s: Mesh, v: VirtAddr) returns (steps: seq<Protocol.Step>, s': Mesh)
    requires c.Ok() && v in c.addr && v in s.nodes && TableOk(s.nodes[v]) && s.nodes[v].self == v != ""
    requires |Encode(c.codec, Heartbeat(v))| <= MAX_BUFFER_SIZE
    ensures Leads(c, s, steps, s') && s'.nodes == s.nodes
    ensures s'.gateway == s.gateway.(peers := s.gateway.peers[v := c.addr[v]])
  {
    var frame := Encode(c.codec, Heartbeat(v));
    FramingRoundTrip(c.codec, Control(Heartbeat(v)));
    assert Frame(c.codec, Control(Heartbeat(v))) == frame;
    var beat, d := NodeLocal(v, Beat), Datagram(c.addr[v], c.gateway, frame);
    var t := NextMesh(c, s, beat);
    assert Output(ToGateway, frame) in NodeModel.Step(c.codec, s.nodes[v], Beat).1;
    One(c, s, beat);
    s' := NextMesh(c, t, GatewayReceive(d));
    One(c, t, GatewayReceive(d));
    Then(c, s, [beat], t, [GatewayReceive(d)], s');
    steps := [beat] + [GatewayReceive(d)];
    assert s.nodes[v := s.nodes[v]] == s.nodes;
  }

  /** An acknowledgement makes the gateway forget the notification and nothing else. */
  lemma AckArrives(c: Config, s: Mesh, v: VirtAddr, id: int) returns (step: Protocol.Step, s': Mesh)
    requires c.Ok() && v in c.addr
    requires Datagram(c.addr[v], c.gateway, Encode(c.codec, OpenTunnelAck(id))) in s.h.net
    requires |Encode(c.codec, OpenTunnelAck(id))| <= MAX_BUFFER_SIZE
    ensures Leads(c, s, [step], s') && s'.nodes == s.nodes && s'.h == s.h && s'.gateway.peers == s.gateway.peers
    ensures s'.gateway.notifier == s.gateway.notifier.(data := s.gateway.notifier.data - {id})
  {
    var m := OpenTunnelAck(id);
    FramingRoundTrip(c.codec, Control(m));
    assert Frame(c.codec, Control(m)) == Encode(c.codec, m);
    step := GatewayReceive(Datagram(c.addr[v], c.gateway, Encode(c.codec, m)));
    s' := NextMesh(c, s, step);
    One(c, s, step);
  }

  /** A packet for a node without connection starts a request, which marks the destination. */
  lemma ReadAsks(c: Config, s: Mesh, a: VirtAddr, b: VirtAddr, data: Bytes, now: int)
    returns (step: Protocol.Step, s': Mesh)
    requires a in c.addr && a in s.nodes && TableOk(s.nodes[a]) && s.nodes[a].self == a != b
    requires b !in s.nodes[a].table && b !in s.nodes[a].pending
    ensures Leads(c, s, [step], s') && OnlyChanges(s, s', a, a)
    ensures s'.nodes[a] == s.nodes[a].(pending := s.nodes[a].pending[b := now])
    ensures DeviceRead(c.codec, s.nodes[a], b, data, now, now).2
  {
    step := NodeLocal(a, Read(b, data, now, now));
    s' := NextMesh(c, s, step);
    One(c, s, step);
  }

  /** When the request completes, the mark is gone. */
  lemma RequestCompletes(c: Config, s: Mesh, a: VirtAddr, b: VirtAddr) returns (step: Protocol.Step, s': Mesh)
    requires a in c.addr && a in s.nodes && TableOk(s.nodes[a])
    ensures Leads(c, s, [step], s') && OnlyChanges(s, s', a, a)
    ensures s'.nodes[a].pending == s.nodes[a].pending - {b}
    ensures s'.nodes[a] == s.nodes[a].(pending := s'.nodes[a].pending)
  {
    step := NodeLocal(a, Completed(b));
    s' := NextMesh(c, s, step);
    One(c, s, step);
  }

  /** A new connection of `v` to `w`, made at `now`. */
  function NewTo(c: Config, w: VirtAddr, now: int): Conn
    requires w in c.addr
  {
    Conn(w, c.addr[w], Connecting, Created, false, [], now)
  }

  /** `v`'s only connection is a new one to `w`. */
  ghost predicate JustConnected(c: Config, n: Node, v: VirtAddr, w: VirtAddr, now: int)
    requires w in c.addr
  {
    n.self == v && n.conns == [NewTo(c, w, now)] && n.table == map[w := 0]
  }

  /** The loop of a new connection starts. */
  lemma LoopStarts(c: Config, s: Mesh, v: VirtAddr, w: VirtAddr, now: int) returns (step: Protocol.Step, s': Mesh)
    requires v in c.addr && w in c.addr && v in s.nodes && JustConnected(c, s.nodes[v], v, w, now)
    ensures Leads(c, s, [step], s') && OnlyChanges(s, s', v, v)
    ensures s'.nodes[v] == s.nodes[v].(conns := [NewTo(c, w, now).(phase := Running)])
  {
    step := NodeLocal(v, Loop(0, LoopStart));
    s' := NextMesh(c, s, step);
    One(c, s, step);
  }

  /** The frames of a start-up fit the buffers. */
  ghost predicate FramesFit(c: Config, a: VirtAddr, b: VirtAddr, nonce: string)
    requires a in c.addr && b in c.addr
  {
    && |Encode(c.codec, Heartbeat(a))| <= MAX_BUFFER_SIZE && |Encode(c.codec, Heartbeat(b))| <= MAX_BUFFER_SIZE
    && |Told(c, a, b, 1).frame| <= MAX_BUFFER_SIZE && |Told(c, b, a, 2).frame| <= MAX_BUFFER_SIZE
    && |Encode(c.codec, OpenTunnelAck(1))| <= MAX_BUFFER_SIZE && |Encode(c.codec, OpenTunnelAck(2))| <= MAX_BUFFER_SIZE
    && PingsFit(c, a, nonce, b, nonce) && PingsFit(c, b, nonce, a, nonce)
  }

  ghost predicate Pair(c: Config, a: VirtAddr, b: VirtAddr) {
    c.Ok() && a in c.addr && b in c.addr && a != b && a != "" && b != ""
  }

  /** Two new nodes, known to a gateway that has done nothing else. */
  ghost predicate Known(c: Config, s: Mesh, a: VirtAddr, b: VirtAddr) {
    && Pair(c, a, b) && s.nodes.Keys == c.addr.Keys && s.nodes[a] == NewNode(a) && s.nodes[b] == NewNode(b)
    && s.gateway.peers == map[a := c.addr[a], b := c.addr[b]] && s.gateway.notifier == NewNotifier(c.workers)
  }

  lemma BothAnnounce(c: Config, a: VirtAddr, b: VirtAddr, nonce: string)
    returns (steps: seq<Protocol.Step>, s': Mesh)
    requires Pair(c, a, b) && FramesFit(c, a, b, nonce)
    ensures Leads(c, Init(c), steps, s') && Known(c, s', a, b)
  {
    var xs, t := HeartbeatArrives(c, Init(c), a);
    var ys: seq<Protocol.Step>;
    ys, s' := HeartbeatArrives(c, t, b);
    Then(c, Init(c), xs, t, ys, s');
    steps := xs + ys;
  }

  /** `a` has asked for a tunnel to `b`. */
  ghost predicate Asked(c: Config, s: Mesh, a: VirtAddr, b: VirtAddr, now: int) {
    && Pair(c, a, b) && s.nodes.Keys == c.addr.Keys
    && s.nodes[a] == NewNode(a).(pending := map[b := now]) && s.nodes[b] == NewNode(b)
    && s.gateway.peers == map[a := c.addr[a], b := c.addr[b]] && s.gateway.notifier == NewNotifier(c.workers)
  }

  /** Both nodes have connected; the two notifications have been sent and acknowledged. */
  ghost predicate Connected(c: Config, s: Mesh, a: VirtAddr, b: VirtAddr, now: int, data: set<int>) {
    && Pair(c, a, b) && a in s.nodes && b in s.nodes
    && JustConnected(c, s.nodes[a], a, b, now) && JustConnected(c, s.nodes[b], b, a, now)
    && s.gateway.notifier.data.Keys == data
  }

  lemma BothConnect(c: Config, s: Mesh, a: VirtAddr, b: VirtAddr, now: int, nonce: string)
    returns (steps: seq<Protocol.Step>, s': Mesh)
    requires Asked(c, s, a, b, now) && FramesFit(c, a, b, nonce)
    ensures Leads(c, s, steps, s') && Connected(c, s', a, b, now, {1, 2}) && s'.nodes[a].pending == map[b := now]
    ensures Datagram(c.addr[a], c.gateway, Encode(c.codec, OpenTunnelAck(1))) in s'.h.net
    ensures Datagram(c.addr[b], c.gateway, Encode(c.codec, OpenTunnelAck(2))) in s'.h.net
  {
    var env := Env(nonce, now, true);
    ReadyAtStart(c, s, a, b);
    steps, s' := ConnectsBoth(c, s, a, b, 1, env);
    FirstConnection(c, s.nodes[a], b, 1, env);
    FirstConnection(c, s.nodes[b], a, 2, env);
  }

  lemma ReadyAtStart(c: Config, s: Mesh, a: VirtAddr, b: VirtAddr)
    requires Pair(c, a, b) && s.gateway.peers == map[a := c.addr[a], b := c.addr[b]]
    requires s.gateway.notifier == NewNotifier(c.workers)
    ensures Ready(c, s, a, b) && s.gateway.notifier.ackID == 0 && s.gateway.notifier.data.Keys == {}
  {
  }

  lemma FirstConnection(c: Config, n: Node, w: VirtAddr, id: int, env: Env)
    requires w in c.addr && n.conns == [] && n.table == map[] && env.dialOk
    ensures
      var n' := OnOpenTunnel(c.codec, n, OpenTunnel(id, w, c.addr[w]), env).0;
      JustConnected(c, n', n.self, w, env.now) && n'.pending == n.pending
  {
  }

  lemma BothAcknowledge(c: Config, s: Mesh, a: VirtAddr, b: VirtAddr, now: int, nonce: string)
    returns (steps: seq<Protocol.Step>, s': Mesh)
    requires Connected(c, s, a, b, now, {1, 2}) && FramesFit(c, a, b, nonce)
    requires Datagram(c.addr[a], c.gateway, Encode(c.codec, OpenTunnelAck(1))) in s.h.net
    requires Datagram(c.addr[b], c.gateway, Encode(c.codec, OpenTunnelAck(2))) in s.h.net
    ensures Leads(c, s, steps, s') && Connected(c, s', a, b, now, {}) && s'.nodes == s.nodes
  {
    var x, t := AckArrives(c, s, a, 1);
    var y: Protocol.Step;
    y, s' := AckArrives(c, t, b, 2);
    Then(c, s, [x], t, [y], s');
    steps := [x] + [y];
  }

  lemma BothRun(c: Config, s: Mesh, a: VirtAddr, b: VirtAddr, now: int)
    returns (steps: seq<Protocol.Step>, s': Mesh)
    requires Connected(c, s, a, b, now, {})
    ensures Leads(c, s, steps, s') && s'.gateway == s.gateway && a in s'.nodes && b in s'.nodes
    ensures s'.nodes[a] == s.nodes[a].(conns := [NewTo(c, b, now).(phase := Running)])
    ensures s'.nodes[b] == s.nodes[b].(conns := [NewTo(c, a, now).(phase := Running)])
  {
    var x, t := LoopStarts(c, s, a, b, now);
    var y: Protocol.Step;
    y, s' := LoopStarts(c, t, b, a, now);
    Then(c, s, [x], t, [y], s');
    steps := [x] + [y];
  }

  /** `v`'s connection to `w` is up. */
  ghost predicate IsUp(c: Config, s: Mesh, v: VirtAddr, w: VirtAddr, now: int) {
    && RunningLink(c, s, v, w)
    && var conn := s.nodes[v].conns[s.nodes[v].table[w]];
       conn.state == Established && conn.keepalive == now
  }

  lemma BothEstablish(c: Config, s: Mesh, a: VirtAddr, b: VirtAddr, now: int, nonce: string)
    returns (steps: seq<Protocol.Step>, s': Mesh)
    requires Pair(c, a, b) && FramesFit(c, a, b, nonce) && a in s.nodes && b in s.nodes
    requires s.nodes[a].self == a && s.nodes[a].table == map[b := 0]
    requires s.nodes[b].self == b && s.nodes[b].table == map[a := 0]
    requires s.nodes[a].conns == [NewTo(c, b, now).(phase := Running)]
    requires s.nodes[b].conns == [NewTo(c, a, now).(phase := Running)]
    ensures Leads(c, s, steps, s') && s'.gateway == s.gateway && a in s'.nodes && b in s'.nodes
    ensures IsUp(c, s', a, b, now) && IsUp(c, s', b, a, now) && s'.nodes[a].pending == s.nodes[a].pending
  {
    var env := Env(nonce, now, true);
    var xs, t := Round(c, s, a, b, ConnectTick(nonce), nonce, env);
    var ys: seq<Protocol.Step>;
    ys, s' := Round(c, t, b, a, ConnectTick(nonce), nonce, env);
    Then(c, s, xs, t, ys, s');
    steps := xs + ys;
  }

  /** The whole start-up. A packet read for a node that is not connected starts a request, whose mark is seen
      at `asked`; at the end both nodes are Established, the gateway holds no notification, and the mark is
      gone. */
  lemma TunnelFromNothing(c: Config, a: VirtAddr, b: VirtAddr, data: Bytes, now: int, nonce: string)
    returns (before: seq<Protocol.Step>, asked: Mesh, after: seq<Protocol.Step>, s': Mesh)
    requires Pair(c, a, b) && FramesFit(c, a, b, nonce)
    ensures Leads(c, Init(c), before, asked) && a in asked.nodes && b in asked.nodes[a].pending
    ensures Leads(c, asked, after, s') && IsUp(c, s', a, b, now) && IsUp(c, s', b, a, now)
    ensures s'.gateway.notifier.data == map[] && b !in s'.nodes[a].pending
  {
    before, asked := Asks(c, a, b, data, now, nonce);
    after, s' := Finishes(c, asked, a, b, now, nonce);
  }

  lemma Asks(c: Config, a: VirtAddr, b: VirtAddr, data: Bytes, now: int, nonce: string)
    returns (steps: seq<Protocol.Step>, s': Mesh)
    requires Pair(c, a, b) && FramesFit(c, a, b, nonce)
    ensures Leads(c, Init(c), steps, s') && Asked(c, s', a, b, now)
  {
    var xs, t := BothAnnounce(c, a, b, nonce);
    var read: Protocol.Step;
    read, s' := ReadAsks(c, t, a, b, data, now);
    Then(c, Init(c), xs, t, [read], s');
    steps := xs + [read];
  }

  lemma Finishes(c: Config, s: Mesh, a: VirtAddr, b: VirtAddr, now: int, nonce: string)
    returns (steps: seq<Protocol.Step>, s': Mesh)
    requires Asked(c, s, a, b, now) && FramesFit(c, a, b, nonce)
    ensures Leads(c, s, steps, s') && IsUp(c, s', a, b, now) && IsUp(c, s', b, a, now)
    ensures s'.gateway.notifier.data == map[] && b !in s'.nodes[a].pending
  {
    var t, u, v: Mesh;
    var more: seq<Protocol.Step>;
    steps, t := BothConnect(c, s, a, b, now, nonce);
    more, u := BothAcknowledge(c, t, a, b, now, nonce);
    Then(c, s, steps, t, more, u);
    steps := steps + more;
    more, v := BothRun(c, u, a, b, now);
    Then(c, s, steps, u, more, v);
    steps := steps + more;
    more, u := BothEstablish(c, v, a, b, now, nonce);
    Then(c, s, steps, v, more, u);
    steps := steps + more;
    var done: Protocol.Step;
    done, s' := RequestCompletes(c, u, a, b);
    Then(c, s, steps, u, [done], s');
    steps := steps + [done];
  }
}
