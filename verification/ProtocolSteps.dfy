/** Every step of the mesh keeps the invariant of ProtocolInvariant.dfy. */
module ProtocolSteps {
  import opened Wire
  import opened NodeModel
  import opened NotifierModel
  import opened Protocol
  import opened ProtocolInvariant
  import Registry
  import Channels

  // ---- receiving ----

  /** A receiver of an honest datagram that fits the buffer recovers a justified payload. */
  lemma Recover(c: Config, h: History, d: Datagram) returns (p: Payload)
    requires c.Ok() && NetOk(c, h) && d in h.net && |d.frame| <= MAX_BUFFER_SIZE
    ensures d.frame == Frame(c.codec, p) && PayloadOk(c, h, d.src, d.dst, p)
    ensures NodeParse(c.codec, Truncate(d.frame)) == if ForNode(p) then Some(p) else None
    ensures GatewayParse(c.codec, Truncate(d.frame)) == if ForGateway(p) then Some(p.m) else None
  {
    assert FrameOk(c, h, d.src, d.dst, d.frame);
    p :| d.frame == Frame(c.codec, p) && PayloadOk(c, h, d.src, d.dst, p);
    FramingRoundTrip(c.codec, p);
  }

  lemma UpdateNode(c: Config, h: History, v: VirtAddr, n: Node, i: nat, conn: Conn)
    requires NodeOk(c, h, v, n) && i < |n.conns| && ConnOk(c, h, v, conn)
    requires Registry.Registered(UpdateConn(n, i, conn))
    ensures NodeOk(c, h, v, UpdateConn(n, i, conn))
  {
    var n' := UpdateConn(n, i, conn);
    forall j | 0 <= j < |n'.conns| ensures ConnOk(c, h, v, n'.conns[j]) {
      assert n'.conns[j] == if j == i then conn else n.conns[j];
    }
  }

  lemma PushNode(c: Config, h: History, v: VirtAddr, n: Node, i: nat, frame: Bytes)
    requires NodeOk(c, h, v, n) && i < |n.conns| && v in c.addr
    requires FrameOk(c, h, c.addr[v], n.conns[i].remote, frame)
    ensures NodeOk(c, h, v, Push(n, i, frame))
  {
    var conn := n.conns[i];
    var pushed := conn.(pipeline := conn.pipeline + [frame]);
    forall k | 0 <= k < |pushed.pipeline|
      ensures FrameOk(c, h, c.addr[v], pushed.remote, pushed.pipeline[k])
    {
      if k < |conn.pipeline| { assert pushed.pipeline[k] == conn.pipeline[k]; }
    }
    Registry.UpdateKeeps(n, i, pushed);
    UpdateNode(c, h, v, n, i, pushed);
  }

  /** What a node step must establish about its own node and its additions to the history. */
  ghost predicate StepGood(c: Config, h: History, h': History, v: VirtAddr, n': Node) {
    && Extends(h, h')
    && NodeOk(c, h', v, n')
    && HistoryOk(c, h')
  }

  ghost predicate ReceiveSetting(c: Config, h: History, v: VirtAddr, n: Node, d: Datagram) {
    && c.Ok() && v in c.addr && HistoryOk(c, h) && NodeOk(c, h, v, n)
    && d in h.net && d.dst == c.addr[v]
  }

  lemma PingStep(c: Config, h: History, v: VirtAddr, n: Node, d: Datagram, a: VirtAddr, got: string, nonce: string)
    requires ReceiveSetting(c, h, v, n, d)
    requires d.frame == Encode(c.codec, Ping(a, got)) && a in c.addr && d.src == c.addr[a] && a in n.table
    ensures StepGood(c, h, h.(facts := h.facts + {PingSeen(v, a, d)}), v, OnPing(c.codec, n, a, nonce))
  {
    var h' := h.(facts := h.facts + {PingSeen(v, a, d)});
    var i := n.table[a];
    assert ConnOk(c, h, v, n.conns[i]);
    assert Travelled(c, h', v, a, d, Ping(a, got));
    HistoryGrows(c, h, h');
    NodeGrows(c, h, h', v, n);
    assert HasPing(h'.facts, v, a);
    assert PongOk(c, h', v, n.conns[i].remote);
    assert Frame(c.codec, Control(Pong(v, nonce))) == Encode(c.codec, Pong(v, nonce));
    assert PayloadOk(c, h', c.addr[v], n.conns[i].remote, Control(Pong(v, nonce)));
    PushNode(c, h', v, n, i, Encode(c.codec, Pong(v, nonce)));
  }

  lemma PongStep(c: Config, h: History, v: VirtAddr, n: Node, d: Datagram, b: VirtAddr, got: string, now: int)
    requires ReceiveSetting(c, h, v, n, d)
    requires d.frame == Encode(c.codec, Pong(b, got)) && b in c.addr && d.src == c.addr[b] && b in n.table
    requires PongOk(c, h, b, d.dst)
    ensures StepGood(c, h, h.(facts := h.facts + {PongSeen(v, b, d)}), v, OnPong(n, b, now))
  {
    var h' := h.(facts := h.facts + {PongSeen(v, b, d)});
    assert Travelled(c, h', v, b, d, Pong(b, got));
    assert HasPing(h.facts, b, v);
    HistoryGrows(c, h, h');
    NodeGrows(c, h, h', v, n);
    var i := n.table[b];
    var conn := Refresh(n.conns[i], now);
    assert HasPong(h'.facts, v, b);
    assert ConnOk(c, h', v, n.conns[i]);
    Registry.UpdateKeeps(n, i, conn);
    UpdateNode(c, h', v, n, i, conn);
  }

  lemma AckFrameOk(c: Config, h: History, src: UdpAddr, id: int)
    ensures FrameOk(c, h, src, c.gateway, Encode(c.codec, OpenTunnelAck(id)))
  {
    var p := Control(OpenTunnelAck(id));
    assert Encode(c.codec, OpenTunnelAck(id)) == Frame(c.codec, p);
    assert PayloadOk(c, h, src, c.gateway, p);
  }

  /** The history after `v` handles notification `m` and acknowledges it. */
  function AckedHistory(c: Config, h: History, v: VirtAddr, m: Message, facts: set<Fact>): History
    requires m.OpenTunnel? && v in c.addr
  {
    h.(net := h.net + {Datagram(c.addr[v], c.gateway, Encode(c.codec, OpenTunnelAck(m.ackId)))},
       facts := h.facts + facts)
  }

  lemma AckedHistoryOk(c: Config, h: History, v: VirtAddr, m: Message, facts: set<Fact>)
    requires HistoryOk(c, h) && v in c.addr && IsIssued(h, m, c.addr[v])
    requires facts == {Acked(v, m)} || facts == {Held(v, m.virt, m.udp), Acked(v, m)}
    ensures Extends(h, AckedHistory(c, h, v, m, facts)) && HistoryOk(c, AckedHistory(c, h, v, m, facts))
  {
    var h' := AckedHistory(c, h, v, m, facts);
    assert IssueOk(c, h, m.ackId - 1);
    AckFrameOk(c, h', c.addr[v], m.ackId);
    HistoryGrows(c, h, h');
  }

  lemma OpenTunnelStep(c: Config, h: History, v: VirtAddr, n: Node, d: Datagram, m: Message, env: Env)
    requires ReceiveSetting(c, h, v, n, d) && IsIssued(h, m, c.addr[v])
    ensures
      var n' := OnOpenTunnel(c.codec, n, m, env).0;
      if AlreadyOpen(n, m) then StepGood(c, h, AckedHistory(c, h, v, m, {Acked(v, m)}), v, n')
      else if env.dialOk then
        StepGood(c, h, AckedHistory(c, h, v, m, {Held(v, m.virt, m.udp), Acked(v, m)}), v, n')
      else StepGood(c, h, h, v, n')
  {
    assert IssueOk(c, h, m.ackId - 1);
    assert m.virt in n.table ==> ConnOk(c, h, v, n.conns[n.table[m.virt]]);
    if AlreadyOpen(n, m) {
      AckedHistoryOk(c, h, v, m, {Acked(v, m)});
      NodeGrows(c, h, AckedHistory(c, h, v, m, {Acked(v, m)}), v, n);
    } else {
      // With fixed addresses a registered peer is never found at another address.
      assert m.virt !in n.table;
      if env.dialOk {
        var facts := {Held(v, m.virt, m.udp), Acked(v, m)};
        var h' := AckedHistory(c, h, v, m, facts);
        AckedHistoryOk(c, h, v, m, facts);
        NodeGrows(c, h, h', v, n);
        Registry.RegisterKeeps(n, NewConn(m, env.now));
        assert ConnOk(c, h', v, NewConn(m, env.now));
      }
    }
  }

  /** The state of the history after a node step. */
  function HistoryAfter(c: Config, h: History, v: VirtAddr, out: seq<Output>, facts: set<Fact>): History
    requires v in c.addr
  {
    h.(net := h.net + Datagrams(c, c.addr[v], out), facts := h.facts + facts)
  }

  lemma AckDatagram(c: Config, h: History, v: VirtAddr, m: Message, facts: set<Fact>)
    requires v in c.addr && m.OpenTunnel?
    ensures HistoryAfter(c, h, v, [AckOutput(c.codec, m.ackId)], facts) == AckedHistory(c, h, v, m, facts)
  {
    var o := AckOutput(c.codec, m.ackId);
    assert Datagrams(c, c.addr[v], [o]) == {Datagram(c.addr[v], c.gateway, o.frame)};
  }

  lemma NothingSent(c: Config, h: History, v: VirtAddr, facts: set<Fact>)
    requires v in c.addr
    ensures HistoryAfter(c, h, v, [], facts) == h.(facts := h.facts + facts)
    ensures HistoryAfter(c, h, v, [], {}) == h
  {
    assert Datagrams(c, c.addr[v], []) == {};
  }

  lemma ReceiveControl(c: Config, h: History, v: VirtAddr, n: Node, d: Datagram, m: Message, env: Env)
    requires ReceiveSetting(c, h, v, n, d) && ForNode(Control(m))
    requires d.frame == Frame(c.codec, Control(m)) && PayloadOk(c, h, d.src, d.dst, Control(m))
    requires NodeParse(c.codec, Truncate(d.frame)) == Some(Control(m))
    ensures
      var (n', out) := HandlePacket(c.codec, n, Truncate(d.frame), env);
      StepGood(c, h, HistoryAfter(c, h, v, out, ReceiveFacts(c, v, n, d, env)), v, n')
  {
    match m {
      case Ping(a, got) =>
        NothingSent(c, h, v, {PingSeen(v, a, d)});
        if a in n.table { PingStep(c, h, v, n, d, a, got, env.nonce); }
      case Pong(b, got) =>
        NothingSent(c, h, v, {PongSeen(v, b, d)});
        if b in n.table { PongStep(c, h, v, n, d, b, got, env.now); }
      case OpenTunnel(_, _, _) =>
        NothingSent(c, h, v, {});
        AckDatagram(c, h, v, m, {Acked(v, m)});
        AckDatagram(c, h, v, m, {Held(v, m.virt, m.udp), Acked(v, m)});
        OpenTunnelStep(c, h, v, n, d, m, env);
    }
  }

  lemma ReceiveStep(c: Config, h: History, v: VirtAddr, n: Node, d: Datagram, env: Env)
    requires ReceiveSetting(c, h, v, n, d) && |d.frame| <= MAX_BUFFER_SIZE
    ensures
      var (n', out) := HandlePacket(c.codec, n, Truncate(d.frame), env);
      StepGood(c, h, HistoryAfter(c, h, v, out, ReceiveFacts(c, v, n, d, env)), v, n')
  {
    var p := Recover(c, h, d);
    NothingSent(c, h, v, {});
    if ForNode(p) {
      match p
      case Raw(data) => assert ReadFor(h.facts, v, data);
      case Control(m) => ReceiveControl(c, h, v, n, d, m, env);
    }
  }

  // ---- a node's own steps ----

  ghost predicate LocalSetting(c: Config, h: History, v: VirtAddr, n: Node) {
    c.Ok() && v in c.addr && HistoryOk(c, h) && NodeOk(c, h, v, n)
  }

  lemma ReadStep(c: Config, h: History, v: VirtAddr, n: Node, dst: VirtAddr, data: Bytes, check: int, mark: int)
    requires LocalSetting(c, h, v, n)
    ensures
      var (n', out, _) := DeviceRead(c.codec, n, dst, data, check, mark);
      StepGood(c, h, HistoryAfter(c, h, v, out, {ReadFrom(v, dst, data)}), v, n')
  {
    var (n', out, _) := DeviceRead(c.codec, n, dst, data, check, mark);
    var h' := HistoryAfter(c, h, v, out, {ReadFrom(v, dst, data)});
    assert ReadFor(h'.facts, dst, data);
    var relay := Control(Relay(dst, data));
    assert Frame(c.codec, relay) == Encode(c.codec, Relay(dst, data));
    assert PayloadOk(c, h', c.addr[v], c.gateway, relay);
    assert FrameOk(c, h', c.addr[v], c.gateway, Frame(c.codec, relay));
    HistoryGrows(c, h, h');
    NodeGrows(c, h, h', v, n);
    if dst != v && dst in n.table {
      var i := n.table[dst];
      assert ConnOk(c, h, v, n.conns[i]);
      assert RawOk(c, h', n.conns[i].remote, data);
      assert Frame(c.codec, Raw(data)) == EncodeRaw(data);
      assert PayloadOk(c, h', c.addr[v], n.conns[i].remote, Raw(data));
      PushNode(c, h', v, n, i, EncodeRaw(data));
    }
  }

  lemma PingSent(c: Config, h: History, v: VirtAddr, dst: UdpAddr, nonce: string)
    requires v in c.addr
    ensures FrameOk(c, h, c.addr[v], dst, Encode(c.codec, Ping(v, nonce)))
  {
    var p := Control(Ping(v, nonce));
    assert Encode(c.codec, Ping(v, nonce)) == Frame(c.codec, p);
    assert PayloadOk(c, h, c.addr[v], dst, p);
  }

  lemma LoopEventStep(c: Config, h: History, v: VirtAddr, n: Node, i: nat, e: ConnEvent)
    requires LocalSetting(c, h, v, n) && i < |n.conns| && ConnEnabled(n.conns[i], e)
    ensures
      var (n', out) := LoopStep(c.codec, n, i, e);
      StepGood(c, h, HistoryAfter(c, h, v, out, {}), v, n')
  {
    var conn := n.conns[i];
    var (conn', out) := ConnStep(c.codec, v, conn, e);
    var h' := HistoryAfter(c, h, v, out, {});
    assert ConnOk(c, h, v, conn);
    assert Extends(h, h');
    match e {
      case ConnectTick(nonce) => PingSent(c, h', v, conn.remote, nonce);
      case KeepaliveTick(_, nonce) => PingSent(c, h', v, conn.remote, nonce);
      case Drain =>
        assert FrameOk(c, h, c.addr[v], conn.remote, conn.pipeline[0]);
        FrameGrows(c, h, h', c.addr[v], conn.remote, conn.pipeline[0]);
      case _ =>
    }
    HistoryGrows(c, h, h');
    NodeGrows(c, h, h', v, n);
    assert ConnOk(c, h', v, conn);
    assert ConnOk(c, h', v, conn');
    var n' := LoopStep(c.codec, n, i, e).0;
    Registry.LoopKeeps(c.codec, n, i, e);
    forall j | 0 <= j < |n'.conns| ensures ConnOk(c, h', v, n'.conns[j]) {
      assert n'.conns[j] == if j == i then conn' else n.conns[j];
    }
  }

  lemma LocalStep(c: Config, h: History, v: VirtAddr, n: Node, a: Action)
    requires LocalSetting(c, h, v, n) && Enabled(c.codec, n, a) && !a.Receive?
    ensures
      var (n', out) := NodeModel.Step(c.codec, n, a);
      StepGood(c, h, HistoryAfter(c, h, v, out, LocalFacts(v, a)), v, n')
  {
    match a {
      case Read(dst, data, check, mark) => ReadStep(c, h, v, n, dst, data, check, mark);
      case Loop(i, e) => LoopEventStep(c, h, v, n, i, e);
      case Write =>
        assert HistoryAfter(c, h, v, [], {}) == h;
      case Completed(_) =>
        assert HistoryAfter(c, h, v, [], {}) == h;
      case Beat =>
        var h' := HistoryAfter(c, h, v, [HeartbeatOutput(c.codec, n)], {});
        var p := Control(Heartbeat(v));
        assert Encode(c.codec, Heartbeat(v)) == Frame(c.codec, p);
        assert PayloadOk(c, h', c.addr[v], c.gateway, p);
        assert FrameOk(c, h', c.addr[v], c.gateway, Encode(c.codec, Heartbeat(v)));
        HistoryGrows(c, h, h');
        NodeGrows(c, h, h', v, n);
    }
  }

  /** A good node step keeps the invariant of the whole mesh. */
  lemma NodeStepKeeps(c: Config, s: Mesh, v: VirtAddr, n': Node, h': History)
    requires Inv(c, s) && v in s.nodes && StepGood(c, s.h, h', v, n') && h'.issued == s.h.issued
    ensures Inv(c, s.(nodes := s.nodes[v := n'], h := h'))
  {
    ChannelsGrow(c, s.h, h', s.gateway.notifier);
    forall w | w in s.nodes && w != v ensures NodeOk(c, h', w, s.nodes[w]) {
      NodeGrows(c, s.h, h', w, s.nodes[w]);
    }
  }

  // ---- the gateway's steps ----

  /** The retry scan resends live notifications and, all counters being zero, drops none. */
  lemma RetryKeeps(c: Config, h: History, n: Notifier, order: seq<int>)
    requires ChannelsOk(c, h, n) && EntriesOk(h, n) && IssuedOk(c, h) && Enumerates(order, n.data.Keys)
    ensures ChannelsOk(c, h, Retry(n, order))
    ensures Retry(n, order).data == n.data && Retry(n, order).ackID == n.ackID
  {
    forall id | id in n.data ensures PacketOk(c, h, n.data[id].packet) {
      assert IssueOk(c, h, id - 1);
    }
    Channels.RetryKeeps(n, order, Good(c, h));
  }

  lemma GatewayReceiveKeeps(c: Config, s: Mesh, d: Datagram)
    requires c.Ok() && Inv(c, s) && StepEnabled(c, s, GatewayReceive(d)) && |d.frame| <= MAX_BUFFER_SIZE
    ensures Inv(c, NextMesh(c, s, GatewayReceive(d)))
  {
    var p := Recover(c, s.h, d);
    if ForGateway(p) {
      match p.m
      case Heartbeat(v) =>
      case OpenTunnelAck(id) =>
      case Relay(w, data) =>
        if w in s.gateway.peers {
          var packet := Packet(s.gateway.peers[w], Raw(data));
          assert RawOk(c, s.h, packet.destination, data);
          assert PacketOk(c, s.h, packet);
        }
    }
  }

  /** Both notifications of an open get the next two numbers and advertise fixed addresses. */
  lemma OpenIssues(c: Config, h: History, h': History, g: Gateway, src: VirtAddr, dst: VirtAddr)
    requires PeersOk(c, g) && src in g.peers && dst in g.peers
    requires g.notifier.ackID == |h.issued| && |h.issued| + 2 <= MAX_INT64
    requires h'.issued == h.issued + NewIssues(g, src, dst)
    ensures |h'.issued| == |h.issued| + 2
    ensures IssueOk(c, h', |h.issued|) && IssueOk(c, h', |h.issued| + 1)
  {
  }

  lemma OpenEntries(h: History, h': History, g: Gateway, src: VirtAddr, dst: VirtAddr)
    requires EntriesOk(h, g.notifier) && src in g.peers && dst in g.peers
    requires |h.issued| + 2 <= MAX_INT64
    requires h' == h.(issued := h.issued + NewIssues(g, src, dst))
    ensures EntriesOk(h', OpenRequest(g, src, dst).notifier)
  {
    var n := OpenRequest(g, src, dst).notifier;
    var k := |h.issued|;
    assert n.data == g.notifier.data[k + 1 := RetryPacket(h'.issued[k], 0)][k + 2 := RetryPacket(h'.issued[k + 1], 0)];
  }

  lemma GatewayOpenKeeps(c: Config, s: Mesh, src: VirtAddr, dst: VirtAddr)
    requires c.Ok() && Inv(c, s)
    requires |NextMesh(c, s, GatewayOpen(src, dst)).h.issued| <= MAX_INT64
    ensures Inv(c, NextMesh(c, s, GatewayOpen(src, dst)))
  {
    if src in s.gateway.peers && dst in s.gateway.peers {
      OpenKeepsGateway(c, s.h, s.gateway, src, dst);
      var h' := s.h.(issued := s.h.issued + NewIssues(s.gateway, src, dst));
      forall v | v in s.nodes ensures NodeOk(c, h', v, s.nodes[v]) {
        NodeGrows(c, s.h, h', v, s.nodes[v]);
      }
    } else {
      assert NextMesh(c, s, GatewayOpen(src, dst)) == s;
    }
  }

  lemma OpenKeepsGateway(c: Config, h: History, g: Gateway, src: VirtAddr, dst: VirtAddr)
    requires HistoryOk(c, h) && GatewayOk(c, h, g) && src in g.peers && dst in g.peers
    requires |h.issued + NewIssues(g, src, dst)| <= MAX_INT64
    ensures
      var h' := h.(issued := h.issued + NewIssues(g, src, dst));
      HistoryOk(c, h') && GatewayOk(c, h', OpenRequest(g, src, dst))
  {
    var h' := h.(issued := h.issued + NewIssues(g, src, dst));
    OpenIssues(c, h, h', g, src, dst);
    OpenEntries(h, h', g, src, dst);
    HistoryGrows(c, h, h');
    ChannelsGrow(c, h, h', g.notifier);
  }

  lemma NotifierKeeps(c: Config, s: Mesh, n: Notifier)
    requires Inv(c, s) && ChannelsOk(c, s.h, n) && EntriesOk(s.h, n)
    ensures Inv(c, WithNotifier(s, n))
  {
  }

  lemma GatewayRetryKeeps(c: Config, s: Mesh, token: bool, order: seq<int>)
    requires Inv(c, s) && StepEnabled(c, s, GatewayRetry(token, order))
    ensures Inv(c, NextMesh(c, s, GatewayRetry(token, order)))
  {
    var n := s.gateway.notifier;
    var n' := if token then n.(tokens := n.tokens - 1) else n;
    RetryKeeps(c, s.h, n', order);
    NotifierKeeps(c, s, Retry(n', order));
    assert NextMesh(c, s, GatewayRetry(token, order)) == WithNotifier(s, Retry(n', order));
  }

  lemma GatewayDequeueKeeps(c: Config, s: Mesh)
    requires Inv(c, s) && StepEnabled(c, s, GatewayDequeue)
    ensures Inv(c, NextMesh(c, s, GatewayDequeue))
  {
    var n := s.gateway.notifier;
    Channels.DequeueKeeps(n, Good(c, s.h));
  }

  lemma GatewaySendKeeps(c: Config, s: Mesh, w: nat, written: bool)
    requires Inv(c, s) && StepEnabled(c, s, GatewaySend(w, written))
    ensures Inv(c, NextMesh(c, s, GatewaySend(w, written)))
  {
    var n := s.gateway.notifier;
    var p := n.chs[w][0];
    var s' := NextMesh(c, s, GatewaySend(w, written));
    var h' := s'.h;
    var n' := Take(n, w);
    Channels.TakeKeeps(n, w, Good(c, s.h));
    assert PacketOk(c, s.h, p);
    PayloadGrows(c, s.h, h', c.gateway, p.destination, p.payload);
    assert FrameOk(c, h', c.gateway, p.destination, Frame(c.codec, p.payload));
    HistoryGrows(c, s.h, h');
    ChannelsGrow(c, s.h, h', n');
    forall v | v in s.nodes ensures NodeOk(c, h', v, s.nodes[v]) {
      NodeGrows(c, s.h, h', v, s.nodes[v]);
    }
  }

  // ---- all steps ----

  lemma InitInv(c: Config)
    requires c.Ok()
    ensures Inv(c, Init(c))
  {
  }

  lemma StepInv(c: Config, s: Mesh, step: Protocol.Step)
    requires c.Ok() && Inv(c, s) && StepEnabled(c, s, step) && Bounded(NextMesh(c, s, step).h)
    ensures Inv(c, NextMesh(c, s, step))
  {
    match step {
      case NodeReceive(v, d, env) =>
        assert d in NextMesh(c, s, step).h.net;
        var n := s.nodes[v];
        ReceiveStep(c, s.h, v, n, d, env);
        var (n', out) := HandlePacket(c.codec, n, Truncate(d.frame), env);
        NodeStepKeeps(c, s, v, n', HistoryAfter(c, s.h, v, out, ReceiveFacts(c, v, n, d, env)));
      case NodeLocal(v, a) =>
        var n := s.nodes[v];
        LocalStep(c, s.h, v, n, a);
        var (n', out) := NodeModel.Step(c.codec, n, a);
        NodeStepKeeps(c, s, v, n', HistoryAfter(c, s.h, v, out, LocalFacts(v, a)));
      case GatewayReceive(d) =>
        assert d in NextMesh(c, s, step).h.net;
        GatewayReceiveKeeps(c, s, d);
      case GatewayOpen(src, dst) => GatewayOpenKeeps(c, s, src, dst);
      case GatewayRetry(token, order) => GatewayRetryKeeps(c, s, token, order);
      case GatewayDequeue => GatewayDequeueKeeps(c, s);
      case GatewaySend(w, written) => GatewaySendKeeps(c, s, w, written);
    }
  }

  /** No step shortens the history. */
  lemma StepExtends(c: Config, s: Mesh, step: Protocol.Step)
    requires StepEnabled(c, s, step)
    ensures Extends(s.h, NextMesh(c, s, step).h)
  {
  }

  lemma {:induction false} TraceExtends(c: Config, trace: seq<Mesh>, steps: seq<Protocol.Step>, j: nat, k: nat)
    requires IsTrace(c, trace, steps) && j <= k < |trace|
    ensures Extends(trace[j].h, trace[k].h)
  {
    if j < k {
      TraceExtends(c, trace, steps, j, k - 1);
      StepExtends(c, trace[k - 1], steps[k - 1]);
    }
  }

  /** The invariant holds at every moment of every bounded run. */
  lemma {:induction false} TraceInv(c: Config, trace: seq<Mesh>, steps: seq<Protocol.Step>, k: nat)
    requires c.Ok() && IsTrace(c, trace, steps) && k < |trace| && Bounded(trace[k].h)
    ensures Inv(c, trace[k])
  {
    if k == 0 {
      InitInv(c);
    } else {
      TraceExtends(c, trace, steps, k - 1, k);
      TraceInv(c, trace, steps, k - 1);
      StepInv(c, trace[k - 1], steps[k - 1]);
    }
  }
}
