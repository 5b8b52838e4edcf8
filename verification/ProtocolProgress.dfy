/**
 The mesh does deliver: from every state that satisfies the invariant, hence from every state of every
 bounded run, the direct path, the relay path and the handshake can be completed. The mesh of Protocol.dfy
 lets a node handle any datagram sent to it, which is more than can happen; here a node receives only
 through its sockets.
 */
module ProtocolProgress {
  import opened Wire
  import opened NodeModel
  import opened NotifierModel
  import opened Protocol
  import opened ProtocolInvariant
  import Registry

  /** The node has a socket that is open towards `src`: the one to the gateway, or that of a connection
      whose loop runs. A socket is connected, so it receives from nowhere else. */
  ghost predicate Listens(c: Config, n: Node, src: UdpAddr) {
    src == c.gateway || exists i :: 0 <= i < |n.conns| && n.conns[i].phase == Running && n.conns[i].remote == src
  }

  ghost predicate Possible(c: Config, s: Mesh, step: Protocol.Step) {
    StepEnabled(c, s, step) && (step.NodeReceive? ==> Listens(c, s.nodes[step.v], step.d.src))
  }

  /** Taking `steps` from `s` leads to `s'`. */
  ghost predicate Leads(c: Config, s: Mesh, steps: seq<Protocol.Step>, s': Mesh)
    decreases |steps|
  {
    if steps == [] then s' == s
    else Possible(c, s, steps[0]) && Leads(c, NextMesh(c, s, steps[0]), steps[1..], s')
  }

  lemma One(c: Config, s: Mesh, step: Protocol.Step)
    requires Possible(c, s, step)
    ensures Leads(c, s, [step], NextMesh(c, s, step))
  {
    assert [step][1..] == [];
  }

  lemma First(c: Config, s: Mesh, step: Protocol.Step, rest: seq<Protocol.Step>, u: Mesh)
    requires Possible(c, s, step) && Leads(c, NextMesh(c, s, step), rest, u)
    ensures Leads(c, s, [step] + rest, u)
  {
    assert ([step] + rest)[1..] == rest;
  }

  lemma {:induction false} Then(
    c: Config, s: Mesh, xs: seq<Protocol.Step>, t: Mesh, ys: seq<Protocol.Step>, u: Mesh)
    requires Leads(c, s, xs, t) && Leads(c, t, ys, u)
    ensures Leads(c, s, xs + ys, u)
    decreases |xs|
  {
    if xs == [] {
      assert xs + ys == ys;
    } else {
      var s' := Unfold(c, s, xs, t);
      Then(c, s', xs[1..], t, ys, u);
      First(c, s, xs[0], xs[1..] + ys, u);
      assert [xs[0]] + (xs[1..] + ys) == xs + ys;
    }
  }

  lemma Unfold(c: Config, s: Mesh, xs: seq<Protocol.Step>, t: Mesh) returns (s': Mesh)
    requires Leads(c, s, xs, t) && xs != []
    ensures Possible(c, s, xs[0]) && s' == NextMesh(c, s, xs[0]) && Leads(c, s', xs[1..], t)
  {
    s' := NextMesh(c, s, xs[0]);
  }

  /** All steps are `a`'s own. */
  ghost predicate AllLocal(steps: seq<Protocol.Step>, a: VirtAddr) {
    forall k | 0 <= k < |steps| :: steps[k].NodeLocal? && steps[k].v == a
  }

  /** Steps of `a` alone, and then one receive at `b` of a datagram from `a`. */
  ghost predicate Directly(c: Config, steps: seq<Protocol.Step>, a: VirtAddr, b: VirtAddr)
    requires a in c.addr
  {
    var n := |steps| - 1;
    && n >= 0 && AllLocal(steps[..n], a)
    && steps[n].NodeReceive? && steps[n].v == b && steps[n].d.src == c.addr[a]
  }

  /** A connection whose loop runs sends its whole queue, in order, to the peer. */
  lemma {:induction false} DrainAll(c: Config, s: Mesh, a: VirtAddr, i: nat)
    returns (steps: seq<Protocol.Step>, s': Mesh)
    requires a in s.nodes && a in c.addr && TableOk(s.nodes[a]) && i < |s.nodes[a].conns|
    requires s.nodes[a].conns[i].phase == Running
    ensures Leads(c, s, steps, s') && AllLocal(steps, a)
    ensures s'.nodes.Keys == s.nodes.Keys && s'.gateway == s.gateway
    ensures forall v | v in s.nodes && v != a :: s'.nodes[v] == s.nodes[v]
    ensures s'.nodes[a] == UpdateConn(s.nodes[a], i, s.nodes[a].conns[i].(pipeline := []))
    ensures s.h.net <= s'.h.net && s'.h.issued == s.h.issued
    ensures forall frame | frame in s.nodes[a].conns[i].pipeline ::
              Datagram(c.addr[a], s.nodes[a].conns[i].remote, frame) in s'.h.net
    decreases |s.nodes[a].conns[i].pipeline|
  {
    var conn := s.nodes[a].conns[i];
    if conn.pipeline == [] {
      steps, s' := [], s;
      assert s.nodes[a].conns == s.nodes[a].conns[i := conn.(pipeline := [])];
    } else {
      var step := NodeLocal(a, Loop(i, Drain));
      var t := NextMesh(c, s, step);
      var o := Output(ToPeer(conn.remote), conn.pipeline[0]);
      assert o in NodeModel.Step(c.codec, s.nodes[a], step.a).1;
      assert Datagram(c.addr[a], conn.remote, conn.pipeline[0]) in t.h.net;
      var more: seq<Protocol.Step>;
      more, s' := DrainAll(c, t, a, i);
      One(c, s, step);
      Then(c, s, [step], t, more, s');
      steps := [step] + more;
      assert s'.nodes[a].conns == s.nodes[a].conns[i := conn.(pipeline := [])];
      forall frame | frame in conn.pipeline ensures Datagram(c.addr[a], conn.remote, frame) in s'.h.net {
        var k :| 0 <= k < |conn.pipeline| && conn.pipeline[k] == frame;
        if k > 0 { assert t.nodes[a].conns[i].pipeline[k - 1] == frame; }
      }
    }
  }

  /** The registered connection from `a` to `b` is live and leads to `b`'s own address. */
  ghost predicate Linked(c: Config, s: Mesh, a: VirtAddr, b: VirtAddr, state: ConnState) {
    && c.Ok() && Inv(c, s) && a in s.nodes && b in s.nodes && a != b
    && b in s.nodes[a].table
    && var conn := s.nodes[a].conns[s.nodes[a].table[b]];
       conn.phase == Running && conn.state == state
  }

  lemma LinkedRemote(c: Config, s: Mesh, a: VirtAddr, b: VirtAddr, state: ConnState)
    requires Linked(c, s, a, b, state)
    ensures a in c.addr && b in c.addr && TableOk(s.nodes[a]) && TableOk(s.nodes[b])
    ensures s.nodes[a].self == a && s.nodes[b].self == b
    ensures s.nodes[a].conns[s.nodes[a].table[b]].remote == c.addr[b]
    ensures s.nodes[a].conns[s.nodes[a].table[b]].peerVirt == b
  {
    assert NodeOk(c, s.h, a, s.nodes[a]) && NodeOk(c, s.h, b, s.nodes[b]);
    assert ConnOk(c, s.h, a, s.nodes[a].conns[s.nodes[a].table[b]]);
  }

  /** Once `a`'s connection to `b` is Established, and as long as `b` listens to `a`, a packet read at `a`
      for `b` can reach `b`'s device queue unchanged, whatever else was waiting on the connection. */
  lemma DirectPathDelivers(c: Config, s: Mesh, a: VirtAddr, b: VirtAddr, data: Bytes, env: Env)
    returns (steps: seq<Protocol.Step>, s': Mesh)
    requires Linked(c, s, a, b, Established) && a in c.addr && Listens(c, s.nodes[b], c.addr[a])
    requires |s.nodes[a].conns[s.nodes[a].table[b]].pipeline| < CONN_CAPACITY
    requires |s.nodes[b].pipeline| < DEVICE_CAPACITY && |data| < MAX_BUFFER_SIZE
    ensures Leads(c, s, steps, s') && Directly(c, steps, a, b)
    ensures b in s'.nodes && s'.nodes[b].pipeline == s.nodes[b].pipeline + [data]
  {
    LinkedRemote(c, s, a, b, Established);
    steps, s' := SendsDirectly(c, s, a, b, data, env);
  }

  lemma SendsDirectly(c: Config, s: Mesh, a: VirtAddr, b: VirtAddr, data: Bytes, env: Env)
    returns (steps: seq<Protocol.Step>, s': Mesh)
    requires a != b && RunningLink(c, s, a, b) && b in s.nodes && TableOk(s.nodes[b])
    requires Listens(c, s.nodes[b], c.addr[a])
    requires
      var conn := s.nodes[a].conns[s.nodes[a].table[b]];
      conn.state == Established && |conn.pipeline| < CONN_CAPACITY
    requires |s.nodes[b].pipeline| < DEVICE_CAPACITY && |data| < MAX_BUFFER_SIZE
    ensures Leads(c, s, steps, s') && Directly(c, steps, a, b)
    ensures b in s'.nodes && s'.nodes[b].pipeline == s.nodes[b].pipeline + [data]
  {
    var i := s.nodes[a].table[b];
    var read, t := ReadAndQueue(c, s, a, b, data, env.now);
    var drain, u := DrainAll(c, t, a, i);
    Then(c, s, [read], t, drain, u);
    var d := Datagram(c.addr[a], c.addr[b], EncodeRaw(data));
    assert d in u.h.net;
    s' := Arrives(c, u, b, d, data, env);
    var receive := NodeReceive(b, d, env);
    Then(c, s, [read] + drain, u, [receive], s');
    steps := [read] + drain + [receive];
    assert steps[..|steps| - 1] == [read] + drain;
  }

  /** A packet read for a peer with an Established connection is queued there. */
  lemma ReadAndQueue(c: Config, s: Mesh, a: VirtAddr, b: VirtAddr, data: Bytes, now: int)
    returns (read: Protocol.Step, t: Mesh)
    requires a in s.nodes && a in c.addr && TableOk(s.nodes[a]) && s.nodes[a].self == a != b && b in s.nodes[a].table
    requires s.nodes[a].conns[s.nodes[a].table[b]].state == Established
    requires |s.nodes[a].conns[s.nodes[a].table[b]].pipeline| < CONN_CAPACITY
    ensures read.NodeLocal? && read.v == a && Leads(c, s, [read], t)
    ensures t.nodes.Keys == s.nodes.Keys && forall v | v in s.nodes && v != a :: t.nodes[v] == s.nodes[v]
    ensures t.nodes[a] == Push(s.nodes[a], s.nodes[a].table[b], EncodeRaw(data))
    ensures EncodeRaw(data) in t.nodes[a].conns[s.nodes[a].table[b]].pipeline
  {
    read := NodeLocal(a, Read(b, data, now, now));
    t := NextMesh(c, s, read);
    One(c, s, read);
    var i := s.nodes[a].table[b];
    assert t.nodes[a].conns[i].pipeline == s.nodes[a].conns[i].pipeline + [EncodeRaw(data)];
  }

  /** A data frame on the network reaches the device's queue. */
  lemma Arrives(c: Config, s: Mesh, b: VirtAddr, d: Datagram, data: Bytes, env: Env) returns (s': Mesh)
    requires b in s.nodes && b in c.addr && TableOk(s.nodes[b]) && |s.nodes[b].pipeline| < DEVICE_CAPACITY
    requires d in s.h.net && d.dst == c.addr[b] && d.frame == EncodeRaw(data) && |data| < MAX_BUFFER_SIZE
    requires Listens(c, s.nodes[b], d.src)
    ensures Leads(c, s, [NodeReceive(b, d, env)], s')
    ensures b in s'.nodes && s'.nodes[b].pipeline == s.nodes[b].pipeline + [data]
  {
    DirectHopLossless(c.codec, data);
    var receive := NodeReceive(b, d, env);
    One(c, s, receive);
    s' := NextMesh(c, s, receive);
  }

  // ---- through the gateway ----

  /** The dispatcher can empty the queue. */
  lemma {:induction false} DrainQueue(c: Config, s: Mesh) returns (steps: seq<Protocol.Step>, s': Mesh)
    requires |s.gateway.notifier.chs| > 0
    ensures Leads(c, s, steps, s') && s'.nodes == s.nodes && s'.h == s.h && s'.gateway.peers == s.gateway.peers
    ensures s'.gateway.notifier.queue == [] && |s'.gateway.notifier.chs| > 0
    decreases |s.gateway.notifier.queue|
  {
    if s.gateway.notifier.queue == [] {
      steps, s' := [], s;
    } else {
      var t := NextMesh(c, s, GatewayDequeue);
      var more: seq<Protocol.Step>;
      more, s' := DrainQueue(c, t);
      First(c, s, GatewayDequeue, more, s');
      steps := [GatewayDequeue] + more;
    }
  }

  /** A worker can send all that is in its channel, each packet to its destination. */
  lemma {:induction false} DrainWorker(c: Config, s: Mesh, w: nat) returns (steps: seq<Protocol.Step>, s': Mesh)
    requires w < |s.gateway.notifier.chs|
    ensures Leads(c, s, steps, s') && s'.nodes == s.nodes && s.h.net <= s'.h.net && s'.h.issued == s.h.issued
    ensures
      var n := s.gateway.notifier;
      s'.gateway == s.gateway.(notifier := n.(chs := n.chs[w := []]))
    ensures forall k | 0 <= k < |s.gateway.notifier.chs[w]| :: Sent(c, s.gateway.notifier.chs[w][k]) in s'.h.net
    decreases |s.gateway.notifier.chs[w]|
  {
    var ch := s.gateway.notifier.chs[w];
    if ch == [] {
      steps, s' := [], s;
      assert s.gateway.notifier.chs[w := []] == s.gateway.notifier.chs;
    } else {
      var step := GatewaySend(w, true);
      var t := NextMesh(c, s, step);
      assert t.gateway.notifier.chs[w] == ch[1..];
      var more: seq<Protocol.Step>;
      more, s' := DrainWorker(c, t, w);
      assert t.gateway.notifier.chs[w := []] == s.gateway.notifier.chs[w := []];
      First(c, s, step, more, s');
      steps := [step] + more;
      forall k | 0 <= k < |ch| ensures Sent(c, ch[k]) in s'.h.net {
        if k == 0 { assert Sent(c, ch[0]) in t.h.net; } else { assert ch[1..][k - 1] == ch[k]; }
      }
    }
  }

  function Sent(c: Config, p: Packet): Datagram {
    Datagram(c.gateway, p.destination, Frame(c.codec, p.payload))
  }

  /** The gateway takes a relayed packet into its empty queue and hands it to a worker. */
  lemma TakesIn(c: Config, s: Mesh, d: Datagram, b: VirtAddr, data: Bytes)
    returns (steps: seq<Protocol.Step>, s': Mesh, w: nat)
    requires c.Ok() && d in s.h.net && d.dst == c.gateway
    requires d.frame == Encode(c.codec, Relay(b, data)) && |d.frame| <= MAX_BUFFER_SIZE
    requires b in s.gateway.peers && |s.gateway.notifier.chs| > 0 && s.gateway.notifier.queue == []
    ensures Leads(c, s, steps, s') && s'.nodes == s.nodes && s'.h == s.h
    ensures w < |s'.gateway.notifier.chs| && Packet(s.gateway.peers[b], Raw(data)) in s'.gateway.notifier.chs[w]
  {
    FramingRoundTrip(c.codec, Control(Relay(b, data)));
    assert Frame(c.codec, Control(Relay(b, data))) == d.frame;
    w := s.gateway.notifier.roundTrip % |s.gateway.notifier.chs|;
    var packet := Packet(s.gateway.peers[b], Raw(data));
    var t := NextMesh(c, s, GatewayReceive(d));
    assert t.gateway.notifier == Enqueue(s.gateway.notifier, s.gateway.peers[b], data);
    assert t.gateway.notifier.queue == [packet];
    s' := NextMesh(c, t, GatewayDequeue);
    assert s'.gateway.notifier.chs[w] == s.gateway.notifier.chs[w] + [packet];
    One(c, s, GatewayReceive(d));
    One(c, t, GatewayDequeue);
    Then(c, s, [GatewayReceive(d)], t, [GatewayDequeue], s');
    steps := [GatewayReceive(d)] + [GatewayDequeue];
  }

  /** Gateway steps that carry a relayed packet onto the network, whatever was queued before. */
  lemma RelayThroughGateway(c: Config, s: Mesh, d: Datagram, b: VirtAddr, data: Bytes)
    returns (steps: seq<Protocol.Step>, s': Mesh)
    requires c.Ok() && d in s.h.net && d.dst == c.gateway
    requires d.frame == Encode(c.codec, Relay(b, data)) && |d.frame| <= MAX_BUFFER_SIZE
    requires b in s.gateway.peers && |s.gateway.notifier.chs| > 0
    ensures Leads(c, s, steps, s') && s'.nodes == s.nodes
    ensures Datagram(c.gateway, s.gateway.peers[b], EncodeRaw(data)) in s'.h.net
  {
    var xs, t := DrainQueue(c, s);
    var ys, u, w := TakesIn(c, t, d, b, data);
    var packet := Packet(s.gateway.peers[b], Raw(data));
    var k :| 0 <= k < |u.gateway.notifier.chs[w]| && u.gateway.notifier.chs[w][k] == packet;
    var zs: seq<Protocol.Step>;
    zs, s' := DrainWorker(c, u, w);
    assert Sent(c, packet) in s'.h.net;
    Then(c, s, xs, t, ys, u);
    Then(c, s, xs + ys, u, zs, s');
    steps := xs + ys + zs;
  }

  /** While the connection is still Connecting, a packet can reach `b` unchanged through a gateway that
      knows `b`, whatever the gateway has to do first. */
  lemma RelayPathDelivers(c: Config, s: Mesh, a: VirtAddr, b: VirtAddr, data: Bytes, env: Env)
    returns (steps: seq<Protocol.Step>, s': Mesh)
    requires Linked(c, s, a, b, Connecting) && b in s.gateway.peers
    requires |s.nodes[b].pipeline| < DEVICE_CAPACITY
    requires |data| < MAX_BUFFER_SIZE && |Encode(c.codec, Relay(b, data))| <= MAX_BUFFER_SIZE
    ensures Leads(c, s, steps, s')
    ensures b in s'.nodes && s'.nodes[b].pipeline == s.nodes[b].pipeline + [data]
  {
    LinkedRemote(c, s, a, b, Connecting);
    assert s.gateway.peers[b] == c.addr[b];
    var read := NodeLocal(a, Read(b, data, env.now, env.now));
    var t := NextMesh(c, s, read);
    One(c, s, read);
    var frame := Encode(c.codec, Relay(b, data));
    assert Output(ToGateway, frame) in NodeModel.Step(c.codec, s.nodes[a], read.a).1;
    var d := Datagram(c.addr[a], c.gateway, frame);
    assert d in t.h.net;
    var relay, u := RelayThroughGateway(c, t, d, b, data);
    Then(c, s, [read], t, relay, u);
    var e := Datagram(c.gateway, c.addr[b], EncodeRaw(data));
    s' := Arrives(c, u, b, e, data, env);
    var receive := NodeReceive(b, e, env);
    Then(c, s, [read] + relay, u, [receive], s');
    steps := [read] + relay + [receive];
  }

  /** The plain facts the handshake needs of `a`'s registered connection to `b`. */
  ghost predicate RunningLink(c: Config, s: Mesh, a: VirtAddr, b: VirtAddr) {
    && a in c.addr && b in c.addr && a in s.nodes && s.nodes[a].self == a && TableOk(s.nodes[a])
    && b in s.nodes[a].table
    && var conn := s.nodes[a].conns[s.nodes[a].table[b]];
       conn.phase == Running && conn.remote == c.addr[b]
  }

  /** The event makes a loop send a Ping with `nonce`: a tick before the connection is established, or a
      keepalive tick in time afterwards. */
  predicate Pings(conn: Conn, e: ConnEvent, nonce: string) {
    match e
    case ConnectTick(n) => n == nonce && conn.state == Connecting
    case KeepaliveTick(now, n) => n == nonce && conn.state == Established && !TimedOut(conn, now)
    case _ => false
  }

  /** The mesh but for its nodes `a` and `b` is as it was, and no datagram is lost. */
  ghost predicate OnlyChanges(s: Mesh, s': Mesh, a: VirtAddr, b: VirtAddr) {
    && s'.gateway == s.gateway && s.h.net <= s'.h.net && s'.h.issued == s.h.issued
    && s'.nodes.Keys == s.nodes.Keys
    && forall v | v in s.nodes && v != a && v != b :: s'.nodes[v] == s.nodes[v]
  }

  /** A loop sends a Ping. */
  lemma SendsPing(c: Config, s: Mesh, a: VirtAddr, b: VirtAddr, e: ConnEvent, nonce: string)
    returns (step: Protocol.Step, t: Mesh)
    requires RunningLink(c, s, a, b) && Pings(s.nodes[a].conns[s.nodes[a].table[b]], e, nonce)
    ensures Leads(c, s, [step], t) && OnlyChanges(s, t, a, a) && t.nodes[a] == s.nodes[a]
    ensures Datagram(c.addr[a], c.addr[b], Encode(c.codec, Ping(a, nonce))) in t.h.net
  {
    var i := s.nodes[a].table[b];
    step := NodeLocal(a, Loop(i, e));
    t := NextMesh(c, s, step);
    One(c, s, step);
    assert Output(ToPeer(c.addr[b]), Encode(c.codec, Ping(a, nonce))) in NodeModel.Step(c.codec, s.nodes[a], step.a).1;
    assert s.nodes[a].conns[i := s.nodes[a].conns[i]] == s.nodes[a].conns;
  }

  /** A Ping on the network is answered: a Pong is queued for the sender. */
  lemma HearsPing(c: Config, s: Mesh, a: VirtAddr, b: VirtAddr, nonce: string, env: Env)
    returns (step: Protocol.Step, t: Mesh)
    requires c.Ok() && RunningLink(c, s, b, a)
    requires Datagram(c.addr[a], c.addr[b], Encode(c.codec, Ping(a, nonce))) in s.h.net
    requires |s.nodes[b].conns[s.nodes[b].table[a]].pipeline| < CONN_CAPACITY
    requires |Encode(c.codec, Ping(a, nonce))| <= MAX_BUFFER_SIZE
    ensures Leads(c, s, [step], t) && OnlyChanges(s, t, b, b)
    ensures t.nodes[b] == Push(s.nodes[b], s.nodes[b].table[a], Encode(c.codec, Pong(b, env.nonce)))
  {
    var ping := Encode(c.codec, Ping(a, nonce));
    FramingRoundTrip(c.codec, Control(Ping(a, nonce)));
    assert Frame(c.codec, Control(Ping(a, nonce))) == ping;
    step := NodeReceive(b, Datagram(c.addr[a], c.addr[b], ping), env);
    t := NextMesh(c, s, step);
    One(c, s, step);
  }

  /** A Pong on the network refreshes the connection and establishes it. */
  lemma HearsPong(c: Config, s: Mesh, a: VirtAddr, b: VirtAddr, nonce: string, env: Env)
    returns (step: Protocol.Step, t: Mesh)
    requires c.Ok() && RunningLink(c, s, a, b)
    requires Datagram(c.addr[b], c.addr[a], Encode(c.codec, Pong(b, nonce))) in s.h.net
    requires |Encode(c.codec, Pong(b, nonce))| <= MAX_BUFFER_SIZE
    ensures Leads(c, s, [step], t) && OnlyChanges(s, t, a, a)
    ensures
      var i := s.nodes[a].table[b];
      t.nodes[a] == UpdateConn(s.nodes[a], i, s.nodes[a].conns[i].(keepalive := env.now, state := Established))
  {
    var pong := Encode(c.codec, Pong(b, nonce));
    FramingRoundTrip(c.codec, Control(Pong(b, nonce)));
    assert Frame(c.codec, Control(Pong(b, nonce))) == pong;
    step := NodeReceive(a, Datagram(c.addr[b], c.addr[a], pong), env);
    t := NextMesh(c, s, step);
    One(c, s, step);
  }

  /** `a`'s Ping and `b`'s Pong fit the buffers. */
  ghost predicate PingsFit(c: Config, a: VirtAddr, ping: string, b: VirtAddr, pong: string) {
    |Encode(c.codec, Ping(a, ping))| <= MAX_BUFFER_SIZE && |Encode(c.codec, Pong(b, pong))| <= MAX_BUFFER_SIZE
  }

  /** `a`'s connection to `b` after a round: established, and as fresh as the Pong. */
  function Refreshed(n: Node, b: VirtAddr, now: int): Node
    requires b in n.table && n.table[b] < |n.conns|
  {
    UpdateConn(n, n.table[b], n.conns[n.table[b]].(keepalive := now, state := Established))
  }

  function Emptied(n: Node, a: VirtAddr): Node
    requires a in n.table && n.table[a] < |n.conns|
  {
    UpdateConn(n, n.table[a], n.conns[n.table[a]].(pipeline := []))
  }

  /** A round: `a` pings `b`, `b` sends all it has queued for `a`, a Pong at the end, and `a` hears it. */
  lemma Round(c: Config, s: Mesh, a: VirtAddr, b: VirtAddr, e: ConnEvent, nonce: string, env: Env)
    returns (steps: seq<Protocol.Step>, s': Mesh)
    requires c.Ok() && a != b && RunningLink(c, s, a, b) && RunningLink(c, s, b, a)
    requires Pings(s.nodes[a].conns[s.nodes[a].table[b]], e, nonce)
    requires |s.nodes[b].conns[s.nodes[b].table[a]].pipeline| < CONN_CAPACITY
    requires PingsFit(c, a, nonce, b, env.nonce)
    ensures Leads(c, s, steps, s') && OnlyChanges(s, s', a, b)
    ensures s'.nodes[a] == Refreshed(s.nodes[a], b, env.now) && s'.nodes[b] == Emptied(s.nodes[b], a)
  {
    var i := s.nodes[b].table[a];
    var x, t := SendsPing(c, s, a, b, e, nonce);
    var y, u := HearsPing(c, t, a, b, nonce, env);
    Then(c, s, [x], t, [y], u);
    var drain, v := DrainAll(c, u, b, i);
    Then(c, s, [x] + [y], u, drain, v);
    var pong := Encode(c.codec, Pong(b, env.nonce));
    assert pong == u.nodes[b].conns[i].pipeline[|s.nodes[b].conns[i].pipeline|];
    var z: Protocol.Step;
    z, s' := HearsPong(c, v, a, b, env.nonce, env);
    Then(c, s, [x] + [y] + drain, v, [z], s');
    steps := [x] + [y] + drain + [z];
    assert v.nodes[b].conns == Emptied(s.nodes[b], a).conns;
  }

  /** If each of two nodes holds a running connection to the other, the handshake can complete: a Ping,
      a Pong, and `a`'s connection is Established. */
  lemma HandshakeCompletes(c: Config, s: Mesh, a: VirtAddr, b: VirtAddr, back: ConnState, nonce: string, env: Env)
    returns (steps: seq<Protocol.Step>, s': Mesh)
    requires Linked(c, s, a, b, Connecting) && Linked(c, s, b, a, back)
    requires |s.nodes[b].conns[s.nodes[b].table[a]].pipeline| < CONN_CAPACITY
    requires PingsFit(c, a, nonce, b, env.nonce)
    ensures Leads(c, s, steps, s')
    ensures RunningLink(c, s', a, b) && s'.nodes[a].conns[s'.nodes[a].table[b]].state == Established
  {
    LinkedRemote(c, s, a, b, Connecting);
    LinkedRemote(c, s, b, a, back);
    steps, s' := Round(c, s, a, b, ConnectTick(nonce), nonce, env);
  }
}
