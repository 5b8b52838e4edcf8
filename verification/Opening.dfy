/**
 Opening a tunnel, from the request to the two connections: the crosswise notifications, the scan that
 sends them, and the nodes that act on them.
 */
module Opening {
  import opened Wire
  import opened NodeModel
  import opened NotifierModel
  import opened Protocol
  import opened ProtocolInvariant
  import opened ProtocolProgress

  // ---- the request ----

  /** A request between known peers adds two notifications, under the next two numbers: the source is told
      about the destination, and the destination about the source. A token is there for the dispatcher. */
  lemma OpensCrosswise(g: Gateway, src: VirtAddr, dst: VirtAddr)
    requires src in g.peers && dst in g.peers && 0 <= g.notifier.ackID && g.notifier.ackID + 2 <= MAX_INT64
    ensures
      var id := g.notifier.ackID + 1;
      var n := OpenRequest(g, src, dst).notifier;
      && n.data == g.notifier.data
           [id := RetryPacket(Packet(g.peers[src], Control(OpenTunnel(id, dst, g.peers[dst]))), 0)]
           [id + 1 := RetryPacket(Packet(g.peers[dst], Control(OpenTunnel(id + 1, src, g.peers[src]))), 0)]
      && n.ackID == id + 1 && n.tokens > 0
      && n.queue == g.notifier.queue && n.chs == g.notifier.chs && n.roundTrip == g.notifier.roundTrip
      && OpenRequest(g, src, dst).peers == g.peers
  {
  }

  /** Any other request changes nothing. */
  lemma UnknownPeers(g: Gateway, src: VirtAddr, dst: VirtAddr)
    requires src !in g.peers || dst !in g.peers
    ensures OpenRequest(g, src, dst) == g
  {
  }

  // ---- the scan ----

  lemma {:induction false} Enumerate(keys: set<int>) returns (order: seq<int>)
    ensures Enumerates(order, keys)
  {
    order := [];
    var rest := keys;
    while |rest| != 0
      invariant rest <= keys && NoDuplicates(order)
      invariant forall i | 0 <= i < |order| :: order[i] in keys && order[i] !in rest
      invariant forall k | k in keys && k !in rest :: k in order
      decreases |rest|
    {
      SomeElement(rest);
      var k :| k in rest;
      order, rest := order + [k], rest - {k};
    }
  }

  /** The packet waits in some worker's channel. */
  ghost predicate Waits(n: Notifier, p: Packet) {
    exists w, k :: 0 <= w < |n.chs| && 0 <= k < |n.chs[w]| && n.chs[w][k] == p
  }

  lemma SendQueues(n: Notifier, p: Packet, q: Packet)
    requires |n.chs| > 0 && (p == q || Waits(n, q))
    ensures Waits(Send(n, p), q)
  {
    var n', i := Send(n, p), n.roundTrip % |n.chs|;
    if p == q {
      assert n'.chs[i][|n.chs[i]|] == q;
    } else {
      var w, k :| 0 <= w < |n.chs| && 0 <= k < |n.chs[w]| && n.chs[w][k] == q;
      assert n'.chs[w][k] == q;
    }
  }

  ghost predicate ZeroCounters(n: Notifier) {
    forall id | id in n.data :: n.data[id].counter == 0
  }

  /** A scan puts every entry into some channel and keeps it. */
  lemma {:induction false} ScanQueues(n: Notifier, order: seq<int>)
    requires |n.chs| > 0 && ZeroCounters(n)
    requires NoDuplicates(order) && (forall i | 0 <= i < |order| :: order[i] in n.data)
    ensures RetryPrefix(n, order).data == n.data
    ensures forall i | 0 <= i < |order| :: Waits(RetryPrefix(n, order), n.data[order[i]].packet)
  {
    if order != [] {
      var last := |order| - 1;
      var before := RetryPrefix(n, order[..last]);
      ScanQueues(n, order[..last]);
      forall i | 0 <= i < |order| ensures Waits(RetryPrefix(n, order), n.data[order[i]].packet) {
        if i < last { assert Waits(before, n.data[order[..last][i]].packet); }
        SendQueues(before, n.data[order[last]].packet, n.data[order[i]].packet);
      }
    }
  }

  // ---- in the mesh ----

  /** Nothing but the gateway and the network has changed, and peers and entries are as they were. */
  ghost predicate OnlySends(s: Mesh, s': Mesh) {
    && s'.nodes == s.nodes && s.h.net <= s'.h.net
    && s'.gateway.peers == s.gateway.peers && s'.gateway.notifier.data == s.gateway.notifier.data
  }

  /** A packet that waits can be sent, and none that waits is lost. */
  lemma SendsWaiting(c: Config, s: Mesh, p: Packet) returns (steps: seq<Protocol.Step>, s': Mesh)
    requires Waits(s.gateway.notifier, p)
    ensures Leads(c, s, steps, s') && OnlySends(s, s') && Sent(c, p) in s'.h.net
    ensures forall q | Waits(s.gateway.notifier, q) :: Waits(s'.gateway.notifier, q) || Sent(c, q) in s'.h.net
  {
    var n := s.gateway.notifier;
    var w, k :| 0 <= w < |n.chs| && 0 <= k < |n.chs[w]| && n.chs[w][k] == p;
    steps, s' := DrainWorker(c, s, w);
    var n' := s'.gateway.notifier;
    forall q | Waits(n, q) ensures Waits(n', q) || Sent(c, q) in s'.h.net {
      var u, j :| 0 <= u < |n.chs| && 0 <= j < |n.chs[u]| && n.chs[u][j] == q;
      if u != w { assert n'.chs[u][j] == q; }
    }
  }

  lemma SendsBoth(c: Config, s: Mesh, p: Packet, q: Packet) returns (steps: seq<Protocol.Step>, s': Mesh)
    requires Waits(s.gateway.notifier, p) && Waits(s.gateway.notifier, q)
    ensures Leads(c, s, steps, s') && OnlySends(s, s') && Sent(c, p) in s'.h.net && Sent(c, q) in s'.h.net
  {
    steps, s' := SendsWaiting(c, s, p);
    if Sent(c, q) !in s'.h.net {
      var more, u := SendsWaiting(c, s', q);
      Then(c, s, steps, s', more, u);
      steps, s' := steps + more, u;
    }
  }

  /** The token that an open leaves makes the dispatcher scan, and the scan queues every entry. */
  lemma Scans(c: Config, s: Mesh) returns (step: Protocol.Step, s': Mesh)
    requires |s.gateway.notifier.chs| > 0 && s.gateway.notifier.tokens > 0 && ZeroCounters(s.gateway.notifier)
    ensures Leads(c, s, [step], s') && OnlySends(s, s') && s'.h == s.h
    ensures forall id | id in s.gateway.notifier.data ::
              Waits(s'.gateway.notifier, s.gateway.notifier.data[id].packet)
  {
    var order := Enumerate(s.gateway.notifier.data.Keys);
    s' := TakesToken(c, s, order);
    step := GatewayRetry(true, order);
    var n := s.gateway.notifier;
    ScanReachesAll(n.(tokens := n.tokens - 1), order);
  }

  lemma TakesToken(c: Config, s: Mesh, order: seq<int>) returns (s': Mesh)
    requires |s.gateway.notifier.chs| > 0 && s.gateway.notifier.tokens > 0
    requires Enumerates(order, s.gateway.notifier.data.Keys)
    ensures Leads(c, s, [GatewayRetry(true, order)], s') && s'.nodes == s.nodes && s'.h == s.h
    ensures s'.gateway.peers == s.gateway.peers
    ensures
      var n := s.gateway.notifier;
      s'.gateway.notifier == Retry(n.(tokens := n.tokens - 1), order)
  {
    s' := NextMesh(c, s, GatewayRetry(true, order));
    One(c, s, GatewayRetry(true, order));
  }

  lemma ScanReachesAll(n: Notifier, order: seq<int>)
    requires |n.chs| > 0 && ZeroCounters(n) && Enumerates(order, n.data.Keys)
    ensures Retry(n, order).data == n.data
    ensures forall id | id in n.data :: Waits(Retry(n, order), n.data[id].packet)
  {
    ScanQueues(n, order);
    forall id | id in n.data ensures Waits(Retry(n, order), n.data[id].packet) {
      var i :| 0 <= i < |order| && order[i] == id;
      assert Waits(RetryPrefix(n, order), n.data[order[i]].packet);
    }
  }

  /** What is on the network once `v` has been told about `w`. */
  function Told(c: Config, v: VirtAddr, w: VirtAddr, id: int): Datagram
    requires v in c.addr && w in c.addr
  {
    Datagram(c.gateway, c.addr[v], Encode(c.codec, OpenTunnel(id, w, c.addr[w])))
  }

  /** The gateway knows the two nodes and can take one more request. */
  ghost predicate Ready(c: Config, s: Mesh, a: VirtAddr, b: VirtAddr) {
    && a in c.addr && b in c.addr && a in s.gateway.peers && b in s.gateway.peers
    && s.gateway.peers[a] == c.addr[a] && s.gateway.peers[b] == c.addr[b]
    && |s.gateway.notifier.chs| > 0 && ZeroCounters(s.gateway.notifier)
    && 0 <= s.gateway.notifier.ackID && s.gateway.notifier.ackID + 2 <= MAX_INT64
  }

  /** The two entries of an open. */
  ghost predicate Entries(c: Config, data: map<int, RetryPacket>, a: VirtAddr, b: VirtAddr, id: int)
    requires a in c.addr && b in c.addr
  {
    && id in data && id + 1 in data
    && data[id].packet == Packet(c.addr[a], Control(OpenTunnel(id, b, c.addr[b])))
    && data[id + 1].packet == Packet(c.addr[b], Control(OpenTunnel(id + 1, a, c.addr[a])))
  }

  lemma Requests(c: Config, s: Mesh, a: VirtAddr, b: VirtAddr) returns (s': Mesh)
    requires Ready(c, s, a, b)
    ensures Leads(c, s, [GatewayOpen(a, b)], s') && s'.nodes == s.nodes && s'.h.net == s.h.net
    ensures s'.gateway.peers == s.gateway.peers && s'.gateway.notifier.tokens > 0
    ensures |s'.gateway.notifier.chs| > 0 && ZeroCounters(s'.gateway.notifier)
    ensures
      var id := s.gateway.notifier.ackID + 1;
      && Entries(c, s'.gateway.notifier.data, a, b, id)
      && s'.gateway.notifier.data.Keys == s.gateway.notifier.data.Keys + {id, id + 1}
  {
    OpensCrosswise(s.gateway, a, b);
    s' := NextMesh(c, s, GatewayOpen(a, b));
    One(c, s, GatewayOpen(a, b));
  }

  /** From the request to the two notifications on the network. */
  lemma TellsBoth(c: Config, s: Mesh, a: VirtAddr, b: VirtAddr) returns (steps: seq<Protocol.Step>, s': Mesh)
    requires Ready(c, s, a, b)
    ensures Leads(c, s, steps, s') && s'.nodes == s.nodes && s.h.net <= s'.h.net
    ensures s'.gateway.peers == s.gateway.peers
    ensures
      var id := s.gateway.notifier.ackID + 1;
      && Told(c, a, b, id) in s'.h.net && Told(c, b, a, id + 1) in s'.h.net
      && s'.gateway.notifier.data.Keys == s.gateway.notifier.data.Keys + {id, id + 1}
  {
    var id := s.gateway.notifier.ackID + 1;
    var t := Requests(c, s, a, b);
    var scan, u := Scans(c, t);
    Then(c, s, [GatewayOpen(a, b)], t, [scan], u);
    var p, q := t.gateway.notifier.data[id].packet, t.gateway.notifier.data[id + 1].packet;
    var more: seq<Protocol.Step>;
    more, s' := SendsBoth(c, u, p, q);
    Then(c, s, [GatewayOpen(a, b)] + [scan], u, more, s');
    steps := [GatewayOpen(a, b)] + [scan] + more;
    assert Sent(c, p) == Told(c, a, b, id) && Sent(c, q) == Told(c, b, a, id + 1);
  }

  /** `v` has a connection to `w`'s address registered. */
  ghost predicate HoldsTo(c: Config, s: Mesh, v: VirtAddr, w: VirtAddr) {
    && v in s.nodes && w in c.addr && TableOk(s.nodes[v]) && w in s.nodes[v].table
    && s.nodes[v].conns[s.nodes[v].table[w]].remote == c.addr[w]
  }

  /** A node that is told and can dial connects, and acknowledges to the gateway. */
  lemma Connects(c: Config, s: Mesh, v: VirtAddr, w: VirtAddr, id: int, env: Env)
    returns (step: Protocol.Step, s': Mesh)
    requires c.Ok() && v in c.addr && w in c.addr && v in s.nodes && TableOk(s.nodes[v]) && env.dialOk
    requires Told(c, v, w, id) in s.h.net && |Told(c, v, w, id).frame| <= MAX_BUFFER_SIZE
    ensures Leads(c, s, [step], s') && OnlyChanges(s, s', v, v) && HoldsTo(c, s', v, w)
    ensures s'.nodes[v] == OnOpenTunnel(c.codec, s.nodes[v], OpenTunnel(id, w, c.addr[w]), env).0
    ensures Datagram(c.addr[v], c.gateway, Encode(c.codec, OpenTunnelAck(id))) in s'.h.net
  {
    var m := OpenTunnel(id, w, c.addr[w]);
    FramingRoundTrip(c.codec, Control(m));
    assert Frame(c.codec, Control(m)) == Encode(c.codec, m);
    step := NodeReceive(v, Told(c, v, w, id), env);
    s' := NextMesh(c, s, step);
    One(c, s, step);
    assert AckOutput(c.codec, id) in NodeModel.Step(c.codec, s.nodes[v], ActionOf(step)).1;
  }

  /** One request, and both nodes hold connections to each other and have acknowledged. */
  lemma ConnectsBoth(c: Config, s: Mesh, a: VirtAddr, b: VirtAddr, id: int, env: Env)
    returns (steps: seq<Protocol.Step>, s': Mesh)
    requires c.Ok() && Ready(c, s, a, b) && a != b && env.dialOk && id == s.gateway.notifier.ackID + 1
    requires a in s.nodes && b in s.nodes && TableOk(s.nodes[a]) && TableOk(s.nodes[b])
    requires |Told(c, a, b, id).frame| <= MAX_BUFFER_SIZE && |Told(c, b, a, id + 1).frame| <= MAX_BUFFER_SIZE
    ensures Leads(c, s, steps, s') && HoldsTo(c, s', a, b) && HoldsTo(c, s', b, a)
    ensures s'.nodes.Keys == s.nodes.Keys
    ensures s'.nodes[a] == OnOpenTunnel(c.codec, s.nodes[a], OpenTunnel(id, b, c.addr[b]), env).0
    ensures s'.nodes[b] == OnOpenTunnel(c.codec, s.nodes[b], OpenTunnel(id + 1, a, c.addr[a]), env).0
    ensures Datagram(c.addr[a], c.gateway, Encode(c.codec, OpenTunnelAck(id))) in s'.h.net
    ensures Datagram(c.addr[b], c.gateway, Encode(c.codec, OpenTunnelAck(id + 1))) in s'.h.net
    ensures s'.gateway.notifier.data.Keys == s.gateway.notifier.data.Keys + {id, id + 1}
  {
    var tell, t := TellsBoth(c, s, a, b);
    var x, u := Connects(c, t, a, b, id, env);
    Then(c, s, tell, t, [x], u);
    var y: Protocol.Step;
    y, s' := Connects(c, u, b, a, id + 1, env);
    Then(c, s, tell + [x], u, [y], s');
    steps := tell + [x] + [y];
  }

  /** Opening works: from every state of every bounded run in which the gateway knows two nodes, a request, a
      scan, the sends and one receive at each lead to two nodes that hold connections to each other. */
  lemma OpenConnects(c: Config, s: Mesh, a: VirtAddr, b: VirtAddr, id: int, env: Env)
    returns (steps: seq<Protocol.Step>, s': Mesh)
    requires c.Ok() && Inv(c, s) && a != b && a in s.gateway.peers && b in s.gateway.peers && env.dialOk
    requires |s.h.issued| + 2 <= MAX_INT64 && id == |s.h.issued| + 1 && a in c.addr && b in c.addr
    requires |Told(c, a, b, id).frame| <= MAX_BUFFER_SIZE && |Told(c, b, a, id + 1).frame| <= MAX_BUFFER_SIZE
    ensures Leads(c, s, steps, s') && HoldsTo(c, s', a, b) && HoldsTo(c, s', b, a)
  {
    ReadyIfKnown(c, s, a, b);
    steps, s' := ConnectsBoth(c, s, a, b, id, env);
  }

  lemma ReadyIfKnown(c: Config, s: Mesh, a: VirtAddr, b: VirtAddr)
    requires Inv(c, s) && a in s.gateway.peers && b in s.gateway.peers && |s.h.issued| + 2 <= MAX_INT64
    ensures Ready(c, s, a, b) && s.gateway.notifier.ackID == |s.h.issued|
    ensures a in s.nodes && b in s.nodes && TableOk(s.nodes[a]) && TableOk(s.nodes[b])
  {
    assert NodeOk(c, s.h, a, s.nodes[a]) && NodeOk(c, s.h, b, s.nodes[b]);
  }
}
