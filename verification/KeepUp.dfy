/**
 Keepalive as it is meant: two nodes with Established connections to each other can stay connected for
 ever, as long as neither waits longer than 10 seconds for the next tick.
 */
module KeepUp {
  import opened Wire
  import opened NodeModel
  import opened Protocol
  import opened ProtocolProgress

  /** Exactly when a tick of a running loop sends, and what: a Ping for the peer; before the connection is
      established on connecting ticks, afterwards on keepalive ticks in time. */
  lemma TicksPingExactly(codec: Protobuf, self: VirtAddr, conn: Conn, e: ConnEvent)
    requires conn.phase == Running && (e.ConnectTick? || e.KeepaliveTick?)
    ensures
      var (conn', out) := ConnStep(codec, self, conn, e);
      && out == (if Pings(conn, e, e.nonce)
                 then [Output(ToPeer(conn.remote), Encode(codec, Ping(self, e.nonce)))] else [])
      && conn' == conn.(dying := conn.dying || (e.KeepaliveTick? && conn.keepalive + 10_000_000_000 < e.now))
  {
  }

  /** The connection of `a` to `b` that is registered. */
  function ConnTo(n: Node, b: VirtAddr): Conn
    requires b in n.table && n.table[b] < |n.conns|
  {
    n.conns[n.table[b]]
  }

  /** `a`'s connection to `b` is up, was refreshed no more than 10 seconds before `now`, and has room. */
  ghost predicate HalfUp(c: Config, s: Mesh, a: VirtAddr, b: VirtAddr, now: int) {
    && RunningLink(c, s, a, b)
    && var conn := ConnTo(s.nodes[a], b);
       conn.state == Established && conn.keepalive + 10_000_000_000 >= now && |conn.pipeline| < CONN_CAPACITY
  }

  ghost predicate Up(c: Config, s: Mesh, a: VirtAddr, b: VirtAddr, now: int) {
    c.Ok() && a != b && HalfUp(c, s, a, b, now) && HalfUp(c, s, b, a, now)
  }

  /** `a`'s keepalive tick at `now`, in time, leads to a connection that was refreshed at `now`, and leaves the
      peer's as it was but for its queue. */
  lemma RefreshesOne(c: Config, s: Mesh, a: VirtAddr, b: VirtAddr, now: int, nonce: string)
    returns (steps: seq<Protocol.Step>, s': Mesh)
    requires Up(c, s, a, b, now) && PingsFit(c, a, nonce, b, nonce)
    ensures Leads(c, s, steps, s') && OnlyChanges(s, s', a, b)
    ensures s'.nodes[a] == Refreshed(s.nodes[a], b, now) && s'.nodes[b] == Emptied(s.nodes[b], a)
  {
    steps, s' := Round(c, s, a, b, KeepaliveTick(now, nonce), nonce, Env(nonce, now, true));
  }

  lemma RefreshedIsUp(c: Config, s: Mesh, s': Mesh, a: VirtAddr, b: VirtAddr, now: int)
    requires Up(c, s, a, b, now) && OnlyChanges(s, s', a, b)
    requires s'.nodes[a] == Refreshed(s.nodes[a], b, now) && s'.nodes[b] == Emptied(s.nodes[b], a)
    ensures Up(c, s', a, b, now)
    ensures ConnTo(s'.nodes[a], b).keepalive == now
    ensures ConnTo(s'.nodes[b], a).keepalive == ConnTo(s.nodes[b], a).keepalive
  {
  }

  /** One round of both: from connections that are up at `now` to connections that were refreshed then. */
  lemma KeepsUp(c: Config, s: Mesh, a: VirtAddr, b: VirtAddr, now: int, nonce: string)
    returns (steps: seq<Protocol.Step>, s': Mesh)
    requires Up(c, s, a, b, now) && PingsFit(c, a, nonce, b, nonce) && PingsFit(c, b, nonce, a, nonce)
    ensures Leads(c, s, steps, s') && Up(c, s', a, b, now + 10_000_000_000)
    ensures ConnTo(s'.nodes[a], b).keepalive == now && ConnTo(s'.nodes[b], a).keepalive == now
  {
    var xs, t := RefreshesOne(c, s, a, b, now, nonce);
    RefreshedIsUp(c, s, t, a, b, now);
    var ys: seq<Protocol.Step>;
    ys, s' := RefreshesOne(c, t, b, a, now, nonce);
    RefreshedIsUp(c, t, s', b, a, now);
    Then(c, s, xs, t, ys, s');
    steps := xs + ys;
  }

  /** Ticks at `times` are in time: none is more than 10 seconds after the one before. */
  ghost predicate InTime(times: seq<int>) {
    forall k | 0 <= k < |times| - 1 :: times[k + 1] <= times[k] + 10_000_000_000
  }

  /** For ever: through any number of ticks in time the connections can stay up, fresh from the last tick. */
  lemma {:induction false} StaysUp(c: Config, s: Mesh, a: VirtAddr, b: VirtAddr, times: seq<int>, nonce: string)
    returns (steps: seq<Protocol.Step>, s': Mesh)
    requires |times| > 0 && InTime(times) && Up(c, s, a, b, times[0])
    requires PingsFit(c, a, nonce, b, nonce) && PingsFit(c, b, nonce, a, nonce)
    ensures Leads(c, s, steps, s') && Up(c, s', a, b, times[|times| - 1])
    ensures ConnTo(s'.nodes[a], b).keepalive == times[|times| - 1]
    ensures ConnTo(s'.nodes[b], a).keepalive == times[|times| - 1]
    decreases |times|
  {
    steps, s' := KeepsUp(c, s, a, b, times[0], nonce);
    if |times| > 1 {
      var more, u := StaysUp(c, s', a, b, times[1..], nonce);
      Then(c, s, steps, s', more, u);
      steps, s' := steps + more, u;
    }
  }
}
