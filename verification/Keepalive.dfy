/**
 The keepalive timeout of one connection under ideal ticks (node/connection.go): the ticker fires every
 keepalive period from the moment the loop starts, and is served at once. Pongs arrive at any time. The
 connection's own transitions are those of NodeModel; whether it is still in the node's table plays no
 part, so evicted connections are covered.
 */
module Keepalive {
  import opened Wire
  import opened NodeModel

  /** `conn` at time `now`; its loop started at `started`; the next tick is due at `tick`; `pong` is when
      the last Pong (or creation) was before the close, if any, at `closedAt`. */
  datatype Timed = Timed(conn: Conn, now: int, started: int, tick: int, pong: int, closedAt: Option<int>)

  datatype Event = Elapse(until: int) | PongArrives | TickFires(nonce: string)

  /** The loop starts at any time after the connection's creation or first Pong. */
  predicate Begins(s: Timed) {
    && s.conn.phase == Running && !s.conn.dying
    && s.conn.keepalive == s.pong <= s.now == s.started
    && s.tick == s.now + KEEPALIVE
    && s.closedAt == None
  }

  /** Every connection begins so: made by a notification at `made`, with its loop started later. */
  lemma ConnectionsBegin(codec: Protobuf, n: Node, m: Message, env: Env, started: int)
    requires TableOk(n) && m.OpenTunnel? && env.dialOk && !AlreadyOpen(n, m) && env.now <= started
    ensures
      var n' := OnOpenTunnel(codec, n, m, env).0;
      && TableOk(n') && m.virt in n'.table && ConnEnabled(n'.conns[n'.table[m.virt]], LoopStart)
      && var conn := ConnStep(codec, n.self, n'.conns[n'.table[m.virt]], LoopStart).0;
         Begins(Timed(conn, started, started, started + 5_000_000_000, env.now, None))
  {
  }

  /** Time does not pass a due tick; ticks fire when due. */
  predicate Can(s: Timed, e: Event) {
    && s.conn.phase == Running
    && match e
       case Elapse(until) => s.now <= until <= s.tick
       case PongArrives => true
       case TickFires(_) => s.now == s.tick
  }

  function After(codec: Protobuf, self: VirtAddr, s: Timed, e: Event): Timed
    requires Can(s, e)
  {
    match e
    case Elapse(until) => s.(now := until)
    case PongArrives =>
      s.(conn := Refresh(s.conn, s.now),
         pong := if s.closedAt.None? then s.now else s.pong)
    case TickFires(nonce) =>
      var conn := ConnStep(codec, self, s.conn, KeepaliveTick(s.now, nonce)).0;
      s.(conn := conn,
         tick := s.tick + KEEPALIVE,
         closedAt := if conn.dying && s.closedAt.None? then Some(s.now) else s.closedAt)
  }

  ghost predicate IsRun(codec: Protobuf, self: VirtAddr, states: seq<Timed>, events: seq<Event>) {
    && |states| == |events| + 1
    && Begins(states[0])
    && (forall k | 0 <= k < |events| ::
          Can(states[k], events[k]) && states[k + 1] == After(codec, self, states[k], events[k]))
  }

  /** The latest moment for the close: 15 seconds after the last Pong, or the first tick after a late
      start of the loop. */
  function Deadline(s: Timed): int {
    if s.pong + 3 * KEEPALIVE >= s.started + KEEPALIVE then s.pong + 3 * KEEPALIVE else s.started + KEEPALIVE
  }

  ghost predicate Inv(s: Timed) {
    && s.now <= s.tick
    && match s.closedAt
       case None =>
         !s.conn.dying && s.conn.keepalive == s.pong && s.pong <= s.now && s.tick <= Deadline(s)
       case Some(t) =>
         s.conn.dying && s.pong + 2 * KEEPALIVE < t <= Deadline(s)
  }

  lemma {:induction false} RunInv(codec: Protobuf, self: VirtAddr, states: seq<Timed>, events: seq<Event>, k: nat)
    requires IsRun(codec, self, states, events) && k < |states|
    ensures Inv(states[k]) && states[k].started == states[0].started
  {
    if k > 0 {
      RunInv(codec, self, states, events, k - 1);
    }
  }

  /** A connection never closes within 10 seconds of its last Pong or its creation, and is closed by 15
      seconds after it or, if its loop started later than 10 seconds after it, by the loop's first tick. */
  lemma KeepaliveBound(codec: Protobuf, self: VirtAddr, states: seq<Timed>, events: seq<Event>, k: nat)
    requires IsRun(codec, self, states, events) && k < |states|
    ensures states[k].closedAt.None? <==> !states[k].conn.dying
    ensures states[k].closedAt.None? ==> states[k].now <= Deadline(states[k])
    ensures states[k].closedAt.Some? ==>
      states[k].pong + 10 * SECOND < states[k].closedAt.value <= Deadline(states[k])
    ensures states[k].started <= states[k].pong + 10 * SECOND ==> Deadline(states[k]) == states[k].pong + 15 * SECOND
    ensures states[k].started == states[0].started
  {
    RunInv(codec, self, states, events, k);
  }
}
