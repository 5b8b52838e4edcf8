/**
 The mesh with addresses that mean nothing: any frame ever sent may reach any node, or the gateway from
 any source address, at any time and any number of times. Nodes may thus move to other UDP addresses,
 share them or take over each other's, so that a notification may find its peer registered at another
 address: the old connection is closed and the new address is dialled, perhaps in vain.

 `issued` and `acked` are history: the notifications ever issued, and which node acknowledged which.
 */
module Roaming {
  import opened Wire
  import opened NodeModel
  import opened NotifierModel
  import Channels

  datatype Receipt = Receipt(node: VirtAddr, m: Message)

  datatype State = State(
    gateway: Gateway, nodes: map<VirtAddr, Node>, sent: set<Bytes>, issued: seq<Packet>, acked: set<Receipt>)

  datatype Step =
    | NodeReceive(v: VirtAddr, frame: Bytes, env: Env)
    | NodeLocal(v: VirtAddr, a: Action)
    | GatewayReceive(source: UdpAddr, frame: Bytes)
    | GatewayOpen(src: VirtAddr, dst: VirtAddr)
    | GatewayRetry(token: bool, order: seq<int>)
    | GatewayDequeue
    | GatewaySend(w: nat, written: bool)

  function Init(names: set<VirtAddr>, workers: nat): State {
    State(Gateway(map[], NewNotifier(workers)), map v | v in names :: NewNode(v), {}, [], {})
  }

  ghost predicate CanStep(codec: Protobuf, s: State, step: Step) {
    match step
    case NodeReceive(v, frame, env) =>
      v in s.nodes && frame in s.sent && Enabled(codec, s.nodes[v], Receive(Truncate(frame), env))
    case NodeLocal(v, a) => v in s.nodes && !a.Receive? && Enabled(codec, s.nodes[v], a)
    case GatewayReceive(_, frame) => frame in s.sent && !ProcessBlocks(codec, s.gateway, Truncate(frame))
    case GatewayOpen(_, _) => true
    case GatewayRetry(token, order) =>
      && |s.gateway.notifier.chs| > 0
      && (token ==> s.gateway.notifier.tokens > 0)
      && Enumerates(order, s.gateway.notifier.data.Keys)
    case GatewayDequeue => |s.gateway.notifier.chs| > 0 && s.gateway.notifier.queue != []
    case GatewaySend(w, _) => w < |s.gateway.notifier.chs| && s.gateway.notifier.chs[w] != []
  }

  function Frames(out: seq<Output>): set<Bytes> {
    set o | o in out :: o.frame
  }

  /** The node acknowledges a notification that it finds open already or dials with success. */
  predicate Acknowledges(n: Node, m: Message, env: Env)
    requires m.OpenTunnel? && TableOk(n)
  {
    AlreadyOpen(n, m) || env.dialOk
  }

  function Receipts(codec: Protobuf, v: VirtAddr, n: Node, frame: Bytes, env: Env): set<Receipt>
    requires TableOk(n)
  {
    match NodeParse(codec, Truncate(frame))
    case Some(Control(m)) => if m.OpenTunnel? && Acknowledges(n, m, env) then {Receipt(v, m)} else {}
    case _ => {}
  }

  function NodeNext(codec: Protobuf, s: State, v: VirtAddr, a: Action, receipts: set<Receipt>): State
    requires v in s.nodes && Enabled(codec, s.nodes[v], a)
  {
    var (n, out) := NodeModel.Step(codec, s.nodes[v], a);
    s.(nodes := s.nodes[v := n], sent := s.sent + Frames(out), acked := s.acked + receipts)
  }

  function WithNotifier(s: State, n: Notifier): State {
    s.(gateway := s.gateway.(notifier := n))
  }

  function After(codec: Protobuf, s: State, step: Step): State
    requires CanStep(codec, s, step)
  {
    var nt := s.gateway.notifier;
    match step
    case NodeReceive(v, frame, env) =>
      NodeNext(codec, s, v, Receive(Truncate(frame), env), Receipts(codec, v, s.nodes[v], frame, env))
    case NodeLocal(v, a) => NodeNext(codec, s, v, a, {})
    case GatewayReceive(source, frame) => s.(gateway := Process(codec, s.gateway, source, Truncate(frame)))
    case GatewayOpen(src, dst) =>
      s.(gateway := OpenRequest(s.gateway, src, dst), issued := s.issued + NewIssues(s.gateway, src, dst))
    case GatewayRetry(token, order) =>
      WithNotifier(s, Retry(if token then nt.(tokens := nt.tokens - 1) else nt, order))
    case GatewayDequeue => WithNotifier(s, Dequeue(nt))
    case GatewaySend(w, written) =>
      var s' := WithNotifier(s, Take(nt, w));
      if written then s'.(sent := s.sent + {Frame(codec, nt.chs[w][0].payload)}) else s'
  }

  ghost predicate StepAt(codec: Protobuf, trace: seq<State>, steps: seq<Step>, k: nat)
    requires |trace| == |steps| + 1 && k < |steps|
  {
    CanStep(codec, trace[k], steps[k]) && trace[k + 1] == After(codec, trace[k], steps[k])
  }

  ghost predicate IsTrace(codec: Protobuf, trace: seq<State>, steps: seq<Step>) {
    && |trace| == |steps| + 1
    && (exists names, workers: nat :: workers > 0 && trace[0] == Init(names, workers))
    && (forall k | 0 <= k < |steps| :: StepAt(codec, trace, steps, k))
  }

  /** The type byte marks a notification or an acknowledgement. */
  predicate Handshake(frame: Bytes) {
    |frame| > 0 && (frame[0] == 2 || frame[0] == 3)
  }

  /** Notifications and acknowledgements fit the receive buffers, and the counter has not overflowed.
      Other frames may be of any length. */
  ghost predicate Bounded(s: State) {
    && (forall f | f in s.sent && Handshake(f) :: |f| <= MAX_BUFFER_SIZE)
    && |s.issued| <= MAX_INT64
  }

  // ---- the invariant ----

  ghost predicate IsIssued(issued: seq<Packet>, m: Message) {
    m.OpenTunnel? && 1 <= m.ackId <= |issued| && issued[m.ackId - 1].payload == Control(m)
  }

  ghost predicate AckOk(acked: set<Receipt>, id: int) {
    exists r :: r in acked && r.m.OpenTunnel? && r.m.ackId == id
  }

  /** A notification was issued and an acknowledgement is a node's; anything else will do. */
  ghost predicate PayloadOk(issued: seq<Packet>, acked: set<Receipt>, p: Payload) {
    match p
    case Control(OpenTunnel(_, _, _)) => IsIssued(issued, p.m)
    case Control(OpenTunnelAck(id)) => AckOk(acked, id)
    case _ => true
  }

  ghost predicate FrameOk(codec: Protobuf, issued: seq<Packet>, acked: set<Receipt>, f: Bytes) {
    Handshake(f) ==> exists p :: f == Frame(codec, p) && PayloadOk(issued, acked, p)
  }

  ghost predicate SentOk(codec: Protobuf, s: State) {
    forall f | f in s.sent :: FrameOk(codec, s.issued, s.acked, f)
  }

  ghost predicate AckedOk(s: State) {
    forall r | r in s.acked :: IsIssued(s.issued, r.m)
  }

  /** Notification `k` has number k + 1. */
  ghost predicate IssuedOk(issued: seq<Packet>) {
    forall k | 0 <= k < |issued| ::
      issued[k].payload.Control? && issued[k].payload.m.OpenTunnel? && issued[k].payload.m.ackId == k + 1
  }

  ghost function Good(issued: seq<Packet>, acked: set<Receipt>): Packet -> bool {
    (p: Packet) => PayloadOk(issued, acked, p.payload)
  }

  ghost predicate ChannelsOk(issued: seq<Packet>, acked: set<Receipt>, n: Notifier) {
    Channels.Carry(n, Good(issued, acked))
  }

  ghost predicate EntriesOk(issued: seq<Packet>, acked: set<Receipt>, n: Notifier) {
    && n.ackID == |issued|
    && (forall id | id in n.data :: 1 <= id <= |issued| && n.data[id] == RetryPacket(issued[id - 1], 0))
    && (forall id | 1 <= id <= |issued| && id !in n.data :: AckOk(acked, id))
  }

  /** No connection carries notifications or acknowledgements. */
  ghost predicate NodeOk(n: Node) {
    forall i, k | 0 <= i < |n.conns| && 0 <= k < |n.conns[i].pipeline| :: !Handshake(n.conns[i].pipeline[k])
  }

  ghost predicate Inv(codec: Protobuf, s: State) {
    && SentOk(codec, s) && AckedOk(s) && IssuedOk(s.issued)
    && ChannelsOk(s.issued, s.acked, s.gateway.notifier) && EntriesOk(s.issued, s.acked, s.gateway.notifier)
    && (forall v | v in s.nodes :: NodeOk(s.nodes[v]))
  }

  // ---- receiving ----

  lemma Recover(codec: Protobuf, s: State, f: Bytes, m: Message)
    requires codec.Inverts() && Inv(codec, s) && Bounded(s) && f in s.sent && m.OpenTunnel?
    requires NodeParse(codec, Truncate(f)) == Some(Control(m))
    ensures IsIssued(s.issued, m)
  {
    assert Truncate(f)[0] == f[0] == 2;
    assert FrameOk(codec, s.issued, s.acked, f);
    var p :| f == Frame(codec, p) && PayloadOk(s.issued, s.acked, p);
    FramingRoundTrip(codec, p);
  }

  lemma RecoverAck(codec: Protobuf, s: State, f: Bytes, id: int)
    requires codec.Inverts() && Inv(codec, s) && Bounded(s) && f in s.sent
    requires GatewayParse(codec, Truncate(f)) == Some(OpenTunnelAck(id))
    ensures AckOk(s.acked, id)
  {
    assert Truncate(f)[0] == f[0] == 3;
    assert FrameOk(codec, s.issued, s.acked, f);
    var p :| f == Frame(codec, p) && PayloadOk(s.issued, s.acked, p);
    FramingRoundTrip(codec, p);
  }

  // ---- the nodes' steps ----

  lemma UpdateNode(n: Node, i: nat, c: Conn)
    requires NodeOk(n) && i < |n.conns|
    requires forall k | 0 <= k < |c.pipeline| :: !Handshake(c.pipeline[k])
    ensures NodeOk(UpdateConn(n, i, c))
  {
    var n' := UpdateConn(n, i, c);
    assert forall j | 0 <= j < |n.conns| :: n'.conns[j] == if j == i then c else n.conns[j];
  }

  lemma PushNode(n: Node, i: nat, frame: Bytes)
    requires NodeOk(n) && i < |n.conns| && !Handshake(frame)
    ensures NodeOk(Push(n, i, frame))
  {
    var c := n.conns[i].(pipeline := n.conns[i].pipeline + [frame]);
    assert forall k | 0 <= k < |c.pipeline| :: !Handshake(c.pipeline[k]);
    UpdateNode(n, i, c);
  }

  /** Handling a notification, whether the peer is open already, unknown, or registered elsewhere: the
      connections stay in order, and an acknowledgement is sent only if the notification's peer is then
      registered at the notification's address. */
  lemma NotificationStep(codec: Protobuf, n: Node, m: Message, env: Env)
    requires TableOk(n) && NodeOk(n) && m.OpenTunnel?
    ensures
      var (n', out) := OnOpenTunnel(codec, n, m, env);
      && NodeOk(n') && TableOk(n')
      && out == (if Acknowledges(n, m, env) then [AckOutput(codec, m.ackId)] else [])
      && (Acknowledges(n, m, env) ==> AlreadyOpen(n', m))
  {
    if !AlreadyOpen(n, m) && m.virt in n.table {
      var i := n.table[m.virt];
      UpdateNode(n, i, n.conns[i].(dying := true));
    }
  }

  lemma HandleKeeps(codec: Protobuf, n: Node, frame: Bytes, env: Env)
    requires TableOk(n) && NodeOk(n)
    ensures NodeOk(HandlePacket(codec, n, frame, env).0)
  {
    match NodeParse(codec, frame) {
      case Some(Control(m)) =>
        match m {
          case Ping(virt, _) =>
            if virt in n.table { PushNode(n, n.table[virt], Encode(codec, Pong(n.self, env.nonce))); }
          case Pong(virt, _) =>
            if virt in n.table {
              var i := n.table[virt];
              UpdateNode(n, i, OnPong(n, virt, env.now).conns[i]);
            }
          case OpenTunnel(_, _, _) => NotificationStep(codec, n, m, env);
          case _ =>
        }
      case _ =>
    }
  }

  lemma LocalKeeps(codec: Protobuf, n: Node, a: Action)
    requires NodeOk(n) && Enabled(codec, n, a) && !a.Receive?
    ensures
      var (n', out) := NodeModel.Step(codec, n, a);
      NodeOk(n') && forall o | o in out :: !Handshake(o.frame)
  {
    match a {
      case Read(dst, data, check, mark) =>
        if dst != n.self && dst in n.table { PushNode(n, n.table[dst], EncodeRaw(data)); }
      case Loop(i, e) =>
        var c := ConnStep(codec, n.self, n.conns[i], e).0;
        UpdateNode(n, i, c);
      case _ =>
    }
  }

  lemma PayloadGrows(issued: seq<Packet>, acked: set<Receipt>, issued': seq<Packet>, acked': set<Receipt>, p: Payload)
    requires issued <= issued' && acked <= acked' && PayloadOk(issued, acked, p)
    ensures PayloadOk(issued', acked', p)
  {
    match p {
      case Control(OpenTunnelAck(id)) =>
        var r :| r in acked && r.m.OpenTunnel? && r.m.ackId == id;
        assert r in acked';
      case _ =>
    }
  }

  lemma FrameGrows(
    codec: Protobuf, issued: seq<Packet>, acked: set<Receipt>, issued': seq<Packet>, acked': set<Receipt>, f: Bytes)
    requires issued <= issued' && acked <= acked' && FrameOk(codec, issued, acked, f)
    ensures FrameOk(codec, issued', acked', f)
  {
    if Handshake(f) {
      var p :| f == Frame(codec, p) && PayloadOk(issued, acked, p);
      PayloadGrows(issued, acked, issued', acked', p);
    }
  }

  /** A step that only adds to the history keeps what was justified. */
  lemma HistoryGrows(codec: Protobuf, s: State, s': State)
    requires Inv(codec, s) && s.issued <= s'.issued && s.acked <= s'.acked
    requires s'.gateway == s.gateway && s'.issued == s.issued
    requires forall f | f in s'.sent && f !in s.sent :: FrameOk(codec, s'.issued, s'.acked, f)
    requires forall r | r in s'.acked && r !in s.acked :: IsIssued(s'.issued, r.m)
    requires forall v | v in s'.nodes :: NodeOk(s'.nodes[v])
    ensures Inv(codec, s')
  {
    forall f | f in s'.sent ensures FrameOk(codec, s'.issued, s'.acked, f) {
      if f in s.sent { FrameGrows(codec, s.issued, s.acked, s'.issued, s'.acked, f); }
    }
    ChannelsGrow(s.issued, s.acked, s'.issued, s'.acked, s.gateway.notifier);
    EntriesGrow(s.issued, s.acked, s'.acked, s.gateway.notifier);
  }

  lemma ChannelsGrow(
    issued: seq<Packet>, acked: set<Receipt>, issued': seq<Packet>, acked': set<Receipt>, n: Notifier)
    requires issued <= issued' && acked <= acked' && ChannelsOk(issued, acked, n)
    ensures ChannelsOk(issued', acked', n)
  {
    forall p | PayloadOk(issued, acked, p) ensures PayloadOk(issued', acked', p) {
      PayloadGrows(issued, acked, issued', acked', p);
    }
    Channels.CarryMore(n, Good(issued, acked), Good(issued', acked'));
  }

  lemma EntriesGrow(issued: seq<Packet>, acked: set<Receipt>, acked': set<Receipt>, n: Notifier)
    requires acked <= acked' && EntriesOk(issued, acked, n)
    ensures EntriesOk(issued, acked', n)
  {
    forall id | 1 <= id <= |issued| && id !in n.data ensures AckOk(acked', id) {
      var r :| r in acked && r.m.OpenTunnel? && r.m.ackId == id;
      assert r in acked';
    }
  }

  lemma AckSent(codec: Protobuf, issued: seq<Packet>, acked: set<Receipt>, r: Receipt)
    requires r in acked && r.m.OpenTunnel?
    ensures FrameOk(codec, issued, acked, Encode(codec, OpenTunnelAck(r.m.ackId)))
  {
    var p := Control(OpenTunnelAck(r.m.ackId));
    assert Encode(codec, OpenTunnelAck(r.m.ackId)) == Frame(codec, p) && PayloadOk(issued, acked, p);
  }

  lemma ReceiveKeeps(codec: Protobuf, s: State, v: VirtAddr, frame: Bytes, env: Env)
    requires codec.Inverts() && Inv(codec, s) && Bounded(s) && CanStep(codec, s, NodeReceive(v, frame, env))
    ensures Inv(codec, After(codec, s, NodeReceive(v, frame, env)))
  {
    var n := s.nodes[v];
    var s' := After(codec, s, NodeReceive(v, frame, env));
    HandleKeeps(codec, n, Truncate(frame), env);
    var parsed := NodeParse(codec, Truncate(frame));
    if parsed.Some? && parsed.value.Control? && parsed.value.m.OpenTunnel? {
      var m := parsed.value.m;
      Recover(codec, s, frame, m);
      NotificationStep(codec, n, m, env);
      if Acknowledges(n, m, env) { AckSent(codec, s'.issued, s'.acked, Receipt(v, m)); }
    }
    HistoryGrows(codec, s, s');
  }

  lemma LocalStepKeeps(codec: Protobuf, s: State, v: VirtAddr, a: Action)
    requires Inv(codec, s) && CanStep(codec, s, NodeLocal(v, a))
    ensures Inv(codec, After(codec, s, NodeLocal(v, a)))
  {
    LocalKeeps(codec, s.nodes[v], a);
    HistoryGrows(codec, s, After(codec, s, NodeLocal(v, a)));
  }

  // ---- the gateway's steps ----

  lemma NotifierKeeps(codec: Protobuf, s: State, n: Notifier)
    requires Inv(codec, s) && ChannelsOk(s.issued, s.acked, n) && EntriesOk(s.issued, s.acked, n)
    ensures Inv(codec, WithNotifier(s, n))
  {
  }

  lemma ProcessKeeps(codec: Protobuf, s: State, source: UdpAddr, frame: Bytes)
    requires codec.Inverts() && Inv(codec, s) && Bounded(s) && CanStep(codec, s, GatewayReceive(source, frame))
    ensures Inv(codec, After(codec, s, GatewayReceive(source, frame)))
  {
    match GatewayParse(codec, Truncate(frame)) {
      case Some(OpenTunnelAck(id)) => RecoverAck(codec, s, frame, id);
      case _ =>
    }
  }

  lemma OpenKeeps(codec: Protobuf, s: State, src: VirtAddr, dst: VirtAddr)
    requires Inv(codec, s) && Bounded(After(codec, s, GatewayOpen(src, dst)))
    ensures Inv(codec, After(codec, s, GatewayOpen(src, dst)))
  {
    var s' := After(codec, s, GatewayOpen(src, dst));
    if src in s.gateway.peers && dst in s.gateway.peers {
      forall f | f in s'.sent ensures FrameOk(codec, s'.issued, s'.acked, f) {
        FrameGrows(codec, s.issued, s.acked, s'.issued, s'.acked, f);
      }
      ChannelsGrow(s.issued, s.acked, s'.issued, s'.acked, s.gateway.notifier);
      OpenEntries(s.issued, s.acked, s'.issued, s.gateway, src, dst);
    } else {
      assert s' == s;
    }
  }

  lemma OpenEntries(
    issued: seq<Packet>, acked: set<Receipt>, issued': seq<Packet>, g: Gateway, src: VirtAddr, dst: VirtAddr)
    requires IssuedOk(issued) && EntriesOk(issued, acked, g.notifier) && src in g.peers && dst in g.peers
    requires issued' == issued + NewIssues(g, src, dst) && |issued'| <= MAX_INT64
    ensures IssuedOk(issued') && EntriesOk(issued', acked, OpenRequest(g, src, dst).notifier)
  {
    var n, k := OpenRequest(g, src, dst).notifier, |issued|;
    assert n.data == g.notifier.data[k + 1 := RetryPacket(issued'[k], 0)][k + 2 := RetryPacket(issued'[k + 1], 0)];
  }

  lemma TakeKeeps(codec: Protobuf, s: State, w: nat, written: bool)
    requires Inv(codec, s) && CanStep(codec, s, GatewaySend(w, written))
    ensures Inv(codec, After(codec, s, GatewaySend(w, written)))
  {
    var n := s.gateway.notifier;
    var n' := Take(n, w);
    Channels.TakeKeeps(n, w, Good(s.issued, s.acked));
    assert PayloadOk(s.issued, s.acked, n.chs[w][0].payload);
    assert FrameOk(codec, s.issued, s.acked, Frame(codec, n.chs[w][0].payload));
  }

  lemma ScanKeeps(codec: Protobuf, s: State, token: bool, order: seq<int>)
    requires Inv(codec, s) && CanStep(codec, s, GatewayRetry(token, order))
    ensures Inv(codec, After(codec, s, GatewayRetry(token, order)))
  {
    var n := s.gateway.notifier;
    var n' := if token then n.(tokens := n.tokens - 1) else n;
    ScanKeepsNotifier(s.issued, s.acked, n', order);
    NotifierKeeps(codec, s, Retry(n', order));
    assert After(codec, s, GatewayRetry(token, order)) == WithNotifier(s, Retry(n', order));
  }

  lemma ScanKeepsNotifier(issued: seq<Packet>, acked: set<Receipt>, n: Notifier, order: seq<int>)
    requires ChannelsOk(issued, acked, n) && EntriesOk(issued, acked, n) && IssuedOk(issued)
    requires Enumerates(order, n.data.Keys)
    ensures ChannelsOk(issued, acked, Retry(n, order)) && EntriesOk(issued, acked, Retry(n, order))
  {
    forall id | id in n.data ensures PayloadOk(issued, acked, n.data[id].packet.payload) {
      assert IsIssued(issued, issued[id - 1].payload.m);
    }
    Channels.RetryKeeps(n, order, Good(issued, acked));
  }

  lemma DequeueKeeps(codec: Protobuf, s: State)
    requires Inv(codec, s) && CanStep(codec, s, GatewayDequeue)
    ensures Inv(codec, After(codec, s, GatewayDequeue))
  {
    var n := s.gateway.notifier;
    Channels.DequeueKeeps(n, Good(s.issued, s.acked));
    NotifierKeeps(codec, s, Dequeue(n));
  }

  lemma StepKeeps(codec: Protobuf, s: State, step: Step)
    requires codec.Inverts() && Inv(codec, s) && CanStep(codec, s, step) && Bounded(s)
    requires Bounded(After(codec, s, step))
    ensures Inv(codec, After(codec, s, step))
  {
    match step {
      case NodeReceive(v, frame, env) => ReceiveKeeps(codec, s, v, frame, env);
      case NodeLocal(v, a) => LocalStepKeeps(codec, s, v, a);
      case GatewayReceive(source, frame) => ProcessKeeps(codec, s, source, frame);
      case GatewayOpen(src, dst) => OpenKeeps(codec, s, src, dst);
      case GatewayRetry(token, order) => ScanKeeps(codec, s, token, order);
      case GatewayDequeue => DequeueKeeps(codec, s);
      case GatewaySend(w, written) => TakeKeeps(codec, s, w, written);
    }
  }

  // ---- runs ----

  lemma StepExtends(codec: Protobuf, s: State, step: Step)
    requires CanStep(codec, s, step)
    ensures s.sent <= After(codec, s, step).sent && s.issued <= After(codec, s, step).issued
    ensures s.acked <= After(codec, s, step).acked
  {
  }

  lemma {:induction false} BoundedEarlier(codec: Protobuf, trace: seq<State>, steps: seq<Step>, j: nat, k: nat)
    requires IsTrace(codec, trace, steps) && j <= k < |trace| && Bounded(trace[k])
    ensures Bounded(trace[j]) && trace[j].issued <= trace[k].issued
    decreases k
  {
    if j < k {
      assert StepAt(codec, trace, steps, k - 1);
      StepExtends(codec, trace[k - 1], steps[k - 1]);
      BoundedEarlier(codec, trace, steps, j, k - 1);
    }
  }

  lemma {:induction false} TraceInv(codec: Protobuf, trace: seq<State>, steps: seq<Step>, k: nat)
    requires codec.Inverts() && IsTrace(codec, trace, steps) && k < |trace| && Bounded(trace[k])
    ensures Inv(codec, trace[k])
  {
    if k > 0 {
      assert StepAt(codec, trace, steps, k - 1);
      BoundedEarlier(codec, trace, steps, k - 1, k);
      TraceInv(codec, trace, steps, k - 1);
      StepKeeps(codec, trace[k - 1], steps[k - 1]);
    }
  }

  /** The step at which a receipt is new. */
  lemma {:induction false} FirstReceipt(codec: Protobuf, trace: seq<State>, steps: seq<Step>, k: nat, r: Receipt)
    returns (j: nat)
    requires IsTrace(codec, trace, steps) && k < |trace| && r in trace[k].acked
    ensures j < k && r !in trace[j].acked && r in trace[j + 1].acked
  {
    if r in trace[k - 1].acked {
      j := FirstReceipt(codec, trace, steps, k - 1, r);
    } else {
      j := k - 1;
    }
  }

  /** Step `j` of the run: node `v` handles `m`, has its peer registered at its address afterwards, and
      acknowledges it. */
  ghost predicate AcknowledgedAt(
    codec: Protobuf, trace: seq<State>, steps: seq<Step>, j: nat, v: VirtAddr, m: Message)
  {
    && j < |steps| && j + 1 < |trace| && m.OpenTunnel?
    && steps[j].NodeReceive? && steps[j].v == v
    && NodeParse(codec, Truncate(steps[j].frame)) == Some(Control(m))
    && Encode(codec, OpenTunnelAck(m.ackId)) in trace[j + 1].sent
    && v in trace[j + 1].nodes
    && var n := trace[j + 1].nodes[v];
       m.virt in n.table && n.table[m.virt] < |n.conns| && n.conns[n.table[m.virt]].remote == m.udp
  }

  lemma NewReceipt(codec: Protobuf, trace: seq<State>, steps: seq<Step>, j: nat, r: Receipt)
    requires IsTrace(codec, trace, steps) && j < |steps| && Inv(codec, trace[j])
    requires r !in trace[j].acked && r in trace[j + 1].acked
    ensures AcknowledgedAt(codec, trace, steps, j, r.node, r.m)
  {
    assert StepAt(codec, trace, steps, j);
    var v, frame, env := steps[j].v, steps[j].frame, steps[j].env;
    NotificationStep(codec, trace[j].nodes[v], r.m, env);
    assert AckOutput(codec, r.m.ackId) in NodeModel.Step(codec, trace[j].nodes[v], Receive(Truncate(frame), env)).1;
  }

  lemma Forgotten(codec: Protobuf, s: State, id: int) returns (r: Receipt)
    requires Inv(codec, s) && 1 <= id <= |s.issued| && id !in s.gateway.notifier.data
    ensures r in s.acked && r.m.OpenTunnel? && r.m.ackId == id && s.issued[id - 1].payload == Control(r.m)
  {
    assert AckOk(s.acked, id);
    r :| r in s.acked && r.m.OpenTunnel? && r.m.ackId == id;
    assert IsIssued(s.issued, r.m);
  }

  /** Acknowledgement safety, for nodes at any addresses. A notification that the gateway no longer holds
      was received by some node, and in the very step in which it acknowledged it that node had the
      advertised peer registered at the advertised address. A failed dial is never acknowledged, not even
      after it has cost the peer its old connection. */
  lemma AcknowledgementSafety(codec: Protobuf, trace: seq<State>, steps: seq<Step>, k: nat, id: int)
    returns (v: VirtAddr, m: Message, j: nat)
    requires codec.Inverts() && IsTrace(codec, trace, steps) && k < |trace| && Bounded(trace[k])
    requires 1 <= id <= |trace[k].issued| && id !in trace[k].gateway.notifier.data
    ensures m.OpenTunnel? && m.ackId == id && trace[k].issued[id - 1].payload == Control(m)
    ensures j < k && AcknowledgedAt(codec, trace, steps, j, v, m)
  {
    TraceInv(codec, trace, steps, k);
    var r := Forgotten(codec, trace[k], id);
    v, m := r.node, r.m;
    j := FirstReceipt(codec, trace, steps, k, r);
    BoundedEarlier(codec, trace, steps, j, k);
    TraceInv(codec, trace, steps, j);
    NewReceipt(codec, trace, steps, j, r);
  }
}
