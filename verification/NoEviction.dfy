/**
 With fixed addresses no connection is evicted: at every moment of every bounded run of the mesh, every
 connection whose loop has not returned is the registered one for its peer. So no node ever has two live
 connections to one peer, and the newest connection stays registered until its own loop returns.
 */
module NoEviction {
  import opened Wire
  import opened NodeModel
  import opened Protocol
  import opened ProtocolInvariant
  import opened ProtocolSteps
  import Registry

  /** Every connection whose loop has not returned is registered. */
  ghost predicate LiveAreRegistered(n: Node) {
    forall i | 0 <= i < |n.conns| && n.conns[i].phase != Finished ::
      n.conns[i].peerVirt in n.table && n.table[n.conns[i].peerVirt] == i
  }

  /** No notification finds its peer registered at another address. */
  ghost predicate NeverMoves(codec: Protobuf, n: Node, frame: Bytes)
    requires TableOk(n)
  {
    match NodeParse(codec, frame)
    case Some(Control(m)) => m.OpenTunnel? && m.virt in n.table ==> AlreadyOpen(n, m)
    case _ => true
  }

  lemma UpdateLive(n: Node, i: nat, c: Conn)
    requires LiveAreRegistered(n) && i < |n.conns| && c.peerVirt == n.conns[i].peerVirt
    requires c.phase != Finished ==> n.conns[i].phase != Finished
    ensures LiveAreRegistered(UpdateConn(n, i, c))
  {
    var n' := UpdateConn(n, i, c);
    assert forall j | 0 <= j < |n.conns| :: n'.conns[j] == if j == i then c else n.conns[j];
  }

  lemma PacketKeepsLive(codec: Protobuf, n: Node, frame: Bytes, env: Env)
    requires TableOk(n) && LiveAreRegistered(n) && NeverMoves(codec, n, frame)
    ensures LiveAreRegistered(HandlePacket(codec, n, frame, env).0)
  {
    match NodeParse(codec, frame) {
      case Some(Control(m)) =>
        match m {
          case Ping(virt, _) =>
            if virt in n.table {
              var i := n.table[virt];
              UpdateLive(n, i, Push(n, i, Encode(codec, Pong(n.self, env.nonce))).conns[i]);
            }
          case Pong(virt, _) =>
            if virt in n.table {
              var i := n.table[virt];
              UpdateLive(n, i, OnPong(n, virt, env.now).conns[i]);
            }
          case OpenTunnel(_, _, _) =>
          case _ =>
        }
      case _ =>
    }
  }

  lemma LoopKeepsLive(codec: Protobuf, n: Node, i: nat, e: ConnEvent)
    requires LiveAreRegistered(n) && i < |n.conns| && ConnEnabled(n.conns[i], e)
    ensures LiveAreRegistered(LoopStep(codec, n, i, e).0)
  {
    var c := ConnStep(codec, n.self, n.conns[i], e).0;
    UpdateLive(n, i, c);
  }

  lemma StepKeepsLive(codec: Protobuf, n: Node, a: Action)
    requires Enabled(codec, n, a) && LiveAreRegistered(n) && (a.Receive? ==> NeverMoves(codec, n, a.frame))
    ensures LiveAreRegistered(NodeModel.Step(codec, n, a).0)
  {
    match a {
      case Receive(frame, env) => PacketKeepsLive(codec, n, frame, env);
      case Loop(i, e) => LoopKeepsLive(codec, n, i, e);
      case Read(dst, data, check, mark) =>
        if dst != n.self && dst in n.table {
          var i := n.table[dst];
          UpdateLive(n, i, Push(n, i, EncodeRaw(data)).conns[i]);
        }
      case _ =>
    }
  }

  /** Under the invariant of the mesh a notification advertises the address that is registered. */
  lemma HonestNotification(c: Config, s: Mesh, v: VirtAddr, d: Datagram)
    requires c.Ok() && Inv(c, s) && v in s.nodes && d in s.h.net && |d.frame| <= MAX_BUFFER_SIZE
    ensures TableOk(s.nodes[v]) && NeverMoves(c.codec, s.nodes[v], Truncate(d.frame))
  {
    var n := s.nodes[v];
    assert NodeOk(c, s.h, v, n);
    var p := Recover(c, s.h, d);
    if p.Control? && p.m.OpenTunnel? && p.m.virt in n.table {
      assert IssueOk(c, s.h, p.m.ackId - 1);
      assert ConnOk(c, s.h, v, n.conns[n.table[p.m.virt]]);
    }
  }

  ghost predicate AllLive(s: Mesh) {
    forall v | v in s.nodes :: LiveAreRegistered(s.nodes[v])
  }

  lemma MeshStepKeepsLive(c: Config, s: Mesh, step: Protocol.Step)
    requires c.Ok() && Inv(c, s) && Bounded(s.h) && StepEnabled(c, s, step) && AllLive(s)
    ensures AllLive(NextMesh(c, s, step))
  {
    match step {
      case NodeReceive(v, d, env) =>
        HonestNotification(c, s, v, d);
        StepKeepsLive(c.codec, s.nodes[v], ActionOf(step));
      case NodeLocal(v, a) => StepKeepsLive(c.codec, s.nodes[v], a);
      case _ =>
    }
  }

  lemma {:induction false} TraceLive(c: Config, trace: seq<Mesh>, steps: seq<Protocol.Step>, k: nat)
    requires c.Ok() && IsTrace(c, trace, steps) && k < |trace| && Bounded(trace[k].h)
    ensures AllLive(trace[k])
  {
    if k > 0 {
      TraceExtends(c, trace, steps, k - 1, k);
      TraceInv(c, trace, steps, k - 1);
      TraceLive(c, trace, steps, k - 1);
      MeshStepKeepsLive(c, trace[k - 1], steps[k - 1]);
    }
  }

  /** In every bounded run a connection is registered exactly until its own loop has returned. */
  lemma RegisteredUntilReturn(
    c: Config, trace: seq<Mesh>, steps: seq<Protocol.Step>, k: nat, v: VirtAddr, i: nat)
    requires c.Ok() && IsTrace(c, trace, steps) && k < |trace| && Bounded(trace[k].h)
    requires v in trace[k].nodes && i < |trace[k].nodes[v].conns|
    ensures
      var n := trace[k].nodes[v];
      var peer := n.conns[i].peerVirt;
      (peer in n.table && n.table[peer] == i) <==> n.conns[i].phase != Finished
  {
    TraceInv(c, trace, steps, k);
    TraceLive(c, trace, steps, k);
    assert NodeOk(c, trace[k].h, v, trace[k].nodes[v]);
  }

  /** Hence two connections to one peer are never live at once. */
  lemma OneLiveConnection(
    c: Config, trace: seq<Mesh>, steps: seq<Protocol.Step>, k: nat, v: VirtAddr, i: nat, j: nat)
    requires c.Ok() && IsTrace(c, trace, steps) && k < |trace| && Bounded(trace[k].h)
    requires v in trace[k].nodes && i < j < |trace[k].nodes[v].conns|
    requires trace[k].nodes[v].conns[i].peerVirt == trace[k].nodes[v].conns[j].peerVirt
    ensures trace[k].nodes[v].conns[i].phase == Finished || trace[k].nodes[v].conns[j].phase == Finished
  {
    RegisteredUntilReturn(c, trace, steps, k, v, i);
    RegisteredUntilReturn(c, trace, steps, k, v, j);
  }
}
