/**
 Every run of the mesh with fixed addresses is a run of the roaming mesh, with the frames of the
 datagrams as what was sent.
 */
module ProtocolRoams {
  import opened Wire
  import opened NodeModel
  import opened NotifierModel
  import opened Protocol
  import Roaming

  ghost function SentFrames(net: set<Datagram>): set<Bytes> {
    set d | d in net :: d.frame
  }

  ghost function Receipts(facts: set<Fact>): set<Roaming.Receipt> {
    set f | f in facts && f.Acked? :: Roaming.Receipt(f.node, f.m)
  }

  ghost function Roam(s: Mesh): Roaming.State {
    Roaming.State(s.gateway, s.nodes, SentFrames(s.h.net), s.h.issued, Receipts(s.h.facts))
  }

  function RoamStep(step: Protocol.Step): Roaming.Step {
    match step
    case NodeReceive(v, d, env) => Roaming.NodeReceive(v, d.frame, env)
    case NodeLocal(v, a) => Roaming.NodeLocal(v, a)
    case GatewayReceive(d) => Roaming.GatewayReceive(d.src, d.frame)
    case GatewayOpen(src, dst) => Roaming.GatewayOpen(src, dst)
    case GatewayRetry(token, order) => Roaming.GatewayRetry(token, order)
    case GatewayDequeue => Roaming.GatewayDequeue
    case GatewaySend(w, written) => Roaming.GatewaySend(w, written)
  }

  lemma FramesOf(c: Config, src: UdpAddr, net: set<Datagram>, out: seq<Output>)
    ensures SentFrames(net + Datagrams(c, src, out)) == SentFrames(net) + Roaming.Frames(out)
  {
    forall f | f in Roaming.Frames(out) ensures f in SentFrames(net + Datagrams(c, src, out)) {
      var o :| o in out && o.frame == f;
      var d := Datagram(src, Address(c, o.target), o.frame);
      assert d in Datagrams(c, src, out);
    }
  }

  lemma ReceiptsOf(facts: set<Fact>, more: set<Fact>)
    ensures Receipts(facts + more) == Receipts(facts) + Receipts(more)
  {
    forall r | r in Receipts(facts + more) ensures r in Receipts(facts) + Receipts(more) {
      assert Acked(r.node, r.m) in facts + more;
    }
    forall r | r in Receipts(facts) + Receipts(more) ensures r in Receipts(facts + more) {
      assert Acked(r.node, r.m) in facts + more;
    }
  }

  lemma SameReceipts(c: Config, v: VirtAddr, n: Node, d: Datagram, env: Env)
    requires TableOk(n)
    ensures Receipts(ReceiveFacts(c, v, n, d, env)) == Roaming.Receipts(c.codec, v, n, d.frame, env)
  {
    var facts, receipts := ReceiveFacts(c, v, n, d, env), Roaming.Receipts(c.codec, v, n, d.frame, env);
    forall r | r in receipts ensures r in Receipts(facts) {
      assert Acked(r.node, r.m) in facts;
    }
  }

  lemma NodeStepRoams(c: Config, s: Mesh, v: VirtAddr, a: Action, facts: set<Fact>)
    requires v in s.nodes && v in c.addr && Enabled(c.codec, s.nodes[v], a)
    ensures Roam(NodeNext(c, s, v, a, facts)) == Roaming.NodeNext(c.codec, Roam(s), v, a, Receipts(facts))
  {
    FramesOf(c, c.addr[v], s.h.net, NodeModel.Step(c.codec, s.nodes[v], a).1);
    ReceiptsOf(s.h.facts, facts);
  }

  /** The step is one of the roaming mesh. */
  ghost predicate Follows(c: Config, s: Mesh, step: Protocol.Step)
    requires StepEnabled(c, s, step)
  {
    && Roaming.CanStep(c.codec, Roam(s), RoamStep(step))
    && Roaming.After(c.codec, Roam(s), RoamStep(step)) == Roam(NextMesh(c, s, step))
  }

  lemma ReceiveRoams(c: Config, s: Mesh, v: VirtAddr, d: Datagram, env: Env)
    requires StepEnabled(c, s, NodeReceive(v, d, env))
    ensures Follows(c, s, NodeReceive(v, d, env))
  {
    SameReceipts(c, v, s.nodes[v], d, env);
    NodeStepRoams(c, s, v, Receive(Truncate(d.frame), env), ReceiveFacts(c, v, s.nodes[v], d, env));
  }

  lemma LocalRoams(c: Config, s: Mesh, v: VirtAddr, a: Action)
    requires StepEnabled(c, s, NodeLocal(v, a))
    ensures Follows(c, s, NodeLocal(v, a))
  {
    assert Receipts(LocalFacts(v, a)) == {};
    NodeStepRoams(c, s, v, a, LocalFacts(v, a));
  }

  lemma SendRoams(c: Config, s: Mesh, w: nat, written: bool)
    requires StepEnabled(c, s, GatewaySend(w, written))
    ensures Follows(c, s, GatewaySend(w, written))
  {
    var p := s.gateway.notifier.chs[w][0];
    var d := Datagram(c.gateway, p.destination, Frame(c.codec, p.payload));
    assert SentFrames(s.h.net + {d}) == SentFrames(s.h.net) + {d.frame} by {
      assert d in s.h.net + {d};
    }
  }

  lemma StepRoams(c: Config, s: Mesh, step: Protocol.Step)
    requires StepEnabled(c, s, step)
    ensures Follows(c, s, step)
  {
    match step {
      case NodeReceive(v, d, env) => ReceiveRoams(c, s, v, d, env);
      case NodeLocal(v, a) => LocalRoams(c, s, v, a);
      case GatewaySend(w, written) => SendRoams(c, s, w, written);
      case _ =>
    }
  }

  /** The whole run, moment by moment. */
  lemma RunRoams(c: Config, trace: seq<Mesh>, steps: seq<Protocol.Step>)
    returns (roaming: seq<Roaming.State>, roamSteps: seq<Roaming.Step>)
    requires c.Ok() && IsTrace(c, trace, steps)
    ensures Roaming.IsTrace(c.codec, roaming, roamSteps) && |roaming| == |trace|
    ensures forall k | 0 <= k < |trace| :: roaming[k] == Roam(trace[k])
    ensures forall k | 0 <= k < |steps| :: roamSteps[k] == RoamStep(steps[k])
  {
    roaming := seq(|trace|, k requires 0 <= k < |trace| => Roam(trace[k]));
    roamSteps := seq(|steps|, k requires 0 <= k < |steps| => RoamStep(steps[k]));
    assert Roam(Init(c)) == Roaming.Init(c.addr.Keys, c.workers);
    forall k | 0 <= k < |steps| ensures Roaming.StepAt(c.codec, roaming, roamSteps, k) {
      StepRoams(c, trace[k], steps[k]);
    }
  }
}
