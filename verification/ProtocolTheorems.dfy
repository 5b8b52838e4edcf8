/**
 What the mesh guarantees over every run, in terms of the run's own steps and states: the facts of the
 history appear only in the proofs.
 */
module ProtocolTheorems {
  import opened Wire
  import opened NodeModel
  import opened NotifierModel
  import opened Protocol
  import opened ProtocolInvariant
  import opened ProtocolSteps
  import ProtocolRoams
  import Roaming

  /** Step `j` of the run: `u`'s device produced `data` for `dst`. */
  ghost predicate ReadAt(steps: seq<Protocol.Step>, j: nat, u: VirtAddr, dst: VirtAddr, data: Bytes) {
    && j < |steps|
    && steps[j].NodeLocal? && steps[j].v == u
    && steps[j].a.Read? && steps[j].a.dst == dst && steps[j].a.data == data
  }

  /** Step `j` of the run: node `v` handled datagram `d`. */
  ghost predicate ReceivedAt(steps: seq<Protocol.Step>, j: nat, v: VirtAddr, d: Datagram) {
    j < |steps| && steps[j].NodeReceive? && steps[j].v == v && steps[j].d == d
  }

  /** Step `j` of the run: node `v` handled a datagram that carries `m`. */
  ghost predicate MessageAt(c: Config, steps: seq<Protocol.Step>, j: nat, v: VirtAddr, m: Message) {
    && j < |steps| && steps[j].NodeReceive? && steps[j].v == v
    && NodeParse(c.codec, Truncate(steps[j].d.frame)) == Some(Control(m))
  }

  /** At moment `j`, node `v` had a connection to `w` at `udp` in its table. */
  ghost predicate HeldAt(trace: seq<Mesh>, j: nat, v: VirtAddr, w: VirtAddr, udp: UdpAddr) {
    && j < |trace|
    && v in trace[j].nodes
    && var n := trace[j].nodes[v];
       w in n.table && n.table[w] < |n.conns| && n.conns[n.table[w]].remote == udp
  }

  /** The event behind a fact known at moment `k`. */
  ghost predicate Happened(c: Config, trace: seq<Mesh>, steps: seq<Protocol.Step>, k: nat, f: Fact) {
    match f
    case ReadFrom(u, dst, data) => exists j: nat :: j < k && ReadAt(steps, j, u, dst, data)
    case Held(v, w, udp) => exists j: nat :: j <= k && HeldAt(trace, j, v, w, udp)
    case PingSeen(v, _, d) => exists j: nat :: j < k && ReceivedAt(steps, j, v, d)
    case PongSeen(v, _, d) => exists j: nat :: j < k && ReceivedAt(steps, j, v, d)
    case Acked(v, m) => exists j: nat :: j < k && MessageAt(c, steps, j, v, m)
  }

  /** A step that adds a fact is the event that the fact records. */
  lemma NewFact(c: Config, trace: seq<Mesh>, steps: seq<Protocol.Step>, k: nat, f: Fact)
    requires IsTrace(c, trace, steps) && k < |steps|
    requires f in trace[k + 1].h.facts && f !in trace[k].h.facts
    ensures Happened(c, trace, steps, k + 1, f)
  {
    match steps[k] {
      case NodeLocal(v, a) =>
        assert ReadAt(steps, k, v, a.dst, a.data);
      case NodeReceive(v, d, env) =>
        match f {
          case Held(_, w, udp) => assert HeldAt(trace, k + 1, v, w, udp);
          case Acked(_, m) => assert MessageAt(c, steps, k, v, m);
          case PingSeen(_, _, _) => assert ReceivedAt(steps, k, v, d);
          case PongSeen(_, _, _) => assert ReceivedAt(steps, k, v, d);
          case ReadFrom(_, _, _) =>
        }
      case _ =>
    }
  }

  lemma {:induction false} FactHappened(c: Config, trace: seq<Mesh>, steps: seq<Protocol.Step>, k: nat, f: Fact)
    requires IsTrace(c, trace, steps) && k < |trace| && f in trace[k].h.facts
    ensures Happened(c, trace, steps, k, f)
  {
    if k > 0 {
      if f in trace[k - 1].h.facts {
        FactHappened(c, trace, steps, k - 1, f);
      } else {
        NewFact(c, trace, steps, k - 1, f);
      }
    }
  }

  /** End-to-end delivery. Whatever waits for node `v`'s device was, byte for byte, read earlier from
      some node's device with destination `v`, whether it came direct, by relay or by loop-back. */
  lemma Delivery(c: Config, trace: seq<Mesh>, steps: seq<Protocol.Step>, k: nat, v: VirtAddr, i: nat)
    returns (j: nat, u: VirtAddr)
    requires c.Ok() && IsTrace(c, trace, steps) && k < |trace| && Bounded(trace[k].h)
    requires v in trace[k].nodes && i < |trace[k].nodes[v].pipeline|
    ensures j < k && ReadAt(steps, j, u, v, trace[k].nodes[v].pipeline[i])
  {
    TraceInv(c, trace, steps, k);
    var data := trace[k].nodes[v].pipeline[i];
    assert ReadFor(trace[k].h.facts, v, data);
    u :| ReadFrom(u, v, data) in trace[k].h.facts;
    FactHappened(c, trace, steps, k, ReadFrom(u, v, data));
    j :| j < k && ReadAt(steps, j, u, v, data);
  }

  /** The moment a fact first becomes known. */
  lemma {:induction false} FirstMoment(c: Config, trace: seq<Mesh>, steps: seq<Protocol.Step>, k: nat, f: Fact)
    returns (j: nat)
    requires IsTrace(c, trace, steps) && k < |trace| && f in trace[k].h.facts
    ensures j < k && f !in trace[j].h.facts && f in trace[j + 1].h.facts
  {
    if f in trace[k - 1].h.facts {
      j := FirstMoment(c, trace, steps, k - 1, f);
    } else {
      j := k - 1;
    }
  }

  /** Bounds at the end of a run hold at every earlier moment. */
  lemma BoundedEarlier(c: Config, trace: seq<Mesh>, steps: seq<Protocol.Step>, j: nat, k: nat)
    requires IsTrace(c, trace, steps) && j <= k < |trace| && Bounded(trace[k].h)
    ensures Bounded(trace[j].h)
  {
    TraceExtends(c, trace, steps, j, k);
  }

  /** Acknowledgement safety, from that of the roaming mesh. A notification the gateway no longer holds was
      received by the node it is addressed to; in the very step in which it acknowledged it, that node had a
      connection registered under the advertised virtual address to the advertised UDP address. */
  lemma AcknowledgementSafety(c: Config, trace: seq<Mesh>, steps: seq<Protocol.Step>, k: nat, id: int)
    returns (v: VirtAddr, m: Message, received: nat)
    requires c.Ok() && IsTrace(c, trace, steps) && k < |trace| && Bounded(trace[k].h)
    requires 1 <= id <= |trace[k].h.issued| && id !in trace[k].gateway.notifier.data
    ensures v in c.addr && m.OpenTunnel? && m.ackId == id
    ensures trace[k].h.issued[id - 1] == Packet(c.addr[v], Control(m))
    ensures received < k && MessageAt(c, steps, received, v, m)
    ensures HeldAt(trace, received + 1, v, m.virt, m.udp)
  {
    var roaming, roamSteps := ProtocolRoams.RunRoams(c, trace, steps);
    assert roaming[k] == ProtocolRoams.Roam(trace[k]);
    v, m, received := Roaming.AcknowledgementSafety(c.codec, roaming, roamSteps, k, id);
    assert roamSteps[received] == ProtocolRoams.RoamStep(steps[received]);
    assert roaming[received + 1] == ProtocolRoams.Roam(trace[received + 1]);
    Addressee(c, trace, steps, received, k, v, m);
  }

  /** A notification reaches only the node it is addressed to. */
  lemma Addressee(
    c: Config, trace: seq<Mesh>, steps: seq<Protocol.Step>, j: nat, k: nat, v: VirtAddr, m: Message)
    requires c.Ok() && IsTrace(c, trace, steps) && j < k < |trace| && Bounded(trace[k].h)
    requires MessageAt(c, steps, j, v, m) && m.OpenTunnel?
    ensures v in c.addr && IsIssued(trace[k].h, m, c.addr[v])
  {
    BoundedEarlier(c, trace, steps, j, k);
    TraceInv(c, trace, steps, j);
    assert StepEnabled(c, trace[j], steps[j]);
    var p := Recover(c, trace[j].h, steps[j].d);
    TraceExtends(c, trace, steps, j, k);
  }

  /** When `a` first accepted the Pong, `b` had already accepted a Ping from `a`. */
  lemma NewPong(c: Config, s: Mesh, step: Protocol.Step, a: VirtAddr, b: VirtAddr, d: Datagram)
    requires StepEnabled(c, s, step) && FactsOk(c, NextMesh(c, s, step).h)
    requires PongSeen(a, b, d) !in s.h.facts && PongSeen(a, b, d) in NextMesh(c, s, step).h.facts
    ensures step.NodeReceive? && step.v == a && step.d == d
    ensures exists nonce :: Travelled(c, s.h, a, b, d, Pong(b, nonce))
    ensures HasPing(s.h.facts, b, a)
  {
    var h' := NextMesh(c, s, step).h;
    assert FactOk(c, h', PongSeen(a, b, d));
    var nonce :| Travelled(c, h', a, b, d, Pong(b, nonce));
    assert Travelled(c, s.h, a, b, d, Pong(b, nonce));
    var ping :| PingSeen(b, a, ping) in h'.facts;
    assert PingSeen(b, a, ping) in s.h.facts;
  }

  /** When `b` first accepted the Ping, it had already held a connection to `a`. */
  lemma NewPing(c: Config, s: Mesh, step: Protocol.Step, b: VirtAddr, a: VirtAddr, d: Datagram)
    requires StepEnabled(c, s, step) && FactsOk(c, NextMesh(c, s, step).h)
    requires PingSeen(b, a, d) !in s.h.facts && PingSeen(b, a, d) in NextMesh(c, s, step).h.facts
    ensures step.NodeReceive? && step.v == b && step.d == d
    ensures exists nonce :: Travelled(c, s.h, b, a, d, Ping(a, nonce))
    ensures a in c.addr && Held(b, a, c.addr[a]) in s.h.facts
  {
    var h' := NextMesh(c, s, step).h;
    assert FactOk(c, h', PingSeen(b, a, d));
    var nonce :| Travelled(c, h', b, a, d, Ping(a, nonce));
    assert Travelled(c, s.h, b, a, d, Ping(a, nonce));
  }

  lemma PongMoment(
    c: Config, trace: seq<Mesh>, steps: seq<Protocol.Step>, k: nat, a: VirtAddr, b: VirtAddr, d: Datagram)
    returns (j: nat)
    requires c.Ok() && IsTrace(c, trace, steps) && k < |trace| && Bounded(trace[k].h)
    requires PongSeen(a, b, d) in trace[k].h.facts
    ensures j < k && ReceivedAt(steps, j, a, d)
    ensures exists nonce :: Travelled(c, trace[j].h, a, b, d, Pong(b, nonce))
    ensures HasPing(trace[j].h.facts, b, a)
  {
    j := FirstMoment(c, trace, steps, k, PongSeen(a, b, d));
    BoundedEarlier(c, trace, steps, j + 1, k);
    TraceFacts(c, trace, steps, j + 1);
    NewPong(c, trace[j], steps[j], a, b, d);
  }

  lemma PingMoment(
    c: Config, trace: seq<Mesh>, steps: seq<Protocol.Step>, k: nat, b: VirtAddr, a: VirtAddr, d: Datagram)
    returns (j: nat)
    requires c.Ok() && IsTrace(c, trace, steps) && k < |trace| && Bounded(trace[k].h)
    requires PingSeen(b, a, d) in trace[k].h.facts
    ensures j < k && ReceivedAt(steps, j, b, d)
    ensures exists nonce :: Travelled(c, trace[j].h, b, a, d, Ping(a, nonce))
    ensures a in c.addr && Held(b, a, c.addr[a]) in trace[j].h.facts
  {
    j := FirstMoment(c, trace, steps, k, PingSeen(b, a, d));
    BoundedEarlier(c, trace, steps, j + 1, k);
    TraceFacts(c, trace, steps, j + 1);
    NewPing(c, trace[j], steps[j], b, a, d);
  }

  lemma TraceFacts(c: Config, trace: seq<Mesh>, steps: seq<Protocol.Step>, k: nat)
    requires c.Ok() && IsTrace(c, trace, steps) && k < |trace| && Bounded(trace[k].h)
    ensures FactsOk(c, trace[k].h)
  {
    TraceInv(c, trace, steps, k);
  }

  lemma EstablishedFact(c: Config, s: Mesh, a: VirtAddr, i: nat) returns (d: Datagram)
    requires Inv(c, s) && a in s.nodes && i < |s.nodes[a].conns| && s.nodes[a].conns[i].state == Established
    ensures a in c.addr && s.nodes[a].conns[i].peerVirt in c.addr
    ensures PongSeen(a, s.nodes[a].conns[i].peerVirt, d) in s.h.facts
  {
    assert ConnOk(c, s.h, a, s.nodes[a].conns[i]);
    d :| PongSeen(a, s.nodes[a].conns[i].peerVirt, d) in s.h.facts;
  }

  // ---- who sent it ----

  /** Step `j` of the run: node `v` sent datagram `d`. */
  ghost predicate SentAt(c: Config, trace: seq<Mesh>, steps: seq<Protocol.Step>, j: nat, v: VirtAddr, d: Datagram) {
    && j < |steps| && j < |trace| && StepEnabled(c, trace[j], steps[j])
    && (steps[j].NodeLocal? || steps[j].NodeReceive?) && steps[j].v == v
    && d in Datagrams(c, c.addr[v], NodeModel.Step(c.codec, trace[j].nodes[v], ActionOf(steps[j])).1)
  }

  lemma {:induction false} FirstOnNet(c: Config, trace: seq<Mesh>, steps: seq<Protocol.Step>, k: nat, d: Datagram)
    returns (j: nat)
    requires IsTrace(c, trace, steps) && k < |trace| && d in trace[k].h.net
    ensures j < k && d !in trace[j].h.net && d in trace[j + 1].h.net
  {
    if d in trace[k - 1].h.net {
      j := FirstOnNet(c, trace, steps, k - 1, d);
    } else {
      j := k - 1;
    }
  }

  /** A datagram from a node's address is sent by that node. */
  lemma NewDatagram(c: Config, trace: seq<Mesh>, steps: seq<Protocol.Step>, j: nat, a: VirtAddr, d: Datagram)
    requires c.Ok() && IsTrace(c, trace, steps) && j < |steps| && a in c.addr && d.src == c.addr[a]
    requires d !in trace[j].h.net && d in trace[j + 1].h.net
    ensures SentAt(c, trace, steps, j, a, d)
  {
    assert StepEnabled(c, trace[j], steps[j]) && trace[j + 1] == NextMesh(c, trace[j], steps[j]);
  }

  /** What justifies a Pong on the network. */
  lemma PongJustified(c: Config, h: History, b: VirtAddr, a: VirtAddr, d: Datagram, nonce: string)
    requires c.Ok() && NetOk(c, h) && Travelled(c, h, a, b, d, Pong(b, nonce))
    ensures HasPing(h.facts, b, a)
  {
    assert FrameOk(c, h, d.src, d.dst, d.frame);
    var p :| d.frame == Frame(c.codec, p) && PayloadOk(c, h, d.src, d.dst, p);
    assert d.frame == Frame(c.codec, Control(Pong(b, nonce)));
    FramingInjective(c.codec, p, Control(Pong(b, nonce)));
    var w :| w in c.addr && c.addr[w] == d.dst && HasPing(h.facts, b, w);
  }

  /** Handling a Ping sends nothing, so the Ping was handled before the step that first sends the Pong. */
  lemma PingBeforePong(c: Config, s: Mesh, step: Protocol.Step, b: VirtAddr, a: VirtAddr, d: Datagram)
    requires StepEnabled(c, s, step) && d !in s.h.net && d in NextMesh(c, s, step).h.net
    requires HasPing(NextMesh(c, s, step).h.facts, b, a)
    ensures HasPing(s.h.facts, b, a)
  {
    var ping :| PingSeen(b, a, ping) in NextMesh(c, s, step).h.facts;
    assert PingSeen(b, a, ping) in s.h.facts;
  }

  /** The step in which `b` first sent the Pong comes after its handling of a Ping from `a`. */
  lemma PongSent(
    c: Config, trace: seq<Mesh>, steps: seq<Protocol.Step>, k: nat, a: VirtAddr, b: VirtAddr, d: Datagram,
    nonce: string)
    returns (j: nat)
    requires c.Ok() && IsTrace(c, trace, steps) && k < |trace| && Bounded(trace[k].h)
    requires Travelled(c, trace[k].h, a, b, d, Pong(b, nonce))
    ensures j < k && SentAt(c, trace, steps, j, b, d) && HasPing(trace[j].h.facts, b, a)
  {
    j := FirstOnNet(c, trace, steps, k, d);
    NewDatagram(c, trace, steps, j, b, d);
    BoundedEarlier(c, trace, steps, j + 1, k);
    TraceInv(c, trace, steps, j + 1);
    PongJustified(c, trace[j + 1].h, b, a, d, nonce);
    PingBeforePong(c, trace[j], steps[j], b, a, d);
  }

  /** Established means two-way reachability. If `a` has an Established connection to `b` then, in this
      order: `a` sent a Ping; `b`, which held a connection to `a`, handled it; `b` sent a Pong; `a` handled
      it. */
  lemma EstablishedMeansReachable(
    c: Config, trace: seq<Mesh>, steps: seq<Protocol.Step>, k: nat, a: VirtAddr, i: nat, b: VirtAddr)
    returns (held: nat, pinged: nat, ping: nat, ponged: nat, pong: nat, sentPing: Datagram, sentPong: Datagram)
    requires c.Ok() && IsTrace(c, trace, steps) && k < |trace| && Bounded(trace[k].h)
    requires a in trace[k].nodes && i < |trace[k].nodes[a].conns|
    requires trace[k].nodes[a].conns[i].state == Established && trace[k].nodes[a].conns[i].peerVirt == b
    ensures a in c.addr && b in c.addr
    ensures held <= ping && pinged < ping < ponged < pong < k
    ensures HeldAt(trace, held, b, a, c.addr[a])
    ensures SentAt(c, trace, steps, pinged, a, sentPing) && ReceivedAt(steps, ping, b, sentPing)
    ensures exists nonce :: Travelled(c, trace[ping].h, b, a, sentPing, Ping(a, nonce))
    ensures SentAt(c, trace, steps, ponged, b, sentPong) && ReceivedAt(steps, pong, a, sentPong)
    ensures exists nonce :: Travelled(c, trace[pong].h, a, b, sentPong, Pong(b, nonce))
  {
    TraceInv(c, trace, steps, k);
    sentPong := EstablishedFact(c, trace[k], a, i);
    pong := PongMoment(c, trace, steps, k, a, b, sentPong);
    BoundedEarlier(c, trace, steps, pong, k);
    var nonce :| Travelled(c, trace[pong].h, a, b, sentPong, Pong(b, nonce));
    ponged := PongSent(c, trace, steps, pong, a, b, sentPong, nonce);
    BoundedEarlier(c, trace, steps, ponged, k);
    sentPing :| PingSeen(b, a, sentPing) in trace[ponged].h.facts;
    ping := PingMoment(c, trace, steps, ponged, b, a, sentPing);
    pinged := FirstOnNet(c, trace, steps, ping, sentPing);
    NewDatagram(c, trace, steps, pinged, a, sentPing);
    FactHappened(c, trace, steps, ping, Held(b, a, c.addr[a]));
    held :| held <= ping && HeldAt(trace, held, b, a, c.addr[a]);
  }
}
