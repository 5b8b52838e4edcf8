/**
 The whole mesh as a step machine: one gateway, any number of honest nodes, and a network that may
 lose, duplicate and reorder datagrams. The network is the set of datagrams ever sent: a receive step
 may pick any of them at any time, any number of times, or never.

 Besides the programs' own state the machine carries history: `net` itself, the notifications ever
 issued, and a set of facts about what has happened. Facts and issued notifications are never read by
 a step.
 */
module Protocol {
  import opened Wire
  import opened NodeModel
  import opened NotifierModel

  datatype Datagram = Datagram(src: UdpAddr, dst: UdpAddr, frame: Bytes)

  datatype Fact =
    | ReadFrom(node: VirtAddr, dst: VirtAddr, data: Bytes) // node's device produced data for dst
    | Held(node: VirtAddr, peer: VirtAddr, udp: UdpAddr) // node registered a connection
    | PingSeen(node: VirtAddr, from: VirtAddr, d: Datagram) // node accepted a Ping
    | PongSeen(node: VirtAddr, from: VirtAddr, d: Datagram) // node accepted a Pong
    | Acked(node: VirtAddr, m: Message) // node received m and acknowledged it

  datatype History = History(net: set<Datagram>, facts: set<Fact>, issued: seq<Packet>)

  datatype Mesh = Mesh(gateway: Gateway, nodes: map<VirtAddr, Node>, h: History)

  /** Each node has one fixed virtual address and one fixed UDP address of its own. */
  datatype Config = Config(codec: Protobuf, addr: map<VirtAddr, UdpAddr>, gateway: UdpAddr, workers: nat) {
    ghost predicate Ok() {
      && codec.Inverts()
      && workers > 0
      && gateway !in addr.Values
      && (forall v, w | v in addr && w in addr && addr[v] == addr[w] :: v == w)
    }
  }

  function Init(c: Config): Mesh {
    Mesh(
      Gateway(map[], NewNotifier(c.workers)),
      map v | v in c.addr :: NewNode(v),
      History({}, {}, []))
  }

  datatype Step =
    | NodeReceive(v: VirtAddr, d: Datagram, env: Env)
    | NodeLocal(v: VirtAddr, a: Action)
    | GatewayReceive(d: Datagram)
    | GatewayOpen(src: VirtAddr, dst: VirtAddr)
    | GatewayRetry(token: bool, order: seq<int>)
    | GatewayDequeue
    | GatewaySend(w: nat, written: bool)

  /** The node action of a node step. */
  function ActionOf(step: Step): Action
    requires step.NodeReceive? || step.NodeLocal?
  {
    if step.NodeReceive? then Receive(Truncate(step.d.frame), step.env) else step.a
  }

  ghost predicate StepEnabled(c: Config, s: Mesh, step: Step) {
    match step
    case NodeReceive(v, d, _) =>
      v in s.nodes && v in c.addr && d in s.h.net && d.dst == c.addr[v] && Enabled(c.codec, s.nodes[v], ActionOf(step))
    case NodeLocal(v, a) => v in s.nodes && v in c.addr && !a.Receive? && Enabled(c.codec, s.nodes[v], a)
    case GatewayReceive(d) =>
      d in s.h.net && d.dst == c.gateway && !ProcessBlocks(c.codec, s.gateway, Truncate(d.frame))
    case GatewayOpen(_, _) => true
    case GatewayRetry(token, order) =>
      && |s.gateway.notifier.chs| > 0
      && (token ==> s.gateway.notifier.tokens > 0)
      && Enumerates(order, s.gateway.notifier.data.Keys)
    case GatewayDequeue => |s.gateway.notifier.chs| > 0 && s.gateway.notifier.queue != []
    case GatewaySend(w, _) => w < |s.gateway.notifier.chs| && s.gateway.notifier.chs[w] != []
  }

  function Address(c: Config, t: Target): UdpAddr {
    match t
    case ToGateway => c.gateway
    case ToPeer(udp) => udp
  }

  function Datagrams(c: Config, src: UdpAddr, out: seq<Output>): set<Datagram> {
    set o | o in out :: Datagram(src, Address(c, o.target), o.frame)
  }

  /** What handling a datagram adds to the history. */
  function ReceiveFacts(c: Config, v: VirtAddr, n: Node, d: Datagram, env: Env): set<Fact>
    requires TableOk(n)
  {
    match NodeParse(c.codec, Truncate(d.frame))
    case Some(Control(m)) =>
      (match m
       case Ping(a, _) => if a in n.table then {PingSeen(v, a, d)} else {}
       case Pong(b, _) => if b in n.table then {PongSeen(v, b, d)} else {}
       case OpenTunnel(_, virt, udp) =>
         if AlreadyOpen(n, m) then {Acked(v, m)}
         else if env.dialOk then {Held(v, virt, udp), Acked(v, m)}
         else {}
       case _ => {})
    case _ => {}
  }

  function LocalFacts(v: VirtAddr, a: Action): set<Fact> {
    if a.Read? then {ReadFrom(v, a.dst, a.data)} else {}
  }

  function NodeNext(c: Config, s: Mesh, v: VirtAddr, a: Action, facts: set<Fact>): Mesh
    requires v in s.nodes && v in c.addr && Enabled(c.codec, s.nodes[v], a)
  {
    var (n, out) := NodeModel.Step(c.codec, s.nodes[v], a);
    s.(nodes := s.nodes[v := n],
       h := s.h.(net := s.h.net + Datagrams(c, c.addr[v], out), facts := s.h.facts + facts))
  }

  function WithNotifier(s: Mesh, n: Notifier): Mesh {
    s.(gateway := s.gateway.(notifier := n))
  }

  function NextMesh(c: Config, s: Mesh, step: Step): Mesh
    requires StepEnabled(c, s, step)
  {
    var nt := s.gateway.notifier;
    match step
    case NodeReceive(v, d, env) =>
      NodeNext(c, s, v, ActionOf(step), ReceiveFacts(c, v, s.nodes[v], d, env))
    case NodeLocal(v, a) => NodeNext(c, s, v, a, LocalFacts(v, a))
    case GatewayReceive(d) => s.(gateway := Process(c.codec, s.gateway, d.src, Truncate(d.frame)))
    case GatewayOpen(src, dst) =>
      s.(gateway := OpenRequest(s.gateway, src, dst),
         h := s.h.(issued := s.h.issued + NewIssues(s.gateway, src, dst)))
    case GatewayRetry(token, order) =>
      WithNotifier(s, Retry(if token then nt.(tokens := nt.tokens - 1) else nt, order))
    case GatewayDequeue => WithNotifier(s, Dequeue(nt))
    case GatewaySend(w, written) =>
      var p := nt.chs[w][0];
      var s' := WithNotifier(s, Take(nt, w));
      if written then
        s'.(h := s.h.(net := s.h.net + {Datagram(c.gateway, p.destination, Frame(c.codec, p.payload))}))
      else s'
  }

  ghost predicate IsTrace(c: Config, trace: seq<Mesh>, steps: seq<Step>) {
    && |trace| == |steps| + 1
    && trace[0] == Init(c)
    && (forall k | 0 <= k < |steps| ::
          StepEnabled(c, trace[k], steps[k]) && trace[k + 1] == NextMesh(c, trace[k], steps[k]))
  }

  /** The hypotheses of the theorems on a run, about its final history: every datagram sent fits the
      receive buffers, and the notification counter has not overflowed. Since `net` and `issued` only
      grow, they then hold at every earlier moment too. */
  ghost predicate Bounded(h: History) {
    && (forall d | d in h.net :: |d.frame| <= MAX_BUFFER_SIZE)
    && |h.issued| <= MAX_INT64
  }
}
