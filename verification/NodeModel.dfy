/**
 A node as a value: its connections, the table that maps a virtual address to the registered
 connection, the pending open requests and the queue towards the device (node/node.go,
 node/handler.go, node/connection.go). A connection is named by its index in `conns`, so a connection
 that has been replaced in the table still exists and can still act. Times are in nanoseconds.
 */
module NodeModel {
  import opened Wire

  const SECOND := 1_000_000_000
  const KEEPALIVE := 5 * SECOND
  const DEVICE_CAPACITY := 512
  const CONN_CAPACITY := 128

  datatype ConnState = Connecting | Established

  /** Where the connection's loop is: not yet scheduled, in its select loop, or returned. */
  datatype Phase = Created | Running | Finished

  datatype Conn = Conn(
    peerVirt: VirtAddr,
    remote: UdpAddr,
    state: ConnState,
    phase: Phase,
    dying: bool,
    pipeline: seq<Bytes>,
    keepalive: int)

  datatype Node = Node(
    self: VirtAddr,
    conns: seq<Conn>,
    table: map<VirtAddr, nat>,
    pending: map<VirtAddr, int>,
    pipeline: seq<Bytes>)

  datatype Target = ToGateway | ToPeer(udp: UdpAddr)
  datatype Output = Output(target: Target, frame: Bytes)

  /** What the environment decides while a packet is handled: the nonce, the clock, the dial result. */
  datatype Env = Env(nonce: string, now: int, dialOk: bool)

  function NewNode(self: VirtAddr): Node {
    Node(self, [], map[], map[], [])
  }

  /** Every table entry names an existing connection. */
  ghost predicate TableOk(n: Node) {
    forall v | v in n.table :: n.table[v] < |n.conns|
  }

  function UpdateConn(n: Node, i: nat, c: Conn): Node
    requires i < |n.conns|
  {
    n.(conns := n.conns[i := c])
  }

  function Push(n: Node, i: nat, frame: Bytes): Node
    requires i < |n.conns|
  {
    UpdateConn(n, i, n.conns[i].(pipeline := n.conns[i].pipeline + [frame]))
  }

  function Close(n: Node, i: nat): Node
    requires i < |n.conns|
  {
    UpdateConn(n, i, n.conns[i].(dying := true))
  }

  // ---- handler.go ----

  function OnPing(codec: Protobuf, n: Node, virt: VirtAddr, nonce: string): Node
    requires TableOk(n)
  {
    if virt in n.table then Push(n, n.table[virt], Encode(codec, Pong(n.self, nonce))) else n
  }

  function Refresh(c: Conn, now: int): Conn {
    c.(keepalive := now, state := Established)
  }

  function OnPong(n: Node, virt: VirtAddr, now: int): Node
    requires TableOk(n)
  {
    if virt in n.table then
      var i := n.table[virt];
      UpdateConn(n, i, Refresh(n.conns[i], now))
    else n
  }

  function AckOutput(codec: Protobuf, id: int): Output {
    Output(ToGateway, Encode(codec, OpenTunnelAck(id)))
  }

  /** The notification names a peer that is already connected at that UDP address. */
  predicate AlreadyOpen(n: Node, m: Message)
    requires m.OpenTunnel? && TableOk(n)
  {
    m.virt in n.table && n.conns[n.table[m.virt]].remote == m.udp
  }

  function NewConn(m: Message, now: int): Conn
    requires m.OpenTunnel?
  {
    Conn(m.virt, m.udp, Connecting, Created, false, [], now)
  }

  function Register(n: Node, c: Conn): Node {
    n.(conns := n.conns + [c], table := n.table[c.peerVirt := |n.conns|])
  }

  function OnOpenTunnel(codec: Protobuf, n: Node, m: Message, env: Env): (Node, seq<Output>)
    requires m.OpenTunnel? && TableOk(n)
  {
    if AlreadyOpen(n, m) then (n, [AckOutput(codec, m.ackId)])
    else
      var closed := if m.virt in n.table then Close(n, n.table[m.virt]) else n;
      if env.dialOk then (Register(closed, NewConn(m, env.now)), [AckOutput(codec, m.ackId)])
      else (closed, [])
  }

  function HandlePacket(codec: Protobuf, n: Node, frame: Bytes, env: Env): (Node, seq<Output>)
    requires TableOk(n)
  {
    match NodeParse(codec, frame)
    case Some(Raw(data)) => (n.(pipeline := n.pipeline + [data]), [])
    case Some(Control(m)) => HandleMessage(codec, n, m, env)
    case None => (n, [])
  }

  function HandleMessage(codec: Protobuf, n: Node, m: Message, env: Env): (Node, seq<Output>)
    requires TableOk(n)
  {
    match m
    case Ping(virt, _) => (OnPing(codec, n, virt, env.nonce), [])
    case Pong(virt, _) => (OnPong(n, virt, env.now), [])
    case OpenTunnel(_, _, _) => OnOpenTunnel(codec, n, m, env)
    case _ => (n, [])
  }

  /** Handling the frame waits for room in a channel. */
  predicate HandleBlocks(codec: Protobuf, n: Node, frame: Bytes)
    requires TableOk(n)
  {
    match NodeParse(codec, frame)
    case Some(Raw(_)) => |n.pipeline| >= DEVICE_CAPACITY
    case Some(Control(m)) => MessageBlocks(n, m)
    case None => false
  }

  predicate MessageBlocks(n: Node, m: Message)
    requires TableOk(n)
  {
    m.Ping? && m.virt in n.table && |n.conns[n.table[m.virt]].pipeline| >= CONN_CAPACITY
  }

  // ---- node.go ----

  /** A pending mark younger than one second at `check`. */
  predicate Throttled(n: Node, virt: VirtAddr, check: int) {
    virt in n.pending && n.pending[virt] + SECOND > check
  }

  /** `forward`: direct when established, by relay while connecting, otherwise a throttled open
      request. The clock is read at `check` for the test and at `mark` for the new pending mark. The
      last component says whether an open request was started. */
  function Forward(codec: Protobuf, n: Node, virt: VirtAddr, data: Bytes, check: int, mark: int)
    : (Node, seq<Output>, bool)
    requires TableOk(n)
  {
    if virt in n.table then
      var i := n.table[virt];
      if n.conns[i].state == Established then
        (if |n.conns[i].pipeline| < CONN_CAPACITY then Push(n, i, EncodeRaw(data)) else n, [], false)
      else (n, [Output(ToGateway, Encode(codec, Relay(virt, data)))], false)
    else if Throttled(n, virt, check) then (n, [], false)
    else (n.(pending := n.pending[virt := mark]), [], true)
  }

  /** The open request for `virt` has completed, with or without an error. */
  function Complete(n: Node, virt: VirtAddr): Node {
    n.(pending := n.pending - {virt})
  }

  /** A packet read from the device: looped back when addressed to this node, else forwarded. */
  function DeviceRead(codec: Protobuf, n: Node, dst: VirtAddr, data: Bytes, check: int, mark: int)
    : (Node, seq<Output>, bool)
    requires TableOk(n)
  {
    if dst == n.self then (n.(pipeline := n.pipeline + [data]), [], false)
    else Forward(codec, n, dst, data, check, mark)
  }

  predicate DeviceReadBlocks(n: Node, dst: VirtAddr) {
    dst == n.self && |n.pipeline| >= DEVICE_CAPACITY
  }

  function HeartbeatOutput(codec: Protobuf, n: Node): Output {
    Output(ToGateway, Encode(codec, Heartbeat(n.self)))
  }

  // ---- connection.go: the cases of the select loop ----

  datatype ConnEvent =
    | LoopStart
    | ConnectTick(nonce: string)
    | KeepaliveTick(now: int, nonce: string)
    | Drain
    | Die

  predicate ConnEnabled(c: Conn, e: ConnEvent) {
    match e
    case LoopStart => c.phase == Created
    case Drain => c.phase == Running && c.pipeline != []
    case Die => c.phase == Running && c.dying
    case _ => c.phase == Running
  }

  /** No Pong for two keepalive periods. */
  predicate TimedOut(c: Conn, now: int) {
    c.keepalive + 2 * KEEPALIVE < now
  }

  function PingOutput(codec: Protobuf, self: VirtAddr, c: Conn, nonce: string): Output {
    Output(ToPeer(c.remote), Encode(codec, Ping(self, nonce)))
  }

  function ConnStep(codec: Protobuf, self: VirtAddr, c: Conn, e: ConnEvent): (Conn, seq<Output>)
    requires ConnEnabled(c, e)
  {
    match e
    case LoopStart => (c.(phase := Running), [])
    case ConnectTick(nonce) =>
      (c, if c.state == Connecting then [PingOutput(codec, self, c, nonce)] else [])
    case KeepaliveTick(now, nonce) =>
      if TimedOut(c, now) then (c.(dying := true), [])
      else (c, if c.state == Established then [PingOutput(codec, self, c, nonce)] else [])
    case Drain => (c.(pipeline := c.pipeline[1..]), [Output(ToPeer(c.remote), c.pipeline[0])])
    case Die => (c.(phase := Finished), [])
  }

  /** A returning loop removes whatever is registered under its peer's virtual address. */
  function HandleClosed(n: Node, virt: VirtAddr): Node {
    n.(table := n.table - {virt})
  }

  function LoopStep(codec: Protobuf, n: Node, i: nat, e: ConnEvent): (Node, seq<Output>)
    requires i < |n.conns| && ConnEnabled(n.conns[i], e)
  {
    var (c, out) := ConnStep(codec, n.self, n.conns[i], e);
    var stepped := UpdateConn(n, i, c);
    (if e.Die? then HandleClosed(stepped, c.peerVirt) else stepped, out)
  }

  // ---- all the steps of a node ----

  datatype Action =
    | Receive(frame: Bytes, env: Env)
    | Read(dst: VirtAddr, data: Bytes, check: int, mark: int)
    | Write
    | Loop(i: nat, e: ConnEvent)
    | Completed(virt: VirtAddr)
    | Beat

  ghost predicate Enabled(codec: Protobuf, n: Node, a: Action) {
    && TableOk(n)
    && match a
       case Receive(frame, _) => !HandleBlocks(codec, n, frame)
       case Read(dst, _, check, mark) => !DeviceReadBlocks(n, dst) && check <= mark
       case Write => n.pipeline != []
       case Loop(i, e) => i < |n.conns| && ConnEnabled(n.conns[i], e)
       case Completed(_) => true
       case Beat => true
  }

  function Step(codec: Protobuf, n: Node, a: Action): (Node, seq<Output>)
    requires Enabled(codec, n, a)
  {
    match a
    case Receive(frame, env) => HandlePacket(codec, n, frame, env)
    case Read(dst, data, check, mark) =>
      var (n', out, _) := DeviceRead(codec, n, dst, data, check, mark);
      (n', out)
    case Write => (n.(pipeline := n.pipeline[1..]), [])
    case Loop(i, e) => LoopStep(codec, n, i, e)
    case Completed(virt) => (Complete(n, virt), [])
    case Beat => (n, [HeartbeatOutput(codec, n)])
  }

  /** A run of one node: the states before and after each action, under any frames at all. */
  ghost predicate IsRun(codec: Protobuf, states: seq<Node>, actions: seq<Action>) {
    && |states| == |actions| + 1
    && (exists self :: states[0] == NewNode(self))
    && (forall k | 0 <= k < |actions| :: StepAt(codec, states, actions, k))
  }

  ghost predicate StepAt(codec: Protobuf, states: seq<Node>, actions: seq<Action>, k: nat)
    requires |states| == |actions| + 1 && k < |actions|
  {
    Enabled(codec, states[k], actions[k]) && states[k + 1] == Step(codec, states[k], actions[k]).0
  }
}
