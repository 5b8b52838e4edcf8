/**
 Frames on the wire: one type byte followed by a payload (codec/codec.go), and what the two
 receivers make of a frame. The protobuf library is a parameter: any pair of functions in which
 `unmarshal` inverts `marshal` will do. Only the type byte is concrete.
 */
module Wire {

  newtype byte = x: int | 0 <= x < 256
  type Bytes = seq<byte>
  type VirtAddr = string
  type UdpAddr = string

  datatype Option<+T> = None | Some(value: T)

  /** The control messages of protos/api.proto. */
  datatype Message =
    | Heartbeat(virt: VirtAddr)
    | Relay(virt: VirtAddr, data: Bytes)
    | OpenTunnel(ackId: int, virt: VirtAddr, udp: UdpAddr)
    | OpenTunnelAck(ackId: int)
    | Ping(virt: VirtAddr, nonce: string)
    | Pong(virt: VirtAddr, nonce: string)

  /** PacketType_Data, the type byte of raw data. */
  const DATA: byte := 6

  /** The size of every buffer a datagram is read into. */
  const MAX_BUFFER_SIZE := 4096

  function TypeByte(m: Message): byte {
    match m
    case Heartbeat(_) => 0
    case Relay(_, _) => 1
    case OpenTunnel(_, _, _) => 2
    case OpenTunnelAck(_) => 3
    case Ping(_, _) => 4
    case Pong(_, _) => 5
  }

  /** The protobuf library. */
  datatype Protobuf = Protobuf(
    marshal: Message -> Bytes,
    unmarshal: (byte, Bytes) -> Option<Message>)
  {
    ghost predicate Inverts() {
      && (forall m :: unmarshal(TypeByte(m), marshal(m)) == Some(m))
      && (forall t, b :: unmarshal(t, b).Some? ==> TypeByte(unmarshal(t, b).value) == t)
    }
  }

  /** What a sender hands to the codec: a control message, or raw data. */
  datatype Payload = Control(m: Message) | Raw(data: Bytes)

  function Encode(codec: Protobuf, m: Message): Bytes {
    [TypeByte(m)] + codec.marshal(m)
  }

  function EncodeRaw(data: Bytes): Bytes {
    [DATA] + data
  }

  function Frame(codec: Protobuf, p: Payload): Bytes {
    match p
    case Control(m) => Encode(codec, m)
    case Raw(data) => EncodeRaw(data)
  }

  /** A datagram larger than the receive buffer loses its tail. */
  function Truncate(frame: Bytes): Bytes {
    if |frame| <= MAX_BUFFER_SIZE then frame else frame[..MAX_BUFFER_SIZE]
  }

  /** A node's reading of a frame: it keeps data and the three control messages meant for nodes. */
  function NodeParse(codec: Protobuf, frame: Bytes): Option<Payload> {
    if |frame| < 1 then None
    else if frame[0] == DATA then Some(Raw(frame[1..]))
    else if frame[0] == 2 || frame[0] == 4 || frame[0] == 5 then
      match codec.unmarshal(frame[0], frame[1..])
      case Some(m) => Some(Control(m))
      case None => None
    else None
  }

  /** The gateway's reading of a frame: heartbeats, relays and acknowledgements only. */
  function GatewayParse(codec: Protobuf, frame: Bytes): Option<Message> {
    if |frame| < 1 then None
    else if frame[0] == 0 || frame[0] == 1 || frame[0] == 3 then codec.unmarshal(frame[0], frame[1..])
    else None
  }

  predicate ForNode(p: Payload) {
    p.Raw? || p.m.OpenTunnel? || p.m.Ping? || p.m.Pong?
  }

  predicate ForGateway(p: Payload) {
    p.Control? && (p.m.Heartbeat? || p.m.Relay? || p.m.OpenTunnelAck?)
  }

  /** The type bytes of protos/api.proto. */
  lemma FrameTypes(codec: Protobuf, p: Payload)
    ensures |Frame(codec, p)| >= 1
    ensures Frame(codec, p)[0] ==
      match p
      case Raw(_) => 6
      case Control(Heartbeat(_)) => 0
      case Control(Relay(_, _)) => 1
      case Control(OpenTunnel(_, _, _)) => 2
      case Control(OpenTunnelAck(_)) => 3
      case Control(Ping(_, _)) => 4
      case Control(Pong(_, _)) => 5
  {
  }

  /** Both receivers recover exactly what was framed, and each ignores what is meant for the other. */
  lemma FramingRoundTrip(codec: Protobuf, p: Payload)
    requires codec.Inverts()
    ensures NodeParse(codec, Frame(codec, p)) == if ForNode(p) then Some(p) else None
    ensures GatewayParse(codec, Frame(codec, p)) == if ForGateway(p) then Some(p.m) else None
  {
    match p
    case Raw(data) =>
      assert EncodeRaw(data)[1..] == data;
    case Control(m) =>
      assert Encode(codec, m)[1..] == codec.marshal(m);
  }

  /** Frames never collide: the wire bytes determine the payload. */
  lemma FramingInjective(codec: Protobuf, p: Payload, q: Payload)
    requires codec.Inverts() && Frame(codec, p) == Frame(codec, q)
    ensures p == q
  {
    match p {
      case Raw(data) => assert EncodeRaw(data)[1..] == data;
      case Control(m) => assert Encode(codec, m)[1..] == codec.marshal(m);
    }
    match q {
      case Raw(data) => assert EncodeRaw(data)[1..] == data;
      case Control(m) => assert Encode(codec, m)[1..] == codec.marshal(m);
    }
  }

  /** A device packet survives the direct hop byte for byte exactly when it leaves room for the type
      byte: a device read of the full 4096 bytes loses its last byte at the receiver. */
  lemma DirectHopLossless(codec: Protobuf, data: Bytes)
    ensures NodeParse(codec, Truncate(EncodeRaw(data))) == Some(Raw(data)) <==> |data| <= 4095
  {
    var frame := Truncate(EncodeRaw(data));
    assert frame[0] == DATA;
    if |data| <= MAX_BUFFER_SIZE - 1 {
      assert frame[1..] == data;
    } else {
      assert |frame[1..]| < |data|;
    }
  }
}
