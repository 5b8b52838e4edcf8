/**
 The gateway's objects, updated in place: the peer table of api/api_server.go, the notifier of
 gateway/notifier.go and the processor of gateway/processor.go. Each method is proved against the
 functions of NotifierModel.dfy. A channel send that would block returns false and changes nothing:
 the caller is still waiting.
 */
module GatewayObjects {
  import opened Wire
  import opened NotifierModel

  class PeerInfo {
    const virtAddress: VirtAddr
    var udpAddress: UdpAddr
    var lastHeartbeat: int

    constructor (virt: VirtAddr, udp: UdpAddr, now: int)
      ensures virtAddress == virt && udpAddress == udp && lastHeartbeat == now
    {
      virtAddress, udpAddress, lastHeartbeat := virt, udp, now;
    }

    ghost function View(): Peer
      reads this
    {
      Peer(virtAddress, udpAddress)
    }
  }

  class TunnelNotifier {
    var ackID: int
    var data: map<int, RetryPacket>
    var tokens: nat
    var queue: seq<Packet>
    var chs: seq<seq<Packet>>
    var roundTrip: nat

    ghost function View(): Notifier
      reads this
    {
      Notifier(ackID, data, tokens, queue, chs, roundTrip)
    }

    constructor (workers: nat)
      ensures View() == NewNotifier(workers)
    {
      ackID, data, tokens, queue, roundTrip := 0, map[], 0, [], 0;
      chs := seq(workers, _ => []);
    }

    method NotifyReader()
      modifies this
      ensures View() == Notify(old(View()))
    {
      if tokens < READ_CAPACITY {
        tokens := tokens + 1;
      }
    }

    method OpenTunnelBetween(src: PeerInfo, dst: PeerInfo)
      modifies this
      ensures View() == Open(old(View()), src.View(), dst.View())
    {
      var peers := [src, dst];
      for i := 0 to 2
        invariant i == 0 ==> View() == old(View())
        invariant i == 1 ==> View() == Insert(old(View()), src.View(), dst.View())
        invariant i == 2 ==> View() == Insert(Insert(old(View()), src.View(), dst.View()), dst.View(), src.View())
      {
        var id := Next(ackID);
        ackID := id;
        data := data[id := RetryPacket(
            Packet(peers[i].udpAddress,
                   Control(OpenTunnel(id, peers[1 - i].virtAddress, peers[1 - i].udpAddress))),
            0)];
      }
      NotifyReader();
    }

    method Acknowledge(id: int)
      modifies this
      ensures View() == Ack(old(View()), id)
    {
      data := data - {id};
    }

    method RelayTo(dest: UdpAddr, payload: Bytes) returns (queued: bool)
      modifies this
      ensures queued == (|old(queue)| < QUEUE_CAPACITY)
      ensures View() == if queued then Enqueue(old(View()), dest, payload) else old(View())
    {
      queued := |queue| < QUEUE_CAPACITY;
      if queued {
        queue := queue + [Packet(dest, Raw(payload))];
      }
    }

    method SendToWorker(p: Packet)
      requires |chs| > 0
      modifies this
      ensures View() == Send(old(View()), p)
    {
      var i := roundTrip % |chs|;
      chs := chs[i := chs[i] + [p]];
      roundTrip := roundTrip + 1;
    }

    method RetryEntry(id: int)
      requires |chs| > 0 && id in data
      modifies this
      ensures |chs| > 0 && View() == RetryOne(old(View()), id)
    {
      if data[id].counter > MAX_RETRY_SEND {
        data := data - {id};
      } else {
        SendToWorker(data[id].packet);
      }
    }

    /** The retry scan visits the map's keys in an order of the iteration's choosing. */
    method RetryAll() returns (ghost order: seq<int>)
      requires |chs| > 0
      modifies this
      ensures Enumerates(order, old(data.Keys))
      ensures View() == Retry(old(View()), order)
    {
      var todo := data.Keys;
      order := [];
      while |todo| != 0
        invariant |chs| > 0
        invariant NoDuplicates(order) && (forall i | 0 <= i < |order| :: order[i] in old(data) && order[i] !in todo)
        invariant todo <= old(data.Keys)
        invariant forall k | k in old(data.Keys) && k !in todo :: k in order
        invariant View() == RetryPrefix(old(View()), order)
        decreases |todo|
      {
        SomeElement(todo);
        var id :| id in todo;
        assert id !in order;
        RetryEntry(id);
        assert (order + [id])[..|order|] == order;
        order := order + [id];
        todo := todo - {id};
      }
    }

    method DispatchQueued()
      requires |chs| > 0 && queue != []
      modifies this
      ensures View() == Dequeue(old(View()))
    {
      var p := queue[0];
      queue := queue[1..];
      SendToWorker(p);
    }

    /** A worker turns the head of its channel into the frame to write and its destination. */
    method WorkerTake(codec: Protobuf, w: nat) returns (dest: UdpAddr, frame: Bytes)
      requires w < |chs| && chs[w] != []
      modifies this
      ensures View() == Take(old(View()), w)
      ensures dest == old(chs)[w][0].destination && frame == Frame(codec, old(chs)[w][0].payload)
    {
      var p := chs[w][0];
      chs := chs[w := chs[w][1..]];
      dest := p.destination;
      match p.payload {
        case Control(m) => frame := Encode(codec, m);
        case Raw(payload) => frame := EncodeRaw(payload);
      }
    }
  }

  datatype Version = Malformed | TooOld | Accepted
  datatype OpenResult = InvalidVersion | VersionTooOld | SourceUnknown | DestinationUnknown | TunnelOpened

  class Server {
    const notifier: TunnelNotifier
    var peers: map<VirtAddr, PeerInfo>

    constructor (notifier: TunnelNotifier)
      ensures this.notifier == notifier && Valid() && Table() == map[]
    {
      this.notifier := notifier;
      peers := map[];
    }

    /** Every peer is stored under its own virtual address. */
    ghost predicate Valid()
      reads this, peers.Values
    {
      forall v | v in peers :: peers[v].virtAddress == v
    }

    ghost function Table(): map<VirtAddr, UdpAddr>
      reads this, peers.Values
    {
      map v | v in peers :: peers[v].udpAddress
    }

    ghost function View(): Gateway
      reads this, peers.Values, notifier
    {
      Gateway(Table(), notifier.View())
    }

    method Heartbeat(remote: UdpAddr, virt: VirtAddr, now: int)
      requires Valid()
      modifies this, peers.Values
      ensures Valid() && fresh(peers.Values - old(peers.Values))
      ensures View() == old(View()).(peers := old(Table())[virt := remote])
      ensures virt in peers && peers[virt].lastHeartbeat == now
    {
      if virt in peers {
        var peer := peers[virt];
        peer.lastHeartbeat := now;
        if peer.udpAddress != remote {
          peer.udpAddress := remote;
        }
        assert Table() == old(Table())[virt := remote];
        return;
      }
      var peer := new PeerInfo(virt, remote, now);
      peers := peers[virt := peer];
      assert Table() == old(Table())[virt := remote];
    }

    method LookUp(virt: VirtAddr) returns (peer: PeerInfo?)
      ensures peer == null <==> virt !in peers
      ensures peer != null ==> peer == peers[virt]
    {
      peer := if virt in peers then peers[virt] else null;
    }

    method OpenTunnelRequest(version: Version, source: VirtAddr, destination: VirtAddr) returns (r: OpenResult)
      requires Valid()
      modifies notifier
      ensures Valid() && peers == old(peers)
      ensures View() == if version == Accepted then OpenRequest(old(View()), source, destination) else old(View())
      ensures r ==
              if version == Malformed then InvalidVersion else if version == TooOld then VersionTooOld
              else if source !in peers then SourceUnknown else if destination !in peers then DestinationUnknown
              else TunnelOpened
    {
      if version == Malformed { return InvalidVersion; }
      if version == TooOld { return VersionTooOld; }
      var src := LookUp(source);
      if src == null { return SourceUnknown; }
      var dst := LookUp(destination);
      if dst == null { return DestinationUnknown; }
      notifier.OpenTunnelBetween(src, dst);
      return TunnelOpened;
    }
  }

  datatype Outcome = Done | Ignored | Unrecognized | MalformedMessage | UnknownDestination | WouldBlock

  /** One datagram read by the gateway's UDP loop. */
  method ProcessDatagram(codec: Protobuf, server: Server, source: UdpAddr, frame: Bytes, now: int)
    returns (r: Outcome)
    requires codec.Inverts() && server.Valid()
    modifies server, server.peers.Values, server.notifier
    ensures server.Valid() && fresh(server.peers.Values - old(server.peers.Values))
    ensures r == WouldBlock <==> ProcessBlocks(codec, old(server.View()), frame)
    ensures r == Unrecognized <==> |frame| >= 1 && frame[0] > 3
    ensures r == MalformedMessage <==>
      |frame| >= 1 && frame[0] <= 3 && frame[0] != 2 && codec.unmarshal(frame[0], frame[1..]) == None
    ensures r == UnknownDestination <==>
      GatewayParse(codec, frame).Some? && GatewayParse(codec, frame).value.Relay?
      && GatewayParse(codec, frame).value.virt !in old(server.peers)
    ensures server.View() ==
            if r == WouldBlock then old(server.View()) else Process(codec, old(server.View()), source, frame)
  {
    if |frame| < 1 { return Ignored; }
    var packetType := frame[0];
    if packetType as int >= 4 { return Unrecognized; }
    if packetType == 2 { return Ignored; }
    var parsed := codec.unmarshal(packetType, frame[1..]);
    if parsed == None { return MalformedMessage; }
    match parsed.value {
      case Heartbeat(virt) =>
        if virt == "" { return Ignored; }
        server.Heartbeat(source, virt, now);
        return Done;
      case OpenTunnelAck(id) =>
        server.notifier.Acknowledge(id);
        return Done;
      case Relay(virt, payload) =>
        var dst := server.LookUp(virt);
        if dst == null { return UnknownDestination; }
        var queued := server.notifier.RelayTo(dst.udpAddress, payload);
        return if queued then Done else WouldBlock;
      case _ =>
        return Ignored;
    }
  }
}
