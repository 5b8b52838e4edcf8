/**
 A node's objects, updated in place: the connections and the handlers of node/node.go,
 node/handler.go and node/connection.go. Each method is proved against the functions of NodeModel.dfy.
 A connection's `id` is its place in the ghost sequence of all connections the node ever made; the
 table refers to the objects themselves, so a replaced connection lives on. Channel sends that would
 block return `blocked` and change nothing.
 */
module NodeObjects {
  import opened Wire
  import opened NodeModel

  class Connection {
    ghost const id: nat
    const selfVirt: VirtAddr
    const peerVirt: VirtAddr
    const remote: UdpAddr
    var once: bool
    var state: ConnState
    var pipeline: seq<Bytes>
    var keepalive: int
    var dying: bool
    var returned: bool

    constructor (ghost id: nat, self: VirtAddr, peer: VirtAddr, remote: UdpAddr, now: int)
      ensures this.id == id && selfVirt == self && Valid()
      ensures View() == Conn(peer, remote, Connecting, Created, false, [], now)
    {
      this.id, selfVirt, peerVirt, this.remote := id, self, peer, remote;
      once, state, pipeline, keepalive, dying, returned := false, Connecting, [], now, false, false;
    }

    ghost predicate Valid()
      reads this
    {
      returned ==> once
    }

    ghost function View(): Conn
      reads this
    {
      Conn(peerVirt, remote, state,
           if returned then Finished else if once then Running else Created,
           dying, pipeline, keepalive)
    }

    method Close()
      modifies this
      ensures View() == old(View()).(dying := true)
      ensures Valid() == old(Valid())
    {
      if !dying {
        dying := true;
      }
    }

    /** The guard at the top of the loop: false if another loop already runs. */
    method EnterLoop() returns (entered: bool)
      requires Valid()
      modifies this
      ensures Valid()
      ensures entered == ConnEnabled(old(View()), LoopStart)
      ensures View() == if entered then old(View()).(phase := Running) else old(View())
    {
      entered := !once;
      once := true;
    }

    /** One turn of the select loop, other than the closing one. */
    method Turn(codec: Protobuf, e: ConnEvent) returns (out: seq<Output>)
      requires Valid() && ConnEnabled(View(), e) && !e.LoopStart? && !e.Die?
      modifies this
      ensures Valid()
      ensures (View(), out) == ConnStep(codec, selfVirt, old(View()), e)
    {
      out := [];
      match e {
        case ConnectTick(nonce) =>
          if state == Connecting {
            out := [Output(ToPeer(remote), Encode(codec, Ping(selfVirt, nonce)))];
          }
        case KeepaliveTick(now, nonce) =>
          if keepalive + 2 * KEEPALIVE < now {
            Close();
            return;
          }
          if state == Established {
            out := [Output(ToPeer(remote), Encode(codec, Ping(selfVirt, nonce)))];
          }
        case Drain =>
          out := [Output(ToPeer(remote), pipeline[0])];
          pipeline := pipeline[1..];
      }
    }
  }

  class MeshNode {
    const codec: Protobuf
    const address: VirtAddr
    var connections: map<VirtAddr, Connection>
    var pending: map<VirtAddr, int>
    var pipeline: seq<Bytes>
    ghost var all: seq<Connection>

    constructor (codec: Protobuf, address: VirtAddr)
      ensures Valid() && View() == NewNode(address) && this.codec == codec && all == []
    {
      this.codec, this.address := codec, address;
      connections, pending, pipeline, all := map[], map[], [], [];
    }

    ghost predicate Valid()
      reads this, all
    {
      && (forall i | 0 <= i < |all| :: all[i].id == i && all[i].selfVirt == address && all[i].Valid())
      && (forall v | v in connections :: connections[v].id < |all| && all[connections[v].id] == connections[v])
    }

    ghost function View(): Node
      reads this, all
    {
      Node(address,
           seq(|all|, i requires 0 <= i < |all| reads this, all => all[i].View()),
           map v | v in connections :: connections[v].id,
           pending,
           pipeline)
    }

    /** Changing one connection changes one entry of the view. */
    twostate lemma OneConnection(c: Connection)
      requires old(Valid()) && c.id < |old(all)| && old(all)[c.id] == c
      requires all == old(all) && connections == old(connections)
      requires pending == old(pending) && pipeline == old(pipeline)
      requires c.Valid() && (forall i | 0 <= i < |all| && all[i] != c :: unchanged(all[i]))
      ensures Valid() && View() == UpdateConn(old(View()), c.id, c.View())
    {
      assert View().conns == old(View()).conns[c.id := c.View()];
    }

    method OnPingMessage(virt: VirtAddr, nonce: string) returns (blocked: bool)
      requires Valid()
      modifies all
      ensures Valid()
      ensures blocked == (virt in connections && |old(connections[virt].pipeline)| >= CONN_CAPACITY)
      ensures View() == if blocked then old(View()) else OnPing(codec, old(View()), virt, nonce)
    {
      blocked := false;
      if virt !in connections { return; }
      var conn := connections[virt];
      if |conn.pipeline| >= CONN_CAPACITY { return true; }
      conn.pipeline := conn.pipeline + [Encode(codec, Pong(address, nonce))];
      OneConnection(conn);
    }

    method OnPongMessage(virt: VirtAddr, now: int)
      requires Valid()
      modifies all
      ensures Valid() && View() == OnPong(old(View()), virt, now)
    {
      if virt !in connections { return; }
      var conn := connections[virt];
      conn.keepalive := now;
      if conn.state != Established {
        conn.state := Established;
      }
      OneConnection(conn);
    }

    method OnOpenTunnelMessage(m: Message, env: Env) returns (out: seq<Output>)
      requires Valid() && m.OpenTunnel?
      modifies this, all
      ensures Valid() && old(all) <= all && fresh(all[|old(all)|..])
      ensures (View(), out) == OnOpenTunnel(codec, old(View()), m, env)
    {
      var ack := [Output(ToGateway, Encode(codec, OpenTunnelAck(m.ackId)))];
      out := [];
      if m.virt in connections {
        var conn := connections[m.virt];
        if conn.remote == m.udp { return ack; }
        conn.Close();
        OneConnection(conn);
      }
      if !env.dialOk { return; }
      ghost var closed := View();
      label before:
      var conn := new Connection(|all|, address, m.virt, m.udp, env.now);
      all := all + [conn];
      connections := connections[m.virt := conn];
      Registers@before(conn);
      out := ack;
    }

    /** Storing a new connection registers it. */
    twostate lemma Registers(new conn: Connection)
      requires old(Valid()) && conn.id == |old(all)| && conn.selfVirt == address && conn.Valid()
      requires all == old(all) + [conn] && connections == old(connections)[conn.peerVirt := conn]
      requires pending == old(pending) && pipeline == old(pipeline)
      requires forall i | 0 <= i < |old(all)| :: unchanged(old(all)[i])
      ensures Valid() && View() == Register(old(View()), conn.View())
    {
      assert View().conns == old(View()).conns + [conn.View()];
      assert View().table == old(View()).table[conn.peerVirt := |old(all)|];
    }

    method HandleDatagram(frame: Bytes, env: Env) returns (blocked: bool, out: seq<Output>)
      requires Valid() && codec.Inverts()
      modifies this, all
      ensures Valid() && old(all) <= all && fresh(all[|old(all)|..])
      ensures blocked == HandleBlocks(codec, old(View()), frame)
      ensures (View(), out) == if blocked then (old(View()), []) else HandlePacket(codec, old(View()), frame, env)
    {
      blocked, out := false, [];
      if |frame| < 1 { return; }
      var packetType, payload := frame[0], frame[1..];
      if packetType == DATA {
        if |pipeline| >= DEVICE_CAPACITY { blocked := true; return; }
        pipeline := pipeline + [payload];
        assert View().conns == old(View()).conns;
        return;
      }
      if packetType as int >= 6 { return; }
      if packetType != 2 && packetType != 4 && packetType != 5 { return; }
      var parsed := codec.unmarshal(packetType, payload);
      if parsed == None { return; }
      blocked, out := Dispatch(parsed.value, env);
    }

    /** The switch over the message types. */
    method Dispatch(m: Message, env: Env) returns (blocked: bool, out: seq<Output>)
      requires Valid() && ForNode(Control(m))
      modifies this, all
      ensures Valid() && old(all) <= all && fresh(all[|old(all)|..])
      ensures blocked == MessageBlocks(old(View()), m)
      ensures (View(), out) == if blocked then (old(View()), []) else HandleMessage(codec, old(View()), m, env)
    {
      blocked, out := false, [];
      match m {
        case Ping(virt, _) => blocked := OnPingMessage(virt, env.nonce);
        case Pong(virt, _) => OnPongMessage(virt, env.now);
        case OpenTunnel(_, _, _) => out := OnOpenTunnelMessage(m, env);
      }
    }

    method ForwardPacket(virt: VirtAddr, data: Bytes, check: int, mark: int) returns (out: seq<Output>, started: bool)
      requires Valid()
      modifies this, all
      ensures Valid() && all == old(all)
      ensures (View(), out, started) == Forward(codec, old(View()), virt, data, check, mark)
    {
      out, started := [], false;
      if virt in connections {
        var conn := connections[virt];
        if conn.state == Established {
          if |conn.pipeline| < CONN_CAPACITY {
            conn.pipeline := conn.pipeline + [EncodeRaw(data)];
            OneConnection(conn);
          }
        } else {
          out := [Output(ToGateway, Encode(codec, Relay(virt, data)))];
        }
        return;
      }
      if virt in pending && pending[virt] + SECOND > check { return; }
      pending := pending[virt := mark];
      started := true;
      assert View().conns == old(View()).conns;
    }

    method ReadDevice(dst: VirtAddr, data: Bytes, check: int, mark: int)
      returns (blocked: bool, out: seq<Output>, started: bool)
      requires Valid()
      modifies this, all
      ensures Valid() && all == old(all)
      ensures blocked == DeviceReadBlocks(old(View()), dst)
      ensures (View(), out, started) ==
              if blocked then (old(View()), [], false) else DeviceRead(codec, old(View()), dst, data, check, mark)
    {
      blocked, out, started := false, [], false;
      if dst == address {
        if |pipeline| >= DEVICE_CAPACITY { blocked := true; return; }
        pipeline := pipeline + [data];
        assert View().conns == old(View()).conns;
        return;
      }
      out, started := ForwardPacket(dst, data, check, mark);
    }

    method RequestCompleted(virt: VirtAddr)
      requires Valid()
      modifies this
      ensures Valid() && all == old(all) && View() == NodeModel.Complete(old(View()), virt)
    {
      pending := pending - {virt};
      assert View().conns == old(View()).conns;
    }

    method LoopReturns(conn: Connection)
      requires Valid() && conn.id < |all| && all[conn.id] == conn && ConnEnabled(conn.View(), Die)
      modifies this, conn
      ensures Valid() && all == old(all)
      ensures (View(), []) == LoopStep(codec, old(View()), conn.id, Die)
    {
      conn.returned := true;
      OneConnection(conn);
      ghost var stepped := View();
      connections := connections - {conn.peerVirt};
      assert View().conns == stepped.conns;
      assert View().table == stepped.table - {conn.peerVirt};
    }

    /** One step of a connection's loop; a loop that dies removes its peer's address from the table. */
    method LoopTurn(conn: Connection, e: ConnEvent) returns (out: seq<Output>)
      requires Valid() && conn.id < |all| && all[conn.id] == conn && ConnEnabled(conn.View(), e)
      modifies this, conn
      ensures Valid() && all == old(all)
      ensures (View(), out) == LoopStep(codec, old(View()), conn.id, e)
    {
      out := [];
      match e {
        case LoopStart =>
          var entered := conn.EnterLoop();
          OneConnection(conn);
        case Die => LoopReturns(conn);
        case _ =>
          out := conn.Turn(codec, e);
          OneConnection(conn);
      }
    }
  }
}
