/** Exactly what becomes of a packet read from the device (node/node.go), by cases that exclude each other. */
module Forwarding {
  import opened Wire
  import opened NodeModel

  /** The node has an Established connection to `virt`. */
  ghost predicate HasDirect(n: Node, virt: VirtAddr)
    requires TableOk(n)
  {
    virt in n.table && n.conns[n.table[virt]].state == Established
  }

  /** A request for `virt` was started less than a second before `check` and has not completed. */
  predicate IsPending(n: Node, virt: VirtAddr, check: int) {
    virt in n.pending && check < n.pending[virt] + 1_000_000_000
  }

  /** A packet for the node itself comes back to its device, and only there. */
  lemma LoopsBack(codec: Protobuf, n: Node, data: Bytes, check: int, mark: int)
    requires TableOk(n)
    ensures DeviceRead(codec, n, n.self, data, check, mark) == (n.(pipeline := n.pipeline + [data]), [], false)
  {
  }

  /** With an Established connection the packet is queued there behind its type byte or, if 128 frames wait
      already, dropped; nothing is sent to the gateway and no request is started. */
  lemma GoesDirect(codec: Protobuf, n: Node, virt: VirtAddr, data: Bytes, check: int, mark: int)
    requires TableOk(n) && virt != n.self && HasDirect(n, virt)
    ensures
      var (n', out, started) := DeviceRead(codec, n, virt, data, check, mark);
      var i := n.table[virt];
      && out == [] && !started
      && n' == n.(conns := n'.conns) && |n'.conns| == |n.conns|
      && (forall j | 0 <= j < |n.conns| && j != i :: n'.conns[j] == n.conns[j])
      && n'.conns[i] == n.conns[i].(pipeline := n'.conns[i].pipeline)
      && n'.conns[i].pipeline ==
           if |n.conns[i].pipeline| < 128 then n.conns[i].pipeline + [[6] + data] else n.conns[i].pipeline
  {
    assert n.conns[n.table[virt] := n.conns[n.table[virt]]] == n.conns;
  }

  /** With a connection that is not Established the packet goes to the gateway, and only there. */
  lemma GoesByRelay(codec: Protobuf, n: Node, virt: VirtAddr, data: Bytes, check: int, mark: int)
    requires TableOk(n) && virt != n.self && virt in n.table && !HasDirect(n, virt)
    ensures DeviceRead(codec, n, virt, data, check, mark) ==
            (n, [Output(ToGateway, Encode(codec, Relay(virt, data)))], false)
  {
  }

  /** Without a connection the packet is dropped; a request is started, and marked, exactly if none is
      pending. */
  lemma AsksExactly(codec: Protobuf, n: Node, virt: VirtAddr, data: Bytes, check: int, mark: int)
    requires TableOk(n) && virt != n.self && virt !in n.table
    ensures
      var (n', out, started) := DeviceRead(codec, n, virt, data, check, mark);
      && out == [] && (started <==> !IsPending(n, virt, check))
      && n' == if started then n.(pending := n.pending[virt := mark]) else n
  {
  }

  /** After a request has completed, the next packet without a connection starts another one at once. */
  lemma AsksAgain(codec: Protobuf, n: Node, virt: VirtAddr, data: Bytes, check: int, mark: int)
    requires TableOk(n) && virt != n.self && virt !in n.table
    ensures
      var n' := Step(codec, n, Completed(virt)).0;
      TableOk(n') && DeviceRead(codec, n', virt, data, check, mark).2
  {
  }

  /** A data frame is taken exactly while fewer than 512 packets wait for the device, and then queued whole. */
  lemma TakesData(codec: Protobuf, n: Node, data: Bytes, env: Env)
    requires TableOk(n)
    ensures HandleBlocks(codec, n, [6] + data) <==> |n.pipeline| >= 512
    ensures HandlePacket(codec, n, [6] + data, env) == (n.(pipeline := n.pipeline + [data]), [])
  {
    assert ([6] + data)[1..] == data;
  }

  /** The device is written in the order of the queue. */
  lemma WritesHead(codec: Protobuf, n: Node)
    requires TableOk(n) && n.pipeline != []
    ensures
      var (n', out) := Step(codec, n, Write);
      out == [] && n.pipeline == [n.pipeline[0]] + n'.pipeline && n' == n.(pipeline := n'.pipeline)
  {
  }
}
