/**
 Slices and reused buffers (node/node.go, node/handler.go, node/connection.go, codec/codec.go). The UDP
 reader and the device reader each refill one buffer for ever; what they queue are slices, here arrays,
 that other goroutines read later. Every queued slice keeps the bytes it was queued with until it is taken.
 */
module Buffers {
  import opened Wire

  /** Copies `input` into the buffer and says how many bytes fitted. */
  method Fill(buffer: array<byte>, input: Bytes) returns (c: nat)
    modifies buffer
    ensures c == if |input| <= buffer.Length then |input| else buffer.Length
    ensures buffer[..c] == input[..c]
    ensures buffer[c..] == old(buffer[c..])
  {
    c := if |input| <= buffer.Length then |input| else buffer.Length;
    for i := 0 to c
      invariant buffer[..i] == input[..i]
      invariant buffer[c..] == old(buffer[c..])
    {
      buffer[i] := input[i];
    }
  }

  /** make and copy: a new slice with the bytes of `source[from..to]`. */
  method CopyOf(source: array<byte>, from: nat, to: nat) returns (r: array<byte>)
    requires from <= to <= source.Length
    ensures fresh(r) && r[..] == source[from..to]
  {
    r := new byte[to - from];
    for i := 0 to to - from
      invariant r[..i] == source[from..from + i]
    {
      r[i] := source[from + i];
    }
  }

  /** append to a one-byte slice: a new slice with the type byte in front. */
  method Framed(payload: array<byte>) returns (r: array<byte>)
    ensures fresh(r) && r[..] == EncodeRaw(payload[..])
  {
    r := new byte[payload.Length + 1];
    r[0] := DATA;
    for i := 0 to payload.Length
      invariant r[..i + 1] == EncodeRaw(payload[..i])
    {
      r[i + 1] := payload[i];
    }
  }

  /** Where a device packet goes: back to the device, to an established connection, or to no queue. */
  datatype Route = LoopBack | To(i: nat) | Elsewhere

  datatype Event =
    | FromGateway(frame: Bytes)
    | FromPeer(i: nat, frame: Bytes)
    | FromDevice(packet: Bytes, route: Route)
    | DeviceTakes
    | PeerTakes(i: nat)
    | Opens

  /** The queues as values, towards the device and on each connection, and what has been taken from them
      and written, in order. */
  datatype Queues = Queues(device: seq<Bytes>, peers: seq<seq<Bytes>>, written: seq<Bytes>, sent: seq<seq<Bytes>>)

  predicate Possible(q: Queues, e: Event) {
    match e
    case FromPeer(i, _) => i < |q.peers|
    case FromDevice(_, To(i)) => i < |q.peers|
    case DeviceTakes => q.device != []
    case PeerTakes(i) => i < |q.peers| && i < |q.sent| && q.peers[i] != []
    case _ => true
  }

  /** What a frame adds to the queue towards the device. */
  function ToDevice(frame: Bytes): seq<Bytes> {
    var f := Truncate(frame);
    if |f| >= 1 && f[0] == DATA then [f[1..]] else []
  }

  function Apply(q: Queues, e: Event): (r: Queues)
    requires Possible(q, e)
  {
    match e
    case FromGateway(frame) => q.(device := q.device + ToDevice(frame))
    case FromPeer(_, frame) => q.(device := q.device + ToDevice(frame))
    case FromDevice(packet, LoopBack) => q.(device := q.device + [Truncate(packet)])
    case FromDevice(packet, To(i)) => q.(peers := q.peers[i := q.peers[i] + [EncodeRaw(Truncate(packet))]])
    case FromDevice(_, Elsewhere) => q
    case DeviceTakes => q.(device := q.device[1..], written := q.written + [q.device[0]])
    case PeerTakes(i) => q.(peers := q.peers[i := q.peers[i][1..]], sent := q.sent[i := q.sent[i] + [q.peers[i][0]]])
    case Opens => q.(peers := q.peers + [[]], sent := q.sent + [[]])
  }

  /** `states` are the queues before, between and after the events. */
  ghost predicate IsRun(states: seq<Queues>, events: seq<Event>) {
    && |states| == |events| + 1
    && forall k | 0 <= k < |events| :: StepAt(states, events, k)
  }

  ghost predicate StepAt(states: seq<Queues>, events: seq<Event>, k: nat)
    requires k < |events| && k + 1 < |states|
  {
    Possible(states[k], events[k]) && states[k + 1] == Apply(states[k], events[k])
  }

  ghost function Contents(slices: seq<array<byte>>): seq<Bytes>
    reads slices
  {
    seq(|slices|, k requires 0 <= k < |slices| reads slices => slices[k][..])
  }

  class Readers {
    const udp: array<byte> // of schedule
    const dev: array<byte> // of serveDev
    var buffers: seq<array<byte>> // of each connection's read
    var pipeline: seq<array<byte>> // towards the device
    var outgoing: seq<seq<array<byte>>> // the pipeline of each connection
    ghost var written: seq<Bytes>
    ghost var sent: seq<seq<Bytes>>
    ghost var slices: set<array<byte>> // all that was ever queued

    constructor ()
      ensures Valid() && View() == Queues([], [], [], []) && fresh(udp) && fresh(dev)
    {
      udp := new byte[MAX_BUFFER_SIZE];
      dev := new byte[MAX_BUFFER_SIZE];
      buffers, pipeline, outgoing := [], [], [];
      written, sent, slices := [], [], {};
    }

    /** No queued slice shares memory with a buffer that will be overwritten. */
    ghost predicate Valid()
      reads this
    {
      && udp.Length == dev.Length == MAX_BUFFER_SIZE
      && udp !in slices && dev !in slices
      && (forall i | 0 <= i < |buffers| :: buffers[i].Length == MAX_BUFFER_SIZE && buffers[i] !in slices)
      && |buffers| == |outgoing| == |sent|
      && (forall k | 0 <= k < |pipeline| :: pipeline[k] in slices)
      && (forall i, k | 0 <= i < |outgoing| && 0 <= k < |outgoing[i]| :: outgoing[i][k] in slices)
    }

    ghost function View(): Queues
      requires Valid()
      reads this, slices
    {
      Queues(
        Contents(pipeline),
        seq(|outgoing|, i requires 0 <= i < |outgoing| && Valid() reads this, slices => Contents(outgoing[i])),
        written, sent)
    }

    /** Queues the payload of a data frame that was read into `buffer`. */
    method Queue(buffer: array<byte>, c: nat)
      requires Valid() && c <= buffer.Length && buffer !in slices
      modifies this`pipeline, this`slices
      ensures Valid() && old(slices) <= slices && fresh(slices - old(slices))
      ensures View() == old(View()).(device := old(View()).device +
        if c >= 1 && buffer[0] == DATA then [buffer[1..c]] else [])
    {
      if c >= 1 && buffer[0] == DATA {
        var copy := CopyOf(buffer, 1, c);
        Append(copy);
      }
    }

    /** Appends a new slice to the queue towards the device. */
    method Append(copy: array<byte>)
      requires Valid() && copy != udp && copy != dev && copy !in buffers
      modifies this`pipeline, this`slices
      ensures Valid() && slices == old(slices) + {copy}
      ensures View() == old(View()).(device := old(View()).device + [copy[..]])
    {
      pipeline := pipeline + [copy];
      slices := slices + {copy};
      assert View().device == old(View()).device + [copy[..]];
      assert View().peers == old(View()).peers;
    }

    /** Appends a new slice to the queue of connection `i`. */
    method AppendTo(i: nat, frame: array<byte>)
      requires Valid() && i < |outgoing| && frame != udp && frame != dev && frame !in buffers
      modifies this`outgoing, this`slices
      ensures Valid() && slices == old(slices) + {frame}
      ensures View() == old(View()).(peers := old(View()).peers[i := old(View()).peers[i] + [frame[..]]])
    {
      outgoing := outgoing[i := outgoing[i] + [frame]];
      slices := slices + {frame};
      assert Contents(outgoing[i]) == old(Contents(outgoing[i])) + [frame[..]];
      assert View().peers == old(View()).peers[i := old(View()).peers[i] + [frame[..]]];
    }

    /** Reading into a buffer leaves every queued slice alone. */
    method Refill(buffer: array<byte>, input: Bytes) returns (c: nat)
      requires Valid() && buffer !in slices && buffer.Length == MAX_BUFFER_SIZE
      modifies buffer
      ensures Valid() && View() == old(View())
      ensures c <= buffer.Length && buffer[..c] == Truncate(input)
    {
      c := Fill(buffer, input);
      assert View().peers == old(View()).peers;
    }

    /** The read loop of the device. */
    method ReadDevice(packet: Bytes, route: Route)
      requires Valid() && (route.To? ==> route.i < |outgoing|)
      modifies this, dev
      ensures Valid() && fresh(slices - old(slices)) && buffers == old(buffers)
      ensures View() == Apply(old(View()), FromDevice(packet, route))
    {
      var c := Refill(dev, packet);
      var copy := CopyOf(dev, 0, c);
      match route {
        case LoopBack => Append(copy);
        case To(i) =>
          var frame := Framed(copy);
          AppendTo(i, frame);
        case Elsewhere =>
      }
    }

    /** The writer of the device takes the next slice and writes its bytes as they are then. */
    method TakeDevice()
      requires Valid() && pipeline != []
      modifies this
      ensures Valid() && slices == old(slices) && buffers == old(buffers)
      ensures View() == Apply(old(View()), DeviceTakes)
    {
      written := written + [pipeline[0][..]];
      pipeline := pipeline[1..];
      assert View().device == old(View()).device[1..];
      assert View().peers == old(View()).peers;
    }

    /** The loop of connection `i` does the same. */
    method TakePeer(i: nat)
      requires Valid() && i < |outgoing| && outgoing[i] != []
      modifies this
      ensures Valid() && slices == old(slices) && buffers == old(buffers)
      ensures View() == Apply(old(View()), PeerTakes(i))
    {
      sent := sent[i := sent[i] + [outgoing[i][0][..]]];
      outgoing := outgoing[i := outgoing[i][1..]];
      assert Contents(outgoing[i]) == old(Contents(outgoing[i]))[1..];
      assert View().peers == old(View()).peers[i := old(View()).peers[i][1..]];
    }

    method Open()
      requires Valid()
      modifies this
      ensures Valid() && slices == old(slices)
      ensures |buffers| == |old(buffers)| + 1 && old(buffers) <= buffers && fresh(buffers[|old(buffers)|])
      ensures View() == Apply(old(View()), Opens)
    {
      var buffer := new byte[MAX_BUFFER_SIZE];
      buffers, outgoing, sent := buffers + [buffer], outgoing + [[]], sent + [[]];
      assert View().peers == old(View()).peers + [[]];
    }

    /** One event: the queues hold afterwards what they held before, plus or minus what the event says. */
    method Handle(e: Event)
      requires Valid() && Possible(View(), e)
      modifies this, udp, dev, buffers
      ensures Valid() && fresh(slices - old(slices))
      ensures old(buffers) <= buffers && forall i | |old(buffers)| <= i < |buffers| :: fresh(buffers[i])
      ensures View() == Apply(old(View()), e)
    {
      match e {
        case FromGateway(frame) =>
          var c := Refill(udp, frame);
          Queue(udp, c);
        case FromPeer(i, frame) =>
          var c := Refill(buffers[i], frame);
          Queue(buffers[i], c);
        case FromDevice(packet, route) => ReadDevice(packet, route);
        case DeviceTakes => TakeDevice();
        case PeerTakes(i) => TakePeer(i);
        case Opens => Open();
      }
    }

    /** Buffer independence: after any number of reads into the reused buffers, of any number of
        connections, what is queued and what was taken and written are the bytes that were put in. */
    method HandleAll(events: seq<Event>, ghost states: seq<Queues>)
      requires Valid() && IsRun(states, events) && states[0] == View()
      modifies this, udp, dev, buffers
      ensures Valid() && View() == states[|events|]
    {
      for n := 0 to |events|
        invariant Valid() && View() == states[n]
        invariant old(buffers) <= buffers && forall i | |old(buffers)| <= i < |buffers| :: fresh(buffers[i])
      {
        assert StepAt(states, events, n);
        Handle(events[n]);
      }
    }
  }

  /** What one node frames for another reaches the other's device queue unchanged. */
  lemma FramedArrives(packet: Bytes)
    requires |packet| <= 4095
    ensures ToDevice(EncodeRaw(Truncate(packet))) == [packet]
  {
    assert EncodeRaw(packet)[1..] == packet;
  }

  /** What ever entered the queue towards the device, in order. */
  function Entered(q: Queues): seq<Bytes> {
    q.written + q.device
  }

  lemma EventKeepsOrder(q: Queues, e: Event)
    requires Possible(q, e)
    ensures Entered(q) <= Entered(Apply(q, e))
  {
    var r := Apply(q, e);
    match e {
      case DeviceTakes => assert Entered(r) == Entered(q);
      case FromGateway(frame) => assert Entered(r) == Entered(q) + ToDevice(frame);
      case FromPeer(_, frame) => assert Entered(r) == Entered(q) + ToDevice(frame);
      case FromDevice(packet, LoopBack) => assert Entered(r) == Entered(q) + [Truncate(packet)];
      case _ =>
    }
  }

  /** Nothing that was queued is lost, changed or overtaken: at any later moment it has been written in
      its turn or still waits in its place. */
  lemma {:induction false} QueueOrder(states: seq<Queues>, events: seq<Event>, j: nat, k: nat)
    requires IsRun(states, events) && j <= k < |states|
    ensures Entered(states[j]) <= Entered(states[k])
    decreases k
  {
    if j < k {
      assert StepAt(states, events, k - 1);
      QueueOrder(states, events, j, k - 1);
      EventKeepsOrder(states[k - 1], events[k - 1]);
    }
  }

  ghost predicate SameLengths(q: Queues) {
    |q.peers| == |q.sent|
  }

  function EnteredFor(q: Queues, i: nat): seq<Bytes>
    requires i < |q.peers| && i < |q.sent|
  {
    q.sent[i] + q.peers[i]
  }

  lemma EventKeepsPeerOrder(q: Queues, e: Event, i: nat)
    requires Possible(q, e) && SameLengths(q) && i < |q.peers|
    ensures SameLengths(Apply(q, e)) && i < |Apply(q, e).peers|
    ensures EnteredFor(q, i) <= EnteredFor(Apply(q, e), i)
  {
    var r := Apply(q, e);
    match e {
      case PeerTakes(_) => assert EnteredFor(r, i) == EnteredFor(q, i);
      case FromDevice(packet, To(x)) =>
        assert x == i ==> EnteredFor(r, i) == EnteredFor(q, i) + [EncodeRaw(Truncate(packet))];
      case _ =>
    }
  }

  /** The same on every connection. */
  lemma {:induction false} PeerQueueOrder(states: seq<Queues>, events: seq<Event>, i: nat, j: nat, k: nat)
    requires IsRun(states, events) && j <= k < |states| && SameLengths(states[j]) && i < |states[j].peers|
    ensures SameLengths(states[k]) && i < |states[k].peers| && EnteredFor(states[j], i) <= EnteredFor(states[k], i)
    decreases k
  {
    if j < k {
      assert StepAt(states, events, k - 1);
      PeerQueueOrder(states, events, i, j, k - 1);
      EventKeepsPeerOrder(states[k - 1], events[k - 1], i);
    }
  }
}
