/**
 What every run of a node keeps of its connection registry, whatever frames arrive
 (node/handler.go, node/connection.go).
 */
module Registry {
  import opened Wire
  import opened NodeModel

  /** Every table key is its connection's peer address, and no finished connection is registered. */
  ghost predicate Registered(n: Node) {
    forall v | v in n.table ::
      && n.table[v] < |n.conns|
      && n.conns[n.table[v]].peerVirt == v
      && n.conns[n.table[v]].phase != Finished
  }

  /** What no step undoes: who a connection is for, establishment, closing, and the loop's progress. */
  ghost predicate Advances(c: Conn, c': Conn) {
    && c'.peerVirt == c.peerVirt
    && c'.remote == c.remote
    && (c.state == Established ==> c'.state == Established)
    && (c.dying ==> c'.dying)
    && (c.phase == Finished ==> c'.phase == Finished)
    && (c.phase == Running ==> c'.phase != Created)
  }

  ghost predicate ConnsAdvance(n: Node, n': Node) {
    && |n.conns| <= |n'.conns|
    && (forall i | 0 <= i < |n.conns| :: Advances(n.conns[i], n'.conns[i]))
  }

  /** Rewriting one connection, without finishing it, keeps the registry. */
  lemma UpdateKeeps(n: Node, i: nat, c: Conn)
    requires Registered(n) && i < |n.conns|
    requires Advances(n.conns[i], c) && (n.conns[i].phase != Finished ==> c.phase != Finished)
    ensures Registered(UpdateConn(n, i, c)) && ConnsAdvance(n, UpdateConn(n, i, c))
  {
    var n' := UpdateConn(n, i, c);
    assert forall j | 0 <= j < |n.conns| :: n'.conns[j] == if j == i then c else n.conns[j];
  }

  lemma RegisterKeeps(n: Node, c: Conn)
    requires Registered(n) && c.phase != Finished
    ensures Registered(Register(n, c)) && ConnsAdvance(n, Register(n, c))
  {
  }

  lemma OpenTunnelKeeps(codec: Protobuf, n: Node, m: Message, env: Env)
    requires Registered(n) && m.OpenTunnel?
    ensures
      var n' := OnOpenTunnel(codec, n, m, env).0;
      Registered(n') && ConnsAdvance(n, n')
  {
    if !AlreadyOpen(n, m) {
      var closed := n;
      if m.virt in n.table {
        var i := n.table[m.virt];
        closed := Close(n, i);
        UpdateKeeps(n, i, n.conns[i].(dying := true));
      }
      RegisterKeeps(closed, NewConn(m, env.now));
    }
  }

  lemma HandleKeeps(codec: Protobuf, n: Node, frame: Bytes, env: Env)
    requires Registered(n)
    ensures
      var n' := HandlePacket(codec, n, frame, env).0;
      Registered(n') && ConnsAdvance(n, n')
  {
    match NodeParse(codec, frame) {
      case Some(Control(m)) =>
        match m {
          case Ping(virt, _) =>
            if virt in n.table {
              var i := n.table[virt];
              UpdateKeeps(n, i, Push(n, i, Encode(codec, Pong(n.self, env.nonce))).conns[i]);
            }
          case Pong(virt, _) =>
            if virt in n.table {
              var i := n.table[virt];
              UpdateKeeps(n, i, OnPong(n, virt, env.now).conns[i]);
            }
          case OpenTunnel(_, _, _) => OpenTunnelKeeps(codec, n, m, env);
          case _ =>
        }
      case _ =>
    }
  }

  lemma LoopKeeps(codec: Protobuf, n: Node, i: nat, e: ConnEvent)
    requires Registered(n) && i < |n.conns| && ConnEnabled(n.conns[i], e)
    ensures
      var n' := LoopStep(codec, n, i, e).0;
      Registered(n') && ConnsAdvance(n, n')
  {
    var c := ConnStep(codec, n.self, n.conns[i], e).0;
    assert Advances(n.conns[i], c);
    if !e.Die? {
      UpdateKeeps(n, i, c);
    } else {
      // A connection registered under another address is another connection.
      var n' := LoopStep(codec, n, i, e).0;
      forall v | v in n'.table
        ensures n'.table[v] < |n'.conns| && n'.conns[n'.table[v]] == n.conns[n.table[v]]
      {
        assert n.conns[n.table[v]].peerVirt == v;
      }
    }
  }

  lemma ReadKeeps(codec: Protobuf, n: Node, dst: VirtAddr, data: Bytes, check: int, mark: int)
    requires Registered(n)
    ensures
      var n' := DeviceRead(codec, n, dst, data, check, mark).0;
      Registered(n') && ConnsAdvance(n, n')
  {
    if dst in n.table {
      var i := n.table[dst];
      UpdateKeeps(n, i, Push(n, i, EncodeRaw(data)).conns[i]);
    }
  }

  lemma StepKeepsRegistry(codec: Protobuf, n: Node, a: Action)
    requires Enabled(codec, n, a) && Registered(n)
    ensures Registered(Step(codec, n, a).0)
    ensures ConnsAdvance(n, Step(codec, n, a).0)
  {
    match a {
      case Receive(frame, env) => HandleKeeps(codec, n, frame, env);
      case Read(dst, data, check, mark) => ReadKeeps(codec, n, dst, data, check, mark);
      case Loop(i, e) => LoopKeeps(codec, n, i, e);
      case Write =>
      case Completed(_) =>
      case Beat =>
    }
  }

  /** In every reachable state the registry is consistent. */
  lemma {:induction false} RegistryInvariant(codec: Protobuf, states: seq<Node>, actions: seq<Action>, k: nat)
    requires IsRun(codec, states, actions) && k < |states|
    ensures Registered(states[k])
  {
    if k > 0 {
      RegistryInvariant(codec, states, actions, k - 1);
      assert StepAt(codec, states, actions, k - 1);
      StepKeepsRegistry(codec, states[k - 1], actions[k - 1]);
    }
  }

  /** Between any two moments of a run connections only advance: none disappears, none goes from
      Established back to Connecting, and a loop that has returned stays returned. */
  lemma {:induction false} ConnectionsOnlyAdvance(
    codec: Protobuf, states: seq<Node>, actions: seq<Action>, j: nat, k: nat)
    requires IsRun(codec, states, actions) && j <= k < |states|
    ensures ConnsAdvance(states[j], states[k])
  {
    if j < k {
      ConnectionsOnlyAdvance(codec, states, actions, j, k - 1);
      StepAdvances(codec, states, actions, k);
      AdvanceTwice(states[j], states[k - 1], states[k]);
    }
  }

  lemma StepAdvances(codec: Protobuf, states: seq<Node>, actions: seq<Action>, k: nat)
    requires IsRun(codec, states, actions) && 0 < k < |states|
    ensures ConnsAdvance(states[k - 1], states[k])
  {
    RegistryInvariant(codec, states, actions, k - 1);
    assert StepAt(codec, states, actions, k - 1);
    StepKeepsRegistry(codec, states[k - 1], actions[k - 1]);
  }

  lemma AdvanceTwice(n: Node, n': Node, n'': Node)
    requires ConnsAdvance(n, n') && ConnsAdvance(n', n'')
    ensures ConnsAdvance(n, n'')
  {
  }

  /** A connection's loop body is entered at most once, and left at most once. */
  lemma LoopRunsAtMostOnce(
    codec: Protobuf, states: seq<Node>, actions: seq<Action>, i: nat, e: ConnEvent, j: nat, k: nat)
    requires IsRun(codec, states, actions) && j < k < |actions|
    requires e == LoopStart || e == Die
    requires actions[j] == Loop(i, e)
    ensures actions[k] != Loop(i, e)
  {
    assert StepAt(codec, states, actions, j) && StepAt(codec, states, actions, k);
    assert states[j + 1].conns[i].phase == if e.Die? then Finished else Running;
    ConnectionsOnlyAdvance(codec, states, actions, j + 1, k);
    assert Advances(states[j + 1].conns[i], states[k].conns[i]);
    assert !ConnEnabled(states[k].conns[i], e);
    assert Enabled(codec, states[k], actions[k]);
  }

  /** A copy of a notification that arrives at any later moment at which the connection it asks for is
      registered only repeats the acknowledgement: no connection is created, replaced or closed. */
  lemma RepeatedNotification(
    codec: Protobuf, states: seq<Node>, actions: seq<Action>, j: nat, k: nat, i: nat, m: Message)
    requires IsRun(codec, states, actions) && j <= k < |actions| && m.OpenTunnel?
    requires i < |states[j].conns| && states[j].conns[i].peerVirt == m.virt && states[j].conns[i].remote == m.udp
    requires m.virt in states[k].table && states[k].table[m.virt] == i
    requires actions[k].Receive? && NodeParse(codec, actions[k].frame) == Some(Control(m))
    ensures states[k + 1] == states[k]
    ensures Enabled(codec, states[k], actions[k]) && Step(codec, states[k], actions[k]).1 == [AckOutput(codec, m.ackId)]
  {
    assert StepAt(codec, states, actions, k);
    ConnectionsOnlyAdvance(codec, states, actions, j, k);
    assert Advances(states[j].conns[i], states[k].conns[i]);
  }

  /** A notification that finds its peer registered at another address closes that connection, whether or not
      the new dial succeeds, and it stays closed: at every later moment its loop, if it runs, may return. */
  lemma ReplacedConnectionDies(
    codec: Protobuf, states: seq<Node>, actions: seq<Action>, k: nat, t: nat, i: nat, m: Message)
    requires IsRun(codec, states, actions) && k < t < |states| && m.OpenTunnel?
    requires actions[k].Receive? && NodeParse(codec, actions[k].frame) == Some(Control(m))
    requires m.virt in states[k].table && states[k].table[m.virt] == i
    requires i < |states[k].conns| && states[k].conns[i].remote != m.udp
    ensures i < |states[t].conns| && states[t].conns[i].dying
    ensures states[t].conns[i].phase == Running ==> ConnEnabled(states[t].conns[i], Die)
  {
    assert StepAt(codec, states, actions, k);
    assert states[k + 1].conns[i].dying;
    ConnectionsOnlyAdvance(codec, states, actions, k + 1, t);
    assert Advances(states[k + 1].conns[i], states[t].conns[i]);
  }

  /** Step `t` of a run: the loop of a connection for `v` returns. */
  ghost predicate ReturnsAt(states: seq<Node>, actions: seq<Action>, v: VirtAddr, t: nat) {
    && t < |actions| && t < |states| && actions[t].Loop? && actions[t].e.Die?
    && actions[t].i < |states[t].conns| && states[t].conns[actions[t].i].peerVirt == v
  }

  ghost predicate ReturnsBetween(states: seq<Node>, actions: seq<Action>, v: VirtAddr, j: nat, k: nat) {
    exists t :: j <= t < k && ReturnsAt(states, actions, v, t)
  }

  /** Connection `i` is the newest for `v`. */
  ghost predicate Newest(n: Node, v: VirtAddr, i: nat) {
    forall x | i < x < |n.conns| :: n.conns[x].peerVirt != v
  }

  /** What one step does to the entry for `v` if it makes no new connection for `v`. */
  lemma EntryChanges(codec: Protobuf, n: Node, a: Action, v: VirtAddr)
    requires Enabled(codec, n, a) && Registered(n)
    requires
      var n' := Step(codec, n, a).0;
      forall x | |n.conns| <= x < |n'.conns| :: n'.conns[x].peerVirt != v
    ensures
      var n' := Step(codec, n, a).0;
      var closes := a.Loop? && a.e.Die? && n.conns[a.i].peerVirt == v;
      if closes then v !in n'.table
      else (v in n'.table <==> v in n.table) && (v in n.table ==> n'.table[v] == n.table[v])
  {
    var n' := Step(codec, n, a).0;
    match a {
      case Receive(frame, env) => PacketEntry(codec, n, frame, env, v);
      case _ =>
    }
  }

  lemma PacketEntry(codec: Protobuf, n: Node, frame: Bytes, env: Env, v: VirtAddr)
    requires Registered(n)
    requires
      var n' := HandlePacket(codec, n, frame, env).0;
      forall x | |n.conns| <= x < |n'.conns| :: n'.conns[x].peerVirt != v
    ensures
      var n' := HandlePacket(codec, n, frame, env).0;
      (v in n'.table <==> v in n.table) && (v in n.table ==> n'.table[v] == n.table[v])
  {
    var n' := HandlePacket(codec, n, frame, env).0;
    var parsed := NodeParse(codec, frame);
    if parsed.Some? && parsed.value.Control? && parsed.value.m.OpenTunnel? {
      assert |n'.conns| > |n.conns| ==> n'.conns[|n.conns|].peerVirt == parsed.value.m.virt;
    }
  }

  /** The newest connection for a peer, once registered, stays registered exactly as long as no loop of
      any connection for that peer, old or new, returns; after that the peer is not registered at all. */
  lemma {:induction false} EvictionExactly(
    codec: Protobuf, states: seq<Node>, actions: seq<Action>, v: VirtAddr, i: nat, j: nat, k: nat)
    requires IsRun(codec, states, actions) && j <= k < |states|
    requires v in states[j].table && states[j].table[v] == i && Newest(states[k], v, i)
    ensures v in states[k].table <==> !ReturnsBetween(states, actions, v, j, k)
    ensures v in states[k].table ==> states[k].table[v] == i
    decreases k
  {
    if j < k {
      ConnectionExists(codec, states, actions, v, j, k - 1);
      EntryAt(codec, states, actions, v, i, k);
      EvictionExactly(codec, states, actions, v, i, j, k - 1);
      ReturnsOneMore(states, actions, v, j, k);
    }
  }

  lemma ConnectionExists(codec: Protobuf, states: seq<Node>, actions: seq<Action>, v: VirtAddr, j: nat, k: nat)
    requires IsRun(codec, states, actions) && j <= k < |states| && v in states[j].table
    ensures states[j].table[v] < |states[k].conns|
  {
    RegistryInvariant(codec, states, actions, j);
    ConnectionsOnlyAdvance(codec, states, actions, j, k);
  }

  /** One step of a run at whose end connection `i` is the newest for `v`. */
  lemma EntryAt(codec: Protobuf, states: seq<Node>, actions: seq<Action>, v: VirtAddr, i: nat, k: nat)
    requires IsRun(codec, states, actions) && 0 < k < |states| && i < |states[k - 1].conns| && Newest(states[k], v, i)
    ensures Newest(states[k - 1], v, i)
    ensures
      var n, n' := states[k - 1], states[k];
      if ReturnsAt(states, actions, v, k - 1) then v !in n'.table
      else (v in n'.table <==> v in n.table) && (v in n.table ==> n'.table[v] == n.table[v])
  {
    var t := k - 1;
    assert StepAt(codec, states, actions, t);
    RegistryInvariant(codec, states, actions, t);
    StepAdvances(codec, states, actions, k);
    forall x | i < x < |states[t].conns| ensures states[t].conns[x].peerVirt != v {
      assert Advances(states[t].conns[x], states[k].conns[x]);
    }
    EntryChanges(codec, states[t], actions[t], v);
  }

  lemma ReturnsOneMore(states: seq<Node>, actions: seq<Action>, v: VirtAddr, j: nat, k: nat)
    requires j < k
    ensures ReturnsBetween(states, actions, v, j, k) <==>
            ReturnsBetween(states, actions, v, j, k - 1) || ReturnsAt(states, actions, v, k - 1)
  {
    var t := k - 1;
    if ReturnsBetween(states, actions, v, j, k) && !ReturnsAt(states, actions, v, t) {
      var x :| j <= x < k && ReturnsAt(states, actions, v, x);
      assert x < t;
    }
  }

  /** "The newest connection stays registered" is false: the peer's address changes, a second
      connection replaces the first, and the first one's loop returns and evicts the second. */
  lemma NewestCanBeEvicted(codec: Protobuf) returns (states: seq<Node>, actions: seq<Action>)
    requires codec.Inverts()
    ensures IsRun(codec, states, actions)
    ensures
      var n := states[|states| - 1];
      && |n.conns| == 2 && n.conns[1].phase != Finished && !n.conns[1].dying
      && n.table == map[]
  {
    var m1, m2 := OpenTunnel(1, "b", "u"), OpenTunnel(2, "b", "w");
    var env := Env("", 0, true);
    FramingRoundTrip(codec, Control(m1));
    FramingRoundTrip(codec, Control(m2));
    var s0 := NewNode("a");
    var a0 := Receive(Encode(codec, m1), env);
    assert NodeParse(codec, a0.frame) == Some(Control(m1));
    var s1 := Step(codec, s0, a0).0;
    var a1 := Loop(0, LoopStart);
    var s2 := Step(codec, s1, a1).0;
    var a2 := Receive(Encode(codec, m2), env);
    assert NodeParse(codec, a2.frame) == Some(Control(m2));
    assert "u" != "w";
    var s3 := Step(codec, s2, a2).0;
    assert s3.conns[0].dying && s3.conns[0].phase == Running && s3.table == map["b" := 1];
    var a3 := Loop(0, Die);
    var s4 := Step(codec, s3, a3).0;
    assert s4.table == map[];
    states, actions := [s0, s1, s2, s3, s4], [a0, a1, a2, a3];
  }
}
