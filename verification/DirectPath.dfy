/**
 When the direct path works. An Established connection is not enough: the peer must have a socket open
 towards the sender, and it may close it without the sender's knowledge.
 */
module DirectPath {
  import opened Wire
  import opened NodeModel
  import opened Protocol
  import opened ProtocolInvariant
  import opened ProtocolProgress
  import NoEviction

  /** A packet read at `a` can so reach the queue of `b`'s device. */
  ghost predicate DeliversDirectly(c: Config, s: Mesh, a: VirtAddr, b: VirtAddr, data: Bytes)
    requires a in c.addr && b in s.nodes
  {
    exists steps, s' ::
      && Leads(c, s, steps, s') && Directly(c, steps, a, b)
      && b in s'.nodes && s'.nodes[b].pipeline == s.nodes[b].pipeline + [data]
  }

  /** Whatever `a` does by itself, `b` receives from `a` only if it listened to `a` all along. */
  lemma {:induction false} ReceivesOnlyIfListening(
    c: Config, s: Mesh, steps: seq<Protocol.Step>, s': Mesh, a: VirtAddr, b: VirtAddr)
    requires a in c.addr && a != b && b in s.nodes && Leads(c, s, steps, s') && Directly(c, steps, a, b)
    ensures Listens(c, s.nodes[b], c.addr[a])
    decreases |steps|
  {
    var n := |steps| - 1;
    if n > 0 {
      var t := Unfold(c, s, steps, s');
      assert steps[..n][0] == steps[0] && steps[1..][..n - 1] == steps[..n][1..];
      LeavesPeerAlone(c, s, steps[0], a, b);
      ReceivesOnlyIfListening(c, t, steps[1..], s', a, b);
    }
  }

  lemma LeavesPeerAlone(c: Config, s: Mesh, step: Protocol.Step, a: VirtAddr, b: VirtAddr)
    requires StepEnabled(c, s, step) && step.NodeLocal? && step.v == a && a != b && b in s.nodes
    ensures b in NextMesh(c, s, step).nodes && NextMesh(c, s, step).nodes[b] == s.nodes[b]
  {
  }

  /** With an Established connection and room in the queues, the direct path delivers if and only if the peer
      listens to the sender. */
  lemma DirectPathExactly(c: Config, s: Mesh, a: VirtAddr, b: VirtAddr, data: Bytes, env: Env)
    requires Linked(c, s, a, b, Established) && a in c.addr
    requires |s.nodes[a].conns[s.nodes[a].table[b]].pipeline| < CONN_CAPACITY
    requires |s.nodes[b].pipeline| < DEVICE_CAPACITY && |data| < MAX_BUFFER_SIZE
    ensures DeliversDirectly(c, s, a, b, data) <==> Listens(c, s.nodes[b], c.addr[a])
  {
    if Listens(c, s.nodes[b], c.addr[a]) {
      var steps, s' := DirectPathDelivers(c, s, a, b, data, env);
      assert Leads(c, s, steps, s') && Directly(c, steps, a, b);
    } else {
      forall steps, s' | Leads(c, s, steps, s') && Directly(c, steps, a, b) ensures false {
        ReceivesOnlyIfListening(c, s, steps, s', a, b);
      }
    }
  }

  /** Closing the only live connection to `a` closes the only socket towards it. */
  lemma NoOtherSocket(c: Config, s: Mesh, b: VirtAddr, a: VirtAddr, n: Node)
    requires c.Ok() && Inv(c, s) && a in c.addr && b in s.nodes && NoEviction.LiveAreRegistered(s.nodes[b])
    requires a in s.nodes[b].table && |n.conns| == |s.nodes[b].conns|
    requires forall i | 0 <= i < |n.conns| ::
      if i == s.nodes[b].table[a] then n.conns[i].phase == Finished
      else n.conns[i].remote == s.nodes[b].conns[i].remote && n.conns[i].phase == s.nodes[b].conns[i].phase
    ensures !Listens(c, n, c.addr[a])
  {
    assert NodeOk(c, s.h, b, s.nodes[b]);
    forall i | 0 <= i < |n.conns| && n.conns[i].phase == Running ensures n.conns[i].remote != c.addr[a] {
      assert ConnOk(c, s.h, b, s.nodes[b].conns[i]);
    }
  }

  /** And that can happen to every Established connection: if its peer has no Pong for two keepalive periods,
      the peer's tick and the end of its loop close its socket and leave the sender as it was. */
  lemma PeerStopsListening(c: Config, s: Mesh, a: VirtAddr, b: VirtAddr, back: ConnState, now: int, nonce: string)
    returns (steps: seq<Protocol.Step>, s': Mesh)
    requires Linked(c, s, a, b, Established) && Linked(c, s, b, a, back)
    requires NoEviction.LiveAreRegistered(s.nodes[b])
    requires TimedOut(s.nodes[b].conns[s.nodes[b].table[a]], now)
    ensures Leads(c, s, steps, s') && a in c.addr && a in s'.nodes && b in s'.nodes
    ensures s'.nodes[a] == s.nodes[a] && !Listens(c, s'.nodes[b], c.addr[a])
  {
    LinkedRemote(c, s, a, b, Established);
    LinkedRemote(c, s, b, a, back);
    steps, s' := TimesOut(c, s, a, b, s.nodes[b].table[a], now, nonce);
    NoOtherSocket(c, s, b, a, s'.nodes[b]);
  }

  /** A tick that comes too late, and the end of the loop. */
  lemma TimesOut(c: Config, s: Mesh, a: VirtAddr, b: VirtAddr, i: nat, now: int, nonce: string)
    returns (steps: seq<Protocol.Step>, s': Mesh)
    requires a != b && a in s.nodes && b in s.nodes && b in c.addr && TableOk(s.nodes[b])
    requires i < |s.nodes[b].conns| && s.nodes[b].conns[i].phase == Running && TimedOut(s.nodes[b].conns[i], now)
    ensures Leads(c, s, steps, s') && a in s'.nodes && b in s'.nodes && s'.nodes[a] == s.nodes[a]
    ensures s'.nodes[b].conns == s.nodes[b].conns[i := s.nodes[b].conns[i].(dying := true, phase := Finished)]
  {
    var tick, t := LateTick(c, s, b, i, now, nonce);
    LeavesPeerAlone(c, s, tick, b, a);
    var die: Protocol.Step;
    die, s' := LoopEnds(c, t, b, i);
    LeavesPeerAlone(c, t, die, b, a);
    Then(c, s, [tick], t, [die], s');
    steps := [tick] + [die];
  }

  lemma LateTick(c: Config, s: Mesh, b: VirtAddr, i: nat, now: int, nonce: string)
    returns (step: Protocol.Step, t: Mesh)
    requires b in s.nodes && b in c.addr && TableOk(s.nodes[b]) && i < |s.nodes[b].conns|
    requires s.nodes[b].conns[i].phase == Running && TimedOut(s.nodes[b].conns[i], now)
    ensures step.NodeLocal? && step.v == b && StepEnabled(c, s, step) && t == NextMesh(c, s, step)
    ensures Leads(c, s, [step], t) && b in t.nodes
    ensures t.nodes[b] == UpdateConn(s.nodes[b], i, s.nodes[b].conns[i].(dying := true))
  {
    step := NodeLocal(b, Loop(i, KeepaliveTick(now, nonce)));
    t := NextMesh(c, s, step);
    One(c, s, step);
  }

  lemma LoopEnds(c: Config, s: Mesh, b: VirtAddr, i: nat) returns (step: Protocol.Step, t: Mesh)
    requires b in s.nodes && b in c.addr && TableOk(s.nodes[b]) && i < |s.nodes[b].conns|
    requires s.nodes[b].conns[i].phase == Running && s.nodes[b].conns[i].dying
    ensures step.NodeLocal? && step.v == b && StepEnabled(c, s, step) && t == NextMesh(c, s, step)
    ensures Leads(c, s, [step], t) && b in t.nodes
    ensures t.nodes[b].conns == s.nodes[b].conns[i := s.nodes[b].conns[i].(phase := Finished)]
  {
    step := NodeLocal(b, Loop(i, Die));
    t := NextMesh(c, s, step);
    One(c, s, step);
  }
}
