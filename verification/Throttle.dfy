/** The throttle on open requests (node/node.go), over every run of a node. */
module Throttle {
  import opened Wire
  import opened NodeModel

  /** The clock: readings made by later device reads are not earlier. */
  ghost predicate Clocked(actions: seq<Action>) {
    forall j, k | 0 <= j < k < |actions| && actions[j].Read? && actions[k].Read? ::
      actions[j].mark <= actions[k].check
  }

  /** The action starts an open request for `virt`. */
  ghost predicate Starts(codec: Protobuf, n: Node, a: Action, virt: VirtAddr) {
    && a.Read? && a.dst == virt && virt != n.self
    && Enabled(codec, n, a)
    && Forward(codec, n, virt, a.data, a.check, a.mark).2
  }

  /** Only a new request re-marks `virt`, and only a completed request unmarks it. */
  lemma MarkChanges(codec: Protobuf, n: Node, a: Action, virt: VirtAddr)
    requires Enabled(codec, n, a) && a != Completed(virt)
    ensures
      var n' := Step(codec, n, a).0;
      if Starts(codec, n, a, virt) then virt in n'.pending && n'.pending[virt] == a.mark
      else virt in n.pending ==> virt in n'.pending && n'.pending[virt] == n.pending[virt]
  {
    match a {
      case Receive(frame, env) => PacketsDoNotMark(codec, n, frame, env);
      case Loop(i, e) =>
      case Read(dst, data, check, mark) =>
      case _ =>
    }
  }

  lemma PacketsDoNotMark(codec: Protobuf, n: Node, frame: Bytes, env: Env)
    requires TableOk(n)
    ensures HandlePacket(codec, n, frame, env).0.pending == n.pending
  {
  }

  /** As long as no request for `virt` completes, its mark is at least as late as the request at `j`. */
  lemma {:induction false} MarkStays(
    codec: Protobuf, states: seq<Node>, actions: seq<Action>, virt: VirtAddr, j: nat, k: nat)
    requires IsRun(codec, states, actions) && Clocked(actions) && j < k < |states|
    requires Starts(codec, states[j], actions[j], virt)
    requires forall m | j < m < k :: actions[m] != Completed(virt)
    ensures virt in states[k].pending && states[k].pending[virt] >= actions[j].mark
  {
    assert StepAt(codec, states, actions, k - 1);
    MarkChanges(codec, states[k - 1], actions[k - 1], virt);
    if k > j + 1 {
      MarkStays(codec, states, actions, virt, j, k - 1);
    }
  }

  /** The throttle: if two open requests for the same destination start less than one second apart,
      some request for that destination completed between them. */
  lemma RequestThrottle(
    codec: Protobuf, states: seq<Node>, actions: seq<Action>, virt: VirtAddr, j: nat, k: nat)
    requires IsRun(codec, states, actions) && Clocked(actions) && j < k < |actions|
    requires Starts(codec, states[j], actions[j], virt) && Starts(codec, states[k], actions[k], virt)
    requires actions[k].mark - actions[j].mark < SECOND
    ensures exists m :: j < m < k && actions[m] == Completed(virt)
  {
    if forall m | j < m < k :: actions[m] != Completed(virt) {
      MarkStays(codec, states, actions, virt, j, k);
      assert StepAt(codec, states, actions, k);
      assert Throttled(states[k], virt, actions[k].check);
      assert false;
    }
  }
}
