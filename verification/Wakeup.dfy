/**
 The notifier at the grain of its mutex and channels: any number of openers and ackers, one
 dispatcher, arbitrary interleaving (gateway/notifier.go). `notify` drops tokens when the channel is
 full; no notification is lost for it.
 */
module Wakeup {
  import opened Wire
  import opened NotifierModel

  /** Who holds the mutex. An opener goes through: insert, insert, notify, unlock. */
  datatype Lock = Free | ByOpener(src: Peer, dst: Peer, stage: nat) | ByAcker(id: int, deleted: bool) | ByDispatcher

  /** The dispatcher: in its select, or woken by a token or tick, or scanning with `rest` still to visit. */
  datatype Dispatcher = Waiting | Woken | Scanning(rest: set<int>)

  /** `unsent` is history: the live notifications that have not been sent to a worker since their
      insertion. */
  datatype State = State(n: Notifier, lock: Lock, pc: Dispatcher, unsent: set<int>)

  datatype Step =
    | OpenerLocks(src: Peer, dst: Peer)
    | OpenerMoves
    | AckerLocks(id: int)
    | AckerMoves
    | TakeToken
    | Tick
    | TakeQueued
    | DispatcherLocks
    | Visit(id: int)
    | ScanEnds
    | RelayQueued(dest: UdpAddr, data: Bytes)
    | WorkerTakes(w: nat)

  function Start(workers: nat): State {
    State(NewNotifier(workers), Free, Waiting, {})
  }

  predicate CanStep(s: State, step: Step) {
    match step
    case OpenerLocks(_, _) => s.lock == Free
    case OpenerMoves => s.lock.ByOpener?
    case AckerLocks(_) => s.lock == Free
    case AckerMoves => s.lock.ByAcker?
    case TakeToken => s.pc == Waiting && s.n.tokens > 0
    case Tick => s.pc == Waiting
    case TakeQueued => s.pc == Waiting && |s.n.chs| > 0 && s.n.queue != []
    case DispatcherLocks => s.pc == Woken && s.lock == Free
    case Visit(id) =>
      s.pc.Scanning? && s.lock == ByDispatcher && id in s.pc.rest && id in s.n.data && |s.n.chs| > 0
    case ScanEnds => s.pc == Scanning({})
    case RelayQueued(_, _) => |s.n.queue| < QUEUE_CAPACITY
    case WorkerTakes(w) => w < |s.n.chs| && s.n.chs[w] != []
  }

  function OpenerStep(s: State): State
    requires s.lock.ByOpener?
  {
    var ByOpener(src, dst, stage) := s.lock;
    if stage == 0 then
      State(Insert(s.n, src, dst), ByOpener(src, dst, 1), s.pc, s.unsent + {Next(s.n.ackID)})
    else if stage == 1 then
      State(Insert(s.n, dst, src), ByOpener(src, dst, 2), s.pc, s.unsent + {Next(s.n.ackID)})
    else if stage == 2 then s.(n := Notify(s.n), lock := ByOpener(src, dst, 3))
    else s.(lock := Free)
  }

  function After(s: State, step: Step): State
    requires CanStep(s, step)
  {
    match step
    case OpenerLocks(src, dst) => s.(lock := ByOpener(src, dst, 0))
    case OpenerMoves => OpenerStep(s)
    case AckerLocks(id) => s.(lock := ByAcker(id, false))
    case AckerMoves =>
      if s.lock.deleted then s.(lock := Free)
      else s.(n := Ack(s.n, s.lock.id), lock := s.lock.(deleted := true), unsent := s.unsent - {s.lock.id})
    case TakeToken => s.(n := s.n.(tokens := s.n.tokens - 1), pc := Woken)
    case Tick => s.(pc := Woken)
    case TakeQueued => s.(n := Dequeue(s.n))
    case DispatcherLocks => s.(lock := ByDispatcher, pc := Scanning(s.n.data.Keys))
    case Visit(id) =>
      // Dropping an entry is not sending it.
      var dropped := s.n.data[id].counter > MAX_RETRY_SEND;
      State(RetryOne(s.n, id), s.lock, Scanning(s.pc.rest - {id}), if dropped then s.unsent else s.unsent - {id})
    case ScanEnds => s.(lock := Free, pc := Waiting)
    case RelayQueued(dest, data) => s.(n := Enqueue(s.n, dest, data))
    case WorkerTakes(w) => s.(n := Take(s.n, w))
  }

  /** What the five steps of an opener come to: the open of NotifierModel, with two more notifications to
      send. */
  lemma OpenerOpens(s: State, src: Peer, dst: Peer)
    requires s.lock == Free && 0 <= s.n.ackID && s.n.ackID + 2 <= MAX_INT64
    ensures
      var s1 := After(s, OpenerLocks(src, dst));
      CanStep(s1, OpenerMoves) && var s2 := After(s1, OpenerMoves);
      CanStep(s2, OpenerMoves) && var s3 := After(s2, OpenerMoves);
      CanStep(s3, OpenerMoves) && var s4 := After(s3, OpenerMoves);
      CanStep(s4, OpenerMoves) && var s5 := After(s4, OpenerMoves);
      && s5 == State(Open(s.n, src, dst), Free, s.pc, s.unsent + {s.n.ackID + 1, s.n.ackID + 2})
      && s5.n.tokens == if s.n.tokens < 16 then s.n.tokens + 1 else s.n.tokens
  {
  }

  ghost predicate IsRun(states: seq<State>, steps: seq<Step>) {
    && |states| == |steps| + 1
    && (exists workers :: states[0] == Start(workers))
    && (forall k | 0 <= k < |steps| :: CanStep(states[k], steps[k]) && states[k + 1] == After(states[k], steps[k]))
  }

  /** An opener has inserted and not yet notified. */
  predicate Inserting(lock: Lock) {
    lock.ByOpener? && 1 <= lock.stage <= 2
  }

  /** Someone will still bring the dispatcher to a scan. */
  predicate WakeupDue(s: State) {
    s.n.tokens > 0 || s.pc != Waiting || Inserting(s.lock)
  }

  ghost predicate Inv(s: State) {
    && s.unsent <= s.n.data.Keys
    && (forall id | id in s.n.data :: s.n.data[id].counter == 0)
    && (s.pc.Scanning? <==> s.lock == ByDispatcher)
    && (s.pc.Scanning? ==> s.unsent <= s.pc.rest <= s.n.data.Keys)
    && (s.unsent != {} ==> WakeupDue(s))
    && (s.lock.ByOpener? ==> s.lock.stage <= 3)
  }

  lemma StepKeeps(s: State, step: Step)
    requires Inv(s) && CanStep(s, step)
    ensures Inv(After(s, step))
  {
  }

  lemma {:induction false} RunInv(states: seq<State>, steps: seq<Step>, k: nat)
    requires IsRun(states, steps) && k < |states|
    ensures Inv(states[k])
  {
    if k > 0 {
      RunInv(states, steps, k - 1);
      StepKeeps(states[k - 1], steps[k - 1]);
    }
  }

  /** No lost wake-up: in every interleaving, an undispatched notification implies a token in the
      channel, a dispatcher that has been woken and has not finished its scan, or an opener between
      insert and notify; and a running scan has yet to visit it. */
  lemma NoLostWakeup(states: seq<State>, steps: seq<Step>, k: nat, id: int)
    requires IsRun(states, steps) && k < |states| && id in states[k].unsent
    ensures states[k].n.tokens > 0 || states[k].pc != Waiting || Inserting(states[k].lock)
    ensures states[k].pc.Scanning? ==> id in states[k].pc.rest
    ensures id in states[k].n.data
  {
    RunInv(states, steps, k);
    assert states[k].unsent != {};
  }

  /** When the dispatcher is back in its select, everything that was live when its scan took the lock
      has been dispatched: the scan leaves nothing unsent. */
  lemma ScanLeavesNothing(states: seq<State>, steps: seq<Step>, k: nat)
    requires IsRun(states, steps) && k < |steps| && steps[k] == ScanEnds
    ensures states[k + 1].unsent == {}
  {
    RunInv(states, steps, k);
  }

  /** Hence a dispatcher that would block for good, with no token left and no opener at work, has
      nothing left to dispatch. */
  lemma QuietMeansDispatched(states: seq<State>, steps: seq<Step>, k: nat)
    requires IsRun(states, steps) && k < |states|
    requires states[k].pc == Waiting && states[k].n.tokens == 0 && !Inserting(states[k].lock)
    ensures states[k].unsent == {}
  {
    RunInv(states, steps, k);
  }
}
