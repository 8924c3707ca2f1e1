/**
  The two-lock protocol of the mlx5 completion queues: a thread locks the CQs of a queue pair in the order of
  their numbers, works, and unlocks them.  Any number of threads run any number of such jobs each.
*/
module CqLocks {
  import opened Wrappers

  type CqId = nat
  type Numbering = CqId -> nat

  datatype Job = Job(send: Option<CqId>, recv: Option<CqId>)

  /** The spin locks that mlx5_ib_lock_cqs takes, in order. */
  function LockOrder(cqn: Numbering, j: Job): seq<CqId> {
    match j
    case Job(Some(s), Some(r)) =>
      if cqn(s) < cqn(r) then [s, r] else if cqn(s) == cqn(r) then [s] else [r, s]
    case Job(Some(s), None) => [s]
    case Job(None, Some(r)) => [r]
    case Job(None, None) => []
  }

  /** The spin locks that mlx5_ib_unlock_cqs drops, in order. */
  function UnlockOrder(cqn: Numbering, j: Job): seq<CqId> {
    match j
    case Job(Some(s), Some(r)) =>
      if cqn(s) < cqn(r) then [r, s] else if cqn(s) == cqn(r) then [s] else [s, r]
    case Job(Some(s), None) => [s]
    case Job(None, Some(r)) => [r]
    case Job(None, None) => []
  }

  datatype Phase = Locking(k: nat) | Unlocking(k: nat)
  datatype Thread = Thread(jobs: seq<Job>, phase: Phase)
  datatype State = State(threads: seq<Thread>, owner: map<CqId, nat>)

  predicate Unfinished(s: State, t: nat) {
    t < |s.threads| && s.threads[t].jobs != []
  }

  /** The lock that a thread is about to take. */
  function Wanted(cqn: Numbering, th: Thread): Option<CqId> {
    if th.jobs == [] || !th.phase.Locking? then None
    else
      var order := LockOrder(cqn, th.jobs[0]);
      if th.phase.k < |order| then Some(order[th.phase.k]) else None
  }

  predicate Enabled(cqn: Numbering, s: State, t: nat) {
    && Unfinished(s, t)
    && match Wanted(cqn, s.threads[t])
       case Some(c) => c !in s.owner
       case None => true
  }

  function StepThread(cqn: Numbering, th: Thread): Thread
    requires th.jobs != []
  {
    var j := th.jobs[0];
    match th.phase
    case Locking(k) => th.(phase := if k < |LockOrder(cqn, j)| then Locking(k + 1) else Unlocking(0))
    case Unlocking(k) =>
      if k < |UnlockOrder(cqn, j)| then th.(phase := Unlocking(k + 1)) else Thread(th.jobs[1..], Locking(0))
  }

  function Step(cqn: Numbering, s: State, t: nat): State
    requires Enabled(cqn, s, t)
  {
    var th := s.threads[t];
    var s' := s.(threads := s.threads[t := StepThread(cqn, th)]);
    match th.phase
    case Locking(_) =>
      if Wanted(cqn, th).Some? then s'.(owner := s.owner[Wanted(cqn, th).value := t]) else s'
    case Unlocking(k) =>
      var order := UnlockOrder(cqn, th.jobs[0]);
      if k < |order| then s'.(owner := s.owner - {order[k]}) else s'
  }

  /** The locks that a thread has taken and not yet dropped. */
  function Held(cqn: Numbering, th: Thread): seq<CqId> {
    if th.jobs == [] then []
    else match th.phase
      case Locking(k) => var o := LockOrder(cqn, th.jobs[0]); if k <= |o| then o[..k] else o
      case Unlocking(k) => var o := UnlockOrder(cqn, th.jobs[0]); if k <= |o| then o[k..] else []
  }

  predicate ThreadOk(cqn: Numbering, th: Thread) {
    if th.jobs == [] then th.phase == Locking(0)
    else match th.phase
      case Locking(k) => k <= |LockOrder(cqn, th.jobs[0])|
      case Unlocking(k) => k <= |UnlockOrder(cqn, th.jobs[0])|
  }

  /** Unlocking drops exactly what locking took, last taken first. */
  lemma UnlockReverses(cqn: Numbering, j: Job)
    ensures |UnlockOrder(cqn, j)| == |LockOrder(cqn, j)| <= 2
    ensures forall i :: 0 <= i < |LockOrder(cqn, j)| ==>
              UnlockOrder(cqn, j)[i] == LockOrder(cqn, j)[|LockOrder(cqn, j)| - 1 - i]
  {
  }

  /** The locks are in the hands of the threads that took them, and of no other. */
  predicate Inv(cqn: Numbering, s: State) {
    && (forall t :: 0 <= t < |s.threads| ==> ThreadOk(cqn, s.threads[t]))
    && (forall c <- s.owner :: s.owner[c] < |s.threads| && c in Held(cqn, s.threads[s.owner[c]]))
    && (forall t :: 0 <= t < |s.threads| ==> forall c <- Held(cqn, s.threads[t]) :: c in s.owner && s.owner[c] == t)
  }

  /** What one step of a thread does to the locks it holds. */
  lemma HeldStep(cqn: Numbering, th: Thread, c: CqId)
    requires th.jobs != [] && ThreadOk(cqn, th)
    ensures ThreadOk(cqn, StepThread(cqn, th))
    ensures var held, held' := Held(cqn, th), Held(cqn, StepThread(cqn, th));
            match th.phase
            case Locking(k) => c in held' <==> c in held || Wanted(cqn, th) == Some(c)
            case Unlocking(k) =>
              var o := UnlockOrder(cqn, th.jobs[0]);
              (c in held' <==> c in held && (k < |o| ==> c != o[k])) && (k < |o| ==> o[k] in held)
  {
    if th.phase.Locking? { LockingStep(cqn, th, c); } else { UnlockingStep(cqn, th, c); }
  }

  lemma LockingStep(cqn: Numbering, th: Thread, c: CqId)
    requires th.jobs != [] && ThreadOk(cqn, th) && th.phase.Locking?
    ensures ThreadOk(cqn, StepThread(cqn, th))
    ensures c in Held(cqn, StepThread(cqn, th)) <==> c in Held(cqn, th) || Wanted(cqn, th) == Some(c)
  {
    UnlockReverses(cqn, th.jobs[0]);
    hide LockOrder, UnlockOrder;
    var o, u, k := LockOrder(cqn, th.jobs[0]), UnlockOrder(cqn, th.jobs[0]), th.phase.k;
    if k < |o| {
      assert o[..k + 1] == o[..k] + [o[k]];
    } else {
      assert o[..k] == o && u[0..] == u;
      SameLocks(o, u);
    }
  }

  lemma SameLocks(o: seq<CqId>, u: seq<CqId>)
    requires |u| == |o| && forall i :: 0 <= i < |o| ==> u[i] == o[|o| - 1 - i]
    ensures forall c :: c in o <==> c in u
  {
    forall i | 0 <= i < |o| ensures o[i] in u { assert u[|o| - 1 - i] == o[i]; }
  }

  lemma UnlockingStep(cqn: Numbering, th: Thread, c: CqId)
    requires th.jobs != [] && ThreadOk(cqn, th) && th.phase.Unlocking?
    ensures ThreadOk(cqn, StepThread(cqn, th))
    ensures var o, k, held := UnlockOrder(cqn, th.jobs[0]), th.phase.k, Held(cqn, th);
            (c in Held(cqn, StepThread(cqn, th)) <==> c in held && (k < |o| ==> c != o[k])) && (k < |o| ==> o[k] in held)
  {
    DistinctLocks(cqn, th.jobs[0]);
    hide LockOrder, UnlockOrder;
    var u, k := UnlockOrder(cqn, th.jobs[0]), th.phase.k;
    if k < |u| { assert u[k..] == [u[k]] + u[k + 1..]; }
  }

  lemma DistinctLocks(cqn: Numbering, j: Job)
    ensures var u := UnlockOrder(cqn, j); forall i, k :: 0 <= i < k < |u| ==> u[i] != u[k]
  {
  }

  lemma LockingKeeps(cqn: Numbering, s: State, t: nat)
    requires Inv(cqn, s) && Enabled(cqn, s, t) && s.threads[t].phase.Locking?
    ensures Inv(cqn, Step(cqn, s, t))
  {
    hide Held, StepThread, ThreadOk, LockOrder, UnlockOrder, Wanted;
    var s', th := Step(cqn, s, t), s.threads[t];
    HeldStep(cqn, th, 0);
    forall c <- s'.owner ensures s'.owner[c] < |s'.threads| && c in Held(cqn, s'.threads[s'.owner[c]]) {
      HeldStep(cqn, th, c);
    }
    forall t', c | 0 <= t' < |s'.threads| && c in Held(cqn, s'.threads[t']) ensures c in s'.owner && s'.owner[c] == t' {
      HeldStep(cqn, th, c);
    }
  }

  lemma UnlockingKeeps(cqn: Numbering, s: State, t: nat)
    requires Inv(cqn, s) && Enabled(cqn, s, t) && s.threads[t].phase.Unlocking?
    ensures Inv(cqn, Step(cqn, s, t))
  {
    hide Held, StepThread, ThreadOk, LockOrder, UnlockOrder, Wanted;
    var s', th := Step(cqn, s, t), s.threads[t];
    HeldStep(cqn, th, 0);
    forall c <- s'.owner ensures s'.owner[c] < |s'.threads| && c in Held(cqn, s'.threads[s'.owner[c]]) {
      HeldStep(cqn, th, c);
    }
    forall t', c | 0 <= t' < |s'.threads| && c in Held(cqn, s'.threads[t']) ensures c in s'.owner && s'.owner[c] == t' {
      HeldStep(cqn, th, c);
    }
  }

  lemma StepKeeps(cqn: Numbering, s: State, t: nat)
    requires Inv(cqn, s) && Enabled(cqn, s, t)
    ensures Inv(cqn, Step(cqn, s, t))
  {
    if s.threads[t].phase.Locking? { LockingKeeps(cqn, s, t); } else { UnlockingKeeps(cqn, s, t); }
  }

  // ---------------------------------------------------------------- deadlock freedom

  function WantedNumber(cqn: Numbering, th: Thread): int {
    match Wanted(cqn, th) case Some(c) => cqn(c) case None => -1
  }

  /** The thread that waits for the highest number. */
  lemma {:induction false} Highest(cqn: Numbering, ths: seq<Thread>) returns (t: nat)
    requires ths != []
    ensures t < |ths| && forall u :: 0 <= u < |ths| ==> WantedNumber(cqn, ths[u]) <= WantedNumber(cqn, ths[t])
  {
    if |ths| == 1 {
      t := 0;
    } else {
      var n := |ths| - 1;
      t := Highest(cqn, ths[..n]);
      assert forall u :: 0 <= u < n ==> ths[..n][u] == ths[u];
      if WantedNumber(cqn, ths[n]) > WantedNumber(cqn, ths[t]) { t := n; }
    }
  }

  /** A thread that waits wants a higher number than any it holds. */
  lemma WantsHigher(cqn: Numbering, th: Thread, c: CqId)
    requires ThreadOk(cqn, th) && c in Held(cqn, th) && Wanted(cqn, th).Some?
    ensures cqn(c) < cqn(Wanted(cqn, th).value)
  {
  }

  /** As long as some thread is not finished, some thread can go on. */
  lemma DeadlockFree(cqn: Numbering, s: State, u: nat)
    requires Inv(cqn, s) && Unfinished(s, u)
    ensures exists t :: Enabled(cqn, s, t)
  {
    var t := Highest(cqn, s.threads);
    if Wanted(cqn, s.threads[t]).None? {
      assert WantedNumber(cqn, s.threads[u]) <= -1;
      assert Enabled(cqn, s, u);
    } else {
      var c := Wanted(cqn, s.threads[t]).value;
      if c !in s.owner {
        assert Enabled(cqn, s, t);
      } else {
        var o := s.owner[c];
        if Wanted(cqn, s.threads[o]).Some? {
          WantsHigher(cqn, s.threads[o], c);
        }
        assert Enabled(cqn, s, o);
      }
    }
  }

  // ---------------------------------------------------------------- whole runs

  ghost predicate RunsTo(cqn: Numbering, s: State, ts: seq<nat>, s': State)
    decreases |ts|
  {
    if ts == [] then s' == s else Enabled(cqn, s, ts[0]) && RunsTo(cqn, Step(cqn, s, ts[0]), ts[1..], s')
  }

  function Start(work: seq<seq<Job>>): State {
    State(seq(|work|, i requires 0 <= i < |work| => Thread(work[i], Locking(0))), map[])
  }

  lemma {:induction false} RunKeeps(cqn: Numbering, s: State, ts: seq<nat>, s': State)
    requires Inv(cqn, s) && RunsTo(cqn, s, ts, s')
    ensures Inv(cqn, s')
    decreases |ts|
  {
    if ts != [] {
      StepKeeps(cqn, s, ts[0]);
      RunKeeps(cqn, Step(cqn, s, ts[0]), ts[1..], s');
    }
  }

  /** Sections of code that a thread still has to run. */
  function Todo(cqn: Numbering, th: Thread): nat
    decreases |th.jobs|
  {
    if th.jobs == [] then 0
    else
      var n, m := |LockOrder(cqn, th.jobs[0])|, |UnlockOrder(cqn, th.jobs[0])|;
      var rest := Todo(cqn, Thread(th.jobs[1..], Locking(0)));
      match th.phase
      case Locking(k) => (if k <= n then n - k else 0) + 1 + m + 1 + rest
      case Unlocking(k) => (if k <= m then m - k else 0) + 1 + rest
  }

  function TodoAll(cqn: Numbering, ths: seq<Thread>): nat {
    if ths == [] then 0 else Todo(cqn, ths[0]) + TodoAll(cqn, ths[1..])
  }

  lemma {:induction false} TodoUpdate(cqn: Numbering, ths: seq<Thread>, t: nat, th: Thread)
    requires t < |ths|
    ensures TodoAll(cqn, ths[t := th]) + Todo(cqn, ths[t]) == TodoAll(cqn, ths) + Todo(cqn, th)
  {
    if t == 0 {
      assert ths[t := th][1..] == ths[1..];
    } else {
      TodoUpdate(cqn, ths[1..], t - 1, th);
      assert ths[t := th][1..] == ths[1..][t - 1 := th];
    }
  }

  /** No run is longer than the work it started with. */
  lemma {:induction false} RunIsBounded(cqn: Numbering, s: State, ts: seq<nat>, s': State)
    requires RunsTo(cqn, s, ts, s') && Inv(cqn, s)
    ensures |ts| + TodoAll(cqn, s'.threads) == TodoAll(cqn, s.threads)
    decreases |ts|
  {
    if ts != [] {
      StepKeeps(cqn, s, ts[0]);
      TodoUpdate(cqn, s.threads, ts[0], StepThread(cqn, s.threads[ts[0]]));
      hide Inv, Enabled;
      RunIsBounded(cqn, Step(cqn, s, ts[0]), ts[1..], s');
    }
  }

  /** Every run that cannot go on has finished all jobs of all threads and left no lock taken. */
  lemma EveryRunFinishes(cqn: Numbering, work: seq<seq<Job>>, ts: seq<nat>, s: State)
    requires RunsTo(cqn, Start(work), ts, s) && forall t :: !Enabled(cqn, s, t)
    ensures s.owner == map[] && forall th <- s.threads :: th.jobs == []
  {
    RunKeeps(cqn, Start(work), ts, s);
    forall t | 0 <= t < |s.threads| ensures s.threads[t].jobs == [] {
      if Unfinished(s, t) { DeadlockFree(cqn, s, t); }
    }
  }

  // ---------------------------------------------------------------- what the pair of locks protects

  predicate Distinct(cqn: Numbering, a: CqId, b: CqId) { a != b ==> cqn(a) != cqn(b) }

  /** Both CQs are locked exactly when two different CQs have different numbers. */
  lemma BothLocked(cqn: Numbering, a: CqId, b: CqId)
    ensures (a in LockOrder(cqn, Job(Some(a), Some(b))) && b in LockOrder(cqn, Job(Some(a), Some(b)))) <==> Distinct(cqn, a, b)
  {
  }

  /** With distinct numbers, a thread at work holds each of its CQs and no other thread holds any of them. */
  lemma Protected(cqn: Numbering, s: State, t: nat, u: nat, c: CqId)
    requires Inv(cqn, s) && Unfinished(s, t) && u < |s.threads| && u != t
    requires var th := s.threads[t];
             && (th.phase == Unlocking(0) || th.phase == Locking(|LockOrder(cqn, th.jobs[0])|))
             && (th.jobs[0].send == Some(c) || th.jobs[0].recv == Some(c))
    requires forall a, b :: Distinct(cqn, a, b)
    ensures c in Held(cqn, s.threads[t]) && c !in Held(cqn, s.threads[u])
  {
    var th := s.threads[t];
    var j := th.jobs[0];
    UnlockReverses(cqn, j);
    if j.send.Some? && j.recv.Some? { assert Distinct(cqn, j.send.value, j.recv.value); }
    assert LockOrder(cqn, j)[..|LockOrder(cqn, j)|] == LockOrder(cqn, j);
    assert UnlockOrder(cqn, j)[0..] == UnlockOrder(cqn, j);
  }

  // ---------------------------------------------------------------- the functions of the source

  /** What the threads have done to the spin locks, in order. */
  class Log {
    ghost var taken: seq<Cq>
    ghost var dropped: seq<Cq>

    constructor ()
      ensures taken == dropped == []
    {
      taken, dropped := [], [];
    }
  }

  class Cq {
    const cqn: nat
    var locked: bool

    constructor (cqn: nat)
      ensures this.cqn == cqn && !locked
    {
      this.cqn := cqn;
      locked := false;
    }

    method SpinLock(log: Log)
      requires !locked
      modifies this, log`taken
      ensures locked && log.taken == old(log.taken) + [this]
    {
      locked := true;
      log.taken := log.taken + [this];
    }

    method SpinUnlock(log: Log)
      requires locked
      modifies this, log`dropped
      ensures !locked && log.dropped == old(log.dropped) + [this]
    {
      locked := false;
      log.dropped := log.dropped + [this];
    }
  }

  /** The CQ objects that the pair locks, in the order of LockOrder. */
  ghost function OrderOf(send: Cq?, recv: Cq?): seq<Cq> {
    if send != null && recv != null then
      if send.cqn < recv.cqn then [send, recv] else if send.cqn == recv.cqn then [send] else [recv, send]
    else if send != null then [send] else if recv != null then [recv] else []
  }

  function Reversed<T>(s: seq<T>): (r: seq<T>)
    ensures |r| == |s| && forall i :: 0 <= i < |s| ==> r[i] == s[|s| - 1 - i]
  {
    if s == [] then [] else Reversed(s[1..]) + [s[0]]
  }

  /** Takes the locks one by one in the order of their numbers. */
  method LockCqs(send: Cq?, recv: Cq?, log: Log)
    requires forall q <- OrderOf(send, recv) :: !q.locked
    modifies OrderOf(send, recv), log`taken
    ensures forall q <- OrderOf(send, recv) :: q.locked
    ensures log.taken == old(log.taken) + OrderOf(send, recv)
  {
    ghost var order := OrderOf(send, recv);
    if send != null {
      if recv != null {
        if send.cqn < recv.cqn {
          assert order == [send, recv] && order[0] in order && order[1] in order;
          send.SpinLock(log);
          recv.SpinLock(log);
        } else if send.cqn == recv.cqn {
          assert order == [send] && order[0] in order;
          send.SpinLock(log);
        } else {
          assert order == [recv, send] && order[0] in order && order[1] in order;
          recv.SpinLock(log);
          send.SpinLock(log);
        }
      } else {
        assert order == [send] && order[0] in order;
        send.SpinLock(log);
      }
    } else if recv != null {
      assert order == [recv] && order[0] in order;
      recv.SpinLock(log);
    }
  }

  /** Drops the same locks one by one, the last taken first. */
  method UnlockCqs(send: Cq?, recv: Cq?, log: Log)
    requires forall q <- OrderOf(send, recv) :: q.locked
    modifies OrderOf(send, recv), log`dropped
    ensures forall q <- OrderOf(send, recv) :: !q.locked
    ensures log.dropped == old(log.dropped) + Reversed(OrderOf(send, recv))
  {
    ghost var order := OrderOf(send, recv);
    if send != null {
      if recv != null {
        if send.cqn < recv.cqn {
          assert order == [send, recv] && order[0] in order && order[1] in order;
          assert Reversed(order) == [recv, send];
          recv.SpinUnlock(log);
          send.SpinUnlock(log);
        } else if send.cqn == recv.cqn {
          assert order == [send] && order[0] in order;
          assert Reversed(order) == [send];
          send.SpinUnlock(log);
        } else {
          assert order == [recv, send] && order[0] in order && order[1] in order;
          assert Reversed(order) == [send, recv];
          send.SpinUnlock(log);
          recv.SpinUnlock(log);
        }
      } else {
        assert order == [send] && order[0] in order;
        assert Reversed(order) == [send];
        send.SpinUnlock(log);
      }
    } else if recv != null {
      assert order == [recv] && order[0] in order;
      assert Reversed(order) == [recv];
      recv.SpinUnlock(log);
    }
  }

  /** The orders over objects and over identities are the same order. */
  lemma OrderAgrees(cqn: Numbering, id: Cq -> CqId, send: Cq?, recv: Cq?)
    requires forall q: Cq :: cqn(id(q)) == q.cqn
    ensures var j := Job(if send == null then None else Some(id(send)), if recv == null then None else Some(id(recv)));
            var order := OrderOf(send, recv);
            && |order| == |LockOrder(cqn, j)| == |UnlockOrder(cqn, j)|
            && (forall i :: 0 <= i < |order| ==> id(order[i]) == LockOrder(cqn, j)[i])
            && forall i :: 0 <= i < |order| ==> id(Reversed(order)[i]) == UnlockOrder(cqn, j)[i]
  {
    if send != null { assert cqn(id(send)) == send.cqn; }
    if recv != null { assert cqn(id(recv)) == recv.cqn; }
    var j := Job(if send == null then None else Some(id(send)), if recv == null then None else Some(id(recv)));
    UnlockReverses(cqn, j);
  }
}
