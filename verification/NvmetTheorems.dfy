/** The main results about every run of the engine. */
module NvmetTheorems {
  import opened Wrappers
  import opened NvmetModel
  import opened NvmetInvariant
  import opened NvmetSteps

  lemma ReachableInv(cfg: Config, s: State)
    requires Reachable(cfg, s)
    ensures Inv(cfg, s)
  {
    var es :| RunsTo(cfg, Init(cfg), es, s);
    InitInv(cfg);
    RunKeeps(cfg, Init(cfg), es, s);
  }

  // ---------------------------------------------------------------- pool conservation

  /** Every fod is in the pool and idle, or outside with one thread of work and one command, linked both ways. */
  lemma PoolConservation(cfg: Config, s: State, f: nat)
    requires Reachable(cfg, s) && f < cfg.sqsize
    ensures |s.io.slots| == cfg.sqsize
    ensures f in s.io.fodList ==> |s.io.slots[f].tasks| == 0 && s.io.slots[f].d.fcpreq == None
    ensures f !in s.io.fodList ==> |s.io.slots[f].tasks| == 1
    ensures s.io.slots[f].d.fcpreq.Some? ==>
              var c := s.io.slots[f].d.fcpreq.value;
              c in s.io.private && s.io.private[c] == f
    ensures forall c :: c in s.io.private ==>
              s.io.private[c] < cfg.sqsize && s.io.slots[s.io.private[c]].d.fcpreq == Some(c)
    ensures |s.io.fodList| + |FodsOutside(cfg, s)| == cfg.sqsize
  {
    ReachableInv(cfg, s);
    hide CommandsOk, DataOk;
    assert SlotOk(cfg, s.io, f);
    PoolSize(cfg, s.io);
  }

  function Upto(n: nat): (r: set<nat>)
    ensures |r| == n && forall i :: i in r <==> 0 <= i < n
  {
    if n == 0 then {} else Upto(n - 1) + {n - 1}
  }

  ghost function FodsOutside(cfg: Config, s: State): set<nat> {
    Upto(cfg.sqsize) - Members(s.io.fodList)
  }

  function Members(l: seq<nat>): (r: set<nat>)
    ensures forall x :: x in r <==> x in l
  {
    set x | x in l
  }

  lemma {:induction false} DistinctSize(l: seq<nat>)
    requires forall i, j :: 0 <= i < j < |l| ==> l[i] != l[j]
    ensures |Members(l)| == |l|
  {
    if l != [] {
      DistinctSize(l[1..]);
      assert l[0] !in l[1..];
      assert Members(l) == {l[0]} + Members(l[1..]);
    }
  }

  lemma PoolSize(cfg: Config, io: Io)
    requires PoolOk(cfg, io)
    ensures |io.fodList| + |Upto(cfg.sqsize) - Members(io.fodList)| == cfg.sqsize
  {
    var inside, all := Members(io.fodList), Upto(cfg.sqsize);
    DistinctSize(io.fodList);
    assert all == inside + (all - inside) && inside !! (all - inside);
    assert |all| == |inside| + |all - inside|;
  }

  // ---------------------------------------------------------------- exactly-once release

  /** No command is given two fods, or released twice, or released without having had a fod. */
  lemma ReleasedAtMostOnce(cfg: Config, s: State, c: Cmd)
    requires Reachable(cfg, s)
    ensures s.h.released[c] <= s.h.started[c] <= 1
    ensures s.h.released[c] + s.h.drained[c] + s.h.rejected[c] <= 1
    ensures s.h.released[c] == 1 ==> c !in s.io.private && forall v <- s.io.slots :: v.serving != Some(c)
  {
    ReachableInv(cfg, s);
    hide Served;
    assert CommandOk(s, c);
    forall f | 0 <= f < cfg.sqsize && s.io.slots[f].serving == Some(c) ensures s.h.released[c] == 0 {
      ServedHas(s.io.slots, f, c);
    }
    if c in s.io.private {
      LinkOfBusy(cfg, s.io, s.io.private[c]);
    }
  }

  /** The steps of threads already under way; the others are new work from outside. */
  predicate Internal(e: Event) {
    !e.Connect? && !e.Find? && !e.AbortLoad? && !e.DelStart?
  }

  /** No thread can take a step. */
  ghost predicate AtRest(s: State) {
    forall e :: Internal(e) ==> !Enabled(s, e)
  }

  const AnyEnv := Env(CmdIu(0, false, false, false), false, None, false, 0, false, 0)

  /** A thread never blocks: a busy fod has an enabled step, or the deletion that holds the lock has. */
  lemma BusyCanStep(cfg: Config, s: State, f: nat)
    requires Inv(cfg, s) && f < |s.io.slots| && f !in s.io.fodList
    ensures !AtRest(s)
  {
    hide DataOk, CommandsOk;
    assert SlotOk(cfg, s.io, f);
    var t :| BusyWith(cfg, s.io.slots[f], t);
    if QlockFree(s) {
      assert Enabled(s, Run(f, t, AnyEnv));
    } else {
      assert Enabled(s, DelMark);
    }
  }

  /** A thread that is about to drop a reference still holds it. */
  lemma PutHoldsRef(cfg: Config, s: State)
    requires Inv(cfg, s) && (s.q.puts > 0 || !s.q.del.Done?)
    ensures s.q.ref > 0
  {
    hide CommandsOk, SlotsOk, LinksOk;
    PoolSize(cfg, s.io);
    assert |s.io.fodList| <= |s.io.slots|;
  }

  lemma RestingRefs(cfg: Config, s: State)
    requires Inv(cfg, s) && AtRest(s)
    ensures s.q.puts == 0 && !s.q.del.Putting?
  {
    if s.q.puts > 0 || !s.q.del.Done? { PutHoldsRef(cfg, s); }
    hide CommandsOk, IoOk;
    assert !Enabled(s, DelPut) && !Enabled(s, PutRef);
  }

  /** At rest no command is on its way through an arrival, a deletion or an abandoned lookup. */
  lemma RestingQueue(cfg: Config, s: State)
    requires Inv(cfg, s) && AtRest(s)
    ensures QlockFree(s) && !s.q.del.Draining?
    ensures s.q.lookups == s.q.kmallocs == s.q.draining == multiset{}
  {
    assert QlockFree(s) && (s.io.fodList != [] ==> FodReady(s)) by {
      hide CommandsOk, SlotsOk, LinksOk, RefsOk;
      assert !Enabled(s, DelMark);
      if s.io.fodList != [] { assert s.io.fodList[0] in s.io.fodList; }
    }
    hide Inv;
    forall c ensures c !in s.q.lookups && c !in s.q.kmallocs && c !in s.q.draining {
      assert !Enabled(s, Alloc(c)) && !Enabled(s, DeferNew(c, true)) && !Enabled(s, DelRelease(c));
    }
    assert !Enabled(s, DelTake);
  }

  lemma RestingCounts(cfg: Config, s: State)
    requires Inv(cfg, s) && AtRest(s)
    ensures QlockFree(s) && !s.q.del.Draining? && !s.q.del.Putting?
    ensures s.q.lookups == s.q.kmallocs == s.q.draining == multiset{} && s.q.puts == 0
    ensures forall f :: 0 <= f < |s.io.slots| ==> f in s.io.fodList
  {
    hide Inv, AtRest;
    RestingQueue(cfg, s);
    RestingRefs(cfg, s);
    forall f | 0 <= f < |s.io.slots| ensures f in s.io.fodList {
      if f !in s.io.fodList { BusyCanStep(cfg, s, f); }
    }
  }

  /** In a run that comes to rest every command that was ever given a fod was released exactly once. */
  lemma ReleasedExactlyOnceAtRest(cfg: Config, s: State)
    requires Reachable(cfg, s) && AtRest(s)
    ensures s.h.released == s.h.started
    ensures forall c <- s.h.started :: s.h.released[c] == 1
    ensures multiset(s.h.arrived) == s.h.released + s.h.drained + s.h.rejected + multiset(s.q.pending)
  {
    ReachableInv(cfg, s);
    RestingCounts(cfg, s);
    IdleServesNone(cfg, s.io);
    ServedNone(s.io.slots);
    hide Served, IoOk;
    forall c ensures s.h.started[c] == s.h.released[c] <= 1 &&
                     multiset(s.h.arrived)[c] == (s.h.released + s.h.drained + s.h.rejected + multiset(s.q.pending))[c] {
      assert CommandOk(s, c);
    }
  }

  lemma IdleServesNone(cfg: Config, io: Io)
    requires SlotsOk(cfg, io) && forall f :: 0 <= f < |io.slots| ==> f in io.fodList
    ensures forall f :: 0 <= f < |io.slots| ==> io.slots[f].serving == None
  {
    hide Busy;
    forall f | 0 <= f < |io.slots| ensures io.slots[f].serving == None {
      assert SlotOk(cfg, io, f);
    }
  }

  // ---------------------------------------------------------------- order and stranding

  /** Deferred commands are taken up in the order in which they were deferred. */
  lemma DeferredInOrder(cfg: Config, s: State)
    requires Reachable(cfg, s)
    ensures s.h.taken <= s.h.deferred
    ensures s.q.pending == s.h.deferred[|s.h.taken|..]
  {
    ReachableInv(cfg, s);
    hide IoOk, CommandsOk;
  }

  predicate NoneStranded(s: State) {
    s.q.pending == [] || s.io.fodList == []
  }

  /**
    A command comes to wait while a fod is free only by the one event that appends to the pending list without
    looking at the pool again: the deferral that had to allocate its list entry with the lock released.
  */
  lemma StrandingStep(cfg: Config, s: State, e: Event)
    requires Inv(cfg, s) && Enabled(s, e) && NoneStranded(s)
    ensures NoneStranded(Step(cfg, s, e)) <==> !(e.DeferNew? && e.got && s.io.fodList != [])
  {
    hide Inv, LocalSlot, MarkAbort, MarkDeleted;
  }

  lemma {:induction false} RunsExtend(cfg: Config, s: State, es: seq<Event>, s': State, e: Event)
    requires RunsTo(cfg, s, es, s') && Enabled(s', e)
    ensures RunsTo(cfg, s, es + [e], Step(cfg, s', e))
    decreases |es|
  {
    hide Enabled, Step;
    if es == [] {
      assert [e][1..] == [];
      assert RunsTo(cfg, Step(cfg, s, e), [], Step(cfg, s, e));
    } else {
      RunsExtend(cfg, Step(cfg, s, es[0]), es[1..], s', e);
      assert (es + [e])[1..] == es[1..] + [e];
    }
  }

  lemma Next(cfg: Config, s: State, e: Event)
    requires Reachable(cfg, s) && Enabled(s, e)
    ensures Reachable(cfg, Step(cfg, s, e))
  {
    hide Enabled, Step;
    var es :| RunsTo(cfg, Init(cfg), es, s);
    RunsExtend(cfg, Init(cfg), es, s, e);
  }

  // ---------------------------------------------------------------- queue lifetime

  /** The exact reference count, and when it is zero the queue is deleted with no thread of an arrival, no fod at work
      and no waiting command left.  An abort that has loaded the pointer to a fod holds no reference and is not counted. */
  lemma QueueLifetime(cfg: Config, s: State)
    requires Reachable(cfg, s)
    ensures s.q.ref == (if s.q.del.Done? then 0 else 1) + |s.q.lookups| + |s.q.kmallocs| + s.q.puts
                       + |FodsOutside(cfg, s)| + |s.q.pending| + |s.h.taken|
    ensures s.q.ref == 0 ==>
              && s.q.del.Done? && s.q.pending == [] && s.q.lookups == s.q.kmallocs == multiset{} && s.q.puts == 0
              && s.io.private == map[] && |s.io.slots| == cfg.sqsize
              && forall f :: 0 <= f < cfg.sqsize ==> f in s.io.fodList && s.io.slots[f].tasks == multiset{}
  {
    ReachableInv(cfg, s);
    hide CommandsOk, DataOk;
    PoolSize(cfg, s.io);
    if s.q.ref == 0 {
      assert FodsOutside(cfg, s) == {};
      forall f | 0 <= f < cfg.sqsize ensures f in s.io.fodList && s.io.slots[f].tasks == multiset{} {
        assert f !in FodsOutside(cfg, s) && SlotOk(cfg, s.io, f);
      }
      IdleServesNone(cfg, s.io);
      forall c | c in s.io.private ensures false {
        LinkOfBusy(cfg, s.io, s.io.private[c]);
      }
    }
  }

  /** The only threads that can touch a queue whose count is zero are aborts that loaded a pointer to one of its fods
      before: one that tests the fod, or one that takes the lock. */
  lemma OnlyAbortsAfterFree(cfg: Config, s: State, e: Event)
    requires Reachable(cfg, s) && s.q.ref == 0 && Internal(e) && Enabled(s, e)
    ensures (e.AbortTest? && e.a in s.q.loads) || (e.AbortMark? && e.a in s.q.marks)
  {
    QueueLifetime(cfg, s);
    DrainedAtEnd(cfg, s);
    hide Reachable, FodsOutside;
  }

  lemma DrainedAtEnd(cfg: Config, s: State)
    requires Reachable(cfg, s) && s.q.del.Done?
    ensures s.q.draining == multiset{} && forall a <- s.q.loads + s.q.marks :: a.f < |s.io.slots|
  {
    ReachableInv(cfg, s);
    hide IoOk, CommandsOk;
  }

  /** No thread uses the freed queue any more if and only if every abort that has loaded the pointer to a fod has ended:
      none is before its unlocked test, and none between the test and its lock section. */
  lemma FreedUnusedIff(cfg: Config, s: State)
    requires Reachable(cfg, s) && s.q.ref == 0
    ensures AtRest(s) <==> s.q.loads == s.q.marks == multiset{}
  {
    QueueLifetime(cfg, s);
    DrainedAtEnd(cfg, s);
    hide Reachable, FodsOutside, Enabled;
    assert forall a :: a in s.q.loads || a in s.q.marks ==> a in s.q.loads + s.q.marks && a.f < |s.io.slots|;
    if a :| a in s.q.loads || a in s.q.marks {
      AbortCanGoOn(s, a);
    }
    forall e | Internal(e) && Enabled(s, e) ensures s.q.loads != multiset{} || s.q.marks != multiset{} {
      OnlyAbortsAfterFree(cfg, s, e);
    }
  }

  lemma AbortCanGoOn(s: State, a: Aborting)
    requires (a in s.q.loads || a in s.q.marks) && a.f < |s.io.slots| && s.q.del.Done?
    ensures Enabled(s, AbortTest(a)) || Enabled(s, AbortMark(a))
  {
  }

  /** Once the count is zero no step raises it again. */
  lemma FreedForGood(cfg: Config, s: State, e: Event)
    requires Reachable(cfg, s) && Enabled(s, e) && s.q.ref == 0
    ensures Step(cfg, s, e).q.ref == 0
  {
    QueueLifetime(cfg, s);
    hide Reachable, FodsOutside, SetSlot, LocalSlot, MarkAbort, MarkDeleted;
  }

  /** After a deletion that comes to rest the queue has been freed if and only if no command was ever deferred. */
  lemma FreedIffNeverDeferred(cfg: Config, s: State)
    requires Reachable(cfg, s) && AtRest(s) && s.q.del.Done?
    ensures s.q.ref == |s.h.deferred|
    ensures s.q.ref == 0 <==> s.h.deferred == []
  {
    ReachableInv(cfg, s);
    RestingCounts(cfg, s);
    hide CommandsOk, SlotsOk;
    PoolSize(cfg, s.io);
    assert Upto(cfg.sqsize) - Members(s.io.fodList) == {};
  }
}
