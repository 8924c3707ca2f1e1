/** Runs that show what the engine does not promise, for every configuration that has them. */
module NvmetWitness {
  import opened Wrappers
  import opened NvmetModel
  import opened NvmetInvariant
  import opened NvmetSteps
  import opened NvmetTheorems
  import opened NvmetTransfer
  import opened NvmetAborts

  // ---------------------------------------------------------------- pieces of runs

  /** Runs the only task of fod `f`. */
  lemma RunFod(cfg: Config, s: State, f: nat, t: Task, env: Env, t': Task) returns (s': State)
    requires Reachable(cfg, s) && f < |s.io.slots| && s.io.slots[f].tasks == multiset{t} && !t.Return?
    requires t.Free? ==> s.io.slots[f].d.fcpreq.Some?
    requires if IsLocal(t) then Local(cfg, s.io.slots[f].d, t, env).1 == t' else t' == if t.Free? then Return else Work
    ensures s' == RunStep(cfg, s, f, t, env) && Reachable(cfg, s') && Enabled(s, Run(f, t, env))
    ensures |s'.io.slots| == |s.io.slots| && s'.io.slots == s.io.slots[f := s'.io.slots[f]]
    ensures s'.io.slots[f].tasks == multiset{t'} && s'.q == s.q && s'.io.fodList == s.io.fodList
    ensures s'.io.slots[f].mapped == if t.Work? then MappedBy(cfg, env) else s.io.slots[f].mapped
    ensures IsLocal(t) ==> s'.io.slots[f].d == Local(cfg, s.io.slots[f].d, t, env).0
    ensures !IsLocal(t) ==> var d, d' := s.io.slots[f].d, s'.io.slots[f].d;
                            d'.fcpreq == (if t.Free? then None else Some(t.c)) && d'.total == d.total
                            && (if t.Free? then !d'.active && !d'.abort else d'.active && d'.abort == d.abort)
    ensures s'.h.arrived == s.h.arrived
    ensures s'.h.released == s.h.released + if t.Free? then multiset{s.io.slots[f].d.fcpreq.value} else multiset{}
  {
    hide Local, Reachable, MappedBy;
    Next(cfg, s, Run(f, t, env));
    s' := RunStep(cfg, s, f, t, env);
    assert s.io.slots[f].tasks - multiset{t} + multiset{t'} == multiset{t'};
  }

  const BadEnv := AnyEnv.(iu := CmdIu(0, true, false, false))

  lemma BadWork(cfg: Config, d: Fod)
    ensures Local(cfg, d, Work, BadEnv).1 == Abort && Local(cfg, d, Work, BadEnv).0.fcpreq == d.fcpreq
    ensures Local(cfg, d, Abort, AnyEnv).1 == Free && Local(cfg, d, Abort, AnyEnv).0.fcpreq == d.fcpreq
  {
  }

  /** Command `c`, just tied to fod `f`, is refused and released. */
  lemma Refuse(cfg: Config, s: State, f: nat, c: Cmd) returns (s': State)
    requires Reachable(cfg, s) && f < |s.io.slots| && s.io.slots[f].tasks == multiset{Work}
    requires s.io.slots[f].d.fcpreq == Some(c)
    ensures Reachable(cfg, s') && |s'.io.slots| == |s.io.slots| && s'.io.slots == s.io.slots[f := s'.io.slots[f]]
    ensures s'.io.slots[f].tasks == multiset{Return} && s'.q == s.q && s'.io.fodList == s.io.fodList
    ensures !s'.io.slots[f].d.active && !s'.io.slots[f].d.abort
    ensures s'.h.arrived == s.h.arrived
  {
    hide Local, RunStep, Reachable, LocalSlot;
    BadWork(cfg, s.io.slots[f].d);
    var s1 := RunFod(cfg, s, f, Work, BadEnv, Abort);
    BadWork(cfg, s1.io.slots[f].d);
    var s2 := RunFod(cfg, s1, f, Abort, AnyEnv, Free);
    s' := RunFod(cfg, s2, f, Free, AnyEnv, Return);
  }

  /** A fod goes back to the pool when nothing is waiting, and its reference is dropped. */
  lemma ToPool(cfg: Config, s: State, f: nat) returns (s': State)
    requires Reachable(cfg, s) && f < |s.io.slots| && s.io.slots[f].tasks == multiset{Return}
    requires s.q.pending == [] && QlockFree(s)
    ensures Reachable(cfg, s') && s.q.ref > 0 && s'.q == s.q.(ref := s.q.ref - 1) && s'.h == s.h
    ensures |s'.io.slots| == |s.io.slots| && s'.io.slots == s.io.slots[f := s.io.slots[f].(tasks := multiset{})]
    ensures s'.io.fodList == s.io.fodList + [f]
  {
    hide Reachable, Inv;
    Next(cfg, s, Run(f, Return, AnyEnv));
    var s1 := Step(cfg, s, Run(f, Return, AnyEnv));
    assert s.io.slots[f].tasks - multiset{Return} == multiset{};
    ReachableInv(cfg, s1);
    PutHoldsRef(cfg, s1);
    Next(cfg, s1, PutRef);
    s' := Step(cfg, s1, PutRef);
  }

  /** Delivers command `c` up to the end of its first lock section. */
  lemma Visit(cfg: Config, s: State, c: Cmd) returns (s': State)
    requires Reachable(cfg, s) && c !in s.h.arrived && QlockFree(s) && (s.io.fodList != [] ==> FodReady(s))
    requires s.q.connected && s.q.ref > 0
    ensures s' == Step(cfg, Step(cfg, s, Find(c)), Alloc(c)) && Reachable(cfg, s')
  {
    hide Reachable;
    Next(cfg, s, Find(c));
    Next(cfg, Step(cfg, s, Find(c)), Alloc(c));
    s' := Step(cfg, Step(cfg, s, Find(c)), Alloc(c));
  }

  function QueueWith(ref: nat, kmallocs: multiset<Cmd>): Queue {
    Queue(true, ref, [], 0, multiset{}, kmallocs, 0, multiset{}, multiset{}, multiset{}, NotStarted)
  }

  /** The first `k` commands have the first `k` fods, not yet tied to them. */
  ghost predicate Filled(cfg: Config, s: State, k: nat) {
    && k <= cfg.sqsize == |s.io.slots| && s.io.fodList == seq(cfg.sqsize - k, i => k + i)
    && (forall f :: 0 <= f < cfg.sqsize ==> s.io.slots[f].tasks == if f < k then multiset{Bind(f)} else multiset{})
    && s.q == QueueWith(1 + k, multiset{}) && s.h.released == multiset{} && forall c <- s.h.arrived :: c < k
  }

  lemma Connected(cfg: Config) returns (s: State)
    ensures Reachable(cfg, s) && Filled(cfg, s, 0)
  {
    var s0 := Init(cfg);
    assert RunsTo(cfg, s0, [], s0);
    Next(cfg, s0, Connect);
    s := Step(cfg, s0, Connect);
  }

  /** One more command gets a fod. */
  lemma FillOne(cfg: Config, s: State, k: nat)
    requires Filled(cfg, s, k) && k < cfg.sqsize
    ensures k !in s.h.arrived && FodReady(s) && QlockFree(s) && s.q.connected && s.q.ref > 0
    ensures Filled(cfg, AllocFod(FindStep(s, k), k), k + 1)
  {
    var s1 := FindStep(s, k);
    assert s.io.fodList[0] == k && multiset{} + multiset{k} - multiset{k} == multiset{};
    var s' := AllocFod(s1, k);
    assert s'.io.fodList == seq(cfg.sqsize - k - 1, i => k + 1 + i);
  }

  lemma {:induction false} FillPool(cfg: Config, k: nat) returns (s: State)
    requires k <= cfg.sqsize
    ensures Reachable(cfg, s) && Filled(cfg, s, k)
  {
    hide Filled, Reachable;
    if k == 0 {
      s := Connected(cfg);
    } else {
      var s0 := FillPool(cfg, k - 1);
      FillOne(cfg, s0, k - 1);
      s := Visit(cfg, s0, k - 1);
    }
  }

  // ---------------------------------------------------------------- a command left waiting

  /** One command more than fods is at the unlocked allocation of its list entry; the first `k` others are done. */
  ghost predicate Emptied(cfg: Config, s: State, k: nat) {
    && k <= cfg.sqsize == |s.io.slots| && s.io.fodList == seq(k, i => i)
    && (forall f :: 0 <= f < cfg.sqsize ==> s.io.slots[f].tasks == if f < k then multiset{} else multiset{Bind(f)})
    && s.q == QueueWith(2 + cfg.sqsize - k, multiset{cfg.sqsize})
  }

  lemma NoneLeft(cfg: Config, s: State)
    requires Filled(cfg, s, cfg.sqsize) && cfg.deferRcv
    ensures var c := cfg.sqsize;
            c !in s.h.arrived && s.io.fodList == [] && s.q.connected && s.q.ref > 0 && QlockFree(s)
            && Emptied(cfg, AllocNone(cfg, FindStep(s, c), c), 0)
  {
    assert multiset{} + multiset{cfg.sqsize} - multiset{cfg.sqsize} == multiset{};
  }

  lemma EmptiedAt(cfg: Config, s: State, k: nat)
    requires Emptied(cfg, s, k) && k < cfg.sqsize
    ensures |s.io.slots| == cfg.sqsize && s.io.slots[k].tasks == multiset{Bind(k)} && s.q.pending == [] && QlockFree(s)
  {
  }

  lemma EmptyOne(cfg: Config, s: State, s': State, k: nat)
    requires Emptied(cfg, s, k) && k < cfg.sqsize && |s'.io.slots| == |s.io.slots|
    requires s'.io.slots == s.io.slots[k := s'.io.slots[k]] && s'.io.slots[k].tasks == multiset{}
    requires s'.io.fodList == s.io.fodList + [k] && s.q.ref > 0 && s'.q == s.q.(ref := s.q.ref - 1)
    ensures Emptied(cfg, s', k + 1)
  {
  }

  lemma {:induction false} EmptyFods(cfg: Config, k: nat) returns (s: State)
    requires k <= cfg.sqsize && cfg.deferRcv
    ensures Reachable(cfg, s) && Emptied(cfg, s, k)
  {
    hide Emptied, Reachable, Filled;
    if k == 0 {
      var s0 := FillPool(cfg, cfg.sqsize);
      NoneLeft(cfg, s0);
      s := Visit(cfg, s0, cfg.sqsize);
    } else {
      var f := k - 1;
      var s0 := EmptyFods(cfg, f);
      EmptiedAt(cfg, s0, f);
      var s1 := RunFod(cfg, s0, f, Bind(f), AnyEnv, Work);
      var s2 := Refuse(cfg, s1, f, f);
      s := ToPool(cfg, s2, f);
      EmptyOne(cfg, s0, s, f);
    }
  }

  /** With any number of fods but none, a command can be left waiting beside a pool that is full, with nothing under way:
      it waits until another command arrives and finishes. */
  lemma StrandedCommand(cfg: Config) returns (s: State)
    requires cfg.sqsize > 0 && cfg.deferRcv
    ensures Reachable(cfg, s) && AtRest(s) && s.q.del.NotStarted?
    ensures s.q.pending == [cfg.sqsize] && |s.io.fodList| == cfg.sqsize
  {
    var n := cfg.sqsize;
    var s0 := EmptyFods(cfg, n);
    Next(cfg, s0, DeferNew(n, true));
    s := Step(cfg, s0, DeferNew(n, true));
    assert multiset{n} - multiset{n} == multiset{};
    hide Reachable;
  }

  lemma {:induction false} NeverDefers(cfg: Config, s: State, es: seq<Event>, s': State)
    requires !cfg.deferRcv && RunsTo(cfg, s, es, s') && s.q.pending == [] && s.q.kmallocs == multiset{}
    ensures s'.q.pending == [] && s'.q.kmallocs == multiset{}
    decreases |es|
  {
    if es != [] {
      NoDeferral(cfg, s, es[0]);
      hide Enabled, Step;
      NeverDefers(cfg, Step(cfg, s, es[0]), es[1..], s');
    }
  }

  lemma NoDeferral(cfg: Config, s: State, e: Event)
    requires !cfg.deferRcv && Enabled(s, e) && s.q.pending == [] && s.q.kmallocs == multiset{}
    ensures Step(cfg, s, e).q.pending == [] && Step(cfg, s, e).q.kmallocs == multiset{}
  {
    hide LocalSlot, MarkAbort, MarkDeleted;
  }

  /** No command ever waits beside a free fod -- at any moment, or with nothing under way -- if and only if the driver
      does not defer commands or the queue has no fods. */
  lemma StrandingIff(cfg: Config)
    ensures (forall s :: Reachable(cfg, s) ==> NoneStranded(s)) <==> !cfg.deferRcv || cfg.sqsize == 0
    ensures (forall s :: Reachable(cfg, s) && AtRest(s) ==> NoneStranded(s)) <==> !cfg.deferRcv || cfg.sqsize == 0
  {
    if !cfg.deferRcv || cfg.sqsize == 0 {
      forall s | Reachable(cfg, s) ensures NoneStranded(s) {
        if !cfg.deferRcv {
          var es :| RunsTo(cfg, Init(cfg), es, s);
          NeverDefers(cfg, Init(cfg), es, s);
        } else {
          NoFods(cfg, s);
        }
      }
    } else {
      var s := StrandedCommand(cfg);
      assert !NoneStranded(s);
    }
  }

  lemma NoFods(cfg: Config, s: State)
    requires Reachable(cfg, s) && cfg.sqsize == 0
    ensures s.io.fodList == []
  {
    ReachableInv(cfg, s);
    hide CommandsOk, SlotsOk, LinksOk;
    PoolSize(cfg, s.io);
  }

  // ---------------------------------------------------------------- a queue used after its last reference

  /** The deletion marks the fods from `i` on, and goes on to the deferred commands. */
  lemma {:induction false} MarkRest(cfg: Config, s: State, i: nat) returns (s': State)
    requires Reachable(cfg, s) && s.q.del == Marking(i) && i <= |s.io.slots|
    ensures Reachable(cfg, s') && s'.q == s.q.(del := Draining, avail := 0) && |s'.io.slots| == |s.io.slots|
    decreases |s.io.slots| - i
  {
    hide Reachable, MarkDeleted;
    Next(cfg, s, DelMark);
    s' := Step(cfg, s, DelMark);
    if i < |s.io.slots| { s' := MarkRest(cfg, s', i + 1); }
  }

  /** A deletion with nothing waiting. */
  lemma DeleteIdle(cfg: Config, s: State) returns (s': State)
    requires Reachable(cfg, s) && s.q.del.NotStarted? && s.q.pending == [] && s.q.draining == multiset{} && s.q.ref > 0
    ensures Reachable(cfg, s') && |s'.io.slots| == |s.io.slots|
    ensures s'.q == s.q.(connected := false, avail := 0, del := Deletion.Done, ref := s.q.ref - 1)
  {
    hide Reachable;
    Next(cfg, s, DelStart);
    var s1 := MarkRest(cfg, Step(cfg, s, DelStart), 0);
    Next(cfg, s1, DelTake);
    var s2 := Step(cfg, s1, DelTake);
    Next(cfg, s2, DelPut);
    s' := Step(cfg, s2, DelPut);
  }

  /** Fod 0 is tied to command 0 and about to be started. */
  lemma FirstStarted(cfg: Config) returns (s: State)
    requires cfg.sqsize > 0
    ensures Reachable(cfg, s) && |s.io.slots| == cfg.sqsize && s.io.slots[0].tasks == multiset{Work}
    ensures s.io.slots[0].d.fcpreq == Some(0) && s.q == QueueWith(2, multiset{}) && s.h.released == multiset{}
    ensures 0 in s.io.private && s.io.private[0] == 0
  {
    hide Reachable;
    var s0 := FillPool(cfg, 1);
    s := RunFod(cfg, s0, 0, Bind(0), AnyEnv, Work);
  }

  /** An abort for command 0 loads the pointer to fod 0 and goes through its test if `tested`. */
  lemma AbortBegins(cfg: Config, s: State, tested: bool) returns (s': State)
    requires Reachable(cfg, s) && 0 in s.io.private && s.io.private[0] == 0 && |s.io.slots| > 0
    requires s.io.slots[0].d.fcpreq == Some(0) && s.q.loads == s.q.marks == multiset{}
    ensures Reachable(cfg, s') && s'.io == s.io && s'.h == s.h
    ensures s'.q == if tested then s.q.(marks := multiset{Aborting(0, 0)}) else s.q.(loads := multiset{Aborting(0, 0)})
  {
    hide Reachable;
    var a := Aborting(0, 0);
    Next(cfg, s, AbortLoad(0));
    s' := Step(cfg, s, AbortLoad(0));
    assert s'.q == s.q.(loads := multiset{a});
    if tested {
      Next(cfg, s', AbortTest(a));
      s' := Step(cfg, s', AbortTest(a));
      assert multiset{a} - multiset{a} == multiset{};
    }
  }

  /** An abort loads the pointer to its fod, and passes its unlocked test or not; the command finishes, the queue is
      deleted and loses its last reference; then the abort looks at a fod inside the freed queue, or takes its lock. */
  lemma AbortAfterLastPut(cfg: Config, tested: bool) returns (s: State)
    requires cfg.sqsize > 0
    ensures Reachable(cfg, s) && s.q.ref == 0
    ensures var a := Aborting(0, 0);
            if tested then s.q.marks == multiset{a} && s.q.loads == multiset{} && Enabled(s, AbortMark(a))
            else s.q.loads == multiset{a} && s.q.marks == multiset{} && Enabled(s, AbortTest(a))
  {
    hide Reachable;
    var s0 := FirstStarted(cfg);
    var s1 := AbortBegins(cfg, s0, tested);
    var s2 := Refuse(cfg, s1, 0, 0);
    var s3 := ToPool(cfg, s2, 0);
    s := DeleteIdle(cfg, s3);
  }

  // ---------------------------------------------------------------- an abort that hits another command

  /** All fods have commands, and fod 0 is tied to command 0 and about to be started. */
  lemma AllTaken(cfg: Config) returns (s: State)
    requires cfg.sqsize > 0
    ensures Reachable(cfg, s) && |s.io.slots| == cfg.sqsize && s.io.fodList == []
    ensures s.io.slots[0].tasks == multiset{Work} && s.io.slots[0].d.fcpreq == Some(0)
    ensures 0 in s.io.private && s.io.private[0] == 0 && cfg.sqsize !in s.h.arrived
    ensures s.q == QueueWith(1 + cfg.sqsize, multiset{})
  {
    hide Reachable;
    var s0 := FillPool(cfg, cfg.sqsize);
    s := RunFod(cfg, s0, 0, Bind(0), AnyEnv, Work);
  }

  /** The abort of command 0 passes its test; the command finishes, and another one gets its fod; then the abort marks
      that one. */
  lemma AbortMarksOther(cfg: Config) returns (s: State)
    requires cfg.sqsize > 0
    ensures Reachable(cfg, s) && s.q.marks == multiset{Aborting(0, 0)} && Enabled(s, AbortMark(Aborting(0, 0)))
    ensures Hit(s.io.slots[0]) == Some(cfg.sqsize)
  {
    hide Reachable;
    var s0 := AllTaken(cfg);
    var s1 := AbortBegins(cfg, s0, true);
    var s2 := Refuse(cfg, s1, 0, 0);
    var s3 := ToPool(cfg, s2, 0);
    assert s3.io.fodList == [0];
    s := Visit(cfg, s3, cfg.sqsize);
  }

  // ---------------------------------------------------------------- a command that escapes the deletion

  /** Fod 0 has finished its command and has been given a deferred one, not yet tied to it. */
  lemma Resumed(cfg: Config) returns (s: State)
    requires cfg.sqsize > 0 && cfg.deferRcv
    ensures Reachable(cfg, s) && |s.io.slots| == cfg.sqsize && s.q.del.NotStarted?
    ensures s.io.slots[0].tasks == multiset{Rebind(cfg.sqsize)} && s.io.slots[0].serving == Some(cfg.sqsize)
    ensures !s.io.slots[0].d.active && !s.io.slots[0].d.abort
  {
    hide Reachable, Emptied;
    var n := cfg.sqsize;
    var s0 := EmptyFods(cfg, 0);
    EmptiedAt(cfg, s0, 0);
    var s1 := RunFod(cfg, s0, 0, Bind(0), AnyEnv, Work);
    var s2 := Refuse(cfg, s1, 0, 0);
    Waits(cfg, s0);
    Next(cfg, s2, DeferNew(n, true));
    var s3 := Step(cfg, s2, DeferNew(n, true));
    s := TakeDeferred(cfg, s3, n);
  }

  /** Fod 0 takes up the deferred command. */
  lemma TakeDeferred(cfg: Config, s: State, n: nat) returns (s': State)
    requires Reachable(cfg, s) && |s.io.slots| == cfg.sqsize > 0 && s.io.slots[0].tasks == multiset{Return}
    requires s.q.pending == [n] && s.q.del.NotStarted? && !s.io.slots[0].d.active && !s.io.slots[0].d.abort
    ensures Reachable(cfg, s') && |s'.io.slots| == cfg.sqsize && s'.q.del.NotStarted?
    ensures s'.io.slots[0].tasks == multiset{Rebind(n)} && s'.io.slots[0].serving == Some(n)
    ensures !s'.io.slots[0].d.active && !s'.io.slots[0].d.abort
  {
    hide Reachable;
    Next(cfg, s, Run(0, Return, AnyEnv));
    s' := Step(cfg, s, Run(0, Return, AnyEnv));
    assert s.io.slots[0].tasks - multiset{Return} + multiset{Rebind(n)} == multiset{Rebind(n)};
  }

  lemma Waits(cfg: Config, s: State)
    requires Emptied(cfg, s, 0)
    ensures s.q == QueueWith(2 + cfg.sqsize, multiset{cfg.sqsize}) && |s.io.slots| == cfg.sqsize
  {
  }

  /** The deletion goes through the fods from `i` on, up to the drain. */
  lemma {:induction false} MarkUpTo(cfg: Config, s: State, i: nat) returns (s': State)
    requires Reachable(cfg, s) && s.q.del == Marking(i) && 0 < i <= |s.io.slots|
    ensures Reachable(cfg, s') && s'.q.del == Marking(|s.io.slots|) && |s'.io.slots| == |s.io.slots|
    ensures s'.io.slots[0] == s.io.slots[0]
    decreases |s.io.slots| - i
  {
    hide Reachable, Visited;
    s' := s;
    if i < |s.io.slots| {
      Next(cfg, s, DelMark);
      s' := MarkUpTo(cfg, Step(cfg, s, DelMark), i + 1);
    }
  }

  /** The deletion passes a fod that is between two commands; the fod is tied to the second and is in use, unmarked, when
      the deletion has gone through all of them. */
  lemma EscapesDeletion(cfg: Config) returns (s: State)
    requires cfg.sqsize > 0 && cfg.deferRcv
    ensures Reachable(cfg, s) && |s.io.slots| == cfg.sqsize && s.q.del == Marking(cfg.sqsize)
    ensures s.io.slots[0].d.active && !s.io.slots[0].d.abort && s.io.slots[0].serving == Some(cfg.sqsize)
  {
    hide Reachable;
    var n := cfg.sqsize;
    var s0 := Resumed(cfg);
    Next(cfg, s0, DelStart);
    var s1 := Step(cfg, s0, DelStart);
    Next(cfg, s1, DelMark);
    var s2 := Step(cfg, s1, DelMark);
    assert s2.io.slots[0] == s0.io.slots[0];
    Next(cfg, s2, Run(0, Rebind(n), AnyEnv));
    var s3 := Step(cfg, s2, Run(0, Rebind(n), AnyEnv));
    s := MarkUpTo(cfg, s3, 1);
  }

  // ---------------------------------------------------------------- pages never freed

  /** A write of `total` bytes whose pages are allocated, whose mapping counts `n`, and whose first chunk is refused. */
  function LeakEnv(total: nat, n: nat): Env {
    Env(CmdIu(total, true, false, true), true, Some(n), false, 0, false, 0)
  }

  lemma LeakStart(cfg: Config, d: Fod, total: nat, n: nat)
    requires total > 0 && n <= Nent(cfg, total)
    ensures var (d', t) := Local(cfg, d, Work, LeakEnv(total, n));
            t == Xfer(WriteData) && d'.fcpreq == d.fcpreq && d'.total == total
    ensures MappedBy(cfg, LeakEnv(total, n)) == Some(n)
  {
    hide CeilDiv;
  }

  lemma LeakSections(cfg: Config, d: Fod, total: nat, n: nat)
    ensures var (d', t) := Local(cfg, d, Xfer(WriteData), LeakEnv(total, n));
            t == Task.CmdDone && d'.abort && d'.fcpreq == d.fcpreq && d'.total == d.total
    ensures d.abort ==> Local(cfg, d, Task.CmdDone, LeakEnv(total, n)) == (d, CmdGo(true))
    ensures Local(cfg, d, CmdGo(true), LeakEnv(total, n)) == (d, Abort)
    ensures var (d', t) := Local(cfg, d, Abort, LeakEnv(total, n));
            t == Free && d'.fcpreq == d.fcpreq && d'.total == d.total
  {
  }

  /** For every length and every count that the mapping may give: a run after which the command is released and its fod
      back in the pool, with as many pages still allocated as the mapping counted too few. */
  lemma LeakingRun(cfg: Config, total: nat, n: nat) returns (s: State)
    requires cfg.sqsize > 0 && total > 0 && n <= Nent(cfg, total)
    ensures Reachable(cfg, s) && |s.io.slots| == cfg.sqsize && s.h.released == multiset{0} && 0 in s.io.fodList
    ensures s.io.slots[0].mapped == Some(n) && s.io.slots[0].d.pages == Nent(cfg, total) - n
    ensures s.io.slots[0].d.sg <==> n == 0
  {
    hide Reachable, Local, RunStep, MappedBy, Nent;
    var s0 := FirstStarted(cfg);
    LeakStart(cfg, s0.io.slots[0].d, total, n);
    var s1 := RunFod(cfg, s0, 0, Work, LeakEnv(total, n), Xfer(WriteData));
    LeakSections(cfg, s1.io.slots[0].d, total, n);
    var s2 := RunFod(cfg, s1, 0, Xfer(WriteData), LeakEnv(total, n), Task.CmdDone);
    LeakSections(cfg, s2.io.slots[0].d, total, n);
    s := LeakRest(cfg, s2, total, n);
  }

  /** An aborted command of fod 0 is released, and the fod pooled. */
  lemma LeakRest(cfg: Config, s0: State, total: nat, n: nat) returns (s: State)
    requires Reachable(cfg, s0) && |s0.io.slots| == cfg.sqsize > 0 && s0.io.slots[0].tasks == multiset{Task.CmdDone}
    requires var v := s0.io.slots[0]; v.d.abort && v.d.fcpreq == Some(0) && v.mapped == Some(n) && v.d.total == total
    requires s0.q == QueueWith(2, multiset{}) && s0.h.released == multiset{}
    ensures Reachable(cfg, s) && |s.io.slots| == cfg.sqsize && s.h.released == multiset{0} && 0 in s.io.fodList
    ensures s.io.slots[0].mapped == Some(n) && s.io.slots[0].d.pages == Nent(cfg, total) - n
    ensures s.io.slots[0].d.sg <==> n == 0
  {
    hide Reachable, Local, RunStep, MappedBy, Nent;
    LeakSections(cfg, s0.io.slots[0].d, total, n);
    var s1 := RunFod(cfg, s0, 0, Task.CmdDone, LeakEnv(total, n), CmdGo(true));
    var s2 := RunFod(cfg, s1, 0, CmdGo(true), LeakEnv(total, n), Abort);
    s := LeakFree(cfg, s2, total, n);
    PagesBackIff(cfg, s, 0);
  }

  lemma LeakFree(cfg: Config, s0: State, total: nat, n: nat) returns (s: State)
    requires Reachable(cfg, s0) && |s0.io.slots| == cfg.sqsize > 0 && s0.io.slots[0].tasks == multiset{Abort}
    requires var v := s0.io.slots[0]; v.d.fcpreq == Some(0) && v.mapped == Some(n) && v.d.total == total
    requires s0.q == QueueWith(2, multiset{}) && s0.h.released == multiset{}
    ensures Reachable(cfg, s) && |s.io.slots| == cfg.sqsize && s.h.released == multiset{0} && 0 in s.io.fodList
    ensures s.io.slots[0].mapped == Some(n) && s.io.slots[0].d.total == total
  {
    hide Reachable, Local, RunStep, MappedBy, LeakEnv;
    LeakSections(cfg, s0.io.slots[0].d, total, n);
    var s1 := RunFod(cfg, s0, 0, Abort, LeakEnv(total, n), Free);
    var s2 := RunFod(cfg, s1, 0, Free, LeakEnv(total, n), Return);
    s := ToPool(cfg, s2, 0);
  }
}
