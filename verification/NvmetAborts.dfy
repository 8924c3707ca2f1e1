/** Which command an abort marks, when other threads run between its loads and its lock section. */
module NvmetAborts {
  import opened Wrappers
  import opened NvmetModel
  import opened NvmetInvariant
  import opened NvmetSteps
  import opened NvmetTheorems

  /** The command of an abort under way is still tied to the fod, or has been released. */
  predicate TiedOrDone(s: State, a: Aborting) {
    a.f < |s.io.slots| && (s.io.slots[a.f].d.fcpreq == Some(a.c) || s.h.released[a.c] > 0)
  }

  predicate AbortsOk(s: State) {
    forall a <- s.q.loads + s.q.marks :: TiedOrDone(s, a)
  }

  /** A tie between fod and command that is there before a step is there after it, or the command has been released. */
  predicate TiesLast(s: State, s': State) {
    && |s'.io.slots| == |s.io.slots| && s.h.released <= s'.h.released
    && forall f :: 0 <= f < |s.io.slots| && s.io.slots[f].d.fcpreq.Some? ==>
         s'.io.slots[f].d.fcpreq == s.io.slots[f].d.fcpreq || s'.h.released[s.io.slots[f].d.fcpreq.value] > 0
  }

  lemma RunTies(cfg: Config, s: State, f: nat, t: Task, env: Env)
    requires IoOk(cfg, s.io) && Enabled(s, Run(f, t, env))
    ensures TiesLast(s, RunStep(cfg, s, f, t, env))
  {
    RunningTask(cfg, s.io, f, t);
    if IsLocal(t) { LocalBinding(cfg, s.io.slots[f], t, env); }
    hide LocalSlot, DataOk, IoOk;
  }

  lemma StepTies(cfg: Config, s: State, e: Event)
    requires Inv(cfg, s) && Enabled(s, e)
    ensures TiesLast(s, Step(cfg, s, e))
  {
    hide IoOk, RunStep, TiesLast;
    if e.Run? {
      RunTies(cfg, s, e.f, e.t, e.env);
    } else {
      OtherTies(cfg, s, e);
    }
  }

  lemma OtherTies(cfg: Config, s: State, e: Event)
    requires Enabled(s, e) && !e.Run?
    ensures TiesLast(s, Step(cfg, s, e))
  {
  }

  /** Only the abort's own steps touch the pointers in use. */
  lemma PointersSame(cfg: Config, s: State, e: Event)
    requires Enabled(s, e) && !e.AbortLoad? && !e.AbortTest? && !e.AbortMark?
    ensures Step(cfg, s, e).q.loads == s.q.loads && Step(cfg, s, e).q.marks == s.q.marks
  {
    hide SetSlot, LocalSlot, MarkAbort, MarkDeleted;
  }

  /** The pointers in use after a step were in use before, or are those of a request tied to its fod. */
  lemma StepPointers(cfg: Config, s: State, e: Event, a: Aborting)
    requires LinksOk(s.io) && Enabled(s, e)
    requires a in Step(cfg, s, e).q.loads + Step(cfg, s, e).q.marks
    ensures a in s.q.loads + s.q.marks || (a.f < |s.io.slots| && s.io.slots[a.f].d.fcpreq == Some(a.c))
  {
    if e.AbortLoad? || e.AbortTest? || e.AbortMark? {
      hide SetSlot, RunStep, DelMarkStep, AllocFod, AllocNone, FindStep, DeferStep, DelTakeStep;
    } else {
      hide Step, Enabled, LinksOk;
      PointersSame(cfg, s, e);
    }
  }

  lemma StepAborts(cfg: Config, s: State, e: Event)
    requires Inv(cfg, s) && AbortsOk(s) && Enabled(s, e)
    ensures AbortsOk(Step(cfg, s, e))
  {
    StepTies(cfg, s, e);
    hide Step, CommandsOk, SlotsOk, Enabled;
    var s' := Step(cfg, s, e);
    forall a <- s'.q.loads + s'.q.marks ensures TiedOrDone(s', a) {
      StepPointers(cfg, s, e, a);
    }
  }

  lemma {:induction false} RunAborts(cfg: Config, s: State, es: seq<Event>, s': State)
    requires Inv(cfg, s) && AbortsOk(s) && RunsTo(cfg, s, es, s')
    ensures AbortsOk(s')
    decreases |es|
  {
    hide Inv, AbortsOk, Enabled, Step;
    if es != [] {
      StepKeeps(cfg, s, es[0]);
      StepAborts(cfg, s, es[0]);
      RunAborts(cfg, Step(cfg, s, es[0]), es[1..], s');
    }
  }

  lemma ReachableAborts(cfg: Config, s: State)
    requires Reachable(cfg, s)
    ensures AbortsOk(s)
  {
    var es :| RunsTo(cfg, Init(cfg), es, s);
    InitInv(cfg);
    RunAborts(cfg, Init(cfg), es, s);
  }

  /** The command that a mark on the fod would abort. */
  function Hit(v: Slot): Option<Cmd> {
    if v.d.active then v.serving else None
  }

  /** The fod has a command, and is not about to be tied to a deferred one. */
  ghost predicate BoundAgain(v: Slot) {
    v.serving.Some? && forall c :: Rebind(c) !in v.tasks
  }

  lemma HitIs(cfg: Config, s: State, f: nat)
    requires Inv(cfg, s) && f < |s.io.slots|
    ensures var v := s.io.slots[f];
            && (v.d.fcpreq.Some? ==> v.d.fcpreq == v.serving && v.d.active)
            && (v.d.active <==> BoundAgain(v))
            && (v.serving.Some? ==> s.h.released[v.serving.value] == 0)
            && forall c :: s.h.released[c] <= 1
  {
    hide DataOk, Served, LinksOk;
    assert SlotOk(cfg, s.io, f);
    forall c ensures s.h.released[c] <= 1 { assert CommandOk(s, c); }
    var v := s.io.slots[f];
    if v.serving.Some? {
      ServedHas(s.io.slots, f, v.serving.value);
      assert CommandOk(s, v.serving.value);
    }
  }

  /** In every run, whatever happened since the pointer was loaded: the lock section of an abort marks its own command if
      and only if that has not been released yet; it marks another command if and only if that has been released and
      the fod bound again; and in the cases left over it changes nothing. */
  lemma AbortHits(cfg: Config, s: State, a: Aborting)
    requires Reachable(cfg, s) && a in s.q.marks
    ensures a.f < |s.io.slots|
    ensures var v, d' := s.io.slots[a.f], AbortStep(s, a).io.slots[a.f].d;
            && d' == (if Hit(v).Some? then v.d.(abort := true, aborted := true) else v.d)
            && (Hit(v) == Some(a.c) <==> s.h.released[a.c] == 0)
            && (Hit(v).Some? && Hit(v) != Some(a.c) <==> s.h.released[a.c] == 1 && BoundAgain(v))
  {
    ReachableInv(cfg, s);
    ReachableAborts(cfg, s);
    assert TiedOrDone(s, a);
    HitIs(cfg, s, a.f);
    hide Reachable, Inv, BoundAgain, AbortsOk;
  }
}
