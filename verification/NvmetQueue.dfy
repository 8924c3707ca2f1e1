/**
  A thread that runs undisturbed: the sections of one fod one after the other, until the fod is handed to the LLDD, to
  the nvmet core or to a work item, or is back in the pool.  That is what one call of the source's functions does.
*/
module NvmetQueue {
  import opened Wrappers
  import opened NvmetModel
  import opened NvmetInvariant
  import opened NvmetSteps
  import opened NvmetTheorems
  import opened NvmetProgress

  /** A thread that runs a fod stops when the fod is with the LLDD or the nvmet core, queued, or idle. */
  predicate HandsOff(t: Task) {
    t.OpPending? || t.Exec? || t.Work?
  }

  function Stage(t: Task): nat {
    match t
    case OpDone => 9
    case OpSwitch(_) => 8
    case CmdDone => 7
    case CmdGo(_) => 6
    case Xfer(_) => 5
    case XmtRsp => 5
    case Abort => 4
    case Free => 3
    case Return => 2
    case Bind(_) => 1
    case Rebind(_) => 1
    case _ => 0
  }

  function PutStep(s: State): State {
    if s.q.puts > 0 && s.q.ref > 0 then s.(q := s.q.(puts := s.q.puts - 1, ref := s.q.ref - 1)) else s
  }

  /** Runs the thread of fod `f`, undisturbed, until it hands off; `xfers` bounds the data ops it may start. */
  ghost function Settle(cfg: Config, s: State, f: nat, env: Env, xfers: nat): State
    decreases xfers, if f < |s.io.slots| then (match TaskOf(s.io.slots[f].tasks) case Some(t) => Stage(t) case None => 0) else 0
  {
    if f >= |s.io.slots| || TaskOf(s.io.slots[f].tasks) == None then s
    else
      var t := TaskOf(s.io.slots[f].tasks).value;
      var v := s.io.slots[f];
      if HandsOff(t) || !QlockFree(s) || v.tasks != multiset{t} || (t.Free? && v.d.fcpreq == None) then s
      else if t.Return? && s.q.pending == [] then PutStep(PoolStep(s, f))
      else if t.Xfer? && xfers == 0 then s
      else
        var s' := RunStep(cfg, s, f, t, env);
        NextStage(cfg, s, f, t, env);
        Settle(cfg, s', f, env, if t.Xfer? then xfers - 1 else xfers)
  }

  lemma LocalStage(cfg: Config, d: Fod, t: Task, env: Env)
    requires IsLocal(t) && !HandsOff(t)
    ensures Stage(Local(cfg, d, t, env).1) < Stage(t) || t.Xfer?
  {
    hide Prepare, FreePages, GetPages, NoPages, BadDirection;
  }

  /** A fod left with one task. */
  lemma TheTask(tasks: multiset<Task>, t: Task)
    requires tasks == multiset{t}
    ensures |tasks| == 1 && TaskOf(tasks) == Some(t) && forall t' <- tasks :: t' == t
  {
  }

  lemma NextStage(cfg: Config, s: State, f: nat, t: Task, env: Env)
    requires f < |s.io.slots| && s.io.slots[f].tasks == multiset{t} && !HandsOff(t)
    requires t.Free? ==> s.io.slots[f].d.fcpreq.Some?
    requires t.Return? ==> s.q.pending != []
    ensures var v := RunStep(cfg, s, f, t, env).io.slots[f];
            |v.tasks| == 1 && forall t' <- v.tasks :: v.tasks == multiset{t'} && TaskOf(v.tasks) == Some(t') &&
                                                      (Stage(t') < Stage(t) || t.Xfer?)
    ensures |RunStep(cfg, s, f, t, env).io.slots| == |s.io.slots|
  {
    hide Local, TaskOf, MappedBy;
    assert s.io.slots[f].tasks - multiset{t} == multiset{};
    if IsLocal(t) {
      var t' := Local(cfg, s.io.slots[f].d, t, env).1;
      LocalStage(cfg, s.io.slots[f].d, t, env);
      TheTask(RunStep(cfg, s, f, t, env).io.slots[f].tasks, t');
    } else {
      var t' := if t.Free? then Return else if t.Return? then Rebind(s.q.pending[0]) else Work;
      TheTask(RunStep(cfg, s, f, t, env).io.slots[f].tasks, t');
    }
  }

  /** One section at a time. */
  lemma SettleSection(cfg: Config, s: State, f: nat, t: Task, env: Env, xfers: nat)
    requires f < |s.io.slots| && s.io.slots[f].tasks == multiset{t} && !HandsOff(t) && QlockFree(s)
    requires (t.Free? ==> s.io.slots[f].d.fcpreq.Some?) && (t.Return? ==> s.q.pending != []) && (t.Xfer? ==> xfers > 0)
    ensures Settle(cfg, s, f, env, xfers)
            == Settle(cfg, RunStep(cfg, s, f, t, env), f, env, if t.Xfer? then xfers - 1 else xfers)
  {
    assert TaskOf(s.io.slots[f].tasks) == Some(t);
    hide RunStep;
  }

  lemma SettleEnds(cfg: Config, s: State, f: nat, t: Task, env: Env, xfers: nat)
    requires f < |s.io.slots| && s.io.slots[f].tasks == multiset{t} && HandsOff(t)
    ensures Settle(cfg, s, f, env, xfers) == s
  {
    assert TaskOf(s.io.slots[f].tasks) == Some(t);
    hide RunStep;
  }

  lemma ReturnIsRun(cfg: Config, s: State, f: nat, env: Env)
    requires Inv(cfg, s) && Enabled(s, Run(f, Return, env)) && s.q.pending == []
    ensures var s' := PutStep(PoolStep(s, f));
            RunsTo(cfg, s, [Run(f, Return, env), PutRef], s') && Inv(cfg, s')
  {
    var s1, s', es := PoolStep(s, f), PutStep(PoolStep(s, f)), [Run(f, Return, env), PutRef];
    StepKeeps(cfg, s, Run(f, Return, env));
    assert Step(cfg, s, es[0]) == s1;
    PutHoldsRef(cfg, s1);
    StepKeeps(cfg, s1, PutRef);
    hide Inv;
    assert Step(cfg, s1, PutRef) == s';
    assert es[1..] == [PutRef] && es[1..][1..] == [];
    assert RunsTo(cfg, s', [], s');
    assert RunsTo(cfg, s1, [PutRef], s');
  }

  /** An undisturbed thread is one of the runs of the step system, made of internal steps only. */
  lemma {:induction false} SettleIsRun(cfg: Config, s: State, f: nat, env: Env, xfers: nat) returns (es: seq<Event>)
    requires Inv(cfg, s)
    ensures RunsTo(cfg, s, es, Settle(cfg, s, f, env, xfers)) && forall e <- es :: Internal(e)
    ensures Inv(cfg, Settle(cfg, s, f, env, xfers))
    decreases xfers, if f < |s.io.slots| then (match TaskOf(s.io.slots[f].tasks) case Some(t) => Stage(t) case None => 0) else 0
  {
    hide Inv, RunStep, Step;
    if Settle(cfg, s, f, env, xfers) == s {
      es := [];
    } else {
      var t := TaskOf(s.io.slots[f].tasks).value;
      if t.Return? && s.q.pending == [] {
        es := [Run(f, t, env), PutRef];
        ReturnIsRun(cfg, s, f, env);
      } else {
        es := RunThen(cfg, s, f, t, env, xfers);
      }
    }
  }

  lemma {:induction false} RunThen(cfg: Config, s: State, f: nat, t: Task, env: Env, xfers: nat) returns (es: seq<Event>)
    requires Inv(cfg, s) && f < |s.io.slots| && s.io.slots[f].tasks == multiset{t} && !HandsOff(t) && QlockFree(s)
    requires (t.Free? ==> s.io.slots[f].d.fcpreq.Some?) && (t.Return? ==> s.q.pending != []) && (t.Xfer? ==> xfers > 0)
    ensures RunsTo(cfg, s, es, Settle(cfg, s, f, env, xfers)) && forall e <- es :: Internal(e)
    ensures Inv(cfg, Settle(cfg, s, f, env, xfers))
    decreases xfers, Stage(t), 0
  {
    hide Inv, RunStep, Settle;
    var e := Run(f, t, env);
    StepKeeps(cfg, s, e);
    var next := RunStep(cfg, s, f, t, env);
    NextStage(cfg, s, f, t, env);
    SettleSection(cfg, s, f, t, env, xfers);
    assert next == Step(cfg, s, e);
    hide Step;
    var es' := SettleIsRun(cfg, next, f, env, if t.Xfer? then xfers - 1 else xfers);
    es := [e] + es';
    assert es[1..] == es' && Enabled(s, es[0]);
  }

  /** A thread that may start no more data ops is on its abort path. */
  predicate WithinXfers(d: Fod, t: Task, x: nat) {
    x > 0 || (match t
              case Xfer(_) => false
              case OpDone => d.abort
              case CmdDone => d.abort
              case OpSwitch(abort) => abort && d.abort
              case CmdGo(abort) => abort
              case _ => true)
  }

  lemma StaysWithin(cfg: Config, d: Fod, t: Task, env: Env, x: nat)
    requires IsLocal(t) && !HandsOff(t) && WithinXfers(d, t, x)
    ensures WithinXfers(Local(cfg, d, t, env).0, Local(cfg, d, t, env).1, if t.Xfer? then x - 1 else x)
  {
  }

  /** One data op is all that a thread starts, and it always ends by handing its fod off or leaving it idle. */
  lemma {:induction false} SettleHandsOff(cfg: Config, s: State, f: nat, t: Task, env: Env, x: nat)
    requires AtTask(cfg, s, f, t) && WithinXfers(s.io.slots[f].d, t, x)
    ensures var v := Settle(cfg, s, f, env, x).io.slots;
            f < |v| && (v[f].tasks == multiset{} || exists t' :: v[f].tasks == multiset{t'} && HandsOff(t'))
    decreases x, Stage(t)
  {
    hide Inv, Settle, RunStep, Local;
    if HandsOff(t) {
      SettleEnds(cfg, s, f, t, env, x);
    } else if IsLocal(t) {
      LocalSection(cfg, s, f, t, env, x);
      StaysWithin(cfg, s.io.slots[f].d, t, env, x);
      NextStage(cfg, s, f, t, env);
      var s', t' := RunStep(cfg, s, f, t, env), Local(cfg, s.io.slots[f].d, t, env).1;
      assert t' in s'.io.slots[f].tasks;
      SettleHandsOff(cfg, s', f, t', env, if t.Xfer? then x - 1 else x);
    } else {
      FreeingHandsOff(cfg, s, f, t, env, x);
    }
  }

  lemma FreeingHandsOff(cfg: Config, s: State, f: nat, t: Task, env: Env, x: nat)
    requires AtTask(cfg, s, f, t) && !IsLocal(t)
    ensures var v := Settle(cfg, s, f, env, x).io.slots;
            f < |v| && (v[f].tasks == multiset{} || v[f].tasks == multiset{Work})
  {
    hide Inv, Settle, FreeWhole, BindStep;
    if t.Free? {
      FreeSection(cfg, s, f, env, x);
      FreeWholeTasks(s, f);
    } else if t.Return? {
      ReturnSection(cfg, s, f, env, x);
      ReturnTasks(s, f);
    } else {
      SettleSection(cfg, s, f, t, env, x);
      BoundTasks(s, f, t);
      BoundHandsOff(cfg, BindStep(s, f, t), f, env, x);
    }
  }

  lemma BoundTasks(s: State, f: nat, t: Task)
    requires f < |s.io.slots| && s.io.slots[f].tasks == multiset{t} && (t.Bind? || t.Rebind?)
    ensures |BindStep(s, f, t).io.slots| == |s.io.slots| && BindStep(s, f, t).io.slots[f].tasks == multiset{Work}
  {
    assert s.io.slots[f].tasks - multiset{t} == multiset{};
  }

  /** The tasks of a fod past the lock section of nvmet_fc_free_fcp_iod. */
  lemma ReturnTasks(s: State, f: nat)
    requires f < |s.io.slots| && s.io.slots[f].tasks == multiset{Return}
    ensures var v := (if s.q.pending == [] then PutStep(PoolStep(s, f))
                      else BindStep(ResumeStep(s, f), f, Rebind(s.q.pending[0]))).io.slots;
            |v| == |s.io.slots| && (v[f].tasks == multiset{} || v[f].tasks == multiset{Work})
  {
    hide BindStep;
    assert s.io.slots[f].tasks - multiset{Return} == multiset{};
    if s.q.pending != [] { BoundTasks(ResumeStep(s, f), f, Rebind(s.q.pending[0])); }
  }

  lemma FreeWholeTasks(s: State, f: nat)
    requires f < |s.io.slots| && s.io.slots[f].tasks == multiset{Free} && s.io.slots[f].d.fcpreq.Some?
    ensures var v := FreeWhole(s, f).io.slots;
            |v| == |s.io.slots| && (v[f].tasks == multiset{} || v[f].tasks == multiset{Work})
  {
    hide BindStep, PoolStep, ResumeStep, PutStep;
    assert s.io.slots[f].tasks - multiset{Free} + multiset{Return} == multiset{Return};
    ReturnTasks(FreeStep(s, f), f);
  }

  lemma BoundHandsOff(cfg: Config, s: State, f: nat, env: Env, x: nat)
    requires f < |s.io.slots| && s.io.slots[f].tasks == multiset{Work}
    ensures Settle(cfg, s, f, env, x) == s
  {
    SettleEnds(cfg, s, f, Work, env, x);
  }

  // ---------------------------------------------------------------- what one section does to the fields

  ghost predicate AtTask(cfg: Config, s: State, f: nat, t: Task) {
    Inv(cfg, s) && QlockFree(s) && f < |s.io.slots| && s.io.slots[f].tasks == multiset{t}
  }

  lemma LocalSection(cfg: Config, s: State, f: nat, t: Task, env: Env, x: nat)
    requires AtTask(cfg, s, f, t) && IsLocal(t) && (t.Xfer? ==> x > 0)
    ensures var s' := RunStep(cfg, s, f, t, env);
            var (d, t') := Local(cfg, s.io.slots[f].d, t, env);
            && AtTask(cfg, s', f, t') && s'.q == s.q && s'.h == s.h
            && s'.io.slots == s.io.slots[f := s'.io.slots[f]] && s'.io.slots[f].d == d
            && s'.io.fodList == s.io.fodList && s'.io.private == s.io.private
            && (!HandsOff(t) ==> Settle(cfg, s, f, env, x) == Settle(cfg, s', f, env, if t.Xfer? then x - 1 else x))
  {
    StepKeeps(cfg, s, Run(f, t, env));
    if !HandsOff(t) { SettleSection(cfg, s, f, t, env, x); }
    hide Inv, Local, Settle;
    var t' := Local(cfg, s.io.slots[f].d, t, env).1;
    assert s.io.slots[f].tasks - multiset{t} + multiset{t'} == multiset{t'};
  }

  /** nvmet_fc_free_fcp_iod as a whole. */
  ghost function FreeWhole(s: State, f: nat): State
    requires f < |s.io.slots| && s.io.slots[f].d.fcpreq.Some?
  {
    var s1 := FreeStep(s, f);
    if s1.q.pending == [] then PutStep(PoolStep(s1, f))
    else BindStep(ResumeStep(s1, f), f, Rebind(s1.q.pending[0]))
  }

  lemma FreeSection(cfg: Config, s: State, f: nat, env: Env, x: nat)
    requires AtTask(cfg, s, f, Free)
    ensures s.io.slots[f].d.fcpreq.Some?
    ensures Settle(cfg, s, f, env, x) == FreeWhole(s, f) && Inv(cfg, FreeWhole(s, f))
  {
    FreeIo(cfg, s, f);
    SettleSection(cfg, s, f, Free, env, x);
    var s1 := FreeStep(s, f);
    NextStage(cfg, s, f, Free, env);
    assert s.io.slots[f].tasks - multiset{Free} + multiset{Return} == multiset{Return};
    var es := SettleIsRun(cfg, s, f, env, x);
    hide Inv, RunsTo, FreeStep;
    ReturnSection(cfg, s1, f, env, x);
  }

  lemma ReturnSection(cfg: Config, s: State, f: nat, env: Env, x: nat)
    requires QlockFree(s) && f < |s.io.slots| && s.io.slots[f].tasks == multiset{Return}
    ensures Settle(cfg, s, f, env, x)
            == if s.q.pending == [] then PutStep(PoolStep(s, f))
               else BindStep(ResumeStep(s, f), f, Rebind(s.q.pending[0]))
  {
    assert TaskOf(s.io.slots[f].tasks) == Some(Return);
    if s.q.pending != [] {
      var c := s.q.pending[0];
      SettleSection(cfg, s, f, Return, env, x);
      var s1 := ResumeStep(s, f);
      assert s1.io.slots[f].tasks == multiset{Rebind(c)};
      SettleSection(cfg, s1, f, Rebind(c), env, x);
      var s2 := BindStep(s1, f, Rebind(c));
      assert s2.io.slots[f].tasks == multiset{Work};
      SettleEnds(cfg, s2, f, Work, env, x);
    }
  }

  function Cleared(d: Fod): Fod {
    d.(active := false, abort := false, aborted := false, writing := false, fcpreq := None)
  }

  /** nvmet_fc_free_fcp_iod, field by field. */
  lemma FreeFields(cfg: Config, s: State, f: nat)
    requires AtTask(cfg, s, f, Free) && s.io.slots[f].d.fcpreq.Some?
    ensures s.q.pending == [] ==> s.q.ref > 0
    ensures var s', d := FreeWhole(s, f), Cleared(s.io.slots[f].d);
            var private := s.io.private - {s.io.slots[f].d.fcpreq.value};
            && s'.io.slots == s.io.slots[f := s'.io.slots[f]]
            && s'.q.connected == s.q.connected
            && if s.q.pending == [] then
                 && s'.io.slots[f].d == d && s'.io.fodList == s.io.fodList + [f] && s'.io.private == private
                 && s'.q.pending == [] && s'.q.avail == s.q.avail && s'.q.ref == s.q.ref - 1
               else
                 var c := s.q.pending[0];
                 && s'.io.slots[f].d == d.(fcpreq := Some(c), active := true) && s'.io.fodList == s.io.fodList
                 && s'.io.private == private[c := f]
                 && s'.q.pending == s.q.pending[1..] && s'.q.avail == s.q.avail + 1 && s'.q.ref == s.q.ref
  {
    FreeKeeps(cfg, s, f);
    var s1 := FreeStep(s, f);
    assert s.io.slots[f].tasks - multiset{Free} + multiset{Return} == multiset{Return};
    if s.q.pending == [] {
      PoolKeeps(cfg, s1, f);
      PutHoldsRef(cfg, PoolStep(s1, f));
    }
    hide Inv;
  }
}
