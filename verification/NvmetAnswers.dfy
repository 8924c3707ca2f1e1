/** What becomes of a command: which header is refused, when data is sent, and that every command is answered or given up
    for a cause. */
module NvmetAnswers {
  import opened Wrappers
  import opened NvmetModel
  import opened NvmetInvariant
  import opened NvmetSteps
  import opened NvmetTheorems

  // ---------------------------------------------------------------- the past of a command

  /** The driver's answer to the last op was an error, or short. */
  predicate Short(d: Fod) { d.error || d.transferred != d.xferLen }

  /** The number of responses that the driver has completed when an op of the fod is done. */
  function AnswersNow(d: Fod): nat {
    if d.op == Rsp || (d.op == ReadDataRsp && !Short(d)) then 1 else 0
  }

  /** The data of the command has been moved as the upper layer's status asks for. */
  predicate DataAnswers(cfg: Config, v: Slot) {
    && v.past.status.Some? && (v.d.dir.NoData? ==> v.issued == [])
    && (v.d.dir.WriteDir? && v.mapped.Some? ==> Complete(cfg, v.d.total, v.issued) && v.d.offset == v.d.total)
    && (v.d.dir.ReadDir? && v.mapped.Some? && v.mapped.value > 0 ==>
          if v.past.status == Some(0) then Complete(cfg, v.d.total, v.issued) && v.d.offset == v.d.total
          else v.issued == [])
  }

  /** The count of the mapping is still with the pages, and the response does not come before the data. */
  predicate HasPages(v: Slot) {
    v.mapped.Some? ==> v.d.sgCnt == v.mapped.value
  }

  predicate OpPast(cfg: Config, v: Slot) {
    match v.d.op
    case Rsp => DataAnswers(cfg, v)
    case WriteData => HasPages(v) && v.past.status == None
    case _ => HasPages(v) && v.past.status == Some(0)
  }

  predicate Finishing(cfg: Config, v: Slot, abort: bool) {
    && HasPages(v) && v.past.status == None && v.past.answers == 0
    && (v.d.dir.WriteDir? && !abort && v.mapped.Some? ==>
          Complete(cfg, v.d.total, v.issued) && v.d.offset == v.d.total)
  }

  /** The fod has the length and the direction that the header gives. */
  predicate FromHeader(d: Fod, iu: CmdIu) {
    d.total == iu.total && (d.dir.WriteDir? <==> iu.write) && (d.dir.ReadDir? <==> iu.read && !iu.write)
  }

  predicate PastOk(cfg: Config, v: Slot, t: Task) {
    var p := v.past;
    && (if t.Bind? || t.Rebind? || t.Work? || t.Return? then p.iu == None else p.iu.Some? && FromHeader(v.d, p.iu.value))
    && (if t.Free? then p.asked <= 1 && (p.gaveUp ==> v.d.aborted || p.asked == 1)
        else !p.gaveUp && p.asked == if p.visited && p.waiting then 1 else 0)
    && (v.d.writing ==> t == Xfer(WriteData) || t.OpPending? || t.OpDone?)
    && match t
       case Bind(_) => p.status == None && p.answers == 0 && !p.trouble
       case Rebind(_) => p.status == None && p.answers == 0 && !p.trouble
       case Work => p.status == None && p.answers == 0 && !p.trouble
       case Exec => p.status == None && p.answers == 0 && !p.trouble && HasPages(v)
       case Xfer(op) =>
         && p.answers == 0 && !p.trouble && HasPages(v)
         && p.status == if op == ReadData then Some(0) else None
       case XmtRsp => p.answers == 0 && !p.trouble && DataAnswers(cfg, v)
       case OpPending => p.answers == 0 && !p.trouble && OpPast(cfg, v)
       case OpDone => p.answers == AnswersNow(v.d) && p.trouble == (v.d.op != Rsp && Short(v.d)) && OpPast(cfg, v)
       case OpSwitch(abort) =>
         && p.answers == AnswersNow(v.d) && p.trouble == (abort || (v.d.op != Rsp && Short(v.d))) && OpPast(cfg, v)
       case CmdDone => Finishing(cfg, v, v.d.abort) && (p.trouble ==> v.d.abort)
       case CmdGo(abort) => Finishing(cfg, v, abort) && p.trouble == abort
       case Abort => p.answers <= 1 && p.trouble
       case Free => p.answers <= 1 && (p.gaveUp || p.answers == 1) && p.trouble == p.gaveUp
       case Return => true
  }

  /** A fod that the deletion came by while it was in use is marked, and as aborted if it waited for write data. */
  predicate VisitOk(v: Slot) {
    v.past.visited ==> v.d.active && v.d.abort && (v.past.waiting ==> v.d.aborted)
  }

  predicate SlotPast(cfg: Config, v: Slot) {
    VisitOk(v) && (v.tasks == multiset{} ==> !v.d.writing) && forall t <- v.tasks :: PastOk(cfg, v, t)
  }

  predicate SlotsPast(cfg: Config, io: Io) {
    forall f :: 0 <= f < |io.slots| ==> SlotPast(cfg, io.slots[f])
  }

  /** Every released command was answered once, or given up. */
  predicate ReleasesOk(h: History) {
    forall c <- h.released :: h.answered[c] <= 1 && (h.answered[c] == 1 || c in h.gaveUp)
  }

  /** While the deletion goes through the fods: one that it has passed and that is in use now was in use then, or has
      been bound to a deferred command since. */
  predicate PassedOk(s: State) {
    && (s.q.del.Marking? ==>
          forall f :: 0 <= f < s.q.del.i && f < |s.io.slots| && s.io.slots[f].d.active ==>
            s.io.slots[f].past.visited || Deferred(s, f))
    && forall f :: 0 <= f < |s.io.slots| && Ahead(s, f) ==> !s.io.slots[f].past.visited
  }

  /** The deletion has not come by the fod yet. */
  predicate Ahead(s: State, f: nat) {
    s.q.del.NotStarted? || (s.q.del.Marking? && s.q.del.i <= f)
  }

  /** A fod about to be tied to a deferred command. */
  ghost predicate RebindsOk(s: State) {
    forall f, c :: 0 <= f < |s.io.slots| && Rebind(c) in s.io.slots[f].tasks ==> c in s.h.taken
  }

  ghost predicate AnswersOk(cfg: Config, s: State) {
    SlotsPast(cfg, s.io) && ReleasesOk(s.h) && PassedOk(s) && RebindsOk(s)
  }

  /** The fod serves a command that was taken off the pending list. */
  predicate Deferred(s: State, f: nat)
    requires f < |s.io.slots|
  {
    s.io.slots[f].serving.Some? && s.io.slots[f].serving.value in s.h.taken
  }

  // ---------------------------------------------------------------- one section of one fod

  lemma WorkPast(cfg: Config, v: Slot, env: Env)
    requires BusyWith(cfg, v, Work) && PastOk(cfg, v, Work)
    ensures PastOk(cfg, LocalSlot(cfg, v, Work, env), Local(cfg, v.d, Work, env).1)
  {
    hide Complete, OnPlan, CeilDiv;
  }

  lemma XferPast(cfg: Config, v: Slot, op: Op, env: Env)
    requires BusyWith(cfg, v, Xfer(op)) && PastOk(cfg, v, Xfer(op))
    ensures PastOk(cfg, LocalSlot(cfg, v, Xfer(op), env), Local(cfg, v.d, Xfer(op), env).1)
  {
    hide Complete, OnPlan, CeilDiv, AtChunk;
  }

  lemma PendingPast(cfg: Config, v: Slot, env: Env)
    requires BusyWith(cfg, v, OpPending) && PastOk(cfg, v, OpPending)
    ensures PastOk(cfg, LocalSlot(cfg, v, OpPending, env), OpDone)
  {
    hide Complete, OnPlan, InChunk, CeilDiv, AllOrNothing;
  }

  lemma DonePast(cfg: Config, v: Slot, env: Env)
    requires BusyWith(cfg, v, OpDone) && PastOk(cfg, v, OpDone)
    ensures PastOk(cfg, LocalSlot(cfg, v, OpDone, env), OpSwitch(v.d.abort))
  {
    hide Complete, OnPlan, InChunk, CeilDiv, AllOrNothing;
  }

  lemma PendingIs(cfg: Config, v: Slot, env: Env)
    ensures Local(cfg, v.d, OpPending, env).1 == OpDone && Local(cfg, v.d, OpDone, env).1 == OpSwitch(v.d.abort)
  {
  }

  lemma WriteSwitchPast(cfg: Config, v: Slot, abort: bool, env: Env)
    requires v.d.op == WriteData && BusyWith(cfg, v, OpSwitch(abort)) && PastOk(cfg, v, OpSwitch(abort))
    ensures PastOk(cfg, LocalSlot(cfg, v, OpSwitch(abort), env), Local(cfg, v.d, OpSwitch(abort), env).1)
  {
    hide Complete, OnPlan, InChunk, CeilDiv;
  }

  lemma ReadSwitchPast(cfg: Config, v: Slot, abort: bool, env: Env)
    requires (v.d.op == ReadData || v.d.op == ReadDataRsp)
    requires BusyWith(cfg, v, OpSwitch(abort)) && PastOk(cfg, v, OpSwitch(abort))
    ensures PastOk(cfg, LocalSlot(cfg, v, OpSwitch(abort), env), Local(cfg, v.d, OpSwitch(abort), env).1)
  {
    hide Complete, OnPlan, InChunk, CeilDiv;
    if !abort && !Short(v.d) { ChunkDone(cfg, v); }
  }

  lemma RspSwitchPast(cfg: Config, v: Slot, abort: bool, env: Env)
    requires v.d.op == Rsp && BusyWith(cfg, v, OpSwitch(abort)) && PastOk(cfg, v, OpSwitch(abort))
    ensures PastOk(cfg, LocalSlot(cfg, v, OpSwitch(abort), env), Local(cfg, v.d, OpSwitch(abort), env).1)
  {
    hide Complete, OnPlan, InChunk, CeilDiv;
  }

  lemma OtherPast(cfg: Config, v: Slot, t: Task, env: Env)
    requires t.Exec? || t.XmtRsp? || t.CmdDone? || t.CmdGo? || t.Abort?
    requires VisitOk(v) && BusyWith(cfg, v, t) && PastOk(cfg, v, t)
    ensures PastOk(cfg, LocalSlot(cfg, v, t, env), Local(cfg, v.d, t, env).1)
  {
    hide Complete, OnPlan, CeilDiv;
  }

  lemma LocalPast(cfg: Config, v: Slot, t: Task, env: Env)
    requires IsLocal(t) && VisitOk(v) && BusyWith(cfg, v, t) && PastOk(cfg, v, t)
    ensures PastOk(cfg, LocalSlot(cfg, v, t, env), Local(cfg, v.d, t, env).1)
  {
    hide BusyWith, PastOk, LocalSlot, Local, VisitOk;
    match t {
      case Work => WorkPast(cfg, v, env);
      case Xfer(op) => XferPast(cfg, v, op, env);
      case OpPending => PendingIs(cfg, v, env); PendingPast(cfg, v, env);
      case OpDone => PendingIs(cfg, v, env); DonePast(cfg, v, env);
      case OpSwitch(abort) =>
        if v.d.op == Rsp { RspSwitchPast(cfg, v, abort, env); }
        else if v.d.op == WriteData { WriteSwitchPast(cfg, v, abort, env); }
        else { ReadSwitchPast(cfg, v, abort, env); }
      case _ => OtherPast(cfg, v, t, env);
    }
  }

  lemma LocalVisit(cfg: Config, v: Slot, t: Task, env: Env)
    requires IsLocal(t) && VisitOk(v)
    ensures var v' := LocalSlot(cfg, v, t, env);
            && VisitOk(v') && v'.d.active == v.d.active && v'.past.visited == v.past.visited
            && v'.tasks == v.tasks - multiset{t} + multiset{Local(cfg, v.d, t, env).1} && v'.serving == v.serving
  {
    hide CeilDiv;
  }

  /** Abort marks from other threads. */
  lemma AbortPast(cfg: Config, v: Slot)
    requires SlotPast(cfg, v)
    ensures SlotPast(cfg, v.(d := MarkAbort(v.d)))
  {
    hide Complete, OnPlan;
  }

  lemma VisitPast(cfg: Config, v: Slot)
    requires SlotPast(cfg, v) && !v.past.visited
    ensures SlotPast(cfg, Visited(v))
  {
    hide Complete, OnPlan;
  }

  // ---------------------------------------------------------------- one step

  lemma SetPast(cfg: Config, io: Io, f: nat, v: Slot)
    requires SlotsPast(cfg, io) && f < |io.slots| && SlotPast(cfg, v)
    ensures SlotsPast(cfg, SetSlot(io, f, v))
  {
    hide SlotPast;
  }

  /** A section that changes one fod, takes no command off the pending list and leaves the deletion where it is. */
  lemma OneFodAnswers(cfg: Config, s: State, s': State, f: nat, v: Slot)
    requires AnswersOk(cfg, s) && f < |s.io.slots| && s'.io.slots == s.io.slots[f := v] && SlotPast(cfg, v)
    requires s'.h.taken == s.h.taken && s'.q.del == s.q.del && ReleasesOk(s'.h)
    requires forall c :: Rebind(c) in v.tasks ==> c in s.h.taken
    requires v.d.active && s.q.del.Marking? && f < s.q.del.i ==>
               v.past.visited || (v.serving.Some? && v.serving.value in s.h.taken)
    requires v.past.visited ==> s.io.slots[f].past.visited
    ensures AnswersOk(cfg, s')
  {
    hide SlotPast, ReleasesOk;
    SetPast(cfg, s.io, f, v);
    forall g | s.q.del.Marking? && 0 <= g < s.q.del.i && g < |s'.io.slots| && s'.io.slots[g].d.active
      ensures s'.io.slots[g].past.visited || Deferred(s', g)
    {
      if g != f { assert s.io.slots[g].past.visited || Deferred(s, g); }
    }
    forall g | 0 <= g < |s'.io.slots| && Ahead(s', g) ensures !s'.io.slots[g].past.visited { assert Ahead(s, g); }
  }

  lemma LocalAnswers(cfg: Config, s: State, f: nat, t: Task, env: Env)
    requires IoOk(cfg, s.io) && AnswersOk(cfg, s) && f < |s.io.slots| && t in s.io.slots[f].tasks && IsLocal(t)
    ensures AnswersOk(cfg, RunStep(cfg, s, f, t, env))
  {
    RunningTask(cfg, s.io, f, t);
    var v := s.io.slots[f];
    assert SlotPast(cfg, v) && PastOk(cfg, v, t);
    LocalPast(cfg, v, t, env);
    LocalVisit(cfg, v, t, env);
    assert v.tasks == multiset{t};
    hide LocalSlot, Local, BusyWith, PastOk, IoOk, VisitOk, ReleasesOk;
    NoRebind(cfg, v, t, env);
    var v' := LocalSlot(cfg, v, t, env);
    assert v'.tasks == multiset{Local(cfg, v.d, t, env).1};
    OneFodAnswers(cfg, s, RunStep(cfg, s, f, t, env), f, v');
  }

  lemma NoRebind(cfg: Config, v: Slot, t: Task, env: Env)
    requires IsLocal(t)
    ensures !Local(cfg, v.d, t, env).1.Rebind?
  {
    hide Prepare, GetPages, FreePages, BadDirection;
  }

  lemma BindAnswers(cfg: Config, s: State, f: nat, t: Task)
    requires IoOk(cfg, s.io) && AnswersOk(cfg, s) && f < |s.io.slots| && t in s.io.slots[f].tasks && (t.Bind? || t.Rebind?)
    ensures AnswersOk(cfg, BindStep(s, f, t))
  {
    RunningTask(cfg, s.io, f, t);
    var v, v' := s.io.slots[f], BindStep(s, f, t).io.slots[f];
    assert SlotPast(cfg, v) && PastOk(cfg, v, t) && v'.tasks == multiset{Work};
    assert PastOk(cfg, v', Work);
    hide IoOk, DataOk, PastOk, ReleasesOk, SlotsPast, RebindsOk;
    assert SlotPast(cfg, v');
    OneFodAnswers(cfg, s, BindStep(s, f, t), f, v');
  }

  lemma FreeAnswers(cfg: Config, s: State, f: nat)
    requires IoOk(cfg, s.io) && AnswersOk(cfg, s) && f < |s.io.slots| && Free in s.io.slots[f].tasks
    requires s.io.slots[f].d.fcpreq.Some?
    ensures AnswersOk(cfg, FreeStep(s, f))
  {
    RunningTask(cfg, s.io, f, Free);
    var v, s' := s.io.slots[f], FreeStep(s, f);
    assert SlotPast(cfg, v) && PastOk(cfg, v, Free) && s'.io.slots[f].tasks == multiset{Return};
    assert SlotPast(cfg, s'.io.slots[f]) && ReleasesOk(s'.h);
    hide IoOk, DataOk, SlotPast, ReleasesOk;
    OneFodAnswers(cfg, s, s', f, s'.io.slots[f]);
  }

  lemma ReturnPast(cfg: Config, s: State, f: nat, env: Env)
    requires f < |s.io.slots| && s.io.slots[f].tasks == multiset{Return} && SlotPast(cfg, s.io.slots[f])
    ensures var s' := RunStep(cfg, s, f, Return, env);
            && |s'.io.slots| == |s.io.slots| && SlotPast(cfg, s'.io.slots[f])
            && s'.io.slots == s.io.slots[f := s'.io.slots[f]] && s'.q.del == s.q.del
            && s'.h.released == s.h.released && s'.h.answered == s.h.answered && s'.h.gaveUp == s.h.gaveUp
            && (forall c <- s.h.taken :: c in s'.h.taken)
            && (s'.io.slots[f].past.visited ==> s.io.slots[f].past.visited)
            && forall t <- s'.io.slots[f].tasks :: t.Rebind? && t.c in s'.h.taken
  {
    var v := s.io.slots[f];
    assert PastOk(cfg, v, Return) && v.tasks - multiset{Return} == multiset{};
    if s.q.pending != [] {
      var v' := ResumeStep(s, f).io.slots[f];
      assert v'.tasks == multiset{Rebind(s.q.pending[0])} && PastOk(cfg, v', Rebind(s.q.pending[0]));
    }
  }

  /** While the deletion is not going through the fods, only what it visits matters. */
  lemma PassedSame(s: State, s': State, f: nat)
    requires PassedOk(s) && !s.q.del.Marking? && s'.q.del == s.q.del && f < |s.io.slots|
    requires |s'.io.slots| == |s.io.slots| && s'.io.slots == s.io.slots[f := s'.io.slots[f]]
    requires s'.io.slots[f].past.visited ==> s.io.slots[f].past.visited
    ensures PassedOk(s')
  {
    forall g | 0 <= g < |s'.io.slots| && Ahead(s', g) ensures !s'.io.slots[g].past.visited { assert Ahead(s, g); }
  }

  lemma ReturnAnswers(cfg: Config, s: State, f: nat, env: Env)
    requires IoOk(cfg, s.io) && AnswersOk(cfg, s) && Enabled(s, Run(f, Return, env))
    ensures AnswersOk(cfg, RunStep(cfg, s, f, Return, env))
  {
    assert s.io.slots[f].tasks == multiset{Return} by { RunningTask(cfg, s.io, f, Return); }
    hide IoOk, SlotPast, ReleasesOk, RunStep;
    ReturnPast(cfg, s, f, env);
    var s' := RunStep(cfg, s, f, Return, env);
    PassedSame(s, s', f);
    hide PassedOk;
    SetPast(cfg, s.io, f, s'.io.slots[f]);
    SameReleases(s.h, s'.h);
  }

  lemma AllocAnswers(cfg: Config, s: State, c: Cmd)
    requires IoOk(cfg, s.io) && AnswersOk(cfg, s) && FodReady(s) && QlockFree(s)
    ensures AnswersOk(cfg, AllocFod(s, c))
  {
    var f, s' := s.io.fodList[0], AllocFod(s, c);
    assert f in s.io.fodList && SlotOk(cfg, s.io, f) && s'.io.slots[f].tasks == multiset{Bind(c)};
    hide IoOk, ReleasesOk;
    SetPast(cfg, s.io, f, s'.io.slots[f]);
  }

  lemma MarkAnswers(cfg: Config, s: State, a: Aborting)
    requires AnswersOk(cfg, s) && a.f < |s.io.slots|
    ensures AnswersOk(cfg, AbortStep(s, a))
  {
    var v := s.io.slots[a.f];
    AbortPast(cfg, v);
    hide SlotPast, ReleasesOk;
    assert MarkAbort(v.d).active == v.d.active;
    hide MarkAbort;
    OneFodAnswers(cfg, s, AbortStep(s, a), a.f, v.(d := MarkAbort(v.d)));
  }

  lemma DelMarkAnswers(cfg: Config, s: State)
    requires AnswersOk(cfg, s) && Enabled(s, DelMark)
    ensures AnswersOk(cfg, DelMarkStep(s))
  {
    var s', i := DelMarkStep(s), s.q.del.i;
    if i < |s.io.slots| {
      assert Ahead(s, i);
      VisitPast(cfg, s.io.slots[i]);
      hide SlotPast, ReleasesOk;
      SetPast(cfg, s.io, i, Visited(s.io.slots[i]));
      forall g | 0 <= g < i + 1 && s'.io.slots[g].d.active ensures s'.io.slots[g].past.visited || Deferred(s', g) {
        if g < i { assert s.io.slots[g].past.visited || Deferred(s, g); }
      }
    }
  }

  /** The events that change no fod. */
  predicate OfQueue(s: State, e: Event) {
    !e.Run? && !e.AbortMark? && !e.DelMark? && (e.Alloc? ==> s.io.fodList == [])
  }

  lemma QueueOnly(cfg: Config, s: State, e: Event)
    requires Enabled(s, e) && OfQueue(s, e)
    ensures var s' := Step(cfg, s, e);
            && s'.io == s.io && s'.h.released == s.h.released && s'.h.answered == s.h.answered && s'.h.gaveUp == s.h.gaveUp
            && (s'.q.del.Marking? ==> s'.q.del == s.q.del || s'.q.del.i == 0) && forall c <- s.h.taken :: c in s'.h.taken
  {
  }

  lemma QueueAhead(cfg: Config, s: State, e: Event, f: nat)
    requires Enabled(s, e) && OfQueue(s, e) && Ahead(Step(cfg, s, e), f)
    ensures Ahead(s, f)
  {
  }

  lemma QueuePassed(s: State, s': State)
    requires PassedOk(s) && s'.io == s.io && (forall c <- s.h.taken :: c in s'.h.taken)
    requires s'.q.del.Marking? ==> s'.q.del == s.q.del || s'.q.del.i == 0
    requires forall f: nat :: Ahead(s', f) ==> Ahead(s, f)
    ensures PassedOk(s')
  {
  }

  lemma QueueAnswers(cfg: Config, s: State, e: Event)
    requires AnswersOk(cfg, s) && Enabled(s, e) && OfQueue(s, e)
    ensures AnswersOk(cfg, Step(cfg, s, e))
  {
    QueueOnly(cfg, s, e);
    hide SlotsPast, ReleasesOk, Step, Enabled, OfQueue, PassedOk, Ahead;
    var s' := Step(cfg, s, e);
    forall f: nat | Ahead(s', f) ensures Ahead(s, f) { QueueAhead(cfg, s, e, f); }
    QueuePassed(s, s');
    SameReleases(s.h, s'.h);
  }

  lemma SameReleases(h: History, h': History)
    requires ReleasesOk(h) && h'.released == h.released && h'.answered == h.answered && h'.gaveUp == h.gaveUp
    ensures ReleasesOk(h')
  {
  }

  lemma StepAnswers(cfg: Config, s: State, e: Event)
    requires Inv(cfg, s) && AnswersOk(cfg, s) && Enabled(s, e)
    ensures AnswersOk(cfg, Step(cfg, s, e))
  {
    hide IoOk, AnswersOk, RunStep, FreeStep, BindStep;
    match e
    case Run(f, t, env) => RunAnswersStep(cfg, s, f, t, env);
    case Alloc(c) => if s.io.fodList != [] { AllocAnswers(cfg, s, c); } else { QueueAnswers(cfg, s, e); }
    case AbortMark(a) => MarkAnswers(cfg, s, a);
    case DelMark => DelMarkAnswers(cfg, s);
    case _ => QueueAnswers(cfg, s, e);
  }

  lemma RunAnswersStep(cfg: Config, s: State, f: nat, t: Task, env: Env)
    requires IoOk(cfg, s.io) && AnswersOk(cfg, s) && Enabled(s, Run(f, t, env))
    ensures AnswersOk(cfg, RunStep(cfg, s, f, t, env))
  {
    hide IoOk, AnswersOk, LocalSlot, FreeStep, BindStep, PoolStep, ResumeStep;
    match t
    case Bind(_) => BindAnswers(cfg, s, f, t);
    case Rebind(_) => BindAnswers(cfg, s, f, t);
    case Free => FreeAnswers(cfg, s, f);
    case Return => ReturnAnswers(cfg, s, f, env);
    case _ => LocalAnswers(cfg, s, f, t, env);
  }

  lemma {:induction false} RunAnswers(cfg: Config, s: State, es: seq<Event>, s': State)
    requires Inv(cfg, s) && AnswersOk(cfg, s) && RunsTo(cfg, s, es, s')
    ensures AnswersOk(cfg, s')
    decreases |es|
  {
    hide Inv, AnswersOk, Enabled, Step;
    if es != [] {
      StepKeeps(cfg, s, es[0]);
      StepAnswers(cfg, s, es[0]);
      RunAnswers(cfg, Step(cfg, s, es[0]), es[1..], s');
    }
  }

  lemma ReachableAnswers(cfg: Config, s: State)
    requires Reachable(cfg, s)
    ensures AnswersOk(cfg, s)
  {
    var es :| RunsTo(cfg, Init(cfg), es, s);
    InitInv(cfg);
    assert AnswersOk(cfg, Init(cfg));
    hide AnswersOk;
    RunAnswers(cfg, Init(cfg), es, s);
  }

  /** What holds of a fod with a thread at `t`, in every run. */
  lemma PastOf(cfg: Config, s: State, f: nat, t: Task)
    requires Reachable(cfg, s) && f < |s.io.slots| && t in s.io.slots[f].tasks
    ensures BusyWith(cfg, s.io.slots[f], t) && PastOk(cfg, s.io.slots[f], t)
  {
    ReachableInv(cfg, s);
    ReachableAnswers(cfg, s);
    assert SlotPast(cfg, s.io.slots[f]);
    hide CommandsOk, PastOk, BusyWith;
    RunningTask(cfg, s.io, f, t);
  }

  // ---------------------------------------------------------------- which commands are started

  /** A command whose header agrees with it goes on: to the driver for the first chunk of a write, and to the upper layer
      if it is a read or has no data, unless the upper layer refuses it or its pages cannot be had.  Any other header
      is refused: the command goes to nvmet_fc_abort_op. */
  lemma StartedIff(cfg: Config, s: State, f: nat, env: Env)
    requires Reachable(cfg, s) && f < |s.io.slots| && Work in s.io.slots[f].tasks
    ensures Enabled(s, Run(f, Work, env))
    ensures var tasks, ready := Step(cfg, s, Run(f, Work, env)).io.slots[f].tasks,
                                env.reqInit && (env.iu.total == 0 || env.pages.Some?);
            && (tasks == multiset{Abort} <==> !Agreeing(env.iu))
            && (tasks == multiset{Exec} <==> Agreeing(env.iu) && ready && !env.iu.write)
            && (tasks == multiset{Xfer(WriteData)} <==> Agreeing(env.iu) && ready && env.iu.write)
            && (tasks == multiset{Task.CmdDone} <==> Agreeing(env.iu) && !ready)
  {
    PastOf(cfg, s, f, Work);
    hide Reachable, DataOk, PastOk, BindingOk;
    var t' := Local(cfg, s.io.slots[f].d, Work, env).1;
    assert s.io.slots[f].tasks - multiset{Work} + multiset{t'} == multiset{t'};
    assert t' in multiset{t'};
  }

  // ---------------------------------------------------------------- data and responses

  /** With a response due or at the driver for a command that its header says is a read, and whose mapping counted any
      segment: if the upper layer completed it with status 0, all of the data that the header asks for has been sent, and
      otherwise none has been tried. */
  lemma ReadDataByStatus(cfg: Config, s: State, f: nat)
    requires Reachable(cfg, s) && f < |s.io.slots|
    requires var v := s.io.slots[f]; XmtRsp in v.tasks || (OpPending in v.tasks && v.d.op == Rsp)
    requires var v := s.io.slots[f]; v.past.iu.Some? && v.past.iu.value.read && !v.past.iu.value.write
    requires s.io.slots[f].mapped.Some? && s.io.slots[f].mapped.value > 0
    ensures var v := s.io.slots[f];
            && v.past.status.Some? && v.d.total == v.past.iu.value.total
            && (v.past.status.value == 0 ==> Complete(cfg, v.d.total, v.issued) && v.d.offset == v.d.total)
            && (v.past.status.value != 0 ==> v.issued == [])
  {
    PastOf(cfg, s, f, if XmtRsp in s.io.slots[f].tasks then XmtRsp else OpPending);
    hide Reachable, DataOk, BindingOk;
  }

  /** With a response due or at the driver for a command that its header says is a write, and that got its pages: all of
      the data has been fetched.  A command with no data has none moved either way. */
  lemma OtherDataByHeader(cfg: Config, s: State, f: nat)
    requires Reachable(cfg, s) && f < |s.io.slots|
    requires var v := s.io.slots[f]; XmtRsp in v.tasks || (OpPending in v.tasks && v.d.op == Rsp)
    ensures var v := s.io.slots[f];
            && v.past.iu.Some?
            && (v.past.iu.value.write && v.mapped.Some? ==>
                  Complete(cfg, v.past.iu.value.total, v.issued) && v.d.offset == v.past.iu.value.total)
            && (!v.past.iu.value.write && !v.past.iu.value.read ==> v.issued == [])
  {
    var t := if XmtRsp in s.io.slots[f].tasks then XmtRsp else OpPending;
    PastOf(cfg, s, f, t);
    hide Reachable, BindingOk;
  }

  /** Data of a read is at the driver only after the upper layer completed it with status 0; the response goes along with
      it exactly for the last chunk, on a driver that can combine the two. */
  lemma ReadDataRspIff(cfg: Config, s: State, f: nat)
    requires Reachable(cfg, s) && f < |s.io.slots|
    requires var v := s.io.slots[f]; OpPending in v.tasks && (v.d.op == ReadData || v.d.op == ReadDataRsp)
    ensures var v := s.io.slots[f];
            && v.past.iu.Some? && v.past.iu.value.read && !v.past.iu.value.write && v.past.status == Some(0)
            && (v.d.op == ReadDataRsp <==> cfg.readDataRsp && v.d.offset + v.d.xferLen == v.d.total)
  {
    PastOf(cfg, s, f, OpPending);
    var v := s.io.slots[f];
    assert IsChunk(cfg, v.d.total, |v.issued| - 1, v.issued[|v.issued| - 1]);
    hide Reachable, BindingOk, OnPlan;
  }

  /** A command about to be released was answered, once, or given up; it was given up if and only if its header disagreed
      with it, the driver refused an op or did not complete one in full, or its abort flag was found raised when an op
      or the command was done. */
  lemma AnsweredOrGivenUp(cfg: Config, s: State, f: nat)
    requires Reachable(cfg, s) && f < |s.io.slots| && Free in s.io.slots[f].tasks
    ensures var p := s.io.slots[f].past; p.answers <= 1 && (p.answers == 1 || p.gaveUp) && (p.gaveUp <==> p.trouble)
  {
    PastOf(cfg, s, f, Free);
    hide Reachable, DataOk, BindingOk;
  }

  /** The driver is told to abort a command at most once; one that is given up was aborted already, or it is told. */
  lemma AskedOnce(cfg: Config, s: State, f: nat, t: Task)
    requires Reachable(cfg, s) && f < |s.io.slots| && t in s.io.slots[f].tasks
    ensures s.io.slots[f].past.asked <= 1
    ensures s.io.slots[f].past.gaveUp ==> s.io.slots[f].d.aborted || s.io.slots[f].past.asked == 1
  {
    PastOf(cfg, s, f, t);
    hide Reachable, DataOk, BindingOk;
  }

  /** In every run each released command has had exactly one response completed by the driver, or was given up and had at
      most one. */
  lemma ReleasedAnswered(cfg: Config, s: State, c: Cmd)
    requires Reachable(cfg, s) && c in s.h.released
    ensures s.h.answered[c] <= 1
    ensures s.h.answered[c] == 1 || c in s.h.gaveUp
  {
    ReachableAnswers(cfg, s);
    hide SlotsPast, PassedOk, RebindsOk;
  }

  // ---------------------------------------------------------------- what the deletion marks

  /** A fod that was in use when the deletion came by has its abort flag set until it is released, and counts as aborted
      if it was waiting for write data then. */
  lemma VisitedIsMarked(cfg: Config, s: State, f: nat)
    requires Reachable(cfg, s) && f < |s.io.slots| && s.io.slots[f].past.visited
    ensures s.io.slots[f].d.active && s.io.slots[f].d.abort
    ensures s.io.slots[f].past.waiting ==> s.io.slots[f].d.aborted
  {
    ReachableAnswers(cfg, s);
    assert SlotPast(cfg, s.io.slots[f]);
    hide PastOk, ReleasesOk, PassedOk, RebindsOk;
  }

  /** When the deletion has gone through all fods and is about to drain the pending list, every fod in use is marked,
      except for one bound to a deferred command after its turn. */
  lemma MarkedBeforeDraining(cfg: Config, s: State, f: nat)
    requires Reachable(cfg, s) && s.q.del == Marking(|s.io.slots|) && f < |s.io.slots| && s.io.slots[f].d.active
    ensures s.io.slots[f].d.abort || (s.io.slots[f].serving.Some? && s.io.slots[f].serving.value in s.h.taken)
  {
    ReachableAnswers(cfg, s);
    if s.io.slots[f].past.visited { VisitedIsMarked(cfg, s, f); }
    hide SlotsPast, ReleasesOk, RebindsOk, Reachable;
  }
}
