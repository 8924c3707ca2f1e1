/** Work under way never goes on for ever: a measure that every internal step decreases. */
module NvmetProgress {
  import opened Arithmetic
  import opened Wrappers
  import opened NvmetModel
  import opened NvmetInvariant
  import opened NvmetSteps
  import opened NvmetTheorems

  ghost function TaskOf(tasks: multiset<Task>): Option<Task> {
    if tasks == multiset{} then None else var t :| t in tasks; Some(t)
  }

  /** Commands that have a fod but whose handling has not begun. */
  function Unstarted(t: Task): nat {
    match t
    case Bind(_) => 2
    case Rebind(_) => 2
    case Work => 1
    case _ => 0
  }

  function ChunksLeft(cfg: Config, v: Slot): nat {
    var n := ChunkCount(cfg, v.d.total);
    if n >= |v.issued| then n - |v.issued| else 0
  }

  /** The data still to be sent for a read that the nvmet core is working on. */
  function ToSend(cfg: Config, v: Slot): nat {
    if v.d.dir.ReadDir? && v.d.sgCnt > 0 then 4 * ChunksLeft(cfg, v) else 0
  }

  /** What an LLDD op leads on to, besides its own sections: the response, or for a write the nvmet core too. */
  function AfterOp(cfg: Config, v: Slot): nat {
    if v.d.op == Rsp then 3
    else if v.d.op == WriteData then 20 + 4 * ChunksLeft(cfg, v)
    else 7 + 4 * ChunksLeft(cfg, v)
  }

  function Rank(cfg: Config, v: Slot, t: Task): nat {
    match t
    case Bind(_) => 0
    case Rebind(_) => 0
    case Work => 0
    case Return => 1
    case Free => 2
    case Abort => 3
    case OpSwitch(_) => AfterOp(cfg, v) + 1
    case OpDone => AfterOp(cfg, v) + 2
    case OpPending => AfterOp(cfg, v) + 3
    case XmtRsp => 7
    case CmdGo(_) => 8 + ToSend(cfg, v)
    case CmdDone => 9 + ToSend(cfg, v)
    case Exec => 10 + ToSend(cfg, v)
    case Xfer(op) => (if op == WriteData then 20 else 7) + 4 * ChunksLeft(cfg, v)
  }

  ghost function Weight(cfg: Config, v: Slot, unstarted: bool): nat {
    var t := TaskOf(v.tasks);
    if t == None then 0 else if unstarted then Unstarted(t.value) else Rank(cfg, v, t.value)
  }

  ghost function Sum(cfg: Config, slots: seq<Slot>, unstarted: bool): nat {
    if slots == [] then 0 else Weight(cfg, slots[0], unstarted) + Sum(cfg, slots[1..], unstarted)
  }

  lemma {:induction false} SumUpdate(cfg: Config, slots: seq<Slot>, unstarted: bool, f: nat, v: Slot)
    requires f < |slots|
    ensures Sum(cfg, slots[f := v], unstarted) + Weight(cfg, slots[f], unstarted)
            == Sum(cfg, slots, unstarted) + Weight(cfg, v, unstarted)
  {
    hide Weight;
    if f == 0 {
      assert slots[f := v][1..] == slots[1..];
    } else {
      SumUpdate(cfg, slots[1..], unstarted, f - 1, v);
      assert slots[f := v][1..] == slots[1..][f - 1 := v];
    }
  }

  function DeletionLeft(s: State): nat {
    match s.q.del
    case Marking(i) => if i <= |s.io.slots| then |s.io.slots| - i + 3 else 0
    case Draining => 2
    case Putting => 1
    case _ => 0
  }

  /** Commands still to be started, weighted by how far they are from it. */
  ghost function Waiting(cfg: Config, s: State): nat {
    5 * |s.q.lookups| + 4 * |s.q.kmallocs| + 3 * |s.q.pending| + Sum(cfg, s.io.slots, true)
  }

  ghost function Running(cfg: Config, s: State): nat {
    2 * Sum(cfg, s.io.slots, false) + s.q.puts + 2 * |s.q.loads| + |s.q.marks| + |s.q.draining| + DeletionLeft(s)
  }

  ghost predicate Less(cfg: Config, s: State, s': State) {
    || Waiting(cfg, s) < Waiting(cfg, s')
    || (Waiting(cfg, s) == Waiting(cfg, s') && Running(cfg, s) < Running(cfg, s'))
  }

  // ---------------------------------------------------------------- one fod

  lemma ChunkRemains(cfg: Config, v: Slot)
    requires AtChunk(cfg, v)
    ensures |v.issued| < ChunkCount(cfg, v.d.total)
  {
    var m, k := cfg.MaxXfer(), |v.issued|;
    PageOfChunk(cfg, 0);
    if v.d.total > 0 {
      var x := v.d.total + m - 1;
      var q := x / m;
      assert x == m * q + x % m;
      if q <= k { assert q * m <= k * m by { if q < k { Below(m, q, k); } } }
    }
  }

  lemma LocalRank(cfg: Config, v: Slot, t: Task, env: Env)
    requires BusyWith(cfg, v, t) && IsLocal(t) && t != Work
    ensures var v' := LocalSlot(cfg, v, t, env);
            Rank(cfg, v', Local(cfg, v.d, t, env).1) < Rank(cfg, v, t)
    ensures Unstarted(Local(cfg, v.d, t, env).1) == 0
  {
    hide Local, LocalSlot, Rank, BusyWith;
    if t.Xfer? {
      XferRank(cfg, v, t.op, env);
    } else if t.OpSwitch? {
      OpSwitchRank(cfg, v, t.abort, env);
    } else {
      OtherRank(cfg, v, t, env);
    }
  }

  lemma XferRank(cfg: Config, v: Slot, op: Op, env: Env)
    requires BusyWith(cfg, v, Xfer(op))
    ensures var v' := LocalSlot(cfg, v, Xfer(op), env);
            Rank(cfg, v', Local(cfg, v.d, Xfer(op), env).1) < Rank(cfg, v, Xfer(op))
    ensures Unstarted(Local(cfg, v.d, Xfer(op), env).1) == 0
  {
    hide InChunk, Complete, OnPlan, IsChunk, ChunkCount;
    ChunkRemains(cfg, v);
    hide AtChunk, AllOrNothing;
  }

  lemma OpSwitchRank(cfg: Config, v: Slot, abort: bool, env: Env)
    requires BusyWith(cfg, v, OpSwitch(abort))
    ensures var v' := LocalSlot(cfg, v, OpSwitch(abort), env);
            Rank(cfg, v', Local(cfg, v.d, OpSwitch(abort), env).1) < Rank(cfg, v, OpSwitch(abort))
    ensures Unstarted(Local(cfg, v.d, OpSwitch(abort), env).1) == 0
  {
    hide InChunk, Complete, OnPlan, IsChunk, ChunkCount, AtChunk, AllOrNothing;
  }

  lemma OtherRank(cfg: Config, v: Slot, t: Task, env: Env)
    requires BusyWith(cfg, v, t) && IsLocal(t) && t != Work && !t.Xfer? && !t.OpSwitch?
    ensures var v' := LocalSlot(cfg, v, t, env);
            Rank(cfg, v', Local(cfg, v.d, t, env).1) < Rank(cfg, v, t)
    ensures Unstarted(Local(cfg, v.d, t, env).1) == 0
  {
    hide InChunk, Complete, OnPlan, IsChunk, ChunkCount, AtChunk, AllOrNothing;
  }

  // ---------------------------------------------------------------- one step

  lemma WeightOf(cfg: Config, v: Slot, t: Task)
    requires v.tasks == multiset{t}
    ensures Weight(cfg, v, true) == Unstarted(t) && Weight(cfg, v, false) == Rank(cfg, v, t)
  {
    assert TaskOf(v.tasks) == Some(t);
  }

  lemma SetWeights(cfg: Config, io: Io, f: nat, v: Slot, unstarted: bool)
    requires f < |io.slots|
    ensures Sum(cfg, SetSlot(io, f, v).slots, unstarted) + Weight(cfg, io.slots[f], unstarted)
            == Sum(cfg, io.slots, unstarted) + Weight(cfg, v, unstarted)
  {
    SumUpdate(cfg, io.slots, unstarted, f, v);
  }

  lemma WorkStarts(cfg: Config, v: Slot, env: Env)
    ensures Unstarted(Local(cfg, v.d, Work, env).1) == 0
  {
  }

  lemma LocalProgress(cfg: Config, s: State, f: nat, t: Task, env: Env)
    requires Inv(cfg, s) && f < |s.io.slots| && t in s.io.slots[f].tasks && IsLocal(t)
    ensures Less(cfg, RunStep(cfg, s, f, t, env), s)
  {
    RunningTask(cfg, s.io, f, t);
    var v := s.io.slots[f];
    var v', t' := LocalSlot(cfg, v, t, env), Local(cfg, v.d, t, env).1;
    assert v.tasks - multiset{t} + multiset{t'} == multiset{t'};
    WeightOf(cfg, v, t);
    WeightOf(cfg, v', t');
    if t != Work { LocalRank(cfg, v, t, env); }
    if t == Work { WorkStarts(cfg, v, env); }
    hide Inv, Local, LocalSlot, BusyWith, Weight, Sum, Rank;
    SetWeights(cfg, s.io, f, v', true);
    SetWeights(cfg, s.io, f, v', false);
  }

  lemma BindProgress(cfg: Config, s: State, f: nat, t: Task)
    requires Inv(cfg, s) && f < |s.io.slots| && t in s.io.slots[f].tasks && (t.Bind? || t.Rebind?)
    ensures Less(cfg, BindStep(s, f, t), s)
  {
    RunningTask(cfg, s.io, f, t);
    var v, v' := s.io.slots[f], BindStep(s, f, t).io.slots[f];
    assert v'.tasks == multiset{Work};
    WeightOf(cfg, v, t);
    WeightOf(cfg, v', Work);
    hide Inv, BusyWith, Weight, Sum, Rank;
    SetWeights(cfg, s.io, f, v', true);
  }

  lemma FreeProgress(cfg: Config, s: State, f: nat)
    requires Inv(cfg, s) && f < |s.io.slots| && Free in s.io.slots[f].tasks && s.io.slots[f].d.fcpreq.Some?
    ensures Less(cfg, FreeStep(s, f), s)
  {
    RunningTask(cfg, s.io, f, Free);
    var v, v' := s.io.slots[f], FreeStep(s, f).io.slots[f];
    assert v'.tasks == multiset{Return};
    WeightOf(cfg, v, Free);
    WeightOf(cfg, v', Return);
    hide Inv, BusyWith, Weight, Sum;
    SetWeights(cfg, s.io, f, v', true);
    SetWeights(cfg, s.io, f, v', false);
  }

  lemma ReturnProgress(cfg: Config, s: State, f: nat, env: Env)
    requires Inv(cfg, s) && f < |s.io.slots| && Return in s.io.slots[f].tasks
    ensures Less(cfg, RunStep(cfg, s, f, Return, env), s)
  {
    RunningTask(cfg, s.io, f, Return);
    var v, s' := s.io.slots[f], RunStep(cfg, s, f, Return, env);
    var v' := s'.io.slots[f];
    WeightOf(cfg, v, Return);
    assert v.tasks - multiset{Return} == multiset{};
    if s.q.pending == [] {
      assert Weight(cfg, v', true) == 0 && Weight(cfg, v', false) == 0;
    } else {
      assert v'.tasks == multiset{Rebind(s.q.pending[0])};
      WeightOf(cfg, v', Rebind(s.q.pending[0]));
    }
    hide Inv, BusyWith, Weight, Sum;
    SetWeights(cfg, s.io, f, v', true);
    SetWeights(cfg, s.io, f, v', false);
  }

  lemma MarkWeight(cfg: Config, v: Slot, v': Slot)
    requires v' == v.(d := MarkAbort(v.d)) || v' == Visited(v)
    ensures Weight(cfg, v', true) == Weight(cfg, v, true)
    ensures Weight(cfg, v', false) == Weight(cfg, v, false)
  {
    hide ChunkCount;
  }

  /** Marking one fod changes no weight. */
  lemma MarkSums(cfg: Config, io: Io, f: nat, v: Slot)
    requires f < |io.slots| && (v == io.slots[f].(d := MarkAbort(io.slots[f].d)) || v == Visited(io.slots[f]))
    ensures var slots := SetSlot(io, f, v).slots;
            Sum(cfg, slots, true) == Sum(cfg, io.slots, true) && Sum(cfg, slots, false) == Sum(cfg, io.slots, false)
  {
    hide Weight, Sum, MarkAbort, Visited;
    MarkWeight(cfg, io.slots[f], v);
    SetWeights(cfg, io, f, v, true);
    SetWeights(cfg, io, f, v, false);
  }

  lemma AbortProgress(cfg: Config, s: State, a: Aborting)
    requires a in s.q.marks && a.f < |s.io.slots|
    ensures Less(cfg, AbortStep(s, a), s)
  {
    hide Sum, MarkAbort;
    MarkSums(cfg, s.io, a.f, s.io.slots[a.f].(d := MarkAbort(s.io.slots[a.f].d)));
    Minus(s.q.marks, a);
  }

  lemma MarkProgress(cfg: Config, s: State, i: nat)
    requires s.q.del == Marking(i) && i < |s.io.slots|
    ensures Less(cfg, DelMarkStep(s), s)
  {
    hide Sum, Visited;
    MarkSums(cfg, s.io, i, Visited(s.io.slots[i]));
  }

  lemma AllocProgress(cfg: Config, s: State, c: Cmd)
    requires Inv(cfg, s) && Enabled(s, Alloc(c))
    ensures Less(cfg, Step(cfg, s, Alloc(c)), s)
  {
    Minus(s.q.lookups, c);
    if s.io.fodList != [] {
      var f := s.io.fodList[0];
      assert f in s.io.fodList && SlotOk(cfg, s.io, f);
      var v' := AllocFod(s, c).io.slots[f];
      assert v'.tasks == multiset{Bind(c)};
      WeightOf(cfg, v', Bind(c));
      hide Inv, Weight, Sum, Rank;
      SetWeights(cfg, s.io, f, v', true);
    }
  }

  lemma DeferProgress(cfg: Config, s: State, e: Event)
    requires Enabled(s, e) && (e.DeferNew? || e.DelRelease?)
    ensures Less(cfg, Step(cfg, s, e), s)
  {
    hide Sum;
    if e.DeferNew? { Minus(s.q.kmallocs, e.c); } else { Minus(s.q.draining, e.c); }
  }

  lemma TestProgress(cfg: Config, s: State, a: Aborting)
    requires a in s.q.loads && a.f < |s.io.slots|
    ensures Less(cfg, TestStep(s, a), s)
  {
    hide Sum;
    Minus(s.q.loads, a);
  }

  lemma CountProgress(cfg: Config, s: State, e: Event)
    requires Enabled(s, e) && (e.PutRef? || e.DelTake? || e.DelPut? || (e.DelMark? && s.q.del.i == |s.io.slots|))
    ensures Less(cfg, Step(cfg, s, e), s)
  {
    hide Sum;
  }

  /** Every step of work under way brings it nearer to its end. */
  lemma StepProgress(cfg: Config, s: State, e: Event)
    requires Inv(cfg, s) && Enabled(s, e) && Internal(e)
    ensures Less(cfg, Step(cfg, s, e), s)
  {
    hide Inv, Less;
    if e.Run? {
      if e.t.Bind? || e.t.Rebind? { BindProgress(cfg, s, e.f, e.t); }
      else if e.t.Free? { FreeProgress(cfg, s, e.f); }
      else if e.t.Return? { ReturnProgress(cfg, s, e.f, e.env); }
      else { LocalProgress(cfg, s, e.f, e.t, e.env); }
    } else if e.Alloc? {
      AllocProgress(cfg, s, e.c);
    } else if e.AbortMark? {
      AbortProgress(cfg, s, e.a);
    } else if e.DelMark? && s.q.del.i < |s.io.slots| {
      MarkProgress(cfg, s, s.q.del.i);
    } else if e.AbortTest? {
      TestProgress(cfg, s, e.a);
    } else if e.DeferNew? || e.DelRelease? {
      DeferProgress(cfg, s, e);
    } else {
      CountProgress(cfg, s, e);
    }
  }

  /** Whatever the scheduler picks, work under way stops after finitely many steps. */
  lemma EveryRunComesToRest(cfg: Config, st: nat -> State, ev: nat -> Event, i: nat)
    requires Inv(cfg, st(i))
    requires forall k: nat :: Internal(ev(k)) && Enabled(st(k), ev(k)) ==> st(k + 1) == Step(cfg, st(k), ev(k))
    ensures exists k: nat :: k >= i && !(Internal(ev(k)) && Enabled(st(k), ev(k)))
    decreases Waiting(cfg, st(i)), Running(cfg, st(i))
  {
    if Internal(ev(i)) && Enabled(st(i), ev(i)) {
      StepKeeps(cfg, st(i), ev(i));
      StepProgress(cfg, st(i), ev(i));
      hide Inv, Step, Enabled;
      EveryRunComesToRest(cfg, st, ev, i + 1);
    }
  }
}
