/** One step of the engine keeps the invariant, event by event. */
module NvmetSteps {
  import opened Arithmetic
  import opened Wrappers
  import opened NvmetModel
  import opened NvmetInvariant

  // ---------------------------------------------------------------- arithmetic of chunks

  lemma PageOfChunk(cfg: Config, k: nat)
    ensures k * cfg.MaxXfer() / cfg.pageSize == k * cfg.maxSg
    ensures cfg.MaxXfer() > 0
  {
    var q := k * cfg.maxSg;
    assert k * cfg.MaxXfer() == q * cfg.pageSize;
    assert (q + 1) * cfg.pageSize == q * cfg.pageSize + cfg.pageSize;
    Quotient(k * cfg.MaxXfer(), cfg.pageSize, q);
  }

  lemma CeilIs(n: nat, m: nat, k: nat)
    requires m > 0 && k * m < n <= (k + 1) * m
    ensures CeilDiv(n, m) == k + 1
  {
    assert (k + 2) * m == (k + 1) * m + m;
    Quotient(n + m - 1, m, k + 1);
  }

  // ---------------------------------------------------------------- one fod

  lemma XferKeeps(cfg: Config, s: Slot, op: Op, env: Env)
    requires BusyWith(cfg, s, Xfer(op))
    ensures BusyWith(cfg, LocalSlot(cfg, s, Xfer(op), env), Local(cfg, s.d, Xfer(op), env).1)
  {
    var d := Prepare(cfg, s.d, op);
    var k := |s.issued|;
    PageOfChunk(cfg, k);
    var c := ChunkOf(cfg, d);
    assert (k + 1) * cfg.MaxXfer() == k * cfg.MaxXfer() + cfg.MaxXfer();
    assert IsChunk(cfg, d.total, k, c);
    var issued := s.issued + [c];
    assert OnPlan(cfg, d.total, issued);
    assert InChunk(cfg, Slot(d, multiset{OpPending}, s.serving, issued, s.mapped, s.past));
    assert s.tasks - multiset{Xfer(op)} == multiset{};
  }

  lemma ChunkDone(cfg: Config, s: Slot)
    requires InChunk(cfg, s)
    ensures var done := s.d.offset + s.d.xferLen;
            if done == s.d.total then Complete(cfg, s.d.total, s.issued)
            else AtChunk(cfg, s.(d := s.d.(offset := done)))
  {
    var k := |s.issued| - 1;
    assert IsChunk(cfg, s.d.total, k, s.issued[k]);
    PageOfChunk(cfg, k);
    if s.d.total > 0 && s.d.offset + s.d.xferLen == s.d.total {
      CeilIs(s.d.total, cfg.MaxXfer(), k);
    }
  }

  lemma RspSwitchKeeps(cfg: Config, s: Slot, abort: bool, env: Env)
    requires BusyWith(cfg, s, OpSwitch(abort)) && s.d.op == Rsp
    ensures BusyWith(cfg, LocalSlot(cfg, s, OpSwitch(abort), env), Local(cfg, s.d, OpSwitch(abort), env).1)
  {
    hide InChunk, Complete, OnPlan;
    assert s.tasks - multiset{OpSwitch(abort)} == multiset{};
  }

  lemma WriteSwitchKeeps(cfg: Config, s: Slot, abort: bool, env: Env)
    requires BusyWith(cfg, s, OpSwitch(abort)) && s.d.op == WriteData
    ensures BusyWith(cfg, LocalSlot(cfg, s, OpSwitch(abort), env), Local(cfg, s.d, OpSwitch(abort), env).1)
  {
    hide InChunk, Complete, OnPlan, CeilDiv;
    assert s.tasks - multiset{OpSwitch(abort)} == multiset{};
    if !abort && !s.d.error && s.d.transferred == s.d.xferLen { ChunkDone(cfg, s); }
  }

  lemma ReadSwitchKeeps(cfg: Config, s: Slot, abort: bool, env: Env)
    requires BusyWith(cfg, s, OpSwitch(abort)) && (s.d.op == ReadData || s.d.op == ReadDataRsp)
    ensures BusyWith(cfg, LocalSlot(cfg, s, OpSwitch(abort), env), Local(cfg, s.d, OpSwitch(abort), env).1)
  {
    hide InChunk, Complete, OnPlan, CeilDiv;
    assert s.tasks - multiset{OpSwitch(abort)} == multiset{};
    if !abort && !s.d.error && s.d.transferred == s.d.xferLen { ChunkDone(cfg, s); }
  }

  lemma OpSwitchKeeps(cfg: Config, s: Slot, abort: bool, env: Env)
    requires BusyWith(cfg, s, OpSwitch(abort))
    ensures BusyWith(cfg, LocalSlot(cfg, s, OpSwitch(abort), env), Local(cfg, s.d, OpSwitch(abort), env).1)
  {
    hide BusyWith, LocalSlot, Local;
    match s.d.op {
      case Rsp => RspSwitchKeeps(cfg, s, abort, env);
      case WriteData => WriteSwitchKeeps(cfg, s, abort, env);
      case _ => ReadSwitchKeeps(cfg, s, abort, env);
    }
  }

  lemma LocalKeeps(cfg: Config, s: Slot, t: Task, env: Env)
    requires IsLocal(t) && BusyWith(cfg, s, t)
    ensures BusyWith(cfg, LocalSlot(cfg, s, t, env), Local(cfg, s.d, t, env).1)
    ensures LocalSlot(cfg, s, t, env).serving == s.serving
    ensures LocalSlot(cfg, s, t, env).d.fcpreq == s.d.fcpreq
  {
    LocalBinding(cfg, s, t, env);
    hide BusyWith, LocalSlot, Local;
    if t.Xfer? {
      XferKeeps(cfg, s, t.op, env);
    } else if t.OpSwitch? {
      OpSwitchKeeps(cfg, s, t.abort, env);
    } else if t.Work? {
      WorkKeeps(cfg, s, env);
    } else if t.OpPending? || t.OpDone? {
      OpKeeps(cfg, s, t, env);
    } else {
      OtherKeeps(cfg, s, t, env);
    }
  }

  lemma LocalBinding(cfg: Config, s: Slot, t: Task, env: Env)
    requires IsLocal(t)
    ensures LocalSlot(cfg, s, t, env).serving == s.serving && LocalSlot(cfg, s, t, env).d.fcpreq == s.d.fcpreq
  {
  }

  lemma WorkKeeps(cfg: Config, s: Slot, env: Env)
    requires BusyWith(cfg, s, Work)
    ensures BusyWith(cfg, LocalSlot(cfg, s, Work, env), Local(cfg, s.d, Work, env).1)
  {
    hide Complete, IsChunk, CeilDiv;
    assert s.tasks - multiset{Work} == multiset{};
  }

  lemma OpKeeps(cfg: Config, s: Slot, t: Task, env: Env)
    requires (t.OpPending? || t.OpDone?) && BusyWith(cfg, s, t)
    ensures BusyWith(cfg, LocalSlot(cfg, s, t, env), Local(cfg, s.d, t, env).1)
  {
    hide Complete, IsChunk, CeilDiv;
    assert s.tasks - multiset{t} == multiset{};
  }

  lemma OtherKeeps(cfg: Config, s: Slot, t: Task, env: Env)
    requires IsLocal(t) && !t.Work? && !t.Xfer? && !t.OpPending? && !t.OpDone? && !t.OpSwitch? && BusyWith(cfg, s, t)
    ensures BusyWith(cfg, LocalSlot(cfg, s, t, env), Local(cfg, s.d, t, env).1)
  {
    hide Complete, IsChunk, CeilDiv, InChunk;
    assert s.tasks - multiset{t} == multiset{};
  }

  /** A fod on which only abort flags have been raised. */
  predicate Raised(d: Fod, d': Fod) {
    d' == d.(abort := d'.abort, aborted := d'.aborted) && (d.abort ==> d'.abort)
  }

  lemma RaisedKeeps(cfg: Config, s: Slot, s': Slot, t: Task)
    requires s' == s.(d := s'.d, past := s'.past) && Raised(s.d, s'.d) && BusyWith(cfg, s, t)
    ensures BusyWith(cfg, s', t)
  {
    hide Complete, OnPlan;
  }

  /** Abort marks from other threads leave a fod's task and binding alone. */
  lemma MarksKeep(cfg: Config, s: Slot)
    ensures Idle(cfg, s) ==> Idle(cfg, s.(d := MarkAbort(s.d))) && Idle(cfg, Visited(s))
    ensures Busy(cfg, s) ==> Busy(cfg, s.(d := MarkAbort(s.d))) && Busy(cfg, Visited(s))
  {
    hide BusyWith;
    if Busy(cfg, s) {
      var t :| BusyWith(cfg, s, t);
      RaisedKeeps(cfg, s, s.(d := MarkAbort(s.d)), t);
      RaisedKeeps(cfg, s, Visited(s), t);
    }
  }

  /** The only task of a busy fod is the one found. */
  lemma OnlyTask(cfg: Config, s: Slot, t: Task)
    requires Busy(cfg, s) && t in s.tasks
    ensures BusyWith(cfg, s, t)
  {
    var t0 :| BusyWith(cfg, s, t0);
    assert t == t0;
  }

  // ---------------------------------------------------------------- the fods and the pool

  /** The only task of a busy fod is the one found; the fod is not in the pool. */
  lemma RunningTask(cfg: Config, io: Io, f: nat, t: Task)
    requires IoOk(cfg, io) && f < |io.slots| && t in io.slots[f].tasks
    ensures f !in io.fodList && BusyWith(cfg, io.slots[f], t)
  {
    hide DataOk, BindingOk, LinksOk;
    assert SlotOk(cfg, io, f);
    OnlyTask(cfg, io.slots[f], t);
  }

  /** Replacing one fod, keeping its place in or out of the pool and its link. */
  lemma SetSlotKeeps(cfg: Config, io: Io, f: nat, v: Slot)
    requires IoOk(cfg, io) && f < |io.slots|
    requires v.d.fcpreq == io.slots[f].d.fcpreq
    requires if f in io.fodList then Idle(cfg, v) else Busy(cfg, v)
    ensures IoOk(cfg, SetSlot(io, f, v))
  {
    hide Busy, Idle;
    var io' := SetSlot(io, f, v);
    forall g | 0 <= g < |io'.slots| ensures SlotOk(cfg, io', g) {
      assert SlotOk(cfg, io, g);
    }
  }

  lemma LocalIo(cfg: Config, io: Io, f: nat, t: Task, env: Env)
    requires IoOk(cfg, io) && f < |io.slots| && t in io.slots[f].tasks && IsLocal(t)
    ensures var v := LocalSlot(cfg, io.slots[f], t, env);
            IoOk(cfg, SetSlot(io, f, v)) && v.serving == io.slots[f].serving
  {
    RunningTask(cfg, io, f, t);
    LocalKeeps(cfg, io.slots[f], t, env);
    hide IoOk, BusyWith, LocalSlot;
    SetSlotKeeps(cfg, io, f, LocalSlot(cfg, io.slots[f], t, env));
  }

  lemma MarksIo(cfg: Config, io: Io, f: nat)
    requires IoOk(cfg, io) && f < |io.slots|
    ensures IoOk(cfg, SetSlot(io, f, io.slots[f].(d := MarkAbort(io.slots[f].d))))
    ensures IoOk(cfg, SetSlot(io, f, Visited(io.slots[f])))
  {
    assert SlotOk(cfg, io, f);
    MarksKeep(cfg, io.slots[f]);
    hide IoOk, Idle, Busy;
    SetSlotKeeps(cfg, io, f, io.slots[f].(d := MarkAbort(io.slots[f].d)));
    SetSlotKeeps(cfg, io, f, Visited(io.slots[f]));
  }

  /** Moving fod `f` into or out of the pool; the others stay where they are. */
  lemma OthersKeep(cfg: Config, io: Io, io': Io, f: nat)
    requires SlotsOk(cfg, io) && f < |io.slots| == |io'.slots|
    requires forall g :: 0 <= g < |io.slots| && g != f ==>
               io'.slots[g] == io.slots[g] && (g in io'.fodList <==> g in io.fodList)
    requires SlotOk(cfg, io', f)
    ensures SlotsOk(cfg, io')
  {
    hide Busy, Idle;
    forall g | 0 <= g < |io'.slots| ensures SlotOk(cfg, io', g) {
      assert SlotOk(cfg, io, g);
    }
  }

  lemma LinksSame(io: Io, io': Io)
    requires LinksOk(io) && |io'.slots| == |io.slots| && io'.private == io.private
    requires forall g :: 0 <= g < |io.slots| ==> io'.slots[g].d.fcpreq == io.slots[g].d.fcpreq
    ensures LinksOk(io')
  {
  }

  lemma AllocIo(cfg: Config, s: State, c: Cmd)
    requires IoOk(cfg, s.io) && FodReady(s)
    ensures IoOk(cfg, AllocFod(s, c).io)
    ensures s.io.slots[s.io.fodList[0]].serving == None
  {
    hide DataOk;
    var io, io', f := s.io, AllocFod(s, c).io, s.io.fodList[0];
    assert io.fodList == [f] + io'.fodList;
    assert f in io.fodList && f !in io'.fodList;
    assert forall g <- io'.fodList :: g in io.fodList;
    assert SlotOk(cfg, io, f);
    AllocBusy(cfg, io.slots[f], io'.slots[f], c);
    assert SlotOk(cfg, io', f);
    hide SlotOk;
    OthersKeep(cfg, io, io', f);
    LinksSame(io, io');
  }

  lemma AllocBusy(cfg: Config, v: Slot, v': Slot, c: Cmd)
    requires Idle(cfg, v) && v' == Slot(v.d.(active := true), v.tasks + multiset{Bind(c)}, Some(c), [], None, NEW_PAST)
    ensures Busy(cfg, v')
  {
    assert BusyWith(cfg, v', Bind(c));
  }

  lemma PoolIo(cfg: Config, s: State, f: nat)
    requires IoOk(cfg, s.io) && f < |s.io.slots| && Return in s.io.slots[f].tasks
    ensures IoOk(cfg, PoolStep(s, f).io)
    ensures PoolStep(s, f).io.slots[f].serving == s.io.slots[f].serving
  {
    var io, io' := s.io, PoolStep(s, f).io;
    RunningTask(cfg, io, f, Return);
    assert Idle(cfg, io'.slots[f]);
    assert f in io'.fodList && SlotOk(cfg, io', f);
    hide SlotOk, BusyWith;
    OthersKeep(cfg, io, io', f);
    LinksSame(io, io');
  }

  lemma ResumeIo(cfg: Config, s: State, f: nat)
    requires IoOk(cfg, s.io) && f < |s.io.slots| && Return in s.io.slots[f].tasks && s.q.pending != []
    ensures IoOk(cfg, ResumeStep(s, f).io)
    ensures s.io.slots[f].serving == None
  {
    var io, v, c := s.io, s.io.slots[f], s.q.pending[0];
    RunningTask(cfg, io, f, Return);
    assert v.tasks - multiset{Return} == multiset{};
    var v' := Slot(v.d, multiset{Rebind(c)}, Some(c), [], None, NEW_PAST);
    assert BusyWith(cfg, v', Rebind(c));
    assert v.tasks - multiset{Return} + multiset{Rebind(c)} == v'.tasks;
    hide IoOk, BusyWith;
    SetSlotKeeps(cfg, io, f, v');
  }

  lemma FreeIo(cfg: Config, s: State, f: nat)
    requires IoOk(cfg, s.io) && f < |s.io.slots| && Free in s.io.slots[f].tasks
    ensures s.io.slots[f].d.fcpreq.Some? && s.io.slots[f].serving == s.io.slots[f].d.fcpreq
    ensures IoOk(cfg, FreeStep(s, f).io)
  {
    RunningTask(cfg, s.io, f, Free);
    var io, io' := s.io, FreeStep(s, f).io;
    assert io.slots[f].tasks - multiset{Free} == multiset{};
    assert BusyWith(cfg, io'.slots[f], Return);
    assert SlotOk(cfg, io', f);
    hide SlotOk, BusyWith;
    OthersKeep(cfg, io, io', f);
  }

  /** Two fods serve the same command only if they are the same fod. */
  ghost predicate ServesApart(slots: seq<Slot>) {
    forall f, g :: 0 <= f < g < |slots| && slots[f].serving.Some? ==> slots[f].serving != slots[g].serving
  }

  lemma ServedOnce(s: State)
    requires CommandsOk(s)
    ensures ServesApart(s.io.slots)
  {
    hide Served;
    var slots := s.io.slots;
    forall f, g | 0 <= f < g < |slots| && slots[f].serving.Some?
      ensures slots[f].serving != slots[g].serving
    {
      var c := slots[f].serving.value;
      assert CommandOk(s, c);
      if slots[g].serving == Some(c) {
        ServedTwice(slots, f, g, c);
      }
    }
  }

  lemma LinkOfBusy(cfg: Config, io: Io, g: nat)
    requires SlotsOk(cfg, io) && g < |io.slots|
    ensures io.slots[g].d.fcpreq.Some? ==> io.slots[g].serving == io.slots[g].d.fcpreq
  {
    hide DataOk;
    assert SlotOk(cfg, io, g);
  }

  lemma BindIo(cfg: Config, s: State, f: nat, t: Task)
    requires IoOk(cfg, s.io) && f < |s.io.slots| && t in s.io.slots[f].tasks && (t.Bind? || t.Rebind?)
    requires ServesApart(s.io.slots)
    ensures IoOk(cfg, BindStep(s, f, t).io)
  {
    var io, io' := s.io, BindStep(s, f, t).io;
    RunningTask(cfg, io, f, t);
    assert io.slots[f].tasks - multiset{t} == multiset{};
    assert BusyWith(cfg, io'.slots[f], Work);
    assert SlotOk(cfg, io', f);
    hide SlotOk, DataOk;
    OthersKeep(cfg, io, io', f);
    forall g | 0 <= g < |io.slots| && g != f
      ensures io.slots[g].d.fcpreq != Some(t.c)
    {
      LinkOfBusy(cfg, io, g);
    }
  }

  // ---------------------------------------------------------------- the commands

  lemma Minus<T>(m: multiset<T>, x: T)
    requires x in m
    ensures |m - multiset{x}| == |m| - 1
  {
    assert m == (m - multiset{x}) + multiset{x};
  }

  /** A change of one fod that serves the same command as before. */
  lemma ServedSame(io: Io, f: nat, v: Slot)
    requires f < |io.slots| && v.serving == io.slots[f].serving
    ensures Served(SetSlot(io, f, v).slots) == Served(io.slots)
  {
    ServedUpdate(io.slots, f, v);
  }

  lemma CommandsSame(s: State, s': State)
    requires CommandsOk(s) && Served(s'.io.slots) == Served(s.io.slots) && s'.h == s.h
    requires s'.q.lookups == s.q.lookups && s'.q.kmallocs == s.q.kmallocs
    requires s'.q.pending == s.q.pending && s'.q.draining == s.q.draining
    ensures CommandsOk(s')
  {
    hide Served;
    forall c ensures CommandOk(s', c) {
      assert CommandOk(s, c);
    }
  }

  lemma FindKeeps(cfg: Config, s: State, x: Cmd)
    requires Inv(cfg, s) && x !in s.h.arrived
    ensures Inv(cfg, FindStep(s, x))
  {
    hide IoOk, Served;
    var s' := FindStep(s, x);
    forall c ensures CommandOk(s', c) {
      assert CommandOk(s, c);
    }
  }

  lemma AllocFodCommands(s: State, x: Cmd)
    requires CommandsOk(s) && x in s.q.lookups && FodReady(s) && s.io.slots[s.io.fodList[0]].serving == None
    ensures CommandsOk(AllocFod(s, x))
  {
    hide Served;
    var s', f := AllocFod(s, x), s.io.fodList[0];
    ServedUpdate(s.io.slots, f, s'.io.slots[f]);
    assert Served(s'.io.slots) == Served(s.io.slots) + multiset{x};
    forall c ensures CommandOk(s', c) {
      assert CommandOk(s, c);
    }
  }

  lemma AllocFodKeeps(cfg: Config, s: State, x: Cmd)
    requires Inv(cfg, s) && x in s.q.lookups && FodReady(s)
    ensures Inv(cfg, AllocFod(s, x))
  {
    AllocIo(cfg, s, x);
    AllocFodCommands(s, x);
    hide IoOk, CommandsOk;
    Minus(s.q.lookups, x);
  }

  /** The number of places, outside the fods, that command `c` is in. */
  ghost function Aside(s: State, c: Cmd): nat {
    s.q.lookups[c] + s.q.kmallocs[c] + multiset(s.q.pending)[c] + s.q.draining[c] + s.h.drained[c] + s.h.rejected[c]
  }

  /** Commands move about outside the fods. */
  lemma OnlyMoved(s: State, s': State, c: Cmd)
    requires CommandOk(s, c) && Aside(s', c) == Aside(s, c) && s'.io == s.io
    requires s'.h.arrived == s.h.arrived && s'.h.started == s.h.started && s'.h.released == s.h.released
    ensures CommandOk(s', c)
  {
    hide Served;
  }

  lemma AllocNoneCommand(cfg: Config, s: State, x: Cmd, c: Cmd)
    requires CommandOk(s, c) && x in s.q.lookups
    ensures CommandOk(AllocNone(cfg, s, x), c)
  {
    hide CommandOk;
    OnlyMoved(s, AllocNone(cfg, s, x), c);
  }

  lemma AllocNoneCommands(cfg: Config, s: State, x: Cmd)
    requires CommandsOk(s) && x in s.q.lookups
    ensures CommandsOk(AllocNone(cfg, s, x))
  {
    hide CommandOk, AllocNone;
    forall c ensures CommandOk(AllocNone(cfg, s, x), c) {
      AllocNoneCommand(cfg, s, x, c);
    }
  }

  lemma AllocNoneKeeps(cfg: Config, s: State, x: Cmd)
    requires Inv(cfg, s) && x in s.q.lookups
    ensures Inv(cfg, AllocNone(cfg, s, x))
  {
    hide IoOk, CommandsOk, AllocNone;
    AllocNoneCommands(cfg, s, x);
    AllocNoneCounts(cfg, s, x);
  }

  lemma AllocNoneCounts(cfg: Config, s: State, x: Cmd)
    requires OrderOk(s) && RefsOk(s) && DeletionOk(s) && x in s.q.lookups
    ensures var s' := AllocNone(cfg, s, x); OrderOk(s') && RefsOk(s') && DeletionOk(s') && s'.io == s.io
  {
    Minus(s.q.lookups, x);
  }

  lemma DeferCommand(s: State, x: Cmd, got: bool, c: Cmd)
    requires CommandOk(s, c) && x in s.q.kmallocs
    ensures CommandOk(DeferStep(s, x, got), c)
  {
    hide CommandOk;
    OnlyMoved(s, DeferStep(s, x, got), c);
  }

  lemma DeferKeeps(cfg: Config, s: State, x: Cmd, got: bool)
    requires Inv(cfg, s) && x in s.q.kmallocs
    ensures Inv(cfg, DeferStep(s, x, got))
  {
    hide IoOk, CommandOk;
    forall c ensures CommandOk(DeferStep(s, x, got), c) {
      assert CommandOk(s, c);
      DeferCommand(s, x, got, c);
    }
    Minus(s.q.kmallocs, x);
  }

  lemma BindKeeps(cfg: Config, s: State, f: nat, t: Task)
    requires Inv(cfg, s) && f < |s.io.slots| && t in s.io.slots[f].tasks && (t.Bind? || t.Rebind?)
    ensures Inv(cfg, BindStep(s, f, t))
  {
    hide IoOk, CommandsOk, Served, ServesApart;
    ServedOnce(s);
    BindIo(cfg, s, f, t);
    ServedSame(s.io, f, BindStep(s, f, t).io.slots[f]);
    CommandsSame(s, BindStep(s, f, t));
  }

  lemma FreeCommands(s: State, f: nat, x: Cmd)
    requires CommandsOk(s) && f < |s.io.slots|
    requires s.io.slots[f].d.fcpreq == Some(x) && s.io.slots[f].serving == Some(x)
    ensures CommandsOk(FreeStep(s, f))
  {
    hide Served;
    var s' := FreeStep(s, f);
    ServedUpdate(s.io.slots, f, s'.io.slots[f]);
    assert Served(s.io.slots) == Served(s'.io.slots) + multiset{x};
    forall c ensures CommandOk(s', c) {
      assert CommandOk(s, c);
    }
  }

  lemma FreeKeeps(cfg: Config, s: State, f: nat)
    requires Inv(cfg, s) && f < |s.io.slots| && Free in s.io.slots[f].tasks
    ensures s.io.slots[f].d.fcpreq.Some?
    ensures Inv(cfg, FreeStep(s, f))
  {
    FreeIo(cfg, s, f);
    FreeCommands(s, f, s.io.slots[f].d.fcpreq.value);
    hide IoOk, CommandsOk;
  }

  lemma PoolKeeps(cfg: Config, s: State, f: nat)
    requires Inv(cfg, s) && f < |s.io.slots| && Return in s.io.slots[f].tasks
    ensures Inv(cfg, PoolStep(s, f))
  {
    PoolIo(cfg, s, f);
    hide IoOk, Served;
    ServedSame(s.io, f, PoolStep(s, f).io.slots[f]);
    CommandsSame(s, PoolStep(s, f));
  }

  lemma ResumeCommands(s: State, f: nat)
    requires CommandsOk(s) && f < |s.io.slots| && s.q.pending != [] && s.io.slots[f].serving == None
    ensures CommandsOk(ResumeStep(s, f))
  {
    hide Served;
    var s', x := ResumeStep(s, f), s.q.pending[0];
    ServedUpdate(s.io.slots, f, s'.io.slots[f]);
    assert Served(s'.io.slots) == Served(s.io.slots) + multiset{x};
    assert s.q.pending == [x] + s'.q.pending;
    forall c ensures CommandOk(s', c) {
      assert CommandOk(s, c);
    }
  }

  lemma ResumeKeeps(cfg: Config, s: State, f: nat)
    requires Inv(cfg, s) && f < |s.io.slots| && Return in s.io.slots[f].tasks && s.q.pending != []
    ensures Inv(cfg, ResumeStep(s, f))
  {
    ResumeIo(cfg, s, f);
    ResumeCommands(s, f);
    hide IoOk, CommandsOk;
  }

  /** A section that changes one fod, still serving its command, and moves no command. */
  lemma OneFodKeeps(cfg: Config, s: State, s': State, f: nat, v: Slot)
    requires Inv(cfg, s) && f < |s.io.slots| && s'.io == SetSlot(s.io, f, v) && IoOk(cfg, s'.io)
    requires v.serving == s.io.slots[f].serving
    requires s'.h == s.h && s'.q == s.q.(marks := s'.q.marks, del := s'.q.del)
    requires DeletionOk(s') && (s'.q.del.Done? <==> s.q.del.Done?)
    ensures Inv(cfg, s')
  {
    ServedSame(s.io, f, v);
    hide IoOk, Served, CommandsOk;
    CommandsSame(s, s');
  }

  lemma LocalStepKeeps(cfg: Config, s: State, f: nat, t: Task, env: Env)
    requires Inv(cfg, s) && f < |s.io.slots| && t in s.io.slots[f].tasks && IsLocal(t)
    ensures Inv(cfg, RunStep(cfg, s, f, t, env))
  {
    LocalIo(cfg, s.io, f, t, env);
    hide IoOk, CommandsOk, LocalSlot, Served;
    var v := LocalSlot(cfg, s.io.slots[f], t, env);
    OneFodKeeps(cfg, s, s.(io := SetSlot(s.io, f, v)), f, v);
  }

  lemma AbortMarkKeeps(cfg: Config, s: State, a: Aborting)
    requires Inv(cfg, s) && a.f < |s.io.slots|
    ensures Inv(cfg, AbortStep(s, a))
  {
    MarksIo(cfg, s.io, a.f);
    hide IoOk, CommandsOk, MarkAbort, Served;
    OneFodKeeps(cfg, s, AbortStep(s, a), a.f, s.io.slots[a.f].(d := MarkAbort(s.io.slots[a.f].d)));
  }

  lemma AbortLoadKeeps(cfg: Config, s: State, c: Cmd)
    requires Inv(cfg, s)
    ensures Inv(cfg, LoadStep(s, c))
  {
    assert c in s.io.private ==> s.io.private[c] < |s.io.slots| by { hide SlotsOk, CommandsOk; }
    hide IoOk, Served, CommandsOk;
    CommandsSame(s, LoadStep(s, c));
  }

  lemma AbortTestKeeps(cfg: Config, s: State, a: Aborting)
    requires Inv(cfg, s) && a in s.q.loads && a.f < |s.io.slots|
    ensures Inv(cfg, TestStep(s, a))
  {
    hide IoOk, Served, CommandsOk;
    CommandsSame(s, TestStep(s, a));
  }

  lemma DelMarkKeeps(cfg: Config, s: State, f: nat)
    requires Inv(cfg, s) && f < |s.io.slots| && s.q.del == Marking(f)
    ensures Inv(cfg, DelMarkStep(s))
  {
    MarksIo(cfg, s.io, f);
    hide IoOk, CommandsOk, MarkDeleted, Served;
    OneFodKeeps(cfg, s, DelMarkStep(s), f, Visited(s.io.slots[f]));
  }

  lemma DelTakeKeeps(cfg: Config, s: State)
    requires Inv(cfg, s) && Enabled(s, DelTake)
    ensures Inv(cfg, DelTakeStep(s))
  {
    hide IoOk, Served;
    var s' := DelTakeStep(s);
    if s.q.pending != [] { assert s.q.pending == [s.q.pending[0]] + s'.q.pending; }
    forall c ensures CommandOk(s', c) {
      assert CommandOk(s, c);
    }
  }

  lemma DelReleaseKeeps(cfg: Config, s: State, x: Cmd)
    requires Inv(cfg, s) && x in s.q.draining
    ensures Inv(cfg, Step(cfg, s, DelRelease(x)))
  {
    hide IoOk, CommandOk;
    forall c ensures CommandOk(Step(cfg, s, DelRelease(x)), c) {
      assert CommandOk(s, c);
      DelReleaseCommand(cfg, s, x, c);
    }
  }

  lemma DelReleaseCommand(cfg: Config, s: State, x: Cmd, c: Cmd)
    requires CommandOk(s, c) && x in s.q.draining
    ensures CommandOk(Step(cfg, s, DelRelease(x)), c)
  {
    hide CommandOk;
    OnlyMoved(s, Step(cfg, s, DelRelease(x)), c);
  }

  /** The events that only count references or move the deletion on. */
  lemma CountKeeps(cfg: Config, s: State, e: Event)
    requires Inv(cfg, s) && Enabled(s, e)
    requires e.Connect? || e.PutRef? || e.DelStart? || e.DelPut? || e.DelMark?
    requires e.DelMark? ==> s.q.del.i == |s.io.slots|
    ensures Inv(cfg, Step(cfg, s, e))
  {
    hide IoOk, Served, CommandsOk;
    CommandsSame(s, Step(cfg, s, e));
  }

  lemma RunEventKeeps(cfg: Config, s: State, f: nat, t: Task, env: Env)
    requires Inv(cfg, s) && Enabled(s, Run(f, t, env))
    ensures Inv(cfg, RunStep(cfg, s, f, t, env))
  {
    hide Inv;
    match t
    case Bind(_) => BindKeeps(cfg, s, f, t);
    case Rebind(_) => BindKeeps(cfg, s, f, t);
    case Free => FreeKeeps(cfg, s, f);
    case Return => if s.q.pending == [] { PoolKeeps(cfg, s, f); } else { ResumeKeeps(cfg, s, f); }
    case _ => LocalStepKeeps(cfg, s, f, t, env);
  }

  lemma StepKeeps(cfg: Config, s: State, e: Event)
    requires Inv(cfg, s) && Enabled(s, e)
    ensures Inv(cfg, Step(cfg, s, e))
  {
    hide Inv, RunStep;
    match e
    case Find(c) => FindKeeps(cfg, s, c);
    case Alloc(c) => if s.io.fodList != [] { AllocFodKeeps(cfg, s, c); } else { AllocNoneKeeps(cfg, s, c); }
    case DeferNew(c, got) => DeferKeeps(cfg, s, c, got);
    case Run(f, t, env) => RunEventKeeps(cfg, s, f, t, env);
    case AbortLoad(c) => AbortLoadKeeps(cfg, s, c);
    case AbortTest(a) => AbortTestKeeps(cfg, s, a);
    case AbortMark(a) => AbortMarkKeeps(cfg, s, a);
    case DelMark => if s.q.del.i < |s.io.slots| { DelMarkKeeps(cfg, s, s.q.del.i); } else { CountKeeps(cfg, s, e); }
    case DelTake => DelTakeKeeps(cfg, s);
    case DelRelease(c) => DelReleaseKeeps(cfg, s, c);
    case _ => CountKeeps(cfg, s, e);
  }

  lemma {:induction false} RunKeeps(cfg: Config, s: State, es: seq<Event>, s': State)
    requires Inv(cfg, s) && RunsTo(cfg, s, es, s')
    ensures Inv(cfg, s')
    decreases |es|
  {
    hide Inv, Enabled, Step;
    if es != [] {
      StepKeeps(cfg, s, es[0]);
      RunKeeps(cfg, Step(cfg, s, es[0]), es[1..], s');
    }
  }
}
