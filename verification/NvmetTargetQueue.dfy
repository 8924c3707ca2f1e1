/** The functions of the target queue, in the source's own form: fields and arrays updated in place. */
module NvmetTargetQueue {
  import opened Arithmetic
  import opened Wrappers
  import opened NvmetModel
  import opened NvmetInvariant
  import opened NvmetSteps
  import opened NvmetTheorems
  import opened NvmetProgress
  import opened NvmetQueue

  datatype RcvResult = Accepted | NotConnected | NoEntry | NoMemory | Deferred

  /** nvmet_fc_rcv_fcp_req from lookup to return, undisturbed. */
  ghost function RcvWhole(cfg: Config, s: State, c: Cmd, got: bool): (State, RcvResult) {
    var s1 := FindStep(s, c);
    if !(s.q.connected && s.q.ref > 0) then (s1, NotConnected)
    else if FodReady(s1) then
      var f := s1.io.fodList[0];
      (BindStep(AllocFod(s1, c), f, Bind(c)), Accepted)
    else RcvEmpty(cfg, s1, c, got)
  }

  /** Its part for an empty pool. */
  ghost function RcvEmpty(cfg: Config, s: State, c: Cmd, got: bool): (State, RcvResult) {
    var s1 := AllocNone(cfg, s, c);
    if !cfg.deferRcv then (PutStep(s1), NoEntry)
    else if s.q.avail > 0 then (s1, Deferred)
    else if got then (DeferStep(s1, c, true), Deferred)
    else (PutStep(DeferStep(s1, c, false)), NoMemory)
  }

  lemma HandedOff(cfg: Config, s: State, f: nat, t: Task, env: Env, x: nat)
    requires AtTask(cfg, s, f, t) && HandsOff(t)
    ensures Settle(cfg, s, f, env, x) == s && Inv(cfg, s)
  {
    hide Inv;
    SettleEnds(cfg, s, f, t, env, x);
  }

  lemma PoolHead(cfg: Config, s: State)
    requires Inv(cfg, s)
    ensures s.io.fodList != [] ==> s.io.fodList[0] < |s.io.slots|
  {
    hide CommandsOk, SlotsOk, LinksOk, RefsOk;
    if s.io.fodList != [] { assert s.io.fodList[0] in s.io.fodList; }
  }

  /** nvmet_fc_handle_fcp_rqst up to its first call out. */
  lemma WorkIs(cfg: Config, d: Fod, env: Env)
    ensures var d1 := d.(total := env.iu.total, dir := DirOf(env.iu));
            Local(cfg, d, Work, env) ==
              if BadDirection(env.iu) then (d1, Abort)
              else if !env.reqInit || (env.iu.total > 0 && env.pages.None?) then (NoPages(d1), Task.CmdDone)
              else ((if env.iu.total > 0 then GetPages(cfg, d1, env.pages.value) else NoPages(d1)).(offset := 0),
                    if d1.dir.WriteDir? then Xfer(WriteData) else Exec)
  {
  }

  lemma RcvIs(cfg: Config, s: State, c: Cmd, got: bool)
    requires s.io.fodList != [] ==> s.io.fodList[0] < |s.io.slots|
    ensures var s1 := FindStep(s, c);
            RcvWhole(cfg, s, c, got) ==
              if !(s.q.connected && s.q.ref > 0) then (s1, NotConnected)
              else if s.io.fodList != [] then (BindStep(AllocFod(s1, c), s.io.fodList[0], Bind(c)), Accepted)
              else RcvEmpty(cfg, s1, c, got)
  {
  }

  /** A write chunk that was not aborted, done. */
  lemma WriteDoneIs(cfg: Config, d: Fod, env: Env)
    requires d.op == WriteData
    ensures var moved := d.(offset := d.offset + d.transferred);
            Local(cfg, d, OpSwitch(false), env) ==
              if d.error || d.transferred != d.xferLen then (d.(abort := true), Task.CmdDone)
              else if moved.offset != d.total then (moved.(writing := true), Xfer(WriteData))
              else (moved, Exec)
  {
  }

  lemma WorkNext(cfg: Config, d: Fod, env: Env)
    ensures var next := Local(cfg, d, Work, env).1;
            next == Abort || next == Task.CmdDone || next == Xfer(WriteData) || next == Exec
  {
  }

  /** The fields after an arrival that got a fod. */
  ghost predicate GotFod(s: State, s': State, c: Cmd) {
    && s.io.fodList != [] && s.io.fodList[0] < |s.io.slots| == |s'.io.slots|
    && s'.io.fodList == s.io.fodList[1..] && s'.q.ref == s.q.ref + 1 && s'.q.connected == s.q.connected
    && s'.q.pending == s.q.pending && s'.q.avail == s.q.avail
    && var f := s.io.fodList[0];
       && s'.io.slots == s.io.slots[f := s'.io.slots[f]] && s'.io.private == s.io.private[c := f]
       && s'.io.slots[f].d == s.io.slots[f].d.(active := true, fcpreq := Some(c))
  }

  /** The fields after an arrival that did not: deferred, with a list entry from the pool or a new one, or refused. */
  ghost predicate GotNoFod(s: State, s': State, c: Cmd, deferred: bool) {
    && s'.io == s.io && s'.q.connected == s.q.connected
    && s'.q.ref == (if deferred then s.q.ref + 1 else s.q.ref)
    && s'.q.pending == (if deferred then s.q.pending + [c] else s.q.pending)
    && s'.q.avail == (if deferred && s.q.avail > 0 then s.q.avail - 1 else s.q.avail)
  }

  /** nvmet_fc_rcv_fcp_req, field by field. */
  lemma RcvFields(cfg: Config, s: State, c: Cmd, got: bool)
    requires Inv(cfg, s) && QlockFree(s) && c !in s.h.arrived
    ensures var (s', r) := RcvWhole(cfg, s, c, got);
            && Inv(cfg, s')
            && (if r == Accepted then GotFod(s, s', c) else GotNoFod(s, s', c, r == Deferred))
            && r == if !(s.q.connected && s.q.ref > 0) then NotConnected
                    else if s.io.fodList != [] then Accepted
                    else if !cfg.deferRcv then NoEntry
                    else if s.q.avail == 0 && !got then NoMemory else Deferred
  {
    hide Inv, RcvWhole, RcvEmpty, GotFod, GotNoFod, FindStep, BindStep, AllocFod;
    FindKeeps(cfg, s, c);
    PoolHead(cfg, s);
    RcvIs(cfg, s, c, got);
    FindIs(s, c);
    if s.q.connected && s.q.ref > 0 {
      if s.io.fodList != [] {
        RcvAccepted(cfg, FindStep(s, c), c);
        AcceptedFields(s, c);
      } else {
        RcvRefused(cfg, FindStep(s, c), c, got);
        EmptyFields(cfg, s, c, got);
      }
    }
  }

  lemma FindIs(s: State, c: Cmd)
    ensures var s1 := FindStep(s, c);
            && s1.io == s.io && s1.q.del == s.q.del && s1.q.pending == s.q.pending && s1.q.avail == s.q.avail
            && (if s.q.connected && s.q.ref > 0 then c in s1.q.lookups else GotNoFod(s, s1, c, false))
  {
  }

  lemma AcceptedFields(s: State, c: Cmd)
    requires s.q.connected && s.q.ref > 0 && FodReady(s) && FodReady(FindStep(s, c))
    ensures GotFod(s, BindStep(AllocFod(FindStep(s, c), c), s.io.fodList[0], Bind(c)), c)
  {
  }

  lemma EmptyFields(cfg: Config, s: State, c: Cmd, got: bool)
    requires s.q.connected && s.q.ref > 0 && s.io.fodList == []
    ensures var (s', r) := RcvEmpty(cfg, FindStep(s, c), c, got);
            && GotNoFod(s, s', c, r == Deferred)
            && r == if !cfg.deferRcv then NoEntry else if s.q.avail == 0 && !got then NoMemory else Deferred
  {
  }

  lemma RcvAccepted(cfg: Config, s: State, c: Cmd)
    requires Inv(cfg, s) && QlockFree(s) && c in s.q.lookups && FodReady(s)
    ensures Inv(cfg, BindStep(AllocFod(s, c), s.io.fodList[0], Bind(c)))
  {
    var s1 := AllocFod(s, c);
    AllocFodKeeps(cfg, s, c);
    assert Bind(c) in s1.io.slots[s.io.fodList[0]].tasks;
    BindKeeps(cfg, s1, s.io.fodList[0], Bind(c));
  }

  lemma RcvRefused(cfg: Config, s: State, c: Cmd, got: bool)
    requires Inv(cfg, s) && QlockFree(s) && c in s.q.lookups
    ensures Inv(cfg, RcvEmpty(cfg, s, c, got).0)
  {
    hide Inv;
    var s1 := AllocNone(cfg, s, c);
    AllocNoneKeeps(cfg, s, c);
    if s1.q.puts > 0 {
      PutHoldsRef(cfg, s1);
      StepKeeps(cfg, s1, PutRef);
    }
    if cfg.deferRcv && s.q.avail == 0 {
      DeferKeeps(cfg, s1, c, got);
      if !got {
        PutHoldsRef(cfg, DeferStep(s1, c, got));
        StepKeeps(cfg, DeferStep(s1, c, got), PutRef);
      }
    }
  }

  /** The two loads and the lock section of nvmet_fc_rcv_fcp_abort. */
  lemma LoadFields(cfg: Config, s: State, c: Cmd)
    requires Inv(cfg, s)
    ensures Inv(cfg, LoadStep(s, c)) && LoadStep(s, c).io == s.io
    ensures c in s.io.private ==>
      var f := s.io.private[c];
      f < |s.io.slots| && s.io.slots[f].d.fcpreq == Some(c)
      && LoadStep(s, c) == s.(q := s.q.(loads := s.q.loads + multiset{Aborting(c, f)}))
    ensures c !in s.io.private ==> LoadStep(s, c) == s
  {
    StepKeeps(cfg, s, AbortLoad(c));
    hide CommandsOk, SlotsOk;
  }

  lemma TestFields(cfg: Config, s: State, a: Aborting)
    requires Inv(cfg, s) && a in s.q.loads
    ensures a.f < |s.io.slots| && Inv(cfg, TestStep(s, a))
    ensures var q, same := s.q.(loads := s.q.loads - multiset{a}), s.io.slots[a.f].d.fcpreq == Some(a.c);
            TestStep(s, a) == s.(q := if same then q.(marks := q.marks + multiset{a}) else q)
  {
    PointersInside(cfg, s);
    hide Inv;
    StepKeeps(cfg, s, AbortTest(a));
  }

  lemma MarkFields(cfg: Config, s: State, a: Aborting)
    requires Inv(cfg, s) && QlockFree(s) && a in s.q.marks
    ensures a.f < |s.io.slots| && Inv(cfg, AbortStep(s, a))
    ensures var v := s.io.slots[a.f];
            AbortStep(s, a).io == SetSlot(s.io, a.f, v.(d := MarkAbort(v.d)))
            && AbortStep(s, a).q == s.q.(marks := s.q.marks - multiset{a}) && AbortStep(s, a).h == s.h
  {
    PointersInside(cfg, s);
    hide Inv;
    StepKeeps(cfg, s, AbortMark(a));
  }

  lemma PointersInside(cfg: Config, s: State)
    requires Inv(cfg, s)
    ensures forall a <- s.q.loads + s.q.marks :: a.f < |s.io.slots|
  {
    hide IoOk, CommandsOk;
  }

  /** A list has a page for each segment counted. */
  lemma PagesCover(cfg: Config, s: State, f: nat, t: Task)
    requires AtTask(cfg, s, f, t)
    ensures s.io.slots[f].d.sgCnt <= s.io.slots[f].d.pages
  {
    hide CommandsOk;
    RunningTask(cfg, s.io, f, t);
    hide IoOk, OnPlan, Nent;
  }

  lemma AtTaskInv(cfg: Config, s: State, f: nat, t: Task)
    requires AtTask(cfg, s, f, t)
    ensures Inv(cfg, s)
  {
  }

  /** Takes one deferred command off the list and releases it. */
  function DrainOne(s: State): State
    requires s.q.pending != []
  {
    var c := s.q.pending[0];
    State(s.io, s.q.(pending := s.q.pending[1..]),
          s.h.(taken := s.h.taken + [c], drained := s.h.drained + multiset{c}))
  }

  /** The rest of the deletion, undisturbed. */
  function DelSettle(s: State): State
    decreases DeletionLeft(s), |s.q.pending|
  {
    match s.q.del
    case Marking(i) => if i <= |s.io.slots| then DelSettle(DelMarkStep(s)) else s
    case Draining => DelSettle(if s.q.pending == [] then s.(q := s.q.(del := Putting)) else DrainOne(s))
    case Putting => if s.q.ref > 0 then s.(q := s.q.(del := Deletion.Done, ref := s.q.ref - 1)) else s
    case _ => s
  }

  lemma DelMarkAt(cfg: Config, s: State)
    requires Inv(cfg, s) && s.q.del.Marking?
    ensures s.q.del.i <= |s.io.slots| && DelSettle(s) == DelSettle(DelMarkStep(s)) && Inv(cfg, DelMarkStep(s))
    ensures s.q.draining == multiset{}
  {
    hide IoOk, CommandsOk, DelMarkStep;
    StepKeeps(cfg, s, DelMark);
  }

  /** One deferred command taken and released, in two steps with the lock dropped in between. */
  lemma DrainSteps(cfg: Config, s: State)
    requires Inv(cfg, s) && s.q.del.Draining? && s.q.draining == multiset{} && s.q.pending != []
    ensures var c, s1 := s.q.pending[0], DelTakeStep(s);
            && Inv(cfg, s1) && s1.q.draining == multiset{c} && s1.q.del.Draining? && s1.io == s.io
            && s1.q == s.q.(pending := s.q.pending[1..], draining := multiset{c})
            && Enabled(s1, DelRelease(c)) && Step(cfg, s1, DelRelease(c)) == DrainOne(s)
  {
    hide Inv;
    StepKeeps(cfg, s, DelTake);
    assert multiset{} + multiset{s.q.pending[0]} == multiset{s.q.pending[0]};
    assert multiset{s.q.pending[0]} - multiset{s.q.pending[0]} == multiset{};
  }

  lemma DrainSettles(s: State)
    requires s.q.del.Draining? && s.q.pending != []
    ensures DelSettle(s) == DelSettle(DrainOne(s))
  {
  }

  lemma DelEnd(cfg: Config, s: State)
    requires Inv(cfg, s) && s.q.del.Draining? && s.q.draining == multiset{} && s.q.pending == []
    ensures var s1 := DelTakeStep(s);
            && Inv(cfg, s1) && s1 == s.(q := s.q.(del := Putting)) && s.q.ref > 0 && Enabled(s1, DelPut)
            && DelSettle(s) == Step(cfg, s1, DelPut)
  {
    hide Inv;
    StepKeeps(cfg, s, DelTake);
    PutHoldsRef(cfg, DelTakeStep(s));
  }

  /** An entry of a scatter list. */
  datatype Entry = Entry(page: nat, len: nat)

  /** What is left of `length` bytes after `k` whole pages. */
  function Rest(length: nat, pageSize: nat, k: nat): int { length - k * pageSize }

  function SumOf(list: seq<Entry>): nat { if list == [] then 0 else SumOf(list[..|list| - 1]) + list[|list| - 1].len }

  function PagesOf(list: seq<Entry>): set<nat> { set e <- list :: e.page }

  predicate Distinct(pages: seq<nat>, used: set<nat>) {
    && (forall i, j :: 0 <= i < j < |pages| ==> pages[i] != pages[j])
    && forall i :: 0 <= i < |pages| ==> pages[i] !in used
  }

  /** Each entry holds the next page of `supply`, filled as far as the bytes go. */
  predicate Lists(list: seq<Entry>, length: nat, pageSize: nat, supply: seq<nat>) {
    && |list| <= |supply|
    && forall i :: 0 <= i < |list| ==> list[i].page == supply[i] && list[i].len == Min(pageSize, Rest(length, pageSize, i))
  }

  /** The pages of the list are freed one by one, from the last on. */
  method GiveBack(list: seq<Entry>, supply: seq<nat>, inUse: set<nat>, ghost used: set<nat>) returns (left: set<nat>)
    requires Distinct(supply, used) && |list| <= |supply| && forall i :: 0 <= i < |list| ==> list[i].page == supply[i]
    requires inUse == used + PagesOf(list)
    ensures left == used
  {
    left := inUse;
    var i := |list|;
    while i > 0
      invariant 0 <= i <= |list| && left == used + PagesOf(list[..i])
    {
      i := i - 1;
      PagesNext(list[..i], list[i]);
      assert list[..i + 1] == list[..i] + [list[i]];
      left := left - {list[i].page};
    }
  }

  lemma PagesNext(list: seq<Entry>, e: Entry)
    ensures PagesOf([]) == {} && PagesOf(list + [e]) == PagesOf(list) + {e.page}
  {
  }

  /**
    nvmet_fc_alloc_tgt_pgs: one entry per page, or nothing when the list cannot be had (`listOk`) or the page allocator
    gives out after the pages of `supply`; the pages taken so far are then given back.  `used` are the pages in use
    before, `inUse` those after.  The count kept with the list is what the DMA mapping answers, `mapping`, which is at
    most the number of entries.
  */
  method AllocTgtPgs(length: nat, pageSize: nat, listOk: bool, supply: seq<nat>, mapping: nat, used: set<nat>)
    returns (sg: Option<seq<Entry>>, sgCnt: nat, inUse: set<nat>)
    requires pageSize > 0 && Distinct(supply, used)
    ensures sg.Some? <==> listOk && CeilDiv(length, pageSize) <= |supply|
    ensures sg.Some? ==> |sg.value| == CeilDiv(length, pageSize) && SumOf(sg.value) == length
    ensures sg.Some? ==> sgCnt == Min(mapping, |sg.value|) && inUse == used + PagesOf(sg.value)
    ensures sg.Some? ==> Lists(sg.value, length, pageSize, supply)
    ensures sg.None? ==> sgCnt == 0 && inUse == used
  {
    hide CeilDiv, Rest, SumOf, PagesOf, Distinct;
    if !listOk {
      return None, 0, used;
    }
    PagesLeft(length, pageSize, 0);
    SumNext([], Entry(0, 0));
    PagesNext([], Entry(0, 0));
    var left := length;
    var list: seq<Entry> := [];
    inUse := used;
    while left > 0
      invariant left >= 0 && |list| <= |supply| && SumOf(list) + left == length && inUse == used + PagesOf(list)
      invariant left == (if Rest(length, pageSize, |list|) >= 0 then Rest(length, pageSize, |list|) else 0)
      invariant left == 0 ==> |list| == CeilDiv(length, pageSize)
      invariant Lists(list, length, pageSize, supply)
      decreases left
    {
      PagesLeft(length, pageSize, |list|);
      if |list| == |supply| {
        inUse := GiveBack(list, supply, inUse, used);
        return None, 0, inUse;
      }
      var e := Entry(supply[|list|], Min(left, pageSize));
      SumNext(list, e);
      PagesNext(list, e);
      inUse := inUse + {e.page};
      list := list + [e];
      left := left - e.len;
    }
    return Some(list), Min(mapping, |list|), inUse;
  }

  lemma SumNext(list: seq<Entry>, e: Entry)
    ensures SumOf([]) == 0 && SumOf(list + [e]) == SumOf(list) + e.len
  {
    assert (list + [e])[..|list|] == list;
  }

  lemma PagesLeft(n: nat, m: nat, k: nat)
    requires m > 0
    ensures Rest(n, m, 0) == n && Rest(n, m, k + 1) == Rest(n, m, k) - m
    ensures Rest(n, m, k) > 0 ==> CeilDiv(n, m) > k
    ensures Rest(n, m, k) > 0 >= Rest(n, m, k + 1) ==> CeilDiv(n, m) == k + 1
    ensures n == 0 ==> CeilDiv(n, m) == 0
  {
    var x := n + m - 1;
    assert (k + 1) * m == k * m + m;
    assert x == m * (x / m) + x % m;
    if n > k * m && x / m < k + 1 { Below(m, x / m, k + 1); }
    if k * m < n <= (k + 1) * m { CeilIs(n, m, k); }
    if n == 0 { Quotient(m - 1, m, 0); }
  }

  class TargetQueue {
    const cfg: Config
    const fods: array<Fod>
    var fodList: seq<nat>
    var pending: seq<Cmd>
    var avail: nat
    var private: map<Cmd, nat>
    var ref: nat
    var connected: bool
    ghost var model: State

    /** The fields hold what the model says. */
    ghost predicate Coupled()
      reads this, fods
    {
      && fods.Length == |model.io.slots|
      && (forall i :: 0 <= i < fods.Length ==> fods[i] == model.io.slots[i].d)
      && fodList == model.io.fodList && private == model.io.private
      && pending == model.q.pending && avail == model.q.avail
      && ref == model.q.ref && connected == model.q.connected
    }

    ghost predicate At(f: nat, t: Task)
      reads this, fods
    {
      Coupled() && f < fods.Length && AtTask(cfg, model, f, t)
    }

    constructor (cfg: Config)
      ensures this.cfg == cfg && Coupled() && model == Init(cfg) && fresh(fods)
    {
      this.cfg := cfg;
      fods := new Fod[cfg.sqsize];
      fodList, pending, avail, private := [], [], 0, map[];
      ref, connected := 1, false;
      model := Init(cfg);
      new;
      for i := 0 to fods.Length
        invariant fodList == seq(i, k => k)
        invariant forall k :: 0 <= k < i ==> fods[k] == IdleFod()
        invariant pending == [] && avail == 0 && private == map[] && ref == 1 && !connected && model == Init(cfg)
        modifies this`fodList, fods
      {
        fods[i] := IdleFod();
        fodList := fodList + [i];
      }
    }

    method FreeFcpIod(f: nat, env: Env, ghost x: nat)
      requires At(f, Free)
      modifies this, fods
      ensures Coupled() && Inv(cfg, model) && model == Settle(cfg, old(model), f, env, x)
      decreases x, 1
    {
      hide Inv, AtTask, Settle, FreeWhole;
      FreeSection(cfg, model, f, env, x);
      FreeFields(cfg, model, f);
      var fcpreq := fods[f].fcpreq.value;
      private := private - {fcpreq};
      fods[f] := fods[f].(active := false, abort := false, aborted := false, writing := false, fcpreq := None);
      if pending == [] {
        fodList := fodList + [f];
        ref := ref - 1;
      } else {
        var c := pending[0];
        pending := pending[1..];
        avail := avail + 1;
        private := private[c := f];
        fods[f] := fods[f].(fcpreq := Some(c), active := true);
      }
      model := FreeWhole(model, f);
    }

    method AbortOp(f: nat, env: Env, ghost x: nat)
      requires At(f, Abort)
      modifies this, fods
      ensures Coupled() && Inv(cfg, model) && model == Settle(cfg, old(model), f, env, x)
      decreases x, 2
    {
      hide Inv, AtTask, Settle, RunStep;
      LocalSection(cfg, model, f, Abort, env, x);
      PagesCover(cfg, model, f, Abort);
      FreeTgtPgs(f);
      model := RunStep(cfg, model, f, Abort, env);
      FreeFcpIod(f, env, x);
    }

    /** Frees one page for each segment counted, and then the list. */
    method FreeTgtPgs(f: nat)
      requires f < fods.Length && fods[f].sgCnt <= fods[f].pages
      modifies fods
      ensures fods[..] == old(fods[..])[f := FreePages(old(fods[f]))]
    {
      if !fods[f].sg || fods[f].sgCnt == 0 {
        return;
      }
      var count := 0;
      while count < fods[f].sgCnt
        invariant count <= old(fods[f]).sgCnt
        invariant fods[..] == old(fods[..])[f := old(fods[f]).(pages := old(fods[f]).pages - count)]
      {
        fods[f] := fods[f].(pages := fods[f].pages - 1);
        count := count + 1;
      }
      fods[f] := fods[f].(sg := false);
      fods[f] := fods[f].(sgCnt := 0);
    }

    method XmtFcpRsp(f: nat, env: Env, ghost x: nat)
      requires At(f, XmtRsp)
      modifies this, fods
      ensures Coupled() && Inv(cfg, model) && model == Settle(cfg, old(model), f, env, x)
      decreases x, 3
    {
      hide Inv, AtTask, Settle, RunStep;
      LocalSection(cfg, model, f, XmtRsp, env, x);
      fods[f] := fods[f].(op := Rsp);
      model := RunStep(cfg, model, f, XmtRsp, env);
      if env.accepted {
        HandedOff(cfg, model, f, OpPending, env, x);
      } else {
        AbortOp(f, env, x);
      }
    }

    /** Fills the request for the next chunk. */
    method PrepareData(f: nat, op: Op)
      requires f < fods.Length
      modifies fods
      ensures fods[..] == old(fods[..])[f := Prepare(cfg, old(fods[f]), op)]
    {
      var d := fods[f];
      var left := if d.total >= d.offset then d.total - d.offset else 0;
      var tlen := Min(cfg.MaxXfer(), left);
      d := d.(op := op, xferLen := tlen, transferred := 0, error := false);
      if op == ReadData && d.offset + tlen == d.total && cfg.readDataRsp {
        d := d.(op := ReadDataRsp);
      }
      fods[f] := d;
    }

    /** `x` counts the data ops that the thread may still try: a refused one sets abort, so none follows it. */
    method TransferFcpData(f: nat, op: Op, env: Env, ghost x: nat)
      requires At(f, Xfer(op)) && x > 0
      modifies this, fods
      ensures Coupled() && Inv(cfg, model) && model == Settle(cfg, old(model), f, env, x)
      decreases x, 3
    {
      hide Inv, AtTask, Settle, RunStep, Prepare;
      LocalSection(cfg, model, f, Xfer(op), env, x);
      PrepareData(f, op);
      model := RunStep(cfg, model, f, Xfer(op), env);
      if env.accepted {
        HandedOff(cfg, model, f, OpPending, env, x - 1);
      } else {
        fods[f] := fods[f].(abort := true);
        if op == WriteData {
          fods[f] := fods[f].(writing := false);
          CmdDone(f, env, x - 1);
        } else {
          fods[f] := fods[f].(error := true, transferred := 0);
          FodOpDone(f, env, x - 1);
        }
      }
    }

    /** __nvmet_fc_fod_op_abort: finishes an aborted op and says whether it did. */
    method FodOpAbort(f: nat, abort: bool, env: Env, ghost x: nat) returns (handled: bool)
      requires At(f, OpSwitch(abort)) && (abort ==> fods[f].abort)
      modifies this, fods
      ensures handled == abort && Coupled() && Inv(cfg, model)
      ensures if handled then model == Settle(cfg, old(model), f, env, x) else model == old(model)
      decreases x, 5
    {
      hide AtTask, Settle, RunStep;
      AtTaskInv(cfg, model, f, OpSwitch(abort));
      hide Inv;
      if abort {
        LocalSection(cfg, model, f, OpSwitch(abort), env, x);
        model := RunStep(cfg, model, f, OpSwitch(abort), env);
        if fods[f].op == WriteData {
          CmdDone(f, env, x);
        } else {
          AbortOp(f, env, x);
        }
      }
      handled := abort;
    }

    method FodOpDone(f: nat, env: Env, ghost x: nat)
      requires At(f, OpDone) && (x == 0 ==> fods[f].abort)
      modifies this, fods
      ensures Coupled() && Inv(cfg, model) && model == Settle(cfg, old(model), f, env, x)
      decreases x, 6
    {
      hide Inv, AtTask, Settle, RunStep;
      var abort := fods[f].abort;
      LocalSection(cfg, model, f, OpDone, env, x);
      fods[f] := fods[f].(writing := false);
      model := RunStep(cfg, model, f, OpDone, env);
      var handled := FodOpAbort(f, abort, env, x);
      if !handled {
        OpSuccess(f, env, x);
      }
    }

    /** The rest of nvmet_fc_fod_op_done for an op that was not aborted. */
    method OpSuccess(f: nat, env: Env, ghost x: nat)
      requires At(f, OpSwitch(false)) && x > 0
      modifies this, fods
      ensures Coupled() && Inv(cfg, model) && model == Settle(cfg, old(model), f, env, x)
      decreases x, 5, 1
    {
      hide Inv, AtTask, Settle, RunStep, Local;
      match fods[f].op {
        case WriteData =>
          WriteDone(f, env, x);
        case Rsp =>
          RspDone(f, env, x);
        case _ =>
          ReadDone(f, env, x);
      }
    }

    method WriteDone(f: nat, env: Env, ghost x: nat)
      requires At(f, OpSwitch(false)) && x > 0 && fods[f].op == WriteData
      modifies this, fods
      ensures Coupled() && Inv(cfg, model) && model == Settle(cfg, old(model), f, env, x)
      decreases x, 5, 0
    {
      hide Inv, AtTask, Settle, RunStep, Local;
      WriteDoneIs(cfg, fods[f], env);
      LocalSection(cfg, model, f, OpSwitch(false), env, x);
      model := RunStep(cfg, model, f, OpSwitch(false), env);
      var d := fods[f];
      if d.error || d.transferred != d.xferLen {
        fods[f] := d.(abort := true);
        CmdDone(f, env, x);
        return;
      }
      d := d.(offset := d.offset + d.transferred);
      if d.offset != d.total {
        fods[f] := d.(writing := true);
        TransferFcpData(f, WriteData, env, x);
      } else {
        fods[f] := d;
        HandedOff(cfg, model, f, Exec, env, x);
      }
    }

    method RspDone(f: nat, env: Env, ghost x: nat)
      requires At(f, OpSwitch(false)) && fods[f].op == Rsp
      modifies this, fods
      ensures Coupled() && Inv(cfg, model) && model == Settle(cfg, old(model), f, env, x)
      decreases x, 5, 0
    {
      hide Inv, AtTask, Settle, RunStep;
      LocalSection(cfg, model, f, OpSwitch(false), env, x);
      model := RunStep(cfg, model, f, OpSwitch(false), env);
      FreeFcpIod(f, env, x);
    }

    method ReadDone(f: nat, env: Env, ghost x: nat)
      requires At(f, OpSwitch(false)) && x > 0 && (fods[f].op == ReadData || fods[f].op == ReadDataRsp)
      modifies this, fods
      ensures Coupled() && Inv(cfg, model) && model == Settle(cfg, old(model), f, env, x)
      decreases x, 5, 0
    {
      hide Inv, AtTask, Settle, RunStep;
      PagesCover(cfg, model, f, OpSwitch(false));
      LocalSection(cfg, model, f, OpSwitch(false), env, x);
      model := RunStep(cfg, model, f, OpSwitch(false), env);
      var d := fods[f];
      if d.error || d.transferred != d.xferLen {
        AbortOp(f, env, x);
        return;
      }
      if d.op == ReadDataRsp {
        FreeTgtPgs(f);
        FreeFcpIod(f, env, x);
        return;
      }
      d := d.(offset := d.offset + d.transferred);
      fods[f] := d;
      if d.offset != d.total {
        TransferFcpData(f, ReadData, env, x);
      } else {
        FreeTgtPgs(f);
        XmtFcpRsp(f, env, x);
      }
    }

    /** __nvmet_fc_fcp_nvme_cmd_done. */
    method CmdDone(f: nat, env: Env, ghost x: nat)
      requires At(f, Task.CmdDone) && (x == 0 ==> fods[f].abort)
      modifies this, fods
      ensures Coupled() && Inv(cfg, model) && model == Settle(cfg, old(model), f, env, x)
      decreases x, 4
    {
      hide Inv, AtTask, Settle, RunStep;
      LocalSection(cfg, model, f, Task.CmdDone, env, x);
      var abort := fods[f].abort;
      model := RunStep(cfg, model, f, Task.CmdDone, env);
      PagesCover(cfg, model, f, CmdGo(abort));
      LocalSection(cfg, model, f, CmdGo(abort), env, x);
      model := RunStep(cfg, model, f, CmdGo(abort), env);
      if abort {
        AbortOp(f, env, x);
        return;
      }
      if env.status == 0 && fods[f].dir.ReadDir? && fods[f].sgCnt != 0 {
        TransferFcpData(f, ReadData, env, x);
        return;
      }
      FreeTgtPgs(f);
      XmtFcpRsp(f, env, x);
    }

    /** The LLDD completes the op that it accepted. */
    method OpComplete(f: nat, env: Env)
      requires At(f, OpPending)
      modifies this, fods
      ensures Coupled() && Inv(cfg, model)
      ensures model == Settle(cfg, RunStep(cfg, old(model), f, OpPending, env), f, env, 1)
    {
      hide Inv, AtTask, Settle, RunStep;
      LocalSection(cfg, model, f, OpPending, env, 1);
      fods[f] := fods[f].(transferred := env.transferred, error := env.error);
      model := RunStep(cfg, model, f, OpPending, env);
      FodOpDone(f, env, 1);
    }

    /** The direction checks at the head of nvmet_fc_handle_fcp_rqst. */
    method ParseIu(f: nat, iu: CmdIu) returns (bad: bool)
      requires f < fods.Length
      modifies fods
      ensures bad == BadDirection(iu)
      ensures fods[..] == old(fods[..])[f := old(fods[f]).(total := iu.total, dir := DirOf(iu))]
    {
      var d := fods[f].(total := iu.total);
      if iu.write {
        d, bad := d.(dir := WriteDir), !iu.sqeWrite;
      } else if iu.read {
        d, bad := d.(dir := ReadDir), iu.sqeWrite;
      } else {
        d, bad := d.(dir := NoData), iu.total != 0;
      }
      fods[f] := d;
    }

    /** The rest of what it sets before it calls out, and where it goes from there. */
    method SetUpRequest(f: nat, env: Env) returns (next: Task)
      requires f < fods.Length
      modifies fods
      ensures fods[..] == old(fods[..])[f := fods[f]]
      ensures (fods[f], next) == Local(cfg, old(fods[f]), Work, env)
    {
      hide Local, BadDirection, DirOf;
      WorkIs(cfg, fods[f], env);
      var iu := env.iu;
      var bad := ParseIu(f, iu);
      if bad {
        return Abort;
      }
      var d := NoPages(fods[f]);
      if !env.reqInit || (iu.total != 0 && env.pages.None?) {
        fods[f] := d;
        return Task.CmdDone;
      }
      if iu.total != 0 {
        d := GetPages(cfg, d, env.pages.value);
      }
      fods[f] := d.(offset := 0);
      next := if d.dir.WriteDir? then Xfer(WriteData) else Exec;
    }

    method HandleFcpRqst(f: nat, env: Env)
      requires At(f, Work)
      modifies this, fods
      ensures Coupled() && Inv(cfg, model)
      ensures model == Settle(cfg, RunStep(cfg, old(model), f, Work, env), f, env, 1)
    {
      hide Inv, AtTask, Settle, RunStep, Local;
      WorkNext(cfg, fods[f], env);
      LocalSection(cfg, model, f, Work, env, 1);
      var next := SetUpRequest(f, env);
      model := RunStep(cfg, model, f, Work, env);
      if next == Abort {
        AbortOp(f, env, 1);
      } else if next == Task.CmdDone {
        CmdDone(f, env, 1);
      } else if next == Xfer(WriteData) {
        TransferFcpData(f, WriteData, env, 1);
      } else {
        HandedOff(cfg, model, f, Exec, env, 1);
      }
    }

    /** The upper layer completes the request that it executed. */
    method ReqComplete(f: nat, env: Env)
      requires At(f, Exec)
      modifies this, fods
      ensures Coupled() && Inv(cfg, model)
      ensures model == Settle(cfg, RunStep(cfg, old(model), f, Exec, env), f, env, 1)
    {
      hide Inv, AtTask, Settle, RunStep;
      LocalSection(cfg, model, f, Exec, env, 1);
      model := RunStep(cfg, model, f, Exec, env);
      CmdDone(f, env, 1);
    }

    /** nvmet_fc_find_target_queue, for the one queue. */
    method FindTargetQueue(c: Cmd) returns (found: bool)
      requires Coupled() && Inv(cfg, model) && c !in model.h.arrived
      modifies this`ref, this`model
      ensures Coupled() && Inv(cfg, model) && model == FindStep(old(model), c)
      ensures found == (old(connected) && old(ref) > 0) && ref == (if found then old(ref) + 1 else old(ref))
    {
      hide Inv;
      FindKeeps(cfg, model, c);
      found := connected && ref > 0;
      if found {
        ref := ref + 1;
      }
      model := FindStep(model, c);
    }

    method RcvFcpReq(c: Cmd, got: bool) returns (r: RcvResult)
      requires Coupled() && Inv(cfg, model) && QlockFree(model) && c !in model.h.arrived
      modifies this, fods
      ensures Coupled() && Inv(cfg, model) && (model, r) == RcvWhole(cfg, old(model), c, got)
    {
      hide Inv, RcvWhole, FindStep;
      RcvFields(cfg, model, c, got);
      ghost var whole := RcvWhole(cfg, model, c, got).0;
      var found := FindTargetQueue(c);
      model := whole;
      if !found { return NotConnected; }
      if fodList != [] {
        var f := fodList[0];
        fodList := fodList[1..];
        private := private[c := f];
        fods[f] := fods[f].(active := true, fcpreq := Some(c));
        return Accepted;
      }
      if !cfg.deferRcv {
        ref := ref - 1;
        return NoEntry;
      }
      if avail > 0 {
        avail := avail - 1;
      } else if !got {
        ref := ref - 1;
        return NoMemory;
      }
      pending := pending + [c];
      return Deferred;
    }

    /** nvmet_fc_rcv_fcp_abort loads the pointer to the fod from the request. */
    method AbortLoadFod(c: Cmd) returns (fod: Option<nat>)
      requires Coupled() && Inv(cfg, model)
      modifies this`model
      ensures Coupled() && Inv(cfg, model) && model == LoadStep(old(model), c)
      ensures fod == if c in private then Some(private[c]) else None
      ensures fod.Some? ==> fod.value < fods.Length && fods[fod.value].fcpreq == Some(c)
                            && Aborting(c, fod.value) in model.q.loads
    {
      hide Inv, LoadStep;
      LoadFields(cfg, model, c);
      fod := if c in private then Some(private[c]) else None;
      model := LoadStep(model, c);
    }

    /** Its unlocked test of the fod, at any later moment. */
    method AbortTestFod(c: Cmd, f: nat) returns (same: bool)
      requires Coupled() && Inv(cfg, model) && Aborting(c, f) in model.q.loads
      modifies this`model
      ensures Coupled() && Inv(cfg, model) && f < fods.Length && model == TestStep(old(model), Aborting(c, f))
      ensures same == (fods[f].fcpreq == Some(c)) && (same ==> Aborting(c, f) in model.q.marks)
    {
      hide Inv, TestStep;
      TestFields(cfg, model, Aborting(c, f));
      same := fods[f].fcpreq == Some(c);
      model := TestStep(model, Aborting(c, f));
    }

    /** Its lock section, at any later moment: the fod may serve another command by then, or none. */
    method AbortMarkFod(ghost c: Cmd, f: nat)
      requires Coupled() && Inv(cfg, model) && QlockFree(model) && Aborting(c, f) in model.q.marks
      modifies fods, this`model
      ensures Coupled() && Inv(cfg, model) && f < fods.Length && model == AbortStep(old(model), Aborting(c, f))
      ensures fods[..] == old(fods[..])[f := MarkAbort(old(fods[f]))]
    {
      hide Inv, AbortStep;
      MarkFields(cfg, model, Aborting(c, f));
      if fods[f].active {
        fods[f] := fods[f].(abort := true);
        fods[f] := fods[f].(aborted := true);
      }
      model := AbortStep(model, Aborting(c, f));
    }

    /** The three without another thread in between. */
    method RcvFcpAbort(c: Cmd)
      requires Coupled() && Inv(cfg, model) && QlockFree(model)
      modifies fods, this`model
      ensures Coupled() && Inv(cfg, model)
      ensures c in private ==> private[c] < fods.Length && old(fods[private[c]]).fcpreq == Some(c)
      ensures fods[..] == if c in private then old(fods[..])[private[c] := MarkAbort(old(fods[private[c]]))]
                          else old(fods[..])
    {
      hide Inv, AbortStep, MarkAbort;
      var fod := AbortLoadFod(c);
      if fod.Some? {
        var same := AbortTestFod(c, fod.value);
        if same {
          AbortMarkFod(c, fod.value);
        }
      }
    }

    /** nvmet_fc_delete_target_queue, with no other thread between its lock sections. */
    method DeleteTargetQueue()
      requires Coupled() && Inv(cfg, model) && model.q.del.NotStarted?
      modifies this, fods
      ensures Coupled() && Inv(cfg, model) && model == DelSettle(Step(cfg, old(model), DelStart))
      ensures forall f :: 0 <= f < fods.Length ==> fods[f] == MarkDeleted(old(fods[f]))
      ensures pending == [] && avail == 0 && !connected && ref == old(ref) - 1
      ensures fodList == old(fodList) && private == old(private)
    {
      hide Inv, MarkDeleted, DelSettle, Step;
      StartDeletion();
      MarkOutstanding();
      DrainPending();
      FinishDeletion();
    }

    /** The queue is marked as not connected, and the lock is taken. */
    method StartDeletion()
      requires Coupled() && Inv(cfg, model) && Enabled(model, DelStart)
      modifies this`connected, this`model
      ensures Coupled() && Inv(cfg, model) && model == Step(cfg, old(model), DelStart) && !connected
      ensures model.q.del == Marking(0) && model.q.draining == multiset{}
    {
      hide Inv;
      StepKeeps(cfg, model, DelStart);
      model := Step(cfg, model, DelStart);
      connected := false;
      DelMarkAt(cfg, model);
    }

    /** The empty list is found, and the creation reference dropped. */
    method FinishDeletion()
      requires Coupled() && Inv(cfg, model) && model.q.del.Draining? && model.q.draining == multiset{} && pending == []
      modifies this`pending, this`ref, this`model
      ensures Coupled() && Inv(cfg, model) && model == DelSettle(old(model)) && pending == [] && ref == old(ref) - 1
    {
      hide Inv, DelSettle, DelTakeStep;
      DelEnd(cfg, model);
      var none := TakeDeferred();
      DropCreationRef();
    }

    /** Its first lock section. */
    method MarkOutstanding()
      requires Coupled() && Inv(cfg, model) && model.q.del == Marking(0) && model.q.draining == multiset{}
      modifies fods, this`avail, this`model
      ensures Coupled() && Inv(cfg, model) && model.q.del.Draining? && model.q.draining == multiset{} && avail == 0
      ensures DelSettle(model) == DelSettle(old(model))
      ensures forall f :: 0 <= f < fods.Length ==> fods[f] == MarkDeleted(old(fods[f]))
    {
      hide Inv, MarkDeleted, DelSettle;
      var i := 0;
      while i < fods.Length
        invariant 0 <= i <= fods.Length && Coupled() && Inv(cfg, model) && model.q.del == Marking(i)
        invariant forall f :: 0 <= f < fods.Length ==> fods[f] == if f < i then MarkDeleted(old(fods[f])) else old(fods[f])
        invariant DelSettle(old(model)) == DelSettle(model) && model.q.draining == multiset{}
      {
        DelMarkAt(cfg, model);
        MarkFod(i);
        model := DelMarkStep(model);
        i := i + 1;
      }
      DelMarkAt(cfg, model);
      model := DelMarkStep(model);
      avail := 0;
    }

    /** The section that takes the first deferred command, or finds none, whatever other threads did before. */
    method TakeDeferred() returns (first: Option<Cmd>)
      requires Coupled() && Inv(cfg, model) && Enabled(model, DelTake)
      modifies this`pending, this`model
      ensures Coupled() && Inv(cfg, model) && model == Step(cfg, old(model), DelTake)
      ensures first == if old(pending) == [] then None else Some(old(pending)[0])
      ensures pending == if old(pending) == [] then [] else old(pending)[1..]
    {
      hide Inv;
      StepKeeps(cfg, model, DelTake);
      model := Step(cfg, model, DelTake);
      if pending == [] {
        return None;
      }
      first := Some(pending[0]);
      pending := pending[1..];
    }

    /** The unlocked calls that release it. */
    ghost method ReleaseDeferred(c: Cmd)
      requires Coupled() && Inv(cfg, model) && Enabled(model, DelRelease(c))
      modifies this`model
      ensures Coupled() && Inv(cfg, model) && model == Step(cfg, old(model), DelRelease(c))
    {
      hide Inv;
      StepKeeps(cfg, model, DelRelease(c));
      model := Step(cfg, model, DelRelease(c));
    }

    /** The last put. */
    method DropCreationRef()
      requires Coupled() && Inv(cfg, model) && Enabled(model, DelPut)
      modifies this`ref, this`model
      ensures Coupled() && Inv(cfg, model) && model == Step(cfg, old(model), DelPut) && ref == old(ref) - 1
    {
      hide Inv;
      StepKeeps(cfg, model, DelPut);
      ref := ref - 1;
      model := Step(cfg, model, DelPut);
    }

    /** The loop over the deferred commands. */
    method DrainPending()
      requires Coupled() && Inv(cfg, model) && model.q.del.Draining? && model.q.draining == multiset{}
      modifies this`pending, this`model
      ensures Coupled() && Inv(cfg, model) && model.q.del.Draining? && model.q.draining == multiset{} && pending == []
      ensures DelSettle(model) == DelSettle(old(model))
    {
      hide Inv, DelSettle, DelTakeStep;
      while pending != []
        invariant Coupled() && Inv(cfg, model) && model.q.del.Draining? && model.q.draining == multiset{}
        invariant DelSettle(old(model)) == DelSettle(model)
        decreases |pending|
      {
        DrainSteps(cfg, model);
        DrainSettles(model);
        var first := TakeDeferred();
        ReleaseDeferred(first.value);
      }
    }

    method MarkFod(i: nat)
      requires i < fods.Length
      modifies fods
      ensures fods[..] == old(fods[..])[i := MarkDeleted(old(fods[i]))]
    {
      if fods[i].active {
        fods[i] := fods[i].(abort := true);
        var writedataactive := fods[i].writing;
        if writedataactive {
          fods[i] := fods[i].(aborted := true);
        }
      }
    }
  }
}
