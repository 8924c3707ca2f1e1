/** What every step of the engine keeps, and what follows for every run. */
module NvmetInvariant {
  import opened Wrappers
  import opened NvmetModel

  // ---------------------------------------------------------------- commands in service

  ghost function One<T>(x: Option<T>): multiset<T> {
    if x.Some? then multiset{x.value} else multiset{}
  }

  /** The commands that some fod serves, with multiplicity. */
  ghost function Served(slots: seq<Slot>): multiset<Cmd> {
    if slots == [] then multiset{} else One(slots[0].serving) + Served(slots[1..])
  }

  lemma {:induction false} ServedUpdateAt(slots: seq<Slot>, f: nat, v: Slot, c: Cmd)
    requires f < |slots|
    ensures Served(slots[f := v])[c] + One(slots[f].serving)[c] == Served(slots)[c] + One(v.serving)[c]
  {
    if f == 0 {
      assert slots[f := v][1..] == slots[1..];
    } else {
      ServedUpdateAt(slots[1..], f - 1, v, c);
      assert slots[f := v][1..] == slots[1..][f - 1 := v];
    }
  }

  lemma ServedUpdate(slots: seq<Slot>, f: nat, v: Slot)
    requires f < |slots|
    ensures Served(slots[f := v]) + One(slots[f].serving) == Served(slots) + One(v.serving)
    ensures v.serving == slots[f].serving ==> Served(slots[f := v]) == Served(slots)
  {
    hide Served;
    forall c ensures Served(slots[f := v])[c] + One(slots[f].serving)[c] == Served(slots)[c] + One(v.serving)[c] {
      ServedUpdateAt(slots, f, v, c);
    }
  }

  lemma {:induction false} ServedHas(slots: seq<Slot>, f: nat, c: Cmd)
    requires f < |slots| && slots[f].serving == Some(c)
    ensures c in Served(slots)
  {
    if f > 0 { ServedHas(slots[1..], f - 1, c); }
  }

  lemma {:induction false} ServedTwice(slots: seq<Slot>, f: nat, g: nat, c: Cmd)
    requires f < g < |slots| && slots[f].serving == Some(c) && slots[g].serving == Some(c)
    ensures Served(slots)[c] >= 2
  {
    if f > 0 { ServedTwice(slots[1..], f - 1, g - 1, c); } else { ServedHas(slots[1..], g - 1, c); }
  }

  // ---------------------------------------------------------------- the plan of a transfer

  /** The number of chunks that move `total` bytes; an empty write is one empty chunk. */
  function ChunkCount(cfg: Config, total: nat): nat {
    if total == 0 then 1 else CeilDiv(total, cfg.MaxXfer())
  }

  predicate IsChunk(cfg: Config, total: nat, k: nat, c: Chunk) {
    && c.offset == k * cfg.MaxXfer()
    && c.offset + c.len == Min((k + 1) * cfg.MaxXfer(), total)
    && c.sgStart == k * cfg.maxSg
    && c.sgCnt == CeilDiv(c.len, cfg.pageSize)
    && (c.op == ReadDataRsp ==> c.offset + c.len == total && cfg.readDataRsp)
    && (c.op == ReadData ==> c.offset + c.len != total || !cfg.readDataRsp)
  }

  predicate OnPlan(cfg: Config, total: nat, issued: seq<Chunk>) {
    forall k :: 0 <= k < |issued| ==> IsChunk(cfg, total, k, issued[k])
  }

  predicate Complete(cfg: Config, total: nat, issued: seq<Chunk>) {
    OnPlan(cfg, total, issued) && |issued| == ChunkCount(cfg, total)
  }

  /** Every chunk has been moved in full, or none was tried. */
  predicate AllOrNothing(cfg: Config, slot: Slot) {
    slot.issued == [] || (Complete(cfg, slot.d.total, slot.issued) && slot.d.offset == slot.d.total)
  }

  /** About to issue chunk number |issued|. */
  predicate AtChunk(cfg: Config, slot: Slot) {
    && OnPlan(cfg, slot.d.total, slot.issued)
    && slot.d.offset == |slot.issued| * cfg.MaxXfer()
    && (slot.d.offset < slot.d.total || (slot.d.total == 0 && slot.issued == []))
  }

  /** The last issued chunk is the one under way. */
  predicate InChunk(cfg: Config, slot: Slot) {
    && slot.issued != []
    && OnPlan(cfg, slot.d.total, slot.issued)
    && (var c := slot.issued[|slot.issued| - 1];
        c.offset == slot.d.offset && c.len == slot.d.xferLen && c.op == slot.d.op)
    && (slot.d.offset < slot.d.total || (slot.d.total == 0 && |slot.issued| == 1))
  }

  predicate OpFits(d: Fod, op: Op) {
    match op
    case WriteData => d.dir.WriteDir?
    case ReadData => d.dir.ReadDir? && d.total > 0
    case ReadDataRsp => d.dir.ReadDir? && d.total > 0
    case Rsp => true
  }

  /** The pages of the command and their count: as allocated and counted until one page for each counted segment is
      given back with the list; with a count of 0 the list stays. */
  predicate PagesOk(cfg: Config, slot: Slot) {
    var d, nent := slot.d, Nent(cfg, slot.d.total);
    match slot.mapped
    case None => d.sgCnt == 0
    case Some(n) =>
      n <= nent && if n == d.sgCnt then d.sg && d.pages == nent else !d.sg && d.sgCnt == 0 && d.pages == nent - n
  }

  predicate DataOk(cfg: Config, slot: Slot, t: Task) {
    var d := slot.d;
    && (d.sgCnt > 0 ==> d.total > 0) && PagesOk(cfg, slot)
    && OnPlan(cfg, d.total, slot.issued)
    && match t
       case Bind(_) => slot.issued == [] && d.sgCnt == 0
       case Rebind(_) => slot.issued == [] && d.sgCnt == 0
       case Work => slot.issued == [] && d.sgCnt == 0
       case Xfer(op) => (op.WriteData? || op.ReadData?) && OpFits(d, op) && AtChunk(cfg, slot)
       case XmtRsp => AllOrNothing(cfg, slot) && d.sgCnt == 0
       case OpPending => OpOk(cfg, slot)
       case OpDone => OpOk(cfg, slot)
       case OpSwitch(abort) => (abort ==> d.abort) && OpOk(cfg, slot)
       case Exec =>
         if d.dir.WriteDir? then Complete(cfg, d.total, slot.issued) && d.offset == d.total
         else slot.issued == [] && d.offset == 0
       case CmdDone => BeforeResponse(cfg, slot, d.abort)
       case CmdGo(abort) => BeforeResponse(cfg, slot, abort)
       case Abort => true
       case Free => d.sgCnt == 0
       case Return => d.sgCnt == 0
  }

  /** The LLDD holds the request, or has just completed it. */
  predicate OpOk(cfg: Config, slot: Slot) {
    if slot.d.op == Rsp then AllOrNothing(cfg, slot) && slot.d.sgCnt == 0
    else OpFits(slot.d, slot.d.op) && InChunk(cfg, slot)
  }

  predicate BeforeResponse(cfg: Config, slot: Slot, abort: bool) {
    if slot.d.dir.WriteDir? then abort || AllOrNothing(cfg, slot)
    else slot.issued == [] && (slot.d.sgCnt > 0 ==> slot.d.offset == 0)
  }

  // ---------------------------------------------------------------- the invariant

  /** Which bindings a fod has while its one task is `t`. */
  predicate BindingOk(slot: Slot, t: Task) {
    match t
    case Bind(c) => slot.serving == Some(c) && slot.d.fcpreq == None && slot.d.active
    case Rebind(c) => slot.serving == Some(c) && slot.d.fcpreq == None && !slot.d.active
    case Return => slot.serving == None && slot.d.fcpreq == None && !slot.d.active
    case _ => slot.serving.Some? && slot.d.fcpreq == slot.serving && slot.d.active
  }

  predicate BusyWith(cfg: Config, slot: Slot, t: Task) {
    slot.tasks == multiset{t} && BindingOk(slot, t) && DataOk(cfg, slot, t)
  }

  ghost predicate Busy(cfg: Config, slot: Slot) {
    exists t :: BusyWith(cfg, slot, t)
  }

  predicate Idle(cfg: Config, slot: Slot) {
    slot.tasks == multiset{} && slot.serving == None && slot.d.fcpreq == None
    && !slot.d.active && slot.d.sgCnt == 0 && PagesOk(cfg, slot)
  }

  predicate PoolOk(cfg: Config, io: Io) {
    && |io.slots| == cfg.sqsize
    && (forall f <- io.fodList :: f < |io.slots|)
    && (forall i, j :: 0 <= i < j < |io.fodList| ==> io.fodList[i] != io.fodList[j])
  }

  /** A fod is in the pool with no task at all, or outside with exactly one. */
  ghost predicate SlotOk(cfg: Config, io: Io, f: nat)
    requires f < |io.slots|
  {
    if f in io.fodList then Idle(cfg, io.slots[f]) else Busy(cfg, io.slots[f])
  }

  ghost predicate SlotsOk(cfg: Config, io: Io) {
    forall f :: 0 <= f < |io.slots| ==> SlotOk(cfg, io, f)
  }

  /** fod->fcpreq and fcpreq->nvmet_fc_private are inverse to each other. */
  predicate LinksOk(io: Io) {
    && (forall c <- io.private :: io.private[c] < |io.slots| && io.slots[io.private[c]].d.fcpreq == Some(c))
    && (forall f :: 0 <= f < |io.slots| && io.slots[f].d.fcpreq.Some? ==>
          io.slots[f].d.fcpreq.value in io.private && io.private[io.slots[f].d.fcpreq.value] == f)
  }

  ghost predicate IoOk(cfg: Config, io: Io) {
    PoolOk(cfg, io) && SlotsOk(cfg, io) && LinksOk(io)
  }

  /** The number of places that command `c` is in. */
  ghost function Places(s: State, c: Cmd): nat {
    s.q.lookups[c] + s.q.kmallocs[c] + multiset(s.q.pending)[c] + Served(s.io.slots)[c]
    + s.h.released[c] + s.q.draining[c] + s.h.drained[c] + s.h.rejected[c]
  }

  /** A command that arrived is in exactly one place, and no other command is in any. */
  ghost predicate CommandOk(s: State, c: Cmd) {
    && Places(s, c) == (if c in s.h.arrived then 1 else 0)
    && s.h.started[c] == Served(s.io.slots)[c] + s.h.released[c]
  }

  ghost predicate CommandsOk(s: State) {
    forall c :: CommandOk(s, c)
  }

  /** Deferred commands leave the pending list in the order in which they joined it. */
  predicate OrderOk(s: State) {
    s.h.deferred == s.h.taken + s.q.pending
  }

  /** What the reference count is for: its creation, threads under way, fods in use, and every deferral ever made. */
  predicate RefsOk(s: State) {
    s.q.ref == (if s.q.del.Done? then 0 else 1) + |s.q.lookups| + |s.q.kmallocs| + s.q.puts
               + (|s.io.slots| - |s.io.fodList|) + |s.h.deferred|
  }

  predicate DeletionOk(s: State) {
    && (s.q.del.Marking? ==> s.q.del.i <= |s.io.slots|)
    && (forall a <- s.q.loads + s.q.marks :: a.f < |s.io.slots|)
    && (!s.q.del.Draining? ==> s.q.draining == multiset{})
  }

  ghost predicate Inv(cfg: Config, s: State) {
    IoOk(cfg, s.io) && CommandsOk(s) && OrderOk(s) && RefsOk(s) && DeletionOk(s)
  }

  lemma {:induction false} ServedNone(slots: seq<Slot>)
    requires forall f :: 0 <= f < |slots| ==> slots[f].serving == None
    ensures Served(slots) == multiset{}
  {
    if slots != [] {
      ServedNone(slots[1..]);
    }
  }

  lemma InitInv(cfg: Config)
    ensures Inv(cfg, Init(cfg))
  {
    var io := Init(cfg).io;
    forall f | 0 <= f < |io.slots| ensures f in io.fodList {
      assert io.fodList[f] == f;
    }
    ServedNone(io.slots);
  }
}
