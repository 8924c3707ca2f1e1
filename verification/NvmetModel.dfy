/**
  The NVMe-over-FC target I/O engine as a step system.

  One target queue owns `sqsize` I/O descriptors (fods).  The code runs on many threads at once: LLDD
  callbacks, work items, nvmet completions, ABTS handlers and one queue deletion.  A thread that is in the
  middle of a function is a Task: the function's next section that runs without releasing a lock or calling
  out.  A step takes one task, runs its section, and leaves the tasks that the section starts.
  Nothing here says that a fod has at most one task; that is proved in NvmetInvariant.
*/
module NvmetModel {
  import opened Wrappers

  type Cmd = nat

  datatype Dir = WriteDir | ReadDir | NoData
  datatype Op = WriteData | ReadData | ReadDataRsp | Rsp

  datatype RawConfig = RawConfig(sqsize: nat, pageSize: nat, maxSg: nat, readDataRsp: bool, deferRcv: bool) {
    function MaxXfer(): nat { maxSg * pageSize }
  }

  type Config = c: RawConfig | c.pageSize > 0 && c.maxSg > 0 witness RawConfig(0, 1, 1, true, true)

  /** The fields of a fod, with the transfer fields of the request it is bound to. */
  datatype Fod = Fod(
    fcpreq: Option<Cmd>, active: bool, abort: bool, aborted: bool, writing: bool,
    dir: Dir, total: nat, offset: nat,
    sg: bool, sgCnt: nat,             // data_sg is set; data_sg_cnt, the count that the DMA mapping gave
    pages: nat,                       // pages of the last list that are still allocated
    op: Op, xferLen: nat, transferred: nat, error: bool)

  /** The fields of the command IU that nvmet_fc_handle_fcp_rqst looks at. */
  datatype CmdIu = CmdIu(total: nat, write: bool, read: bool, sqeWrite: bool)

  /** What the world outside answers during one step; `pages` is None if the list or one of its pages cannot be had,
      and otherwise what the DMA mapping of the list counts. */
  datatype Env = Env(
    iu: CmdIu, reqInit: bool, pages: Option<nat>,
    accepted: bool, transferred: nat, error: bool, status: nat)

  datatype Task =
    | Bind(c: Cmd)            // fod allocated by nvmet_fc_rcv_fcp_req, not yet tied to its request
    | Work                    // nvmet_fc_handle_fcp_rqst is queued or about to run
    | Xfer(op: Op)            // in nvmet_fc_transfer_fcp_data
    | XmtRsp                  // in nvmet_fc_xmt_fcp_rsp
    | OpPending               // the LLDD accepted an op and owes one completion
    | OpDone                  // nvmet_fc_fod_op_done is queued or about to run
    | OpSwitch(abort: bool)   // in nvmet_fc_fod_op_done, past its lock section
    | Exec                    // the nvmet core owes one completion
    | CmdDone                 // __nvmet_fc_fcp_nvme_cmd_done is about to run
    | CmdGo(abort: bool)      // in __nvmet_fc_fcp_nvme_cmd_done, past its lock section
    | Abort                   // in nvmet_fc_abort_op
    | Free                    // at the start of nvmet_fc_free_fcp_iod
    | Return                  // in nvmet_fc_free_fcp_iod, before its lock section
    | Rebind(c: Cmd)          // in nvmet_fc_free_fcp_iod, past the lock section, with a deferred command

  datatype Chunk = Chunk(op: Op, offset: nat, len: nat, sgStart: nat, sgCnt: nat)

  /** What has happened to a command so far. */
  datatype Past = Past(
    iu: Option<CmdIu>,     // the header it was started with
    status: Option<nat>,   // the status that its completion was called with
    answers: nat,          // how many responses the driver completed
    trouble: bool,         // bad header, op refused, failed or short, or the abort flag found raised
    gaveUp: bool,          // it went through nvmet_fc_abort_op
    visited: bool,         // the deletion came by while it had its fod
    waiting: bool,         // ... which was waiting for write data then
    asked: nat)            // how often the driver was told to abort it

  const NEW_PAST := Past(None, None, 0, false, false, false, false, 0)

  /** A fod, its tasks, and four history variables: the command it serves, the transfers tried for it, the count that the
      DMA mapping gave if pages were allocated for it, and its past. */
  datatype Slot = Slot(
    d: Fod, tasks: multiset<Task>, serving: Option<Cmd>, issued: seq<Chunk>, mapped: Option<nat>, past: Past)

  /** An abort for command `c` that has loaded the pointer to fod `f` from the request. */
  datatype Aborting = Aborting(c: Cmd, f: nat)

  datatype Deletion = NotStarted | Marking(i: nat) | Draining | Putting | Done

  /** The fods, the pool, and the back links from requests to fods. */
  datatype Io = Io(
    slots: seq<Slot>,
    fodList: seq<nat>,             // queue->fod_list
    private: map<Cmd, nat>)        // fcpreq->nvmet_fc_private

  datatype Queue = Queue(
    connected: bool,
    ref: nat,
    pending: seq<Cmd>,             // queue->pending_cmd_list
    avail: nat,                    // length of queue->avail_defer_list
    lookups: multiset<Cmd>,        // nvmet_fc_rcv_fcp_req past the lookup
    kmallocs: multiset<Cmd>,       // nvmet_fc_rcv_fcp_req at the unlocked kmalloc
    puts: nat,                     // nvmet_fc_tgt_q_put about to run
    loads: multiset<Aborting>,     // nvmet_fc_rcv_fcp_abort with the pointer loaded, before its unlocked test
    marks: multiset<Aborting>,     // nvmet_fc_rcv_fcp_abort past that test, before its lock section
    draining: multiset<Cmd>,       // taken off the pending list by the deletion, not yet released
    del: Deletion)

  /** What has happened so far; no section reads it. */
  datatype History = History(
    arrived: set<Cmd>,             // delivered by the LLDD
    rejected: multiset<Cmd>,       // refused with an error
    started: multiset<Cmd>,        // given a fod
    released: multiset<Cmd>,       // released by nvmet_fc_free_fcp_iod
    answered: multiset<Cmd>,       // for each of them, how many responses the driver completed
    gaveUp: set<Cmd>,              // those of them that went through nvmet_fc_abort_op
    drained: multiset<Cmd>,        // released by the deletion
    deferred: seq<Cmd>,            // put on the pending list
    taken: seq<Cmd>)               // taken off it

  datatype State = State(io: Io, q: Queue, h: History)

  datatype Event =
    | Connect
    | Find(c: Cmd)
    | Alloc(c: Cmd)
    | DeferNew(c: Cmd, got: bool)
    | PutRef
    | Run(f: nat, t: Task, env: Env)
    | AbortLoad(c: Cmd)
    | AbortTest(a: Aborting)
    | AbortMark(a: Aborting)
    | DelStart
    | DelMark
    | DelTake
    | DelRelease(c: Cmd)
    | DelPut

  function IdleFod(): Fod {
    Fod(None, false, false, false, false, NoData, 0, 0, false, 0, 0, Rsp, 0, 0, false)
  }

  function Init(cfg: Config): State {
    State(Io(seq(cfg.sqsize, i => Slot(IdleFod(), multiset{}, None, [], None, NEW_PAST)), seq(cfg.sqsize, i => i), map[]),
          Queue(false, 1, [], 0, multiset{}, multiset{}, 0, multiset{}, multiset{}, multiset{}, NotStarted),
          History({}, multiset{}, multiset{}, multiset{}, multiset{}, {}, multiset{}, [], []))
  }

  // ---------------------------------------------------------------- sections that touch one fod only

  function DirOf(iu: CmdIu): Dir {
    if iu.write then WriteDir else if iu.read then ReadDir else NoData
  }

  predicate BadDirection(iu: CmdIu) {
    if iu.write then !iu.sqeWrite else if iu.read then iu.sqeWrite else iu.total != 0
  }

  function Min(a: int, b: int): int { if a <= b then a else b }

  function CeilDiv(a: nat, b: nat): nat requires b > 0 { (a + b - 1) / b }

  /** nvmet_fc_transfer_fcp_data up to the call of the LLDD. */
  function Prepare(cfg: Config, d: Fod, op: Op): Fod {
    var left := if d.total >= d.offset then d.total - d.offset else 0;
    var tlen := Min(cfg.MaxXfer(), left);
    var last := op == ReadData && d.offset + tlen == d.total && cfg.readDataRsp;
    d.(op := if last then ReadDataRsp else op, xferLen := tlen, transferred := 0, error := false)
  }

  function ChunkOf(cfg: Config, d: Fod): Chunk {
    Chunk(d.op, d.offset, d.xferLen, d.offset / cfg.pageSize, CeilDiv(d.xferLen, cfg.pageSize))
  }

  /** The entries of the scatter list of a command: one for each page. */
  function Nent(cfg: Config, total: nat): nat { CeilDiv(total, cfg.pageSize) }

  /** nvmet_fc_free_tgt_pgs: one page is freed for each segment that the mapping counted, and the list with them;
      without a count it returns early, and the list stays. */
  function FreePages(d: Fod): Fod {
    if d.sg && d.sgCnt > 0 then d.(sg := false, sgCnt := 0, pages := if d.pages > d.sgCnt then d.pages - d.sgCnt else 0)
    else d
  }

  /** The count for the pages of a new command, if it gets any: a mapping may merge pages and so count fewer
      segments than the list has entries, but never more. */
  function MappedBy(cfg: Config, env: Env): Option<nat> {
    if BadDirection(env.iu) || !env.reqInit || env.iu.total == 0 || env.pages.None? then None
    else Some(Min(env.pages.value, Nent(cfg, env.iu.total)))
  }

  function NoPages(d: Fod): Fod { d.(sg := false, sgCnt := 0, pages := 0) }

  /** nvmet_fc_alloc_tgt_pgs when it gets all it asks for. */
  function GetPages(cfg: Config, d: Fod, counted: nat): Fod {
    d.(sg := true, sgCnt := Min(counted, Nent(cfg, d.total)), pages := Nent(cfg, d.total))
  }

  predicate IsLocal(t: Task) { !t.Bind? && !t.Free? && !t.Return? && !t.Rebind? }

  /** One section of the code working on a single fod: the new fod and where the work goes next. */
  function Local(cfg: Config, d: Fod, t: Task, env: Env): (Fod, Task)
    requires IsLocal(t)
  {
    match t
    case Work =>
      var d1 := d.(total := env.iu.total, dir := DirOf(env.iu));
      if BadDirection(env.iu) then (d1, Abort)
      else if !env.reqInit || (d1.total > 0 && env.pages.None?) then (NoPages(d1), CmdDone)
      else
        var d2 := if d1.total > 0 then GetPages(cfg, d1, env.pages.value) else NoPages(d1);
        (d2.(offset := 0), if d2.dir.WriteDir? then Xfer(WriteData) else Exec)
    case Xfer(op) =>
      var d1 := Prepare(cfg, d, op);
      if env.accepted then (d1, OpPending)
      else if op == WriteData then (d1.(abort := true, writing := false), CmdDone)
      else (d1.(abort := true, error := true, transferred := 0), OpDone)
    case XmtRsp =>
      (d.(op := Rsp), if env.accepted then OpPending else Abort)
    case OpPending =>
      (d.(transferred := env.transferred, error := env.error), OpDone)
    case OpDone =>
      (d.(writing := false), OpSwitch(d.abort))
    case OpSwitch(abort) =>
      var short := d.error || d.transferred != d.xferLen;
      var moved := d.(offset := d.offset + d.transferred);
      (match d.op
       case WriteData =>
         if abort then (d, CmdDone)
         else if short then (d.(abort := true), CmdDone)
         else if moved.offset != d.total then (moved.(writing := true), Xfer(WriteData))
         else (moved, Exec)
       case ReadData =>
         if abort || short then (d, Abort)
         else if moved.offset != d.total then (moved, Xfer(ReadData))
         else (FreePages(moved), XmtRsp)
       case ReadDataRsp =>
         if abort || short then (d, Abort) else (FreePages(d), Free)
       case Rsp =>
         (d, if abort then Abort else Free))
    case Exec => (d, CmdDone)
    case CmdDone => (d, CmdGo(d.abort))
    case CmdGo(abort) =>
      if abort then (d, Abort)
      else if env.status == 0 && d.dir.ReadDir? && d.sgCnt > 0 then (d, Xfer(ReadData))
      else (FreePages(d), XmtRsp)
    case Abort => (FreePages(d), Free)
  }

  /** The flags of the header agree with the command: a writing flag with a command that writes, a reading flag alone
      with one that does not, and neither with no data. */
  predicate Agreeing(iu: CmdIu) {
    (iu.write && iu.sqeWrite) || (iu.read && !iu.write && !iu.sqeWrite) || (!iu.read && !iu.write && iu.total == 0)
  }

  function PastAfter(s: Slot, t: Task, env: Env): Past {
    var p := s.past;
    var full := !env.error && env.transferred == s.d.xferLen;
    match t
    case Work => p.(iu := Some(env.iu), trouble := p.trouble || !Agreeing(env.iu))
    case Xfer(_) => p.(trouble := p.trouble || !env.accepted)
    case XmtRsp => p.(trouble := p.trouble || !env.accepted)
    case OpPending =>
      if s.d.op == Rsp then p.(answers := p.answers + 1)
      else p.(answers := if s.d.op == ReadDataRsp && full then p.answers + 1 else p.answers, trouble := p.trouble || !full)
    case OpDone => p.(trouble := p.trouble || s.d.abort)
    case CmdDone => p.(trouble := p.trouble || s.d.abort)
    case CmdGo(_) => p.(status := Some(env.status))
    case Abort => p.(gaveUp := true, asked := if s.d.aborted then p.asked else p.asked + 1)
    case _ => p
  }

  function LocalSlot(cfg: Config, s: Slot, t: Task, env: Env): Slot
    requires IsLocal(t)
  {
    var (d, t') := Local(cfg, s.d, t, env);
    Slot(d, s.tasks - multiset{t} + multiset{t'}, s.serving,
         if t.Xfer? then s.issued + [ChunkOf(cfg, Prepare(cfg, s.d, t.op))] else s.issued,
         if t.Work? then MappedBy(cfg, env) else s.mapped,
         PastAfter(s, t, env))
  }

  // ---------------------------------------------------------------- sections that touch the queue

  function SetSlot(io: Io, f: nat, v: Slot): Io
    requires f < |io.slots|
  {
    io.(slots := io.slots[f := v])
  }

  predicate FodReady(s: State) {
    s.io.fodList != [] && s.io.fodList[0] < |s.io.slots|
  }

  /** nvmet_fc_find_target_queue. */
  function FindStep(s: State, c: Cmd): State {
    var h := s.h.(arrived := s.h.arrived + {c});
    if s.q.connected && s.q.ref > 0 then
      State(s.io, s.q.(ref := s.q.ref + 1, lookups := s.q.lookups + multiset{c}), h)
    else State(s.io, s.q, h.(rejected := h.rejected + multiset{c}))
  }

  /** nvmet_fc_rcv_fcp_req when nvmet_fc_alloc_fcp_iod finds a fod. */
  function AllocFod(s: State, c: Cmd): State
    requires FodReady(s)
  {
    var f := s.io.fodList[0];
    var v := s.io.slots[f];
    State(SetSlot(s.io, f, Slot(v.d.(active := true), v.tasks + multiset{Bind(c)}, Some(c), [], None, NEW_PAST))
            .(fodList := s.io.fodList[1..]),
          s.q.(lookups := s.q.lookups - multiset{c}),
          s.h.(started := s.h.started + multiset{c}))
  }

  /** The rest of nvmet_fc_rcv_fcp_req's lock section when the pool is empty. */
  function AllocNone(cfg: Config, s: State, c: Cmd): State {
    var q := s.q.(lookups := s.q.lookups - multiset{c});
    if !cfg.deferRcv then
      State(s.io, q.(puts := q.puts + 1), s.h.(rejected := s.h.rejected + multiset{c}))
    else if q.avail > 0 then
      State(s.io, q.(avail := q.avail - 1, pending := q.pending + [c]), s.h.(deferred := s.h.deferred + [c]))
    else
      State(s.io, q.(kmallocs := q.kmallocs + multiset{c}), s.h)
  }

  function DeferStep(s: State, c: Cmd, got: bool): State {
    var q := s.q.(kmallocs := s.q.kmallocs - multiset{c});
    if got then State(s.io, q.(pending := q.pending + [c]), s.h.(deferred := s.h.deferred + [c]))
    else State(s.io, q.(puts := q.puts + 1), s.h.(rejected := s.h.rejected + multiset{c}))
  }

  /** Ties fod and request together and hands the fod to nvmet_fc_queue_fcp_req. */
  function BindStep(s: State, f: nat, t: Task): State
    requires f < |s.io.slots| && (t.Bind? || t.Rebind?)
  {
    var v := s.io.slots[f];
    s.(io := SetSlot(s.io, f, v.(d := v.d.(fcpreq := Some(t.c), active := true),
                                 tasks := v.tasks - multiset{t} + multiset{Work}))
               .(private := s.io.private[t.c := f]))
  }

  /** nvmet_fc_free_fcp_iod up to fcp_req_release. */
  function FreeStep(s: State, f: nat): State
    requires f < |s.io.slots| && s.io.slots[f].d.fcpreq.Some?
  {
    var v := s.io.slots[f];
    var c := v.d.fcpreq.value;
    var d := v.d.(fcpreq := None, active := false, abort := false, aborted := false, writing := false);
    State(SetSlot(s.io, f, Slot(d, v.tasks - multiset{Free} + multiset{Return}, None, v.issued, v.mapped, NEW_PAST))
            .(private := s.io.private - {c}),
          s.q, s.h.(released := s.h.released + multiset{c}, answered := s.h.answered[c := v.past.answers],
                    gaveUp := if v.past.gaveUp then s.h.gaveUp + {c} else s.h.gaveUp))
  }

  /** The lock section of nvmet_fc_free_fcp_iod with no deferred command. */
  function PoolStep(s: State, f: nat): State
    requires f < |s.io.slots|
  {
    var v := s.io.slots[f];
    State(SetSlot(s.io, f, v.(tasks := v.tasks - multiset{Return})).(fodList := s.io.fodList + [f]),
          s.q.(puts := s.q.puts + 1), s.h)
  }

  /** The lock section of nvmet_fc_free_fcp_iod that takes the first deferred command. */
  function ResumeStep(s: State, f: nat): State
    requires f < |s.io.slots| && s.q.pending != []
  {
    var v, c := s.io.slots[f], s.q.pending[0];
    State(SetSlot(s.io, f, Slot(v.d, v.tasks - multiset{Return} + multiset{Rebind(c)}, Some(c), [], None, NEW_PAST)),
          s.q.(pending := s.q.pending[1..], avail := s.q.avail + 1),
          s.h.(taken := s.h.taken + [c], started := s.h.started + multiset{c}))
  }

  function RunStep(cfg: Config, s: State, f: nat, t: Task, env: Env): State
    requires f < |s.io.slots| && (t.Free? ==> s.io.slots[f].d.fcpreq.Some?)
  {
    if t.Bind? || t.Rebind? then BindStep(s, f, t)
    else if t.Free? then FreeStep(s, f)
    else if t.Return? then if s.q.pending == [] then PoolStep(s, f) else ResumeStep(s, f)
    else s.(io := SetSlot(s.io, f, LocalSlot(cfg, s.io.slots[f], t, env)))
  }

  function MarkAbort(d: Fod): Fod {
    if d.active then d.(abort := true, aborted := true) else d
  }

  function MarkDeleted(d: Fod): Fod {
    if d.active then d.(abort := true, aborted := d.aborted || d.writing) else d
  }

  /** nvmet_fc_rcv_fcp_abort loads the pointer to the fod from the request, and gives up if it is null. */
  function LoadStep(s: State, c: Cmd): State {
    if c in s.io.private then s.(q := s.q.(loads := s.q.loads + multiset{Aborting(c, s.io.private[c])})) else s
  }

  /** Its unlocked test looks at the fod, which lies in the queue's own memory, at some later moment. */
  function TestStep(s: State, a: Aborting): State
    requires a.f < |s.io.slots|
  {
    var q := s.q.(loads := s.q.loads - multiset{a});
    s.(q := if s.io.slots[a.f].d.fcpreq == Some(a.c) then q.(marks := q.marks + multiset{a}) else q)
  }

  /** Its lock section: the fod may serve another command by then, or none. */
  function AbortStep(s: State, a: Aborting): State
    requires a.f < |s.io.slots|
  {
    var v := s.io.slots[a.f];
    s.(io := SetSlot(s.io, a.f, v.(d := MarkAbort(v.d))), q := s.q.(marks := s.q.marks - multiset{a}))
  }

  /** The deletion comes by, and tells the driver to abort a fod that is waiting for write data. */
  function Visited(v: Slot): Slot {
    var asked := if v.d.writing then v.past.asked + 1 else v.past.asked;
    v.(d := MarkDeleted(v.d),
       past := if v.d.active then v.past.(visited := true, waiting := v.d.writing, asked := asked) else v.past)
  }

  function DelMarkStep(s: State): State
    requires s.q.del.Marking? && s.q.del.i <= |s.io.slots|
  {
    var i := s.q.del.i;
    if i < |s.io.slots| then
      var v := s.io.slots[i];
      s.(io := SetSlot(s.io, i, Visited(v)), q := s.q.(del := Marking(i + 1)))
    else s.(q := s.q.(del := Draining, avail := 0))
  }

  function DelTakeStep(s: State): State {
    if s.q.pending == [] then s.(q := s.q.(del := Putting))
    else
      var c := s.q.pending[0];
      State(s.io, s.q.(pending := s.q.pending[1..], draining := s.q.draining + multiset{c}),
            s.h.(taken := s.h.taken + [c]))
  }

  /** Sections under queue->qlock wait while the deletion marks the fods. */
  predicate QlockFree(s: State) { !s.q.del.Marking? }

  predicate Enabled(s: State, e: Event) {
    match e
    case Connect => s.q.del.NotStarted?
    case Find(c) => c !in s.h.arrived
    case Alloc(c) => c in s.q.lookups && QlockFree(s) && (s.io.fodList != [] ==> FodReady(s))
    case DeferNew(c, _) => c in s.q.kmallocs && QlockFree(s)
    case PutRef => s.q.puts > 0 && s.q.ref > 0
    case Run(f, t, _) =>
      && f < |s.io.slots| && t in s.io.slots[f].tasks
      && (t.Free? ==> s.io.slots[f].d.fcpreq.Some?)
      && (t.Return? ==> QlockFree(s))
    case AbortLoad(_) => true
    case AbortTest(a) => a in s.q.loads && a.f < |s.io.slots|
    case AbortMark(a) => a in s.q.marks && QlockFree(s) && a.f < |s.io.slots|
    case DelStart => s.q.del.NotStarted?
    case DelMark => s.q.del.Marking? && s.q.del.i <= |s.io.slots|
    case DelTake => s.q.del.Draining? && s.q.draining == multiset{}
    case DelRelease(c) => c in s.q.draining
    case DelPut => s.q.del.Putting? && s.q.draining == multiset{} && s.q.ref > 0
  }

  function Step(cfg: Config, s: State, e: Event): State
    requires Enabled(s, e)
  {
    match e
    case Connect => s.(q := s.q.(connected := true))
    case Find(c) => FindStep(s, c)
    case Alloc(c) => if s.io.fodList != [] then AllocFod(s, c) else AllocNone(cfg, s, c)
    case DeferNew(c, got) => DeferStep(s, c, got)
    case PutRef => s.(q := s.q.(puts := s.q.puts - 1, ref := s.q.ref - 1))
    case Run(f, t, env) => RunStep(cfg, s, f, t, env)
    case AbortLoad(c) => LoadStep(s, c)
    case AbortTest(a) => TestStep(s, a)
    case AbortMark(a) => AbortStep(s, a)
    case DelStart => s.(q := s.q.(connected := false, del := Marking(0)))
    case DelMark => DelMarkStep(s)
    case DelTake => DelTakeStep(s)
    case DelRelease(c) =>
      State(s.io, s.q.(draining := s.q.draining - multiset{c}), s.h.(drained := s.h.drained + multiset{c}))
    case DelPut => s.(q := s.q.(del := Done, ref := s.q.ref - 1))
  }

  /** A run: the states of a run from `s` along `es`, if every event is enabled when its turn comes. */
  ghost predicate RunsTo(cfg: Config, s: State, es: seq<Event>, s': State)
    decreases |es|
  {
    if es == [] then s' == s
    else Enabled(s, es[0]) && RunsTo(cfg, Step(cfg, s, es[0]), es[1..], s')
  }

  ghost predicate Reachable(cfg: Config, s: State) {
    exists es :: RunsTo(cfg, Init(cfg), es, s)
  }
}
