/** How the data of a command is cut into chunks, in every run. */
module NvmetTransfer {
  import opened Arithmetic
  import opened Wrappers
  import opened NvmetModel
  import opened NvmetInvariant
  import opened NvmetSteps
  import opened NvmetTheorems

  /** Rounding up is additive in whole multiples of the divisor. */
  lemma CeilShift(q: nat, p: nat, r: nat)
    requires p > 0
    ensures CeilDiv(q * p + r, p) == q + CeilDiv(r, p)
  {
    var x := r + p - 1;
    assert x == p * (x / p) + x % p;
    assert (q + x / p) * p == q * p + (x / p) * p;
    assert (q + x / p + 1) * p == (q + x / p) * p + p;
    Quotient(q * p + r + p - 1, p, q + x / p);
  }

  /** Consecutive chunks of a plan meet, in the data and in the scatter list; only the last may carry the response. */
  lemma ChunksMeet(cfg: Config, total: nat, issued: seq<Chunk>, k: nat)
    requires OnPlan(cfg, total, issued) && k + 1 < |issued|
    ensures issued[k].offset + issued[k].len == issued[k + 1].offset
    ensures issued[k].sgStart + issued[k].sgCnt == issued[k + 1].sgStart
    ensures issued[k].len == cfg.MaxXfer()
    ensures issued[k].op == ReadDataRsp ==> issued[k + 1].len == 0
  {
    var m := cfg.MaxXfer();
    assert IsChunk(cfg, total, k, issued[k]) && IsChunk(cfg, total, k + 1, issued[k + 1]);
    assert (k + 1) * m == k * m + m;
    assert issued[k].len == m;
    CeilShift(cfg.maxSg, cfg.pageSize, 0);
    Quotient(cfg.pageSize - 1, cfg.pageSize, 0);
    assert (k + 1) * cfg.maxSg == k * cfg.maxSg + cfg.maxSg;
  }

  /** A complete plan starts at the beginning of the data and of the scatter list, and ends at the end of the data and at
      the end of the list that nvmet_fc_alloc_tgt_pgs allocated. */
  lemma PlanEnds(cfg: Config, total: nat, issued: seq<Chunk>)
    requires Complete(cfg, total, issued)
    ensures issued != [] && issued[0].offset == issued[0].sgStart == 0
    ensures var c := issued[|issued| - 1];
            && c.offset + c.len == total
            && c.sgStart + c.sgCnt == CeilDiv(total, cfg.pageSize)
            && (total > 0 ==> c.len > 0)
    ensures total > 0 ==> |issued| == CeilDiv(total, cfg.MaxXfer())
  {
    PageOfChunk(cfg, 0);
    if total > 0 { CeilBounds(total, cfg.MaxXfer()); }
    assert IsChunk(cfg, total, 0, issued[0]) && IsChunk(cfg, total, |issued| - 1, issued[|issued| - 1]);
    hide Complete, OnPlan;
    if total > 0 { LastChunk(cfg, total, |issued| - 1, issued[|issued| - 1]); }
  }

  lemma LastChunk(cfg: Config, total: nat, k: nat, c: Chunk)
    requires total > 0 && IsChunk(cfg, total, k, c) && cfg.MaxXfer() > 0 && k + 1 == CeilDiv(total, cfg.MaxXfer())
    ensures c.offset + c.len == total && c.len > 0 && c.sgStart + c.sgCnt == CeilDiv(total, cfg.pageSize)
  {
    var m := cfg.MaxXfer();
    CeilBounds(total, m);
    assert k * m == (k * cfg.maxSg) * cfg.pageSize;
    CeilShift(k * cfg.maxSg, cfg.pageSize, total - k * m);
  }

  lemma CeilBounds(n: nat, m: nat)
    requires n > 0 && m > 0
    ensures CeilDiv(n, m) >= 1
    ensures (CeilDiv(n, m) - 1) * m < n <= CeilDiv(n, m) * m
  {
    var x := n + m - 1;
    var q := x / m;
    assert x == m * q + x % m;
    assert (q - 1) * m == q * m - m;
  }

  /** The chunks of a complete plan tile the data: every byte is in one of them and in no other. */
  lemma CoversOnce(cfg: Config, total: nat, issued: seq<Chunk>, b: nat)
    requires Complete(cfg, total, issued) && b < total
    ensures exists k :: 0 <= k < |issued| && InSlice(issued[k], b)
    ensures forall j, k :: 0 <= j < |issued| && 0 <= k < |issued| && InSlice(issued[j], b) && InSlice(issued[k], b)
              ==> j == k
  {
    hide Complete, OnPlan, IsChunk;
    var m := cfg.MaxXfer();
    PageOfChunk(cfg, 0);
    ByteHasChunk(cfg, total, issued, b);
    forall j | 0 <= j < |issued| ensures InSlice(issued[j], b) <==> j == b / m {
      ByteOfChunk(cfg, total, issued, j, b);
    }
    assert InSlice(issued[b / m], b);
  }

  predicate InSlice(c: Chunk, b: nat) { c.offset <= b < c.offset + c.len }

  lemma ByteOfChunk(cfg: Config, total: nat, issued: seq<Chunk>, j: nat, b: nat)
    requires OnPlan(cfg, total, issued) && j < |issued| && b < total && cfg.MaxXfer() > 0
    ensures InSlice(issued[j], b) <==> j == b / cfg.MaxXfer()
  {
    var m := cfg.MaxXfer();
    assert IsChunk(cfg, total, j, issued[j]);
    assert b == m * (b / m) + b % m && (j + 1) * m == j * m + m;
    if j * m <= b < (j + 1) * m { Quotient(b, m, j); }
  }

  lemma ByteHasChunk(cfg: Config, total: nat, issued: seq<Chunk>, b: nat)
    requires Complete(cfg, total, issued) && b < total && cfg.MaxXfer() > 0
    ensures OnPlan(cfg, total, issued) && b / cfg.MaxXfer() < |issued|
  {
    var m, n := cfg.MaxXfer(), |issued|;
    CeilBounds(total, m);
    assert b == m * (b / m) + b % m && n * m == m * n;
    if n < b / m { Below(m, n, b / m); }
  }

  /** In every run, with aborts and failures anywhere, the transfers tried for a command are a prefix of its plan. */
  lemma IssuedOnPlan(cfg: Config, s: State, f: nat)
    requires Reachable(cfg, s) && f < cfg.sqsize && f !in s.io.fodList
    ensures |s.io.slots| == cfg.sqsize && OnPlan(cfg, s.io.slots[f].d.total, s.io.slots[f].issued)
  {
    ReachableInv(cfg, s);
    hide CommandsOk;
    assert SlotOk(cfg, s.io, f);
  }

  /** A response is handed to the LLDD only when every chunk has been moved in full, or none was tried; the one that goes
      along with the last chunk of a read, only when every other chunk has been. */
  lemma ResponseAllOrNothing(cfg: Config, s: State, f: nat)
    requires Reachable(cfg, s) && f < |s.io.slots|
    requires var v := s.io.slots[f];
             XmtRsp in v.tasks || (OpPending in v.tasks && (v.d.op == Rsp || v.d.op == ReadDataRsp))
    ensures var v := s.io.slots[f];
            && (v.issued == [] || Complete(cfg, v.d.total, v.issued))
            && (if OpPending in v.tasks && v.d.op == ReadDataRsp then v.issued != [] && v.d.offset + v.d.xferLen == v.d.total
                else v.issued == [] || v.d.offset == v.d.total)
  {
    ReachableInv(cfg, s);
    hide CommandsOk;
    var v := s.io.slots[f];
    if XmtRsp in v.tasks {
      RunningTask(cfg, s.io, f, XmtRsp);
    } else {
      RunningTask(cfg, s.io, f, OpPending);
      if v.d.op == ReadDataRsp {
        assert IsChunk(cfg, v.d.total, |v.issued| - 1, v.issued[|v.issued| - 1]);
        ChunkDone(cfg, v);
      }
    }
  }

  /** A write reaches the nvmet core only when every chunk was asked for and has arrived in full. */
  lemma WriteArrivesWhole(cfg: Config, s: State, f: nat)
    requires Reachable(cfg, s) && f < |s.io.slots| && Exec in s.io.slots[f].tasks && s.io.slots[f].d.dir.WriteDir?
    ensures Complete(cfg, s.io.slots[f].d.total, s.io.slots[f].issued)
    ensures s.io.slots[f].d.offset == s.io.slots[f].d.total
  {
    ReachableInv(cfg, s);
    hide CommandsOk;
    RunningTask(cfg, s.io, f, Exec);
  }

  /** When a command is about to be released, and ever after while its fod is pooled, as many of the pages allocated for
      it are still allocated as the DMA mapping counted too few: they are all back if and only if it counted every one.
      The list itself is gone if and only if it counted any. */
  lemma PagesBackIff(cfg: Config, s: State, f: nat)
    requires Reachable(cfg, s) && f < |s.io.slots| && s.io.slots[f].mapped.Some?
    requires f in s.io.fodList || Free in s.io.slots[f].tasks
    ensures var d, n, nent := s.io.slots[f].d, s.io.slots[f].mapped.value, Nent(cfg, s.io.slots[f].d.total);
            && d.sgCnt == 0 && n <= nent && d.pages == nent - n
            && (d.pages == 0 <==> n == nent)
            && (!d.sg <==> n > 0)
  {
    ReachableInv(cfg, s);
    hide CommandsOk;
    if f in s.io.fodList {
      assert SlotOk(cfg, s.io, f);
    } else {
      RunningTask(cfg, s.io, f, Free);
    }
  }

  /** Pages that were not freed are forgotten when the next command is started on the fod: the start does not look at
      the old pointer, unless it refuses the command first. */
  lemma OldListForgotten(cfg: Config, d: Fod, sg: bool, pages: nat, env: Env)
    requires !BadDirection(env.iu)
    ensures Local(cfg, d.(sg := sg, pages := pages), Work, env) == Local(cfg, d, Work, env)
  {
    hide BadDirection;
  }
}
