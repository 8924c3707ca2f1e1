/**
  The allocator of blue-flame registers: register 0, then the medium class, which is shared, then the high class, whose
  registers have one user each.
*/
module Bfreg {
  import opened Wrappers

  /** `max` registers in all, `lowLatency` of them of the high class, and the version of the interface. */
  datatype Config = Config(max: nat, lowLatency: nat, ver: nat)

  const NUM_NON_BLUE_FLAME_BFREGS := 1

  function NumMed(cf: Config): nat {
    var n := cf.max - cf.lowLatency - NUM_NON_BLUE_FLAME_BFREGS;
    if n >= 0 then n else 0
  }

  function FirstHi(cf: Config): nat { NumMed(cf) + 1 }

  function FirstMed(cf: Config): Option<nat> { if NumMed(cf) != 0 then Some(1) else None }

  predicate IsMed(cf: Config, i: nat) { 1 <= i < FirstHi(cf) }

  predicate IsHigh(cf: Config, i: nat) { FirstHi(cf) <= i < cf.max }

  predicate HighTaken(cf: Config, count: seq<nat>)
    requires cf.max <= |count|
  {
    forall i :: 0 <= i < |count| && IsHigh(cf, i) ==> count[i] > 0
  }

  /** `i` is the first of the least loaded medium registers. */
  predicate LeastMed(cf: Config, count: seq<nat>, i: nat)
    requires FirstHi(cf) <= |count|
  {
    && IsMed(cf, i) && (forall j :: 1 <= j < FirstHi(cf) ==> count[i] <= count[j])
    && forall j :: 1 <= j < i ==> count[i] < count[j]
  }

  /** The register an allocation gives out. */
  ghost predicate Chosen(cf: Config, count: seq<nat>, r: nat)
    requires cf.max <= |count| && FirstHi(cf) <= |count|
  {
    if cf.ver < 2 then r == 0
    else if !HighTaken(cf, count) then
      IsHigh(cf, r) && r < |count| && count[r] == 0 && forall j :: FirstHi(cf) <= j < r ==> count[j] > 0
    else if NumMed(cf) > 0 then LeastMed(cf, count, r)
    else r == 0
  }

  // ---------------------------------------------------------------- the allocator

  class BfregInfo {
    const cf: Config
    var count: array<nat>

    predicate Valid()
      reads this
    {
      cf.max <= count.Length && FirstHi(cf) <= count.Length
    }

    constructor (cf: Config, count: array<nat>)
      requires cf.max <= count.Length && FirstHi(cf) <= count.Length
      ensures Valid() && this.cf == cf && this.count == count
    {
      this.cf, this.count := cf, count;
    }

    method AllocHighClass() returns (bfregn: Option<nat>)
      requires Valid()
      modifies count
      ensures match bfregn
              case None => HighTaken(cf, old(count[..])) && count[..] == old(count[..])
              case Some(r) => IsHigh(cf, r) && old(count[r]) == 0 && count[..] == old(count[..])[r := 1]
                              && forall j :: FirstHi(cf) <= j < r ==> old(count[j]) > 0
    {
      var i := FirstHi(cf);
      while i < cf.max
        invariant FirstHi(cf) <= i && (forall j :: FirstHi(cf) <= j < i && j < cf.max ==> count[j] > 0)
        invariant count[..] == old(count[..])
      {
        if count[i] == 0 {
          count[i] := count[i] + 1;
          return Some(i);
        }
        i := i + 1;
      }
      bfregn := None;
    }

    method AllocMedClass() returns (bfregn: Option<nat>)
      requires Valid()
      modifies count
      ensures match bfregn
              case None => NumMed(cf) == 0 && count[..] == old(count[..])
              case Some(r) => LeastMed(cf, old(count[..]), r)
                              && count[..] == old(count[..])[r := old(count[r]) + 1]
    {
      var first := FirstMed(cf);
      if first.None? {
        return None;
      }
      var minidx := first.value;
      var i := minidx;
      while i < FirstHi(cf)
        invariant 1 <= minidx < FirstHi(cf) && 1 <= i <= FirstHi(cf) && (minidx < i || i == 1 == minidx)
        invariant forall j :: 1 <= j < i ==> count[minidx] <= count[j]
        invariant forall j :: 1 <= j < minidx ==> count[minidx] < count[j]
        invariant count[..] == old(count[..])
      {
        if count[i] < count[minidx] {
          minidx := i;
        }
        if count[minidx] == 0 {
          break;
        }
        i := i + 1;
      }
      assert LeastMed(cf, count[..], minidx);
      count[minidx] := count[minidx] + 1;
      bfregn := Some(minidx);
    }

    method AllocBfreg() returns (bfregn: nat)
      requires Valid()
      modifies count
      ensures Chosen(cf, old(count[..]), bfregn) && bfregn < count.Length
      ensures count[..] == old(count[..])[bfregn := old(count[bfregn]) + 1]
    {
      var got: Option<nat> := None;
      if cf.ver >= 2 {
        got := AllocHighClass();
        if got.None? {
          got := AllocMedClass();
        }
      }
      if got.None? {
        got := Some(0);
        count[0] := count[0] + 1;
      }
      bfregn := got.value;
    }

    /** Every free is of a register that was given out. */
    method FreeBfreg(bfregn: nat)
      requires Valid() && bfregn < count.Length && count[bfregn] > 0
      modifies count
      ensures count[..] == old(count[..])[bfregn := old(count[bfregn]) - 1]
    {
      count[bfregn] := count[bfregn] - 1;
    }
  }

  // ---------------------------------------------------------------- runs

  /** An allocation with the register it gave out, or a free. */
  datatype Event = Alloc(reg: nat) | Free(reg: nat)

  predicate Shape(cf: Config, count: seq<nat>) { cf.max <= |count| && FirstHi(cf) <= |count| }

  ghost predicate Can(cf: Config, count: seq<nat>, e: Event)
    requires Shape(cf, count)
  {
    e.reg < |count| && match e case Alloc(r) => Chosen(cf, count, r) case Free(r) => count[r] > 0
  }

  function Next(count: seq<nat>, e: Event): seq<nat>
    requires e.reg < |count| && (e.Free? ==> count[e.reg] > 0)
  {
    match e case Alloc(r) => count[r := count[r] + 1] case Free(r) => count[r := count[r] - 1]
  }

  ghost predicate IsRun(cf: Config, counts: seq<seq<nat>>, events: seq<Event>) {
    && |counts| == |events| + 1 && Shape(cf, counts[0]) && (forall i :: 0 <= i < |counts[0]| ==> counts[0][i] == 0)
    && forall k :: 0 <= k < |events| ==>
         Shape(cf, counts[k]) && Can(cf, counts[k], events[k]) && counts[k + 1] == Next(counts[k], events[k])
  }

  /** The registers given out and not given back, each as often as it is out. */
  function Live(events: seq<Event>): multiset<nat> {
    if events == [] then multiset{}
    else
      var live := Live(events[..|events| - 1]);
      match events[|events| - 1] case Alloc(r) => live + multiset{r} case Free(r) => live - multiset{r}
  }

  function Sum(count: seq<nat>, n: nat): nat
    requires n <= |count|
  {
    if n == 0 then 0 else Sum(count, n - 1) + count[n - 1]
  }

  /** The counts are those of the live registers; a high register is out at most once; at version 2 register 0 is out
      only if there is no medium class, and before that no other is. */
  ghost predicate Inv(cf: Config, count: seq<nat>, live: multiset<nat>) {
    && Shape(cf, count) && (forall i :: 0 <= i < |count| ==> count[i] == live[i]) && (forall r <- live :: r < |count|)
    && Sum(count, |count|) == |live|
    && (forall i :: 0 <= i < |count| && IsHigh(cf, i) ==> count[i] <= 1)
    && (cf.ver >= 2 && NumMed(cf) > 0 ==> count[0] == 0)
    && (cf.ver < 2 ==> forall i :: 0 < i < |count| ==> count[i] == 0)
  }

  /** The medium registers' loads are at most one apart. */
  predicate Level(cf: Config, count: seq<nat>)
    requires FirstHi(cf) <= |count|
  {
    forall i, j :: 1 <= i < FirstHi(cf) && 1 <= j < FirstHi(cf) ==> count[i] <= count[j] + 1
  }

  lemma {:induction false} SumNext(a: seq<nat>, b: seq<nat>, i: nat, n: nat)
    requires |a| == |b| && n <= |a| && i < |a| && forall j :: 0 <= j < n && j != i ==> a[j] == b[j]
    ensures Sum(b, n) == if i < n then Sum(a, n) - a[i] + b[i] else Sum(a, n)
    decreases n
  {
    if n > 0 { SumNext(a, b, i, n - 1); }
  }

  lemma EventKeeps(cf: Config, count: seq<nat>, e: Event, live: multiset<nat>)
    requires Inv(cf, count, live) && Can(cf, count, e)
    ensures Inv(cf, Next(count, e), match e case Alloc(r) => live + multiset{r} case Free(r) => live - multiset{r})
  {
    SumNext(count, Next(count, e), e.reg, |count|);
    assert e.Free? ==> multiset{e.reg} <= live;
  }

  lemma AllocKeepsLevel(cf: Config, count: seq<nat>, r: nat)
    requires Shape(cf, count) && Level(cf, count) && r < |count| && Chosen(cf, count, r)
    ensures Level(cf, Next(count, Alloc(r)))
  {
  }

  /** Over every run with matched frees the counts are those of the registers out, and sum to their number; a high
      register has one user at most, and register 0 is used at version 2 only if there is no medium class. */
  lemma {:induction false} RunKeeps(cf: Config, counts: seq<seq<nat>>, events: seq<Event>, k: nat)
    requires IsRun(cf, counts, events) && k <= |events|
    ensures Inv(cf, counts[k], Live(events[..k]))
    decreases k
  {
    hide Inv, Can, Next;
    if k == 0 {
      assert events[..0] == [];
      StartInv(cf, counts[0], |counts[0]|);
    } else {
      RunKeeps(cf, counts, events, k - 1);
      assert events[..k][..k - 1] == events[..k - 1];
      EventKeeps(cf, counts[k - 1], events[k - 1], Live(events[..k - 1]));
    }
  }

  lemma {:induction false} StartInv(cf: Config, count: seq<nat>, n: nat)
    requires Shape(cf, count) && n <= |count| && forall i :: 0 <= i < |count| ==> count[i] == 0
    ensures Sum(count, n) == 0 && (n == |count| ==> Inv(cf, count, multiset{}))
    decreases n
  {
    if n > 0 { StartInv(cf, count, n - 1); }
  }

  /** The medium class is in use only if the high class is used up. */
  predicate HighFirst(cf: Config, count: seq<nat>)
    requires Shape(cf, count)
  {
    (exists i :: 0 <= i < |count| && IsMed(cf, i) && count[i] > 0) ==> HighTaken(cf, count)
  }

  lemma AllocKeepsHighFirst(cf: Config, count: seq<nat>, r: nat)
    requires Shape(cf, count) && HighFirst(cf, count) && r < |count| && Chosen(cf, count, r)
    ensures HighFirst(cf, Next(count, Alloc(r)))
  {
    var to := Next(count, Alloc(r));
    if i :| 0 <= i < |to| && IsMed(cf, i) && to[i] > 0 {
      assert HighTaken(cf, count) by {
        if i != r { assert count[i] > 0; }
      }
    }
  }

  /** In a run of allocations alone the medium class is not touched before the high class is used up, and its loads
      stay at most one apart. */
  lemma {:induction false} AllocsStayLevel(cf: Config, counts: seq<seq<nat>>, events: seq<Event>, k: nat)
    requires IsRun(cf, counts, events) && k <= |events| && forall i :: 0 <= i < k ==> events[i].Alloc?
    ensures Shape(cf, counts[k]) && Level(cf, counts[k]) && HighFirst(cf, counts[k])
    decreases k
  {
    hide Level, Chosen, HighFirst;
    if k == 0 {
      StartLevel(cf, counts[0]);
    } else {
      AllocsStayLevel(cf, counts, events, k - 1);
      AllocKeepsLevel(cf, counts[k - 1], events[k - 1].reg);
      AllocKeepsHighFirst(cf, counts[k - 1], events[k - 1].reg);
    }
  }

  lemma StartLevel(cf: Config, count: seq<nat>)
    requires Shape(cf, count) && forall i :: 0 <= i < |count| ==> count[i] == 0
    ensures Level(cf, count) && HighFirst(cf, count)
  {
  }

  /** The medium class is used only when every high register is out, and gives out a least loaded one; register 0 is
      given out exactly below version 2, or when there is no medium class and every high register is out. */
  lemma ClassOrder(cf: Config, count: seq<nat>, r: nat)
    requires Shape(cf, count) && r < |count| && Chosen(cf, count, r)
    ensures IsMed(cf, r) ==> HighTaken(cf, count) && forall j: nat :: IsMed(cf, j) ==> count[r] <= count[j]
    ensures r == 0 <==> cf.ver < 2 || (NumMed(cf) == 0 && HighTaken(cf, count))
  {
  }

  // ---------------------------------------------------------------- the classes

  /** The numbers from `lo` up to, but not including, `hi`. */
  function Span(lo: nat, hi: nat): (s: set<nat>)
    requires lo <= hi
    ensures |s| == hi - lo && forall i :: i in s <==> lo <= i < hi
    decreases hi
  {
    if lo == hi then {} else Span(lo, hi - 1) + {hi - 1}
  }

  /** The last `lowLatency` registers are the high class, and those between register 0 and them are the medium class; with
      no room for that many there is no medium class, and every register but 0 is of the high class. */
  lemma Classes(cf: Config, i: nat)
    ensures cf.lowLatency < cf.max ==>
              && (IsHigh(cf, i) <==> cf.max - cf.lowLatency <= i < cf.max)
              && (IsMed(cf, i) <==> 1 <= i < cf.max - cf.lowLatency)
    ensures cf.lowLatency >= cf.max ==> !IsMed(cf, i) && (IsHigh(cf, i) <==> 1 <= i < cf.max)
  {
  }

  /** Each register is register 0, a medium or a high one, and only one of these. */
  lemma ClassesPart(cf: Config, i: nat)
    requires i < cf.max
    ensures i == 0 || IsMed(cf, i) || IsHigh(cf, i)
    ensures !(i == 0 && IsMed(cf, i)) && !(i == 0 && IsHigh(cf, i)) && !(IsMed(cf, i) && IsHigh(cf, i))
    ensures forall j: nat :: IsMed(cf, j) || IsHigh(cf, j) ==> 0 < j < cf.max
  {
    Classes(cf, i);
    forall j: nat | IsMed(cf, j) || IsHigh(cf, j) ensures 0 < j < cf.max { Classes(cf, j); }
  }

  /** There are as many high registers as were asked for, if they leave room for register 0, and else all but that one. */
  lemma HighCount(cf: Config, high: set<nat>)
    requires forall i: nat :: i in high <==> IsHigh(cf, i)
    ensures |high| == if cf.lowLatency < cf.max then cf.lowLatency else if cf.max > 0 then cf.max - 1 else 0
  {
    var lo := if cf.lowLatency < cf.max then cf.max - cf.lowLatency else 1;
    forall i: nat ensures IsHigh(cf, i) <==> lo <= i < cf.max { Classes(cf, i); }
    if lo <= cf.max {
      assert high == Span(lo, cf.max);
    } else {
      assert high == {};
    }
  }

  /** What an allocation gives out, by the numbers: register 0 below version 2; then the first of the high registers that
      are free; then the first of the least used medium ones; and register 0 again if there are no medium ones. */
  lemma ChosenIs(cf: Config, count: seq<nat>, r: nat)
    requires Shape(cf, count) && r < |count| && Chosen(cf, count, r)
    ensures var lo := if cf.lowLatency < cf.max then cf.max - cf.lowLatency else 1;
            if cf.ver < 2 then r == 0
            else if exists i :: lo <= i < cf.max && count[i] == 0 then
              lo <= r < cf.max && count[r] == 0 && forall i :: lo <= i < r ==> count[i] != 0
            else if lo > 1 then
              && 1 <= r < lo && (forall i :: 1 <= i < lo && i < |count| ==> count[r] <= count[i])
              && forall i :: 1 <= i < r ==> count[i] != count[r]
            else r == 0
  {
    var lo := if cf.lowLatency < cf.max then cf.max - cf.lowLatency else 1;
    forall i: nat ensures (IsHigh(cf, i) <==> lo <= i < cf.max) && (IsMed(cf, i) <==> 1 <= i < lo) { Classes(cf, i); }
    assert FirstHi(cf) == lo;
  }
}
