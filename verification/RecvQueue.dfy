/**
  Posting receives on a ring of work-queue entries with 32-bit counters that wrap round.  A batch writes its entries one
  by one and moves the head once at the end; completions move the tail at any moment.
*/
module RecvQueue {
  import opened Arithmetic
  import opened Wrappers

  const WORD := 0x1_0000_0000

  /** A number cut to 32 bits. */
  function Word(x: int): (w: nat)
    ensures w < WORD
  {
    x % WORD
  }

  lemma WordIs(x: int)
    requires -WORD <= x < 2 * WORD
    ensures Word(x) == if x < 0 then x + WORD else if x < WORD then x else x - WORD
  {
  }

  datatype Seg = Seg(byteCount: nat, lkey: nat, addr: nat)
  datatype Request = Request(id: nat, sgl: seq<Seg>)

  /** `cnt` slots, at most `maxPost` requests at a time, at most `maxGs` segments each. */
  datatype Config = Config(cnt: nat, maxPost: nat, maxGs: nat, invalidLkey: nat)

  /** The slot count is a power of two that fits the counters, that is, a divisor of 2^32. */
  predicate ConfigOk(cf: Config) {
    0 < cf.cnt && WORD % cf.cnt == 0 && cf.maxPost <= cf.cnt < WORD
  }

  /** A batch under way has filled `nreq` slots and goes on at slot `ind`. */
  datatype Batch = Batch(nreq: nat, ind: nat)

  datatype State = State(head: nat, tail: nat, wrid: seq<nat>, slots: seq<seq<Seg>>, batch: Option<Batch>)

  function Nreq(s: State): nat { if s.batch.Some? then s.batch.value.nreq else 0 }

  /** The entry for a request: its segments, an invalid one if there is room, and what was there before. */
  function Entry(cf: Config, wr: Request, was: seq<Seg>): seq<Seg>
    requires |wr.sgl| <= cf.maxGs == |was|
  {
    var i := |wr.sgl|;
    if i < cf.maxGs then wr.sgl + [Seg(0, cf.invalidLkey, 0)] + was[i + 1..] else wr.sgl
  }

  /** How far the head, with the batch under way, is ahead of the tail. */
  function Ahead(s: State): nat { Word(Word(s.head - s.tail) + Nreq(s)) }

  predicate Overflow(cf: Config, s: State) {
    Ahead(s) >= cf.maxPost
  }

  predicate Shape(cf: Config, s: State) {
    && s.head < WORD && s.tail < WORD && |s.wrid| == |s.slots| == cf.cnt
    && (forall k :: 0 <= k < cf.cnt ==> |s.slots[k]| == cf.maxGs)
    && (s.batch.Some? ==> s.batch.value.ind < cf.cnt)
  }

  datatype Event = Begin | One(wr: Request) | End | Complete

  predicate Enabled(cf: Config, s: State, e: Event) {
    match e
    case Begin => s.batch.None?
    case One(wr) => s.batch.Some? && !Overflow(cf, s) && |wr.sgl| <= cf.maxGs
    case End => s.batch.Some?
    case Complete => s.tail != s.head
  }

  function Step(cf: Config, s: State, e: Event): (t: State)
    requires 0 < cf.cnt && Shape(cf, s) && Enabled(cf, s, e)
    ensures Shape(cf, t)
  {
    match e
    case Begin => s.(batch := Some(Batch(0, s.head % cf.cnt)))
    case One(wr) =>
      var b := s.batch.value;
      s.(wrid := s.wrid[b.ind := wr.id], slots := s.slots[b.ind := Entry(cf, wr, s.slots[b.ind])],
         batch := Some(Batch(b.nreq + 1, (b.ind + 1) % cf.cnt)))
    case End => s.(head := Word(s.head + s.batch.value.nreq), batch := None)
    case Complete => s.(tail := Word(s.tail + 1))
  }

  /** The request a completion is for, as the driver finds it: the number kept for the slot at the tail. */
  function CompletedId(cf: Config, s: State): nat
    requires 0 < cf.cnt && Shape(cf, s)
  {
    s.wrid[s.tail % cf.cnt]
  }

  // ---------------------------------------------------------------- the ring holds a queue

  /** The slot has the request's segments, ended by an invalid one if they do not fill it. */
  predicate Holds(cf: Config, slot: seq<Seg>, wr: Request) {
    && |wr.sgl| <= cf.maxGs == |slot| && slot[..|wr.sgl|] == wr.sgl
    && (|wr.sgl| < cf.maxGs ==> slot[|wr.sgl|] == Seg(0, cf.invalidLkey, 0))
  }

  /** The slot of the `j`th outstanding request. */
  function Slot(cf: Config, s: State, j: nat): (k: nat)
    requires 0 < cf.cnt
    ensures k < cf.cnt
  {
    (s.tail + j) % cf.cnt
  }

  ghost predicate Kept(cf: Config, s: State, j: nat, wr: Request)
    requires 0 < cf.cnt && Shape(cf, s)
  {
    s.wrid[Slot(cf, s, j)] == wr.id && Holds(cf, s.slots[Slot(cf, s, j)], wr)
  }

  /** `out` is the queue of requests posted and not completed; each has its own slot and its own number. */
  ghost predicate Inv(cf: Config, s: State, out: seq<Request>) {
    && ConfigOk(cf) && Shape(cf, s) && Nreq(s) <= |out| <= cf.maxPost
    && Ahead(s) == |out|
    && (s.batch.Some? ==> s.batch.value.ind == Slot(cf, s, |out|))
    && forall j :: 0 <= j < |out| ==> Kept(cf, s, j, out[j])
  }

  /** Numbers that agree in 32 bits name the same slot. */
  lemma WordMod(cf: Config, x: int, j: int)
    requires ConfigOk(cf)
    ensures (x % WORD + j) % cf.cnt == (x + j) % cf.cnt
  {
    var q, d := x / WORD, WORD / cf.cnt;
    assert WORD == cf.cnt * d && x == x % WORD + q * WORD;
    assert q * WORD == q * d * cf.cnt;
    ModEqual(x + j, x % WORD + j, cf.cnt, q * d);
  }

  lemma ModDistinct(t: nat, i: nat, j: nat, c: nat)
    requires i < j < i + c
    ensures (t + i) % c != (t + j) % c
  {
    var a, b := t + i, t + j;
    assert a == c * (a / c) + a % c && b == c * (b / c) + b % c;
    if a / c < b / c { Below(c, a / c, b / c); }
    if b / c < a / c { Below(c, b / c, a / c); }
  }

  /** The room test is exact: it fails only when the queue is full. */
  lemma OverflowIff(cf: Config, s: State, out: seq<Request>)
    requires Inv(cf, s, out)
    ensures Overflow(cf, s) <==> |out| == cf.maxPost
  {
    hide Ahead, Kept;
  }

  lemma KeptFrame(cf: Config, s: State, t: State, j: nat, i: nat, wr: Request)
    requires 0 < cf.cnt && Shape(cf, s) && Shape(cf, t) && Kept(cf, s, j, wr) && Slot(cf, t, i) == Slot(cf, s, j)
    requires var k := Slot(cf, s, j); t.wrid[k] == s.wrid[k] && t.slots[k] == s.slots[k]
    ensures Kept(cf, t, i, wr)
  {
  }

  lemma EntryHolds(cf: Config, wr: Request, was: seq<Seg>)
    requires |wr.sgl| <= cf.maxGs == |was|
    ensures |Entry(cf, wr, was)| == cf.maxGs && Holds(cf, Entry(cf, wr, was), wr)
  {
  }

  /** The counters after each step. */
  lemma BeginNumbers(cf: Config, s: State, n: nat)
    requires ConfigOk(cf) && Shape(cf, s) && s.batch.None? && Ahead(s) == n
    ensures Ahead(Step(cf, s, Begin)) == n && s.head % cf.cnt == (s.tail + n) % cf.cnt
  {
    WordIs(s.head - s.tail);
    WordMod(cf, s.head - s.tail, s.tail);
  }

  lemma EndAhead(cf: Config, s: State)
    requires ConfigOk(cf) && Shape(cf, s) && s.batch.Some? && Nreq(s) < WORD
    ensures Ahead(Step(cf, s, End)) == Ahead(s)
  {
    var n, t := Nreq(s), Step(cf, s, End);
    hide Word;
    WordIs(s.head + n);
    WordIs(s.head - s.tail);
    WordIs(t.head - s.tail);
    WordIs(Word(s.head - s.tail) + n);
    WordIs(Word(t.head - s.tail) + 0);
  }

  lemma OneAhead(cf: Config, s: State, t: State)
    requires s.head < WORD && s.tail < WORD && Nreq(s) < WORD - 1 && Ahead(s) < WORD - 1
    requires t.head == s.head && t.tail == s.tail && Nreq(t) == Nreq(s) + 1
    ensures Ahead(t) == Ahead(s) + 1
  {
    hide Word;
    WordIs(s.head - s.tail);
    WordIs(Word(s.head - s.tail) + Nreq(s));
    WordIs(Word(s.head - s.tail) + Nreq(s) + 1);
  }

  lemma CompleteAhead(s: State, t: State)
    requires s.head < WORD && s.tail < WORD && s.tail != s.head && Nreq(s) <= Ahead(s)
    requires t.head == s.head && t.tail == Word(s.tail + 1) && Nreq(t) == Nreq(s)
    ensures Ahead(s) > Nreq(s) && Ahead(t) == Ahead(s) - 1
  {
    hide Word;
    WordIs(s.tail + 1);
    WordIs(s.head - s.tail);
    WordIs(s.head - t.tail);
    WordIs(Word(s.head - s.tail) + Nreq(s));
    WordIs(Word(s.head - t.tail) + Nreq(s));
  }

  lemma SameTail(cf: Config, s: State, t: State, j: nat)
    requires 0 < cf.cnt && s.tail == t.tail
    ensures Slot(cf, s, j) == Slot(cf, t, j)
  {
  }

  lemma NextInd(cf: Config, s: State, j: nat)
    requires 0 < cf.cnt
    ensures (Slot(cf, s, j) + 1) % cf.cnt == Slot(cf, s, j + 1)
  {
    var x := s.tail + j;
    ModEqual(x + 1, x % cf.cnt + 1, cf.cnt, x / cf.cnt);
  }

  lemma NextSlot(cf: Config, s: State, t: State, j: nat)
    requires ConfigOk(cf) && t.tail == Word(s.tail + 1)
    ensures Slot(cf, t, j) == Slot(cf, s, j + 1)
  {
    WordMod(cf, s.tail + 1, j);
  }

  lemma FirstSlot(cf: Config, s: State)
    requires 0 < cf.cnt
    ensures Slot(cf, s, 0) == s.tail % cf.cnt
  {
  }

  lemma SlotsDiffer(cf: Config, s: State, i: nat, j: nat)
    requires i < j < i + cf.cnt
    ensures Slot(cf, s, i) != Slot(cf, s, j)
  {
    ModDistinct(s.tail, i, j, cf.cnt);
  }

  /** The requests are where they were if neither the tail nor the slots have changed. */
  lemma AllKept(cf: Config, s: State, t: State, out: seq<Request>)
    requires 0 < cf.cnt && Shape(cf, s) && Shape(cf, t)
    requires t.tail == s.tail && t.wrid == s.wrid && t.slots == s.slots
    requires forall j :: 0 <= j < |out| ==> Kept(cf, s, j, out[j])
    ensures forall j :: 0 <= j < |out| ==> Kept(cf, t, j, out[j])
  {
    hide Holds, Slot;
    forall j | 0 <= j < |out| ensures Kept(cf, t, j, out[j]) {
      assert Kept(cf, s, j, out[j]);
      SameTail(cf, s, t, j);
    }
  }

  lemma BeginKeeps(cf: Config, s: State, out: seq<Request>)
    requires Inv(cf, s, out) && Enabled(cf, s, Begin)
    ensures Inv(cf, Step(cf, s, Begin), out)
  {
    hide Holds, Ahead, Kept;
    BeginNumbers(cf, s, |out|);
    AllKept(cf, s, Step(cf, s, Begin), out);
  }

  lemma EndKeeps(cf: Config, s: State, out: seq<Request>)
    requires Inv(cf, s, out) && Enabled(cf, s, End)
    ensures Inv(cf, Step(cf, s, End), out)
  {
    hide Holds, Ahead, Kept, Slot, Word;
    EndAhead(cf, s);
    AllKept(cf, s, Step(cf, s, End), out);
  }

  /** A request keeps its slot when another slot is filled. */
  lemma OtherSlot(cf: Config, s: State, t: State, j: nat, ind: nat, wr: Request)
    requires 0 < cf.cnt && Shape(cf, s) && Shape(cf, t) && t.tail == s.tail && Slot(cf, s, j) != ind
    requires forall k :: 0 <= k < cf.cnt && k != ind ==> t.wrid[k] == s.wrid[k] && t.slots[k] == s.slots[k]
    ensures Kept(cf, s, j, wr) ==> Kept(cf, t, j, wr)
  {
    hide Holds, Slot;
    SameTail(cf, s, t, j);
    if Kept(cf, s, j, wr) { KeptFrame(cf, s, t, j, j, wr); }
  }

  lemma OneKeeps(cf: Config, s: State, out: seq<Request>, wr: Request)
    requires Inv(cf, s, out) && Enabled(cf, s, One(wr))
    ensures Inv(cf, Step(cf, s, One(wr)), out + [wr])
  {
    hide Holds, Entry, Slot, Overflow, Ahead, Word;
    var t, n := Step(cf, s, One(wr)), |out|;
    var ind := s.batch.value.ind;
    OverflowIff(cf, s, out);
    OneAhead(cf, s, t);
    NextInd(cf, s, n);
    SameTail(cf, s, t, n);
    SameTail(cf, s, t, n + 1);
    EntryHolds(cf, wr, s.slots[ind]);
    forall j | 0 <= j < n + 1 ensures Kept(cf, t, j, (out + [wr])[j]) {
      if j < n {
        assert Kept(cf, s, j, out[j]);
        SlotsDiffer(cf, s, j, n);
        OtherSlot(cf, s, t, j, ind, out[j]);
      }
    }
  }

  lemma CompleteKeeps(cf: Config, s: State, out: seq<Request>)
    requires Inv(cf, s, out) && Enabled(cf, s, Complete)
    ensures |out| > Nreq(s) && CompletedId(cf, s) == out[0].id
    ensures Inv(cf, Step(cf, s, Complete), out[1..])
  {
    hide Holds, Ahead, Slot, Word;
    var t := Step(cf, s, Complete);
    CompleteAhead(s, t);
    assert Kept(cf, s, 0, out[0]);
    FirstSlot(cf, s);
    forall j | 0 <= j < |out| - 1 ensures Kept(cf, t, j, out[1..][j]) {
      assert Kept(cf, s, j + 1, out[j + 1]);
      NextSlot(cf, s, t, j);
      KeptFrame(cf, s, t, j + 1, j, out[j + 1]);
    }
    NextSlot(cf, s, t, |out| - 1);
  }

  // ---------------------------------------------------------------- runs

  /** A run: the state it ends in, the requests posted and the numbers the completions found, both in order. */
  datatype Trace = Trace(s: State, posted: seq<Request>, completed: seq<nat>)

  ghost function Exec(cf: Config, s: State, events: seq<Event>): (r: Option<Trace>)
    requires 0 < cf.cnt && Shape(cf, s)
    ensures r.Some? ==> Shape(cf, r.value.s)
  {
    if events == [] then Some(Trace(s, [], []))
    else
      var front, e := Exec(cf, s, events[..|events| - 1]), events[|events| - 1];
      if front.None? || !Enabled(cf, front.value.s, e) then None
      else
        var r := front.value;
        Some(Trace(Step(cf, r.s, e),
                   if e.One? then r.posted + [e.wr] else r.posted,
                   if e.Complete? then r.completed + [CompletedId(cf, r.s)] else r.completed))
  }

  function Ids(rs: seq<Request>): (ids: seq<nat>)
    ensures |ids| == |rs| && forall i :: 0 <= i < |rs| ==> ids[i] == rs[i].id
  {
    seq(|rs|, i requires 0 <= i < |rs| => rs[i].id)
  }

  /** No run of batches and completions, however interleaved, reuses a slot early: the completions find the posted
      requests in the order in which they were posted, those left are all intact in their slots, and there are never
      more than `maxPost` of them. */
  lemma {:induction false} RunIsAQueue(cf: Config, s: State, events: seq<Event>)
    requires Inv(cf, s, []) && Exec(cf, s, events).Some?
    ensures InRing(cf, Exec(cf, s, events).value)
    decreases |events|
  {
    hide Inv, Step, Enabled, CompletedId;
    InvParts(cf, s, []);
    if events == [] {
      var none: seq<Request> := [];
      assert none[0..] == none;
    } else {
      var e := events[|events| - 1];
      RunIsAQueue(cf, s, events[..|events| - 1]);
      var r := Exec(cf, s, events[..|events| - 1]).value;
      TraceStep(cf, r, e);
    }
  }

  lemma InvParts(cf: Config, s: State, out: seq<Request>)
    requires Inv(cf, s, out)
    ensures ConfigOk(cf) && Shape(cf, s) && |out| <= cf.maxPost
  {
  }

  /** The completions of a trace are in turn, and what is left is in the ring. */
  ghost predicate InRing(cf: Config, r: Trace) {
    && |r.completed| <= |r.posted| <= |r.completed| + cf.maxPost
    && r.completed == Ids(r.posted[..|r.completed|])
    && Inv(cf, r.s, r.posted[|r.completed|..])
  }

  lemma TraceStep(cf: Config, r: Trace, e: Event)
    requires 0 < cf.cnt && Shape(cf, r.s) && Enabled(cf, r.s, e)
    ensures InRing(cf, r) ==>
      InRing(cf, Trace(Step(cf, r.s, e), if e.One? then r.posted + [e.wr] else r.posted,
                       if e.Complete? then r.completed + [CompletedId(cf, r.s)] else r.completed))
  {
    hide Inv, Step, Enabled, CompletedId, Shape;
    if !InRing(cf, r) { return; }
    var n, out := |r.completed|, r.posted[|r.completed|..];
    match e {
      case Begin => BeginKeeps(cf, r.s, out); InvParts(cf, r.s, out);
      case End => EndKeeps(cf, r.s, out); InvParts(cf, r.s, out);
      case One(wr) =>
        OneKeeps(cf, r.s, out, wr);
        InvParts(cf, Step(cf, r.s, e), out + [wr]);
        assert (r.posted + [wr])[n..] == out + [wr];
        assert (r.posted + [wr])[..n] == r.posted[..n];
      case Complete =>
        CompleteKeeps(cf, r.s, out);
        InvParts(cf, r.s, out);
        assert out[1..] == r.posted[n + 1..];
    }
  }

  // ---------------------------------------------------------------- what `max_post` is for

  /** An empty queue. */
  function Empty(cf: Config): (s: State)
    requires 0 < cf.cnt
    ensures Shape(cf, s)
  {
    State(0, 0, seq(cf.cnt, k => 0), seq(cf.cnt, k => seq(cf.maxGs, i => Seg(0, 0, 0))), None)
  }

  /** Every completion of the run found the number of the request that was posted in its turn. */
  ghost predicate InTurn(cf: Config, events: seq<Event>)
    requires 0 < cf.cnt
  {
    var r := Exec(cf, Empty(cf), events);
    r.Some? ==> |r.value.completed| <= |r.value.posted| && r.value.completed == Ids(r.value.posted[..|r.value.completed|])
  }

  lemma EmptyIsGood(cf: Config)
    requires ConfigOk(cf)
    ensures Inv(cf, Empty(cf), [])
  {
  }

  lemma ExecNext(cf: Config, events: seq<Event>, e: Event)
    requires 0 < cf.cnt && Exec(cf, Empty(cf), events).Some?
    requires Enabled(cf, Exec(cf, Empty(cf), events).value.s, e)
    ensures var r := Exec(cf, Empty(cf), events).value;
            Exec(cf, Empty(cf), events + [e])
              == Some(Trace(Step(cf, r.s, e), if e.One? then r.posted + [e.wr] else r.posted,
                            if e.Complete? then r.completed + [CompletedId(cf, r.s)] else r.completed))
  {
    assert (events + [e])[..|events|] == events;
  }

  /** A batch has posted `k` requests on the empty queue, the last one in the slot that comes round to it. */
  ghost predicate Filled(cf: Config, r: Trace, k: nat)
    requires 0 < cf.cnt
  {
    && Shape(cf, r.s) && r.completed == [] && |r.posted| == k && (k > 0 ==> r.posted[0].id == 0)
    && r.s.head == r.s.tail == 0 && r.s.batch == Some(Batch(k, k % cf.cnt))
    && (k > 0 ==> r.s.wrid[(k - 1) % cf.cnt] == k - 1)
  }

  lemma FillStep(cf: Config, r: Trace, k: nat)
    requires 0 < cf.cnt && Filled(cf, r, k) && k < cf.maxPost && k < WORD
    ensures var wr := Request(k, []);
            Enabled(cf, r.s, One(wr))
            && Filled(cf, Trace(Step(cf, r.s, One(wr)), r.posted + [wr], r.completed), k + 1)
  {
    hide Overflow, Entry;
    HasRoom(cf, r.s, k);
    ModEqual(k + 1, k % cf.cnt + 1, cf.cnt, k / cf.cnt);
  }

  lemma {:induction false} Fill(cf: Config, k: nat) returns (events: seq<Event>)
    requires 0 < cf.cnt && k <= cf.cnt + 1 && cf.cnt < cf.maxPost && cf.cnt + 1 < WORD
    ensures Exec(cf, Empty(cf), events).Some? && Filled(cf, Exec(cf, Empty(cf), events).value, k)
  {
    hide Enabled, Step, Empty, Shape;
    if k == 0 {
      events := [Begin];
      FillBegin(cf);
    } else {
      var front := Fill(cf, k - 1);
      var e, r := One(Request(k - 1, [])), Exec(cf, Empty(cf), front).value;
      hide Filled, Exec;
      FillStep(cf, r, k - 1);
      ExecNext(cf, front, e);
      events := front + [e];
    }
  }

  lemma FillBegin(cf: Config)
    requires 0 < cf.cnt
    ensures Exec(cf, Empty(cf), [Begin]).Some? && Filled(cf, Exec(cf, Empty(cf), [Begin]).value, 0)
  {
    assert Exec(cf, Empty(cf), []) == Some(Trace(Empty(cf), [], []));
    ExecNext(cf, [], Begin);
    assert [] + [Begin] == [Begin];
  }

  lemma HasRoom(cf: Config, s: State, k: nat)
    requires s.head == s.tail == 0 && Nreq(s) == k < cf.maxPost && k < WORD
    ensures !Overflow(cf, s)
  {
    WordIs(0);
    WordIs(k);
  }

  /** The completions find the requests in turn in every run if and only if `max_post` is at most the slot count. */
  lemma MaxPostIff(cf: Config)
    requires 0 < cf.cnt && WORD % cf.cnt == 0 && cf.cnt + 1 < WORD
    ensures (forall events :: InTurn(cf, events)) <==> cf.maxPost <= cf.cnt
  {
    hide Inv;
    if cf.maxPost <= cf.cnt {
      EmptyIsGood(cf);
      forall events ensures InTurn(cf, events) {
        if Exec(cf, Empty(cf), events).Some? { RunIsAQueue(cf, Empty(cf), events); }
      }
    } else {
      var events := SlotReused(cf);
      assert !InTurn(cf, events);
    }
  }

  /** With more room than slots the first slot is filled again before its completion. */
  lemma SlotReused(cf: Config) returns (events: seq<Event>)
    requires 0 < cf.cnt < cf.maxPost && cf.cnt + 1 < WORD
    ensures !InTurn(cf, events)
  {
    var full := Fill(cf, cf.cnt + 1);
    WordIs(cf.cnt + 1);
    ExecNext(cf, full, End);
    ExecNext(cf, full + [End], Complete);
    events := full + [End] + [Complete];
    var r := Exec(cf, Empty(cf), events).value;
    assert cf.cnt % cf.cnt == 0 && r.completed == [cf.cnt];
    assert Ids(r.posted[..1])[0] == r.posted[0].id;
  }

  // ---------------------------------------------------------------- the queue object

  datatype Error = NoError | EIO | ENOMEM | EINVAL

  class ReceiveQueue {
    const cf: Config
    var head: nat
    var tail: nat
    var wrid: array<nat>
    var slots: array<seq<Seg>>
    var doorbell: nat

    function Ring(): State
      reads this, wrid, slots
    {
      State(head, tail, wrid[..], slots[..], None)
    }

    /** The state in the middle of a batch. */
    function InBatch(nreq: nat, ind: nat): State
      reads this, wrid, slots
    {
      Ring().(batch := Some(Batch(nreq, ind)))
    }

    constructor (cf: Config, wrid: array<nat>, slots: array<seq<Seg>>)
      requires ConfigOk(cf) && wrid.Length == slots.Length == cf.cnt
      requires forall k :: 0 <= k < cf.cnt ==> |slots[k]| == cf.maxGs
      ensures this.cf == cf && this.wrid == wrid && this.slots == slots && Inv(cf, Ring(), [])
    {
      this.cf, this.wrid, this.slots := cf, wrid, slots;
      head, tail, doorbell := 0, 0, 0;
    }

    /** Completions that come in during a batch: `k` of them, or as many as there are of requests behind the head.
        `gone` of the queue have then left it. */
    method Arrive(k: nat, nreq: nat, ind: nat, ghost queue: seq<Request>) returns (ghost gone: nat)
      requires Inv(cf, InBatch(nreq, ind), queue)
      modifies `tail
      ensures gone <= k && nreq + gone <= |queue| && Inv(cf, InBatch(nreq, ind), queue[gone..])
    {
      hide Inv, Step, Overflow, Word, Kept;
      gone := 0;
      InvParts(cf, InBatch(nreq, ind), queue);
      BatchFits(cf, InBatch(nreq, ind), queue);
      assert queue[0..] == queue;
      var i := 0;
      while i < k && tail != head
        invariant 0 <= i <= k && gone == i && nreq + gone <= |queue|
        invariant Inv(cf, InBatch(nreq, ind), queue[gone..])
      {
        ghost var s := InBatch(nreq, ind);
        InvParts(cf, s, queue[gone..]);
        CompleteKeeps(cf, s, queue[gone..]);
        CompleteIs(cf, s);
        assert queue[gone..][1..] == queue[gone + 1..];
        tail := Word(tail + 1);
        gone := gone + 1;
        i := i + 1;
      }
    }

    /** Whether there is no room for another request behind `nreq` of this batch.  Completions may come in between the
        two looks at the counters. */
    method WqOverflow(nreq: nat, ind: nat, between: nat, ghost queue: seq<Request>) returns (full: bool, ghost gone: nat)
      requires Inv(cf, InBatch(nreq, ind), queue)
      modifies `tail
      ensures gone <= between && nreq + gone <= |queue| && Inv(cf, InBatch(nreq, ind), queue[gone..])
      ensures full == (|queue| - gone == cf.maxPost)
    {
      hide Inv, Step, Word, Kept;
      ghost var s := InBatch(nreq, ind);
      InvParts(cf, s, queue);
      BatchFits(cf, s, queue);
      OverflowIff(cf, s, queue);
      assert queue[0..] == queue;
      var cur := Word(head - tail);
      if Word(cur + nreq) < cf.maxPost {
        return false, 0;
      }
      gone := Arrive(between, nreq, ind, queue);
      InvParts(cf, InBatch(nreq, ind), queue[gone..]);
      OverflowIff(cf, InBatch(nreq, ind), queue[gone..]);
      cur := Word(head - tail);
      full := Word(cur + nreq) >= cf.maxPost;
    }

    method FillEntry(wr: Request, was: seq<Seg>) returns (scat: seq<Seg>)
      requires |wr.sgl| <= cf.maxGs == |was|
      ensures scat == Entry(cf, wr, was) && |scat| == cf.maxGs
    {
      scat := was;
      var i := 0;
      while i < |wr.sgl|
        invariant 0 <= i <= |wr.sgl| && scat == wr.sgl[..i] + was[i..]
      {
        scat := scat[i := wr.sgl[i]];
        i := i + 1;
      }
      if i < cf.maxGs {
        scat := scat[i := Seg(0, cf.invalidLkey, 0)];
      }
    }

    /** Posts the requests up to the first that does not fit the queue or has too many segments, in one batch, while
        completions come in before and inside each room test.  `posted` requests are then behind those outstanding,
        `gone` of which have been completed, and nothing else has changed. */
    method PostRecv(broken: bool, drain: bool, wrs: seq<Request>, before: nat -> nat, between: nat -> nat,
                    ghost out: seq<Request>)
      returns (err: Error, posted: nat, ghost gone: nat)
      requires Inv(cf, Ring(), out)
      modifies `head, `tail, `doorbell, wrid, slots
      ensures posted <= |wrs| && gone <= |out| && |out| - gone + posted <= cf.maxPost
      ensures Inv(cf, Ring(), out[gone..] + wrs[..posted])
      ensures forall i :: 0 <= i < posted ==> |wrs[i].sgl| <= cf.maxGs
      ensures broken && !drain ==> err == EIO && posted == gone == 0
      ensures !(broken && !drain) ==>
        err == if posted == |wrs| then NoError else if |out| - gone + posted == cf.maxPost then ENOMEM else EINVAL
      ensures err == EINVAL ==> |wrs[posted].sgl| > cf.maxGs
      ensures head == Word(old(head) + posted)
      ensures doorbell == if posted == 0 then old(doorbell) else head % 0x1_0000
    {
      hide Inv, Step, Overflow, Word, Kept;
      InvParts(cf, Ring(), out);
      err, posted, gone := NoError, 0, 0;
      WordIs(head);
      assert out[0..] + wrs[..0] == out;
      if broken && !drain {
        return EIO, 0, 0;
      }
      var nreq: nat, ind: nat := 0, head % cf.cnt;
      BeginIs(cf, Ring());
      BeginKeeps(cf, Ring(), out);
      while nreq < |wrs|
        invariant 0 <= nreq <= |wrs| && head == old(head) && doorbell == old(doorbell) && gone <= |out|
        invariant Inv(cf, InBatch(nreq, ind), out[gone..] + wrs[..nreq])
        invariant forall i :: 0 <= i < nreq ==> |wrs[i].sgl| <= cf.maxGs
      {
        var full, more := RoomFor(nreq, ind, before(nreq), between(nreq), out[gone..], wrs);
        gone := gone + more;
        if full {
          err := ENOMEM;
          break;
        }
        if |wrs[nreq].sgl| > cf.maxGs {
          err := EINVAL;
          break;
        }
        ghost var queue := out[gone..] + wrs[..nreq];
        InvParts(cf, InBatch(nreq, ind), queue);
        OverflowIff(cf, InBatch(nreq, ind), queue);
        OneKeeps(cf, InBatch(nreq, ind), queue, wrs[nreq]);
        assert queue + [wrs[nreq]] == out[gone..] + wrs[..nreq + 1];
        PostOne(wrs[nreq], nreq, ind);
        ind := (ind + 1) % cf.cnt;
        nreq := nreq + 1;
      }
      assert wrs[..|wrs|] == wrs;
      posted := nreq;
      FinishBatch(nreq, ind, out[gone..] + wrs[..nreq]);
    }

    /** The head is moved and the doorbell rung, if there is anything to post. */
    method FinishBatch(nreq: nat, ind: nat, ghost queue: seq<Request>)
      requires Inv(cf, InBatch(nreq, ind), queue)
      modifies `head, `doorbell
      ensures Inv(cf, Ring(), queue) && |queue| <= cf.maxPost
      ensures head == Word(old(head) + nreq)
      ensures doorbell == if nreq == 0 then old(doorbell) else head % 0x1_0000
    {
      hide Inv, Step, Overflow, Word, Kept;
      InvParts(cf, InBatch(nreq, ind), queue);
      EndIs(cf, InBatch(nreq, ind));
      EndKeeps(cf, InBatch(nreq, ind), queue);
      WordIs(head);
      if nreq != 0 {
        head := Word(head + nreq);
        doorbell := head % 0x1_0000;
      }
    }

    /** Completions and the room test for the next request: `rest` are the outstanding requests posted before. */
    method RoomFor(nreq: nat, ind: nat, before: nat, between: nat, ghost rest: seq<Request>, wrs: seq<Request>)
      returns (full: bool, ghost gone: nat)
      requires nreq <= |wrs| && Inv(cf, InBatch(nreq, ind), rest + wrs[..nreq])
      modifies `tail
      ensures gone <= |rest| && Inv(cf, InBatch(nreq, ind), rest[gone..] + wrs[..nreq])
      ensures full == (|rest| - gone + nreq == cf.maxPost)
    {
      hide Inv;
      ghost var queue := rest + wrs[..nreq];
      ghost var first := Arrive(before, nreq, ind, queue);
      ghost var second;
      full, second := WqOverflow(nreq, ind, between, queue[first..]);
      gone := first + second;
      assert queue[first..][second..] == queue[gone..] == rest[gone..] + wrs[..nreq];
    }

    /** The next slot is filled. */
    method PostOne(wr: Request, nreq: nat, ind: nat)
      requires ConfigOk(cf) && Shape(cf, InBatch(nreq, ind)) && Enabled(cf, InBatch(nreq, ind), One(wr))
      modifies wrid, slots
      ensures Shape(cf, InBatch(nreq + 1, (ind + 1) % cf.cnt))
      ensures InBatch(nreq + 1, (ind + 1) % cf.cnt) == Step(cf, old(InBatch(nreq, ind)), One(wr))
    {
      hide Entry, Overflow;
      var scat := FillEntry(wr, slots[ind]);
      slots[ind] := scat;
      wrid[ind] := wr.id;
    }
  }

  lemma BeginIs(cf: Config, s: State)
    requires ConfigOk(cf) && Shape(cf, s) && s.batch.None?
    ensures Step(cf, s, Begin) == s.(batch := Some(Batch(0, s.head % cf.cnt)))
  {
  }

  lemma CompleteIs(cf: Config, s: State)
    requires ConfigOk(cf) && Shape(cf, s) && s.tail != s.head
    ensures Step(cf, s, Complete) == s.(tail := Word(s.tail + 1))
  {
  }

  lemma BatchFits(cf: Config, s: State, out: seq<Request>)
    requires Inv(cf, s, out)
    ensures Nreq(s) <= |out|
  {
  }

  lemma EndIs(cf: Config, s: State)
    requires ConfigOk(cf) && Shape(cf, s) && s.batch.Some?
    ensures Step(cf, s, End) == s.(head := Word(s.head + s.batch.value.nreq), batch := None)
  {
  }
}
