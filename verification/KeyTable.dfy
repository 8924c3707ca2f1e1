/**
  The reference-counted tables of the mlx4 driver: MAC addresses and VLANs share their shape.  A scan over the slots
  finds the key or the first free slot; the firmware may refuse the new table.
*/
module KeyTable {
  import opened Arithmetic
  import opened Wrappers

  /** Slots `first..limit` of `size` are scanned; an entry is a key below `keys` plus the flag `valid`, a multiple of
      `keys`.  The VLAN scan is `checked`: it looks at the count of a slot before it compares its key. */
  datatype Config = Config(first: nat, limit: nat, size: nat, keys: nat, valid: nat, checked: bool)

  /** `stray` counts the registrations that found no free slot in a table with room, and wrote to slot -1. */
  datatype Table = Table(refs: seq<nat>, entries: seq<nat>, total: int, max: nat, stray: nat)

  datatype Result = Ok(index: int) | NoSpace | FirmwareError

  predicate ConfigOk(cf: Config) {
    cf.first <= cf.limit <= cf.size && 0 < cf.keys && 0 < cf.valid && cf.valid % cf.keys == 0
  }

  predicate Shape(cf: Config, t: Table) {
    ConfigOk(cf) && |t.refs| == |t.entries| == cf.size
  }

  function Key(cf: Config, entry: nat): nat
    requires 0 < cf.keys
  {
    entry % cf.keys
  }

  // ---------------------------------------------------------------- the operations

  datatype Found = Match(index: nat) | Absent(free: Option<nat>)

  /** The scan from slot `i` on, with the first free slot seen so far. */
  function Scan(cf: Config, t: Table, key: nat, i: nat, free: Option<nat>): (f: Found)
    requires Shape(cf, t) && i <= cf.limit
    ensures f.Match? ==> i <= f.index < cf.limit && key == Key(cf, t.entries[f.index])
    ensures f.Absent? ==> f.free == free || (free.None? && f.free.Some? && i <= f.free.value < cf.limit)
    decreases cf.limit - i
  {
    if i == cf.limit then Absent(free)
    else if free.None? && t.refs[i] == 0 then Scan(cf, t, key, i + 1, Some(i))
    else if (cf.checked ==> t.refs[i] > 0) && key == Key(cf, t.entries[i]) then Match(i)
    else Scan(cf, t, key, i + 1, free)
  }

  function Register(cf: Config, t: Table, key: nat, firmwareOk: bool): (Table, Result)
    requires Shape(cf, t)
  {
    match Scan(cf, t, key, cf.first, None)
    case Match(i) => (t.(refs := t.refs[i := t.refs[i] + 1]), Ok(i))
    case Absent(free) =>
      if t.total == t.max then (t, NoSpace)
      else if free.None? then
        if firmwareOk then (t.(total := t.total + 1, stray := t.stray + 1), Ok(-1))
        else (t.(stray := t.stray + 1), FirmwareError)
      else if !firmwareOk then
        (t.(refs := t.refs[free.value := 0], entries := t.entries[free.value := 0]), FirmwareError)
      else
        (t.(refs := t.refs[free.value := 1], entries := t.entries[free.value := key + cf.valid], total := t.total + 1),
         Ok(free.value))
  }

  function Unregister(cf: Config, t: Table, index: nat): Table
    requires Shape(cf, t) && index < cf.size
  {
    if index < cf.first || t.refs[index] == 0 then t
    else if t.refs[index] > 1 then t.(refs := t.refs[index := t.refs[index] - 1])
    else t.(refs := t.refs[index := 0], entries := t.entries[index := 0], total := t.total - 1)
  }

  // ---------------------------------------------------------------- the loops

  class Ports {
    var entries: array<nat>
    var refs: array<nat>
    var total: int
    var max: nat
    ghost var stray: nat

    ghost function State(): Table
      reads this, entries, refs
    {
      Table(refs[..], entries[..], total, max, stray)
    }

    constructor (entries: array<nat>, refs: array<nat>, max: nat)
      ensures this.entries == entries && this.refs == refs && this.total == 0 && this.max == max && this.stray == 0
    {
      this.entries, this.refs, this.total, this.max, this.stray := entries, refs, 0, max, 0;
    }

    /** An empty table with room for `max` keys. */
    method Init(max: nat)
      requires entries != refs && entries.Length == refs.Length
      modifies `total, `max, entries, refs
      ensures entries == old(entries) && refs == old(refs)
      ensures State() == Table(seq(refs.Length, i => 0), seq(refs.Length, i => 0), 0, max, old(stray))
    {
      var i := 0;
      while i < entries.Length
        invariant 0 <= i <= entries.Length && entries == old(entries) && refs == old(refs)
        invariant forall j :: 0 <= j < i ==> entries[j] == 0 && refs[j] == 0
      {
        entries[i] := 0;
        refs[i] := 0;
        i := i + 1;
      }
      this.max := max;
      total := 0;
    }

    /** What both registrations do behind their scan. */
    method Take(cf: Config, key: nat, free: int, firmwareOk: bool) returns (r: Result)
      requires Shape(cf, State()) && entries != refs && -1 <= free < cf.limit
      requires Scan(cf, State(), key, cf.first, None) == Absent(if free < 0 then None else Some(free))
      modifies `total, `stray, entries, refs
      ensures (State(), r) == Register(cf, old(State()), key, firmwareOk)
    {
      if total == max {
        return NoSpace;
      }
      if free >= 0 {
        refs[free] := 1;
        entries[free] := key + cf.valid;
      } else {
        stray := stray + 1;
      }
      if !firmwareOk {
        if free >= 0 {
          refs[free] := 0;
          entries[free] := 0;
          assert refs[..] == old(refs[..])[free := 0] && entries[..] == old(entries[..])[free := 0];
        }
        return FirmwareError;
      }
      r := Ok(free);
      total := total + 1;
    }

    method RegisterMac(cf: Config, mac: nat, firmwareOk: bool) returns (r: Result)
      requires Shape(cf, State()) && entries != refs && !cf.checked
      modifies `total, `stray, entries, refs
      ensures (State(), r) == Register(cf, old(State()), mac, firmwareOk)
    {
      var free: int := -1;
      var i := cf.first;
      while i < cf.limit
        invariant cf.first <= i <= cf.limit && -1 <= free < cf.limit && State() == old(State())
        invariant Scan(cf, State(), mac, cf.first, None)
               == Scan(cf, State(), mac, i, if free < 0 then None else Some(free))
      {
        if free < 0 && refs[i] == 0 {
          free := i;
        } else if mac == Key(cf, entries[i]) {
          refs[i] := refs[i] + 1;
          return Ok(i);
        }
        i := i + 1;
      }
      r := Take(cf, mac, free, firmwareOk);
    }

    method RegisterVlan(cf: Config, vlan: nat, firmwareOk: bool) returns (r: Result)
      requires Shape(cf, State()) && entries != refs && cf.checked
      modifies `total, `stray, entries, refs
      ensures (State(), r) == Register(cf, old(State()), vlan, firmwareOk)
    {
      var free: int := -1;
      var i := cf.first;
      while i < cf.limit
        invariant cf.first <= i <= cf.limit && -1 <= free < cf.limit && State() == old(State())
        invariant Scan(cf, State(), vlan, cf.first, None)
               == Scan(cf, State(), vlan, i, if free < 0 then None else Some(free))
      {
        if free < 0 && refs[i] == 0 {
          free := i;
        } else if refs[i] != 0 && vlan == Key(cf, entries[i]) {
          refs[i] := refs[i] + 1;
          return Ok(i);
        }
        i := i + 1;
      }
      r := Take(cf, vlan, free, firmwareOk);
    }

    /** MAC addresses have no special slots, so `first` is 0 there and the first test never holds. */
    method UnregisterKey(cf: Config, index: nat)
      requires Shape(cf, State()) && entries != refs && index < cf.size
      modifies `total, entries, refs
      ensures State() == Unregister(cf, old(State()), index)
    {
      if index < cf.first {
        return;
      }
      if refs[index] == 0 {
        return;
      }
      refs[index] := refs[index] - 1;
      if refs[index] != 0 {
        return;
      }
      entries[index] := 0;
      total := total - 1;
    }
  }

  // ---------------------------------------------------------------- the table is a map from keys to counts

  function NumUsed(refs: seq<nat>, lo: nat, hi: nat): (n: nat)
    requires lo <= hi <= |refs|
    ensures n <= hi - lo
    decreases hi
  {
    if lo == hi then 0 else NumUsed(refs, lo, hi - 1) + if refs[hi - 1] > 0 then 1 else 0
  }

  predicate Holds(cf: Config, t: Table, key: nat, i: nat)
    requires Shape(cf, t)
  {
    cf.first <= i < cf.limit && t.refs[i] > 0 && Key(cf, t.entries[i]) == key
  }

  /** The slot in use for a key, `limit` if there is none. */
  function Slot(cf: Config, t: Table, key: nat, i: nat): (k: nat)
    requires Shape(cf, t) && cf.first <= i <= cf.limit
    ensures i <= k <= cf.limit && (k < cf.limit ==> Holds(cf, t, key, k))
    ensures forall j :: i <= j < k ==> !Holds(cf, t, key, j)
    decreases cf.limit - i
  {
    if i == cf.limit || Holds(cf, t, key, i) then i else Slot(cf, t, key, i + 1)
  }

  /** How often a key is registered. */
  function Count(cf: Config, t: Table, key: nat): nat
    requires Shape(cf, t)
  {
    var k := Slot(cf, t, key, cf.first);
    if k < cf.limit then t.refs[k] else 0
  }

  ghost predicate SlotOk(cf: Config, t: Table, i: nat)
    requires Shape(cf, t) && i < cf.size
  {
    if t.refs[i] == 0 then cf.first <= i < cf.limit ==> t.entries[i] == 0
    else cf.first <= i < cf.limit && t.entries[i] == Key(cf, t.entries[i]) + cf.valid
  }

  /** Counts only on scanned slots, entries only on counted ones, distinct keys, the right total, and no stray write. */
  ghost predicate Inv(cf: Config, t: Table) {
    && Shape(cf, t)
    && (forall i :: 0 <= i < cf.size ==> SlotOk(cf, t, i))
    && (forall i, j :: cf.first <= i < j < cf.limit && t.refs[i] > 0 && t.refs[j] > 0
          ==> Key(cf, t.entries[i]) != Key(cf, t.entries[j]))
    && t.total == NumUsed(t.refs, cf.first, cf.limit) && t.total <= t.max && t.stray == 0
  }

  /** Keys fit their field, and a MAC address is not 0. */
  predicate KeyOk(cf: Config, key: nat) { key < cf.keys && (cf.checked || key != 0) }

  lemma Entry(cf: Config, key: nat)
    requires ConfigOk(cf) && key < cf.keys
    ensures Key(cf, key + cf.valid) == key
  {
    assert cf.valid == cf.keys * (cf.valid / cf.keys);
    ModEqual(key + cf.valid, key, cf.keys, cf.valid / cf.keys);
    ModSmall(key, cf.keys);
  }

  lemma ModSmall(x: nat, m: nat)
    requires x < m
    ensures x % m == x
  {
    Quotient(x, m, 0);
  }

  /** The one slot that holds a key is the one that counts. */
  lemma CountAt(cf: Config, t: Table, key: nat, i: nat)
    requires Shape(cf, t) && Holds(cf, t, key, i)
    requires forall j :: cf.first <= j < cf.limit && j != i ==> !Holds(cf, t, key, j)
    ensures Count(cf, t, key) == t.refs[i]
  {
  }

  lemma CountNone(cf: Config, t: Table, key: nat)
    requires Shape(cf, t) && forall j :: cf.first <= j < cf.limit ==> !Holds(cf, t, key, j)
    ensures Count(cf, t, key) == 0
  {
  }

  /** The first slot from `i` on that is not in use, `limit` if there is none. */
  function FirstFree(cf: Config, t: Table, i: nat): (k: nat)
    requires Shape(cf, t) && i <= cf.limit
    ensures i <= k <= cf.limit && (k < cf.limit ==> t.refs[k] == 0)
    ensures forall j :: i <= j < k ==> t.refs[j] > 0
    decreases cf.limit - i
  {
    if i == cf.limit || t.refs[i] == 0 then i else FirstFree(cf, t, i + 1)
  }

  /** The scan finds the slot in use for the key if there is one, and else the first free slot. */
  lemma {:induction false} ScanIs(cf: Config, t: Table, key: nat, i: nat, free: Option<nat>)
    requires Inv(cf, t) && KeyOk(cf, key) && cf.first <= i <= cf.limit
    ensures var k, f := Slot(cf, t, key, i), FirstFree(cf, t, i);
            Scan(cf, t, key, i, free)
              == if k < cf.limit then Match(k)
                 else Absent(if free.Some? then free else if f < cf.limit then Some(f) else None)
    decreases cf.limit - i
  {
    hide Key;
    if i < cf.limit {
      assert SlotOk(cf, t, i);
      assert Key(cf, 0) == 0 by { KeyOfNothing(cf); }
      ScanIs(cf, t, key, i + 1, if free.None? && t.refs[i] == 0 then Some(i) else free);
    }
  }

  lemma KeyOfNothing(cf: Config)
    requires 0 < cf.keys
    ensures Key(cf, 0) == 0
  {
  }

  /** Changing one slot changes the number in use by what the slot contributes. */
  lemma {:induction false} NumUsedAt(a: seq<nat>, b: seq<nat>, lo: nat, hi: nat, i: nat)
    requires lo <= hi <= |a| == |b| && lo <= i && forall j :: lo <= j < hi && j != i ==> (a[j] > 0 <==> b[j] > 0)
    ensures i >= hi ==> NumUsed(b, lo, hi) == NumUsed(a, lo, hi)
    ensures i < hi ==> NumUsed(b, lo, hi) == NumUsed(a, lo, hi) - (if a[i] > 0 then 1 else 0) + if b[i] > 0 then 1 else 0
    decreases hi
  {
    if lo < hi { NumUsedAt(a, b, lo, hi - 1, i); }
  }

  /** `u` is `t` but for slot `i`, which holds `key` at least in one of them, and both are good tables. */
  lemma CountsMove(cf: Config, t: Table, u: Table, i: nat, key: nat, other: nat)
    requires Inv(cf, t) && Inv(cf, u) && cf.first <= i < cf.limit
    requires forall j :: cf.first <= j < cf.limit && j != i ==> u.refs[j] == t.refs[j] && u.entries[j] == t.entries[j]
    requires t.refs[i] > 0 ==> Key(cf, t.entries[i]) == key
    requires u.refs[i] > 0 ==> Key(cf, u.entries[i]) == key
    requires t.refs[i] > 0 || u.refs[i] > 0
    ensures Count(cf, u, other) == if other == key then u.refs[i] else Count(cf, t, other)
    ensures other == key ==> Count(cf, t, other) == t.refs[i]
  {
    hide Key, Count, SlotOk;
    if other == key {
      CountIs(cf, t, i, key, u);
      CountIs(cf, u, i, key, t);
    } else {
      var k := Slot(cf, t, other, cf.first);
      if k < cf.limit {
        OnlySlot(cf, t, other, k);
        OnlySlot(cf, u, other, k);
        CountAt(cf, t, other, k);
        CountAt(cf, u, other, k);
      } else {
        forall j | cf.first <= j < cf.limit ensures !Holds(cf, u, other, j) {
          assert !Holds(cf, t, other, j);
        }
        CountNone(cf, t, other);
        CountNone(cf, u, other);
      }
    }
  }

  lemma OnlySlot(cf: Config, t: Table, key: nat, i: nat)
    requires Inv(cf, t) && Holds(cf, t, key, i)
    ensures forall j :: cf.first <= j < cf.limit && j != i ==> !Holds(cf, t, key, j)
  {
    hide Key;
  }

  /** The count of a key that no slot but `i` can hold; `u` tells which key that is if slot `i` is free in `t`. */
  lemma CountIs(cf: Config, t: Table, i: nat, key: nat, u: Table)
    requires Inv(cf, t) && Inv(cf, u) && cf.first <= i < cf.limit
    requires forall j :: cf.first <= j < cf.limit && j != i ==> u.refs[j] == t.refs[j] && u.entries[j] == t.entries[j]
    requires t.refs[i] > 0 ==> Key(cf, t.entries[i]) == key
    requires t.refs[i] == 0 ==> u.refs[i] > 0 && Key(cf, u.entries[i]) == key
    ensures Count(cf, t, key) == t.refs[i]
  {
    hide Key, Count, SlotOk;
    if t.refs[i] > 0 {
      OnlySlot(cf, t, key, i);
      CountAt(cf, t, key, i);
    } else {
      OnlySlot(cf, u, key, i);
      CountNone(cf, t, key);
    }
  }

  lemma SlotOkMoves(cf: Config, t: Table, u: Table, j: nat, i: nat, key: nat)
    requires Shape(cf, t) && Shape(cf, u) && j < cf.size && SlotOk(cf, t, j) && key < cf.keys
    requires j != i ==> u.refs[j] == t.refs[j] && u.entries[j] == t.entries[j]
    requires j == i ==> cf.first <= i < cf.limit && u.entries[i] == if u.refs[i] > 0 then key + cf.valid else 0
    ensures SlotOk(cf, u, j)
  {
    Entry(cf, key);
  }

  /** Slot `i` gets the count `n` and the entry `e`. */
  lemma SlotChangeKeeps(cf: Config, t: Table, i: nat, n: nat, e: nat, key: nat)
    requires Inv(cf, t) && cf.first <= i < cf.limit && key < cf.keys
    requires if n > 0 then e == key + cf.valid else e == 0
    requires forall j :: cf.first <= j < cf.limit && j != i ==> !Holds(cf, t, key, j)
    requires var total := t.total - (if t.refs[i] > 0 then 1 else 0) + if n > 0 then 1 else 0; total <= t.max
    ensures var total := t.total - (if t.refs[i] > 0 then 1 else 0) + if n > 0 then 1 else 0;
            Inv(cf, t.(refs := t.refs[i := n], entries := t.entries[i := e], total := total))
  {
    hide Key, SlotOk, NumUsed;
    var total := t.total - (if t.refs[i] > 0 then 1 else 0) + if n > 0 then 1 else 0;
    var u := t.(refs := t.refs[i := n], entries := t.entries[i := e], total := total);
    Entry(cf, key);
    NumUsedAt(t.refs, u.refs, cf.first, cf.limit, i);
    forall j | 0 <= j < cf.size ensures SlotOk(cf, u, j) {
      assert SlotOk(cf, t, j);
      SlotOkMoves(cf, t, u, j, i, key);
    }
    forall j, k | cf.first <= j < k < cf.limit && u.refs[j] > 0 && u.refs[k] > 0
      ensures Key(cf, u.entries[j]) != Key(cf, u.entries[k])
    {
      if k == i { assert !Holds(cf, t, key, j); }
      if j == i { assert !Holds(cf, t, key, k); }
    }
  }

  /** What a registration promises: an unchanged table if it fails, and else a slot that holds the key, one more
      reference for it, the same count for every other key, and one more slot in use if the key is new. */
  ghost predicate Registered(cf: Config, t: Table, key: nat, u: Table, r: Result)
    requires Shape(cf, t)
  {
    && Inv(cf, u)
    && (!r.Ok? ==> u == t)
    && (r.Ok? ==> r.index >= 0 && Holds(cf, u, key, r.index) && u.max == t.max)
    && (r.Ok? ==> u.total == t.total + if Count(cf, t, key) == 0 then 1 else 0)
    && (r.Ok? ==> forall k :: Count(cf, u, k) == Count(cf, t, k) + if k == key then 1 else 0)
  }

  /** The key is new, and all scanned slots are taken while the table claims to have room. */
  ghost predicate NoWay(cf: Config, t: Table, key: nat)
    requires Shape(cf, t)
  {
    Count(cf, t, key) == 0 && t.total != t.max && t.total == cf.limit - cf.first
  }

  /** A registration keeps its promise unless there is no way; then it writes to slot -1, and unless the firmware
      refuses it raises the total, returns index -1 and reports success. */
  lemma RegisterKeeps(cf: Config, t: Table, key: nat, firmwareOk: bool)
    requires Inv(cf, t) && KeyOk(cf, key)
    ensures var (u, r) := Register(cf, t, key, firmwareOk);
            && (!NoWay(cf, t, key) ==> Registered(cf, t, key, u, r))
            && (NoWay(cf, t, key) ==> u.stray == 1 && !Inv(cf, u))
            && (NoWay(cf, t, key) ==> r == if firmwareOk then Ok(-1) else FirmwareError)
            && (NoWay(cf, t, key) ==> u.total == t.total + if firmwareOk then 1 else 0)
            && (r == NoSpace <==> Count(cf, t, key) == 0 && t.total == t.max)
            && (r == FirmwareError <==> Count(cf, t, key) == 0 && t.total != t.max && !firmwareOk)
  {
    hide Scan, Key, SlotOk, Holds, NumUsed, Count;
    InvShape(cf, t);
    ScanIs(cf, t, key, cf.first, None);
    AllUsed(t.refs, cf.first, cf.limit);
    var k, f := Slot(cf, t, key, cf.first), FirstFree(cf, t, cf.first);
    if k < cf.limit {
      MatchKeeps(cf, t, key, k);
    } else {
      FreeKeeps(cf, t, key, f);
    }
  }

  lemma InvShape(cf: Config, t: Table)
    requires Inv(cf, t)
    ensures Shape(cf, t) && t.total == NumUsed(t.refs, cf.first, cf.limit) && t.total <= t.max && t.stray == 0
    ensures forall i :: 0 <= i < cf.size ==> SlotOk(cf, t, i)
  {
  }

  lemma MatchKeeps(cf: Config, t: Table, key: nat, i: nat)
    requires Inv(cf, t) && key < cf.keys && Holds(cf, t, key, i)
    ensures Count(cf, t, key) > 0
    ensures Registered(cf, t, key, t.(refs := t.refs[i := t.refs[i] + 1]), Ok(i))
  {
    hide Key, Count, NumUsed;
    var u := t.(refs := t.refs[i := t.refs[i] + 1]);
    InvShape(cf, t);
    OnlySlot(cf, t, key, i);
    assert SlotOk(cf, t, i);
    SlotChangeKeeps(cf, t, i, t.refs[i] + 1, t.entries[i], key);
    assert t.entries[i := t.entries[i]] == t.entries;
    CountAt(cf, t, key, i);
    forall other ensures Count(cf, u, other) == Count(cf, t, other) + if other == key then 1 else 0 {
      CountsMove(cf, t, u, i, key, other);
    }
  }

  lemma FreeKeeps(cf: Config, t: Table, key: nat, i: nat)
    requires Inv(cf, t) && key < cf.keys && forall j :: cf.first <= j < cf.limit ==> !Holds(cf, t, key, j)
    requires cf.first <= i <= cf.limit && (i < cf.limit ==> t.refs[i] == 0)
    ensures Count(cf, t, key) == 0
    ensures i < cf.limit && t.total < t.max ==>
      Registered(cf, t, key, Table(t.refs[i := 1], t.entries[i := key + cf.valid], t.total + 1, t.max, 0), Ok(i))
    ensures i < cf.limit ==> t == t.(refs := t.refs[i := 0], entries := t.entries[i := 0])
  {
    hide Key, Count, NumUsed;
    CountNone(cf, t, key);
    if i < cf.limit {
      assert SlotOk(cf, t, i);
      if t.total < t.max {
        var u := Table(t.refs[i := 1], t.entries[i := key + cf.valid], t.total + 1, t.max, 0);
        SlotChangeKeeps(cf, t, i, 1, key + cf.valid, key);
        Entry(cf, key);
        forall other ensures Count(cf, u, other) == Count(cf, t, other) + if other == key then 1 else 0 {
          CountsMove(cf, t, u, i, key, other);
        }
      }
    }
  }

  // ---------------------------------------------------------------- the MAC address 0

  /** Free scanned slots below `p`. */
  function FreeBelow(cf: Config, t: Table, p: nat): nat
    requires Shape(cf, t) && cf.first <= p <= cf.limit
  {
    p - cf.first - NumUsed(t.refs, cf.first, p)
  }

  lemma {:induction false} NumUsedSplit(refs: seq<nat>, lo: nat, mid: nat, hi: nat)
    requires lo <= mid <= hi <= |refs|
    ensures NumUsed(refs, lo, hi) == NumUsed(refs, lo, mid) + NumUsed(refs, mid, hi)
    decreases hi
  {
    if mid < hi { NumUsedSplit(refs, lo, mid, hi - 1); }
  }

  lemma {:induction false} AllUsed(refs: seq<nat>, lo: nat, hi: nat)
    requires lo <= hi <= |refs|
    ensures NumUsed(refs, lo, hi) == hi - lo <==> forall j :: lo <= j < hi ==> refs[j] > 0
    decreases hi
  {
    if lo < hi { AllUsed(refs, lo, hi - 1); }
  }

  /** The second free slot from `i` on, `limit` if there are fewer. */
  function SecondFree(cf: Config, t: Table, i: nat): (k: nat)
    requires Shape(cf, t) && i <= cf.limit
    ensures i <= k <= cf.limit && (k < cf.limit ==> t.refs[k] == 0)
  {
    var f := FirstFree(cf, t, i);
    if f < cf.limit then FirstFree(cf, t, f + 1) else f
  }

  /** At most one slot below `p` is free exactly if the second free slot is not below `p`. */
  lemma FreeBelowIff(cf: Config, t: Table, p: nat)
    requires Shape(cf, t) && cf.first <= p <= cf.limit
    ensures FreeBelow(cf, t, p) <= 1 <==> p <= SecondFree(cf, t, cf.first)
    ensures FreeBelow(cf, t, p) == 0 <==> p <= FirstFree(cf, t, cf.first)
  {
    var f := FirstFree(cf, t, cf.first);
    AllUsed(t.refs, cf.first, p);
    if f < p {
      NumUsedSplit(t.refs, cf.first, f, p);
      NumUsedSplit(t.refs, f, f + 1, p);
      AllUsed(t.refs, cf.first, f);
      AllUsed(t.refs, f + 1, p);
    }
  }

  /** With a free slot seen, the scan for 0 takes the next slot that is free or holds 0. */
  lemma {:induction false} ZeroScanOn(cf: Config, t: Table, i: nat, free: nat)
    requires Inv(cf, t) && !cf.checked && cf.first <= i <= cf.limit
    ensures var p, f := Slot(cf, t, 0, i), FirstFree(cf, t, i);
            Scan(cf, t, 0, i, Some(free))
              == if p < f then Match(p) else if f < cf.limit then Match(f) else Absent(Some(free))
    decreases cf.limit - i
  {
    hide Key;
    if i < cf.limit {
      assert SlotOk(cf, t, i);
      KeyOfNothing(cf);
      ZeroScanOn(cf, t, i + 1, free);
    }
  }

  /** What the scan for 0 comes to from slot `i` on, before it has seen a free slot. */
  ghost predicate ZeroScans(cf: Config, t: Table, i: nat)
    requires Shape(cf, t) && cf.first <= i <= cf.limit
  {
    var p, f, g := Slot(cf, t, 0, i), FirstFree(cf, t, i), SecondFree(cf, t, i);
    Scan(cf, t, 0, i, None)
      == if p < g then Match(p) else if g < cf.limit then Match(g) else Absent(if f < cf.limit then Some(f) else None)
  }

  lemma ZeroScanFree(cf: Config, t: Table, i: nat)
    requires Inv(cf, t) && !cf.checked && cf.first <= i < cf.limit && t.refs[i] == 0
    ensures ZeroScans(cf, t, i)
  {
    hide Key, SlotOk;
    ZeroScanOn(cf, t, i + 1, i);
  }

  lemma ZeroScanUsed(cf: Config, t: Table, i: nat)
    requires Shape(cf, t) && cf.first <= i < cf.limit && t.refs[i] > 0
    ensures Holds(cf, t, 0, i) || ZeroScans(cf, t, i + 1) ==> ZeroScans(cf, t, i)
  {
    hide Key;
    assert FirstFree(cf, t, i) == FirstFree(cf, t, i + 1);
  }

  lemma ZeroScanEnd(cf: Config, t: Table)
    requires Shape(cf, t)
    ensures ZeroScans(cf, t, cf.limit)
  {
  }

  lemma {:induction false} ZeroScan(cf: Config, t: Table, i: nat)
    requires Inv(cf, t) && Shape(cf, t) && !cf.checked && cf.first <= i <= cf.limit
    ensures ZeroScans(cf, t, i)
    decreases cf.limit - i
  {
    hide ZeroScans, Inv;
    if i == cf.limit {
      ZeroScanEnd(cf, t);
    } else if t.refs[i] == 0 {
      ZeroScanFree(cf, t, i);
    } else {
      ZeroScan(cf, t, i + 1);
      ZeroScanUsed(cf, t, i);
    }
  }

  /** The scan for 0 meets a slot that holds 0 before a second free slot, or there is exactly one free slot. */
  ghost predicate ZeroSafe(cf: Config, t: Table)
    requires Shape(cf, t)
  {
    if Count(cf, t, 0) > 0 then FreeBelow(cf, t, Slot(cf, t, 0, cf.first)) <= 1
    else t.total + 1 == cf.limit - cf.first
  }

  /** A slot counted without an entry. */
  lemma EntryMissing(cf: Config, t: Table, i: nat)
    requires Inv(cf, t) && cf.first <= i < cf.limit && t.refs[i] == 0
    ensures !Inv(cf, t.(refs := t.refs[i := t.refs[i] + 1]))
  {
    assert SlotOk(cf, t, i);
    KeyOfNothing(cf);
    var u := t.(refs := t.refs[i := t.refs[i] + 1]);
    assert !SlotOk(cf, u, i);
  }

  /** A MAC address of 0 equals the entry of every free slot but the first that the scan meets.  Once accepted, it
      leaves the table good if and only if the scan met no second free slot and found a place. */
  lemma ZeroMacIff(cf: Config, t: Table, firmwareOk: bool)
    requires Inv(cf, t) && !cf.checked
    ensures var (u, r) := Register(cf, t, 0, firmwareOk); r.Ok? ==> (Inv(cf, u) <==> ZeroSafe(cf, t))
  {
    hide Scan, Key, SlotOk, Holds, NumUsed, Count, SecondFree, FreeBelow, Slot, FirstFree;
    InvShape(cf, t);
    ZeroScan(cf, t, cf.first);
    var p, g := Slot(cf, t, 0, cf.first), SecondFree(cf, t, cf.first);
    FreeBelowIff(cf, t, p);
    FreeBelowIff(cf, t, cf.limit);
    FreeInAll(cf, t);
    if p < g {
      MatchKeeps(cf, t, 0, p);
    } else if g < cf.limit {
      EntryMissing(cf, t, g);
      if p < cf.limit { MatchKeeps(cf, t, 0, p); } else { CountNone(cf, t, 0); }
    } else {
      FreeKeeps(cf, t, 0, FirstFree(cf, t, cf.first));
    }
  }

  lemma FreeInAll(cf: Config, t: Table)
    requires Inv(cf, t)
    ensures FreeBelow(cf, t, cf.limit) == cf.limit - cf.first - t.total
  {
  }

  lemma UnregisterKeeps(cf: Config, t: Table, index: nat)
    requires Inv(cf, t) && index < cf.size
    ensures var u := Unregister(cf, t, index);
            && Inv(cf, u) && (t.refs[index] == 0 ==> u == t)
            && forall k :: Count(cf, u, k)
                 == Count(cf, t, k) - if t.refs[index] > 0 && k == Key(cf, t.entries[index]) then 1 else 0
  {
    hide Key, Count, NumUsed;
    InvShape(cf, t);
    assert SlotOk(cf, t, index);
    var u := Unregister(cf, t, index);
    if t.refs[index] > 0 {
      var key, n := Key(cf, t.entries[index]), t.refs[index] - 1;
      assert Holds(cf, t, key, index);
      OnlySlot(cf, t, key, index);
      KeyBounds(cf, t, index);
      SlotChangeKeeps(cf, t, index, n, if n > 0 then t.entries[index] else 0, key);
      assert t.entries[index := t.entries[index]] == t.entries;
      forall k ensures Count(cf, u, k) == Count(cf, t, k) - if k == key then 1 else 0 {
        CountsMove(cf, t, u, index, key, k);
      }
    }
  }

  lemma KeyBounds(cf: Config, t: Table, i: nat)
    requires Inv(cf, t) && i < cf.size && t.refs[i] > 0
    ensures Key(cf, t.entries[i]) < cf.keys
  {
    assert SlotOk(cf, t, i);
  }

  // ---------------------------------------------------------------- runs

  datatype Event = RegisterEvent(key: nat, firmwareOk: bool) | UnregisterEvent(index: nat)

  /** What an event did: a key with one reference more or less, or nothing. */
  datatype Effect = Gained(key: nat) | Lost(key: nat) | Nothing

  predicate EventOk(cf: Config, e: Event) {
    match e case RegisterEvent(key, _) => KeyOk(cf, key) case UnregisterEvent(index) => index < cf.size
  }

  function Next(cf: Config, t: Table, e: Event): (u: Table)
    requires Shape(cf, t) && EventOk(cf, e)
    ensures Shape(cf, u)
  {
    match e
    case RegisterEvent(key, firmwareOk) => Register(cf, t, key, firmwareOk).0
    case UnregisterEvent(index) => Unregister(cf, t, index)
  }

  function EffectOf(cf: Config, t: Table, e: Event): Effect
    requires Shape(cf, t) && EventOk(cf, e)
  {
    match e
    case RegisterEvent(key, firmwareOk) => if Register(cf, t, key, firmwareOk).1.Ok? then Gained(key) else Nothing
    case UnregisterEvent(index) => if t.refs[index] > 0 then Lost(Key(cf, t.entries[index])) else Nothing
  }

  /** Successful registrations of a key less its unregistrations. */
  function Net(log: seq<Effect>, key: nat): int {
    if log == [] then 0
    else
      var last := log[|log| - 1];
      Net(log[..|log| - 1], key) + if last == Gained(key) then 1 else if last == Lost(key) then -1 else 0
  }

  /** The tables a run goes through, and what its events did. */
  ghost predicate IsRun(cf: Config, tables: seq<Table>, events: seq<Event>, log: seq<Effect>) {
    && |tables| == |events| + 1 == |log| + 1
    && forall k :: 0 <= k < |events| ==>
         Shape(cf, tables[k]) && EventOk(cf, events[k])
         && tables[k + 1] == Next(cf, tables[k], events[k]) && log[k] == EffectOf(cf, tables[k], events[k])
  }

  lemma NetNext(log: seq<Effect>, k: nat, key: nat)
    requires k < |log|
    ensures Net(log[..k + 1], key)
         == Net(log[..k], key) + if log[k] == Gained(key) then 1 else if log[k] == Lost(key) then -1 else 0
  {
    assert log[..k + 1][..k] == log[..k];
  }

  lemma EventKeeps(cf: Config, t: Table, e: Event, key: nat)
    requires Inv(cf, t) && EventOk(cf, e) && t.max <= cf.limit - cf.first
    ensures Inv(cf, Next(cf, t, e)) && Next(cf, t, e).max == t.max
    ensures Count(cf, Next(cf, t, e), key) == Count(cf, t, key)
              + if EffectOf(cf, t, e) == Gained(key) then 1 else if EffectOf(cf, t, e) == Lost(key) then -1 else 0
  {
    hide Inv, Count, Key, Scan;
    InvShape(cf, t);
    match e {
      case RegisterEvent(k, firmwareOk) => RegisterKeeps(cf, t, k, firmwareOk);
      case UnregisterEvent(index) => UnregisterKeeps(cf, t, index); OutsideUnused(cf, t, index);
    }
  }

  /** Slots below `first` are never counted. */
  lemma OutsideUnused(cf: Config, t: Table, i: nat)
    requires Inv(cf, t) && i < cf.size
    ensures i < cf.first ==> t.refs[i] == 0
  {
    assert SlotOk(cf, t, i);
  }

  /** Over any run on an empty table with no more room than scanned slots, the keys stay distinct, the total is the
      number of slots in use, and every key has as many references as it was registered more often than unregistered. */
  lemma {:induction false} RunCounts(cf: Config, tables: seq<Table>, events: seq<Event>, log: seq<Effect>, k: nat, key: nat)
    requires IsRun(cf, tables, events, log) && Inv(cf, tables[0]) && Count(cf, tables[0], key) == 0 && k <= |events|
    requires tables[0].max <= cf.limit - cf.first
    ensures Inv(cf, tables[k]) && tables[k].max == tables[0].max && Count(cf, tables[k], key) == Net(log[..k], key)
    decreases k
  {
    hide Inv, Count, Next, EffectOf, Net, Key;
    if k == 0 {
      NetNone(key);
      assert log[..0] == [];
      InvShape(cf, tables[0]);
    } else {
      RunCounts(cf, tables, events, log, k - 1, key);
      EventKeeps(cf, tables[k - 1], events[k - 1], key);
      NetNext(log, k - 1, key);
    }
  }

  lemma NetNone(key: nat)
    ensures Net([], key) == 0
  {
  }

  /** The table an initialisation leaves. */
  function Fresh(cf: Config, max: nat): (t: Table)
    requires ConfigOk(cf)
    ensures Shape(cf, t) && t.max == max && t.total == 0
  {
    Table(seq(cf.size, i => 0), seq(cf.size, i => 0), 0, max, 0)
  }

  lemma {:induction false} EmptyCount(refs: seq<nat>, lo: nat, hi: nat)
    requires lo <= hi <= |refs| && forall i :: 0 <= i < |refs| ==> refs[i] == 0
    ensures NumUsed(refs, lo, hi) == 0
    decreases hi
  {
    if lo < hi { EmptyCount(refs, lo, hi - 1); }
  }

  lemma EmptyIsGood(cf: Config, max: nat, key: nat)
    requires ConfigOk(cf)
    ensures Inv(cf, Fresh(cf, max)) && Count(cf, Fresh(cf, max), key) == 0
  {
    EmptyCount(Fresh(cf, max).refs, cf.first, cf.limit);
  }

  /** The run, if it is one on a fresh table, ends with a good table that has the right count of `key`. */
  ghost predicate EndsWell(cf: Config, max: nat, tables: seq<Table>, events: seq<Event>, log: seq<Effect>, key: nat)
    requires ConfigOk(cf)
  {
    IsRun(cf, tables, events, log) && tables[0] == Fresh(cf, max) ==>
      Inv(cf, tables[|events|]) && Count(cf, tables[|events|], key) == Net(log, key)
  }

  lemma Extend(cf: Config, tables: seq<Table>, events: seq<Event>, log: seq<Effect>, e: Event)
    requires IsRun(cf, tables, events, log) && Shape(cf, tables[|events|]) && EventOk(cf, e)
    ensures var t := tables[|events|];
            IsRun(cf, tables + [Next(cf, t, e)], events + [e], log + [EffectOf(cf, t, e)])
  {
    hide Shape, Next, EffectOf;
  }

  /** The keys 1 to `k` are registered one after the other. */
  lemma {:induction false} FillUp(cf: Config, max: nat, k: nat)
    returns (tables: seq<Table>, events: seq<Event>, log: seq<Effect>)
    requires ConfigOk(cf) && k <= cf.limit - cf.first < max && k + 1 < cf.keys
    ensures IsRun(cf, tables, events, log) && tables[0] == Fresh(cf, max) && |events| == k
    ensures Inv(cf, tables[k]) && tables[k].total == k && tables[k].max == max
    ensures forall key :: key > k ==> Count(cf, tables[k], key) == 0
  {
    hide Inv, Count, Next, EffectOf, Fresh;
    if k == 0 {
      tables, events, log := [Fresh(cf, max)], [], [];
      EmptyIsGood(cf, max, 0);
      forall key: nat ensures Count(cf, Fresh(cf, max), key) == 0 { EmptyIsGood(cf, max, key); }
    } else {
      tables, events, log := FillUp(cf, max, k - 1);
      var t, e := tables[k - 1], RegisterEvent(k, true);
      InvShape(cf, t);
      RegisterKeeps(cf, t, k, true);
      Extend(cf, tables, events, log, e);
      NextIs(cf, t, k);
      tables, events, log := tables + [Next(cf, t, e)], events + [e], log + [EffectOf(cf, t, e)];
    }
  }

  lemma NextIs(cf: Config, t: Table, key: nat)
    requires Shape(cf, t) && KeyOk(cf, key)
    ensures Next(cf, t, RegisterEvent(key, true)) == Register(cf, t, key, true).0
  {
  }

  /** Every run on a fresh table ends with a good table and the right counts if and only if the table claims no more
      room than it has scanned slots. */
  lemma RunCountsIff(cf: Config, max: nat)
    requires ConfigOk(cf) && cf.limit - cf.first + 1 < cf.keys
    ensures max <= cf.limit - cf.first <==>
      forall tables, events, log, key :: EndsWell(cf, max, tables, events, log, key)
  {
    hide Inv, Count, Net, Fresh, Next, EffectOf;
    if max <= cf.limit - cf.first {
      forall tables, events, log, key ensures EndsWell(cf, max, tables, events, log, key) {
        if IsRun(cf, tables, events, log) && tables[0] == Fresh(cf, max) {
          EmptyIsGood(cf, max, key);
          assert log[..|events|] == log;
          RunCounts(cf, tables, events, log, |events|, key);
        }
      }
    } else {
      var tables, events, log := OneTooMany(cf, max);
      assert !EndsWell(cf, max, tables, events, log, 0);
    }
  }

  /** One key more than there are scanned slots: the run ends with a write to slot -1 and a total that is too high. */
  lemma OneTooMany(cf: Config, max: nat) returns (tables: seq<Table>, events: seq<Event>, log: seq<Effect>)
    requires ConfigOk(cf) && cf.limit - cf.first < max && cf.limit - cf.first + 1 < cf.keys
    ensures IsRun(cf, tables, events, log) && tables[0] == Fresh(cf, max)
    ensures var u := tables[|events|]; !Inv(cf, u) && u.stray == 1 && u.total == cf.limit - cf.first + 1
  {
    hide Inv, Count, Next, EffectOf, Fresh;
    var n := cf.limit - cf.first;
    tables, events, log := FillUp(cf, max, n);
    var t, e := tables[n], RegisterEvent(n + 1, true);
    InvShape(cf, t);
    RegisterKeeps(cf, t, n + 1, true);
    Extend(cf, tables, events, log, e);
    NextIs(cf, t, n + 1);
    tables, events, log := tables + [Next(cf, t, e)], events + [e], log + [EffectOf(cf, t, e)];
  }
}
