/**
  The value cache of a USB mixer control.  The device holds one raw value for every channel; the driver keeps the last
  value it read or wrote, by the rank of the channel in the channel mask, and the set of channels it has one for.
*/
module MixerCache {
  import opened Wrappers
  import opened Mixer

  /** `cached` and `vals` are the driver's, `dev` is what the device holds, by channel. */
  datatype Cache = Cache(cached: set<nat>, vals: seq<int>, dev: seq<int>)

  predicate ConfigOk(cf: Config) {
    && cf.used != [] && (forall i :: 0 <= i < |cf.used| ==> cf.used[i] <= cf.channels)
    && forall i, j :: 0 <= i < j < |cf.used| ==> cf.used[i] < cf.used[j]
  }

  predicate Shape(cf: Config, s: Cache) {
    ConfigOk(cf) && |s.dev| == cf.channels + 1 && |cf.used| <= |s.vals|
  }

  /** The value of the `i`th channel as the device has it. */
  function Shown(cf: Config, s: Cache, i: nat): int
    requires Shape(cf, s) && i < |cf.used|
  {
    ToValue(cf.ty, s.dev[cf.used[i]])
  }

  /** The cache agrees with the device. */
  ghost predicate Coherent(cf: Config, s: Cache) {
    && Shape(cf, s) && (forall c :: c in s.cached ==> c in cf.used)
    && forall i :: 0 <= i < |cf.used| && cf.used[i] in s.cached ==> s.vals[i] == Shown(cf, s, i)
  }

  // ---------------------------------------------------------------- one channel

  /** Afterwards the value is in the cache; `None` if the device did not answer. */
  function Read(cf: Config, s: Cache, i: nat, readFails: set<nat>): Option<Cache>
    requires Shape(cf, s) && i < |cf.used|
  {
    var c := cf.used[i];
    if c in s.cached then Some(s)
    else if c in readFails then None
    else Some(s.(cached := s.cached + {c}, vals := s.vals[i := Shown(cf, s, i)]))
  }

  /** The write is accepted, or not needed because the channel is read-only. */
  predicate WriteOk(cf: Config, i: nat, writeFails: set<nat>)
    requires i < |cf.used|
  {
    cf.used[i] in cf.readOnly || cf.used[i] !in writeFails
  }

  function Write(cf: Config, s: Cache, i: nat, val: int, writeFails: set<nat>): Cache
    requires Shape(cf, s) && i < |cf.used|
  {
    var c := cf.used[i];
    if c in cf.readOnly || c in writeFails then s
    else s.(dev := s.dev[c := ToBytes(cf.ty, val)], cached := s.cached + {c}, vals := s.vals[i := val])
  }

  /** A written value is what a channel shows if nothing hinders it. */
  predicate Open(cf: Config, i: nat, writeFails: set<nat>)
    requires i < |cf.used|
  {
    cf.used[i] !in cf.readOnly && cf.used[i] !in writeFails
  }

  lemma ReadKeeps(cf: Config, s: Cache, i: nat, readFails: set<nat>)
    requires Coherent(cf, s) && i < |cf.used| && Read(cf, s, i, readFails).Some?
    ensures var t := Read(cf, s, i, readFails).value;
            && Coherent(cf, t) && t.dev == s.dev && t.cached == s.cached + {cf.used[i]} && t.vals[i] == Shown(cf, s, i)
  {
    assert s.cached + {cf.used[i]} == s.cached || cf.used[i] !in s.cached;
  }

  /** An accepted write leaves the cache coherent exactly when the value fits the type of the control. */
  lemma WriteKeepsIff(cf: Config, s: Cache, i: nat, val: int, writeFails: set<nat>)
    requires Coherent(cf, s) && i < |cf.used|
    ensures Coherent(cf, Write(cf, s, i, val, writeFails)) <==> !Open(cf, i, writeFails) || Fits(cf.ty, val)
  {
    hide ToBytes, ToValue, Fits;
    ConversionRoundTrip(cf.ty, val);
    var t, c := Write(cf, s, i, val, writeFails), cf.used[i];
    if Open(cf, i, writeFails) {
      assert t.vals[i] == val && Shown(cf, t, i) == ToValue(cf.ty, ToBytes(cf.ty, val)) && c in t.cached;
      assert forall j :: 0 <= j < |cf.used| && j != i ==> cf.used[j] != c;
    }
  }

  lemma WriteShows(cf: Config, s: Cache, i: nat, val: int, writeFails: set<nat>, j: nat)
    requires Shape(cf, s) && i < |cf.used| && j < |cf.used| && Fits(cf.ty, val)
    ensures var t := Write(cf, s, i, val, writeFails);
            Shape(cf, t) && Shown(cf, t, j) == if j == i && Open(cf, i, writeFails) then val else Shown(cf, s, j)
  {
    hide ToBytes, ToValue, Fits;
    ConversionRoundTrip(cf.ty, val);
    assert i < j ==> cf.used[i] < cf.used[j];
    assert j < i ==> cf.used[j] < cf.used[i];
  }

  // ---------------------------------------------------------------- the channel loops

  /** A loop over the channels: where it has got to, and whether an error has ended it. */
  datatype Progress = Progress(s: Cache, stopped: bool, changed: bool)

  function GetUpTo(cf: Config, s: Cache, n: nat, readFails: set<nat>): (p: Progress)
    requires Shape(cf, s) && n <= |cf.used|
    ensures Shape(cf, p.s)
  {
    if n == 0 then Progress(s, false, false)
    else
      var p := GetUpTo(cf, s, n - 1, readFails);
      if p.stopped then p
      else match Read(cf, p.s, n - 1, readFails)
        case None => p.(stopped := true)
        case Some(t) => p.(s := t)
  }

  function PutUpTo(cf: Config, s: Cache, user: seq<int>, n: nat, readFails: set<nat>, writeFails: set<nat>): (p: Progress)
    requires Shape(cf, s) && n <= |cf.used| && n <= |user|
    ensures Shape(cf, p.s)
  {
    if n == 0 then Progress(s, false, false)
    else
      var p := PutUpTo(cf, s, user, n - 1, readFails, writeFails);
      if p.stopped then p
      else match Read(cf, p.s, n - 1, readFails)
        case None => p.(stopped := true)
        case Some(t) => PutOne(cf, t, n - 1, Wanted(cf, user, n - 1), writeFails, p.changed)
  }

  /** One channel whose value is in the cache is given the value `val`. */
  function PutOne(cf: Config, t: Cache, i: nat, val: int, writeFails: set<nat>, changed: bool): (p: Progress)
    requires Shape(cf, t) && i < |cf.used|
    ensures Shape(cf, p.s) && !p.stopped
  {
    if t.vals[i] != val then Progress(Write(cf, t, i, val, writeFails), false, true) else Progress(t, false, changed)
  }

  function RestoreUpTo(cf: Config, s: Cache, n: nat, writeFails: set<nat>): (p: Progress)
    requires Shape(cf, s) && n <= |cf.used|
    ensures Shape(cf, p.s)
  {
    if n == 0 then Progress(s, false, false)
    else
      var p := RestoreUpTo(cf, s, n - 1, writeFails);
      if p.stopped then p else RestoreOne(cf, p.s, n - 1, writeFails)
  }

  function RestoreOne(cf: Config, s: Cache, i: nat, writeFails: set<nat>): (p: Progress)
    requires Shape(cf, s) && i < |cf.used|
    ensures Shape(cf, p.s)
  {
    if cf.used[i] !in s.cached then Progress(s, false, false)
    else if !WriteOk(cf, i, writeFails) then Progress(s, true, false)
    else Progress(Write(cf, s, i, s.vals[i], writeFails), false, false)
  }

  /** A loop that has stopped stays where it is. */
  lemma {:induction false} GetStops(cf: Config, s: Cache, n: nat, m: nat, readFails: set<nat>)
    requires Shape(cf, s) && n <= m <= |cf.used| && GetUpTo(cf, s, n, readFails).stopped
    ensures GetUpTo(cf, s, m, readFails) == GetUpTo(cf, s, n, readFails)
    decreases m
  {
    if n < m { GetStops(cf, s, n, m - 1, readFails); }
  }

  lemma {:induction false} PutStops(cf: Config, s: Cache, user: seq<int>, n: nat, m: nat,
                                    readFails: set<nat>, writeFails: set<nat>)
    requires Shape(cf, s) && n <= m <= |cf.used| && m <= |user|
    requires PutUpTo(cf, s, user, n, readFails, writeFails).stopped
    ensures PutUpTo(cf, s, user, m, readFails, writeFails) == PutUpTo(cf, s, user, n, readFails, writeFails)
    decreases m
  {
    if n < m { PutStops(cf, s, user, n, m - 1, readFails, writeFails); }
  }

  lemma {:induction false} RestoreStops(cf: Config, s: Cache, n: nat, m: nat, writeFails: set<nat>)
    requires Shape(cf, s) && n <= m <= |cf.used| && RestoreUpTo(cf, s, n, writeFails).stopped
    ensures RestoreUpTo(cf, s, m, writeFails) == RestoreUpTo(cf, s, n, writeFails)
    decreases m
  {
    if n < m { RestoreStops(cf, s, n, m - 1, writeFails); }
  }

  /** The first of `n` channels that has to be read from the device and cannot be. */
  function StopAt(cf: Config, s: Cache, n: nat, readFails: set<nat>): (k: nat)
    requires n <= |cf.used|
    ensures k <= n
  {
    if n == 0 then 0
    else
      var k := StopAt(cf, s, n - 1, readFails);
      if k < n - 1 || (cf.used[n - 1] !in s.cached && cf.used[n - 1] in readFails) then k else n
  }

  lemma ReadAnswers(cf: Config, s: Cache, i: nat, readFails: set<nat>)
    requires Shape(cf, s) && i < |cf.used|
    ensures Read(cf, s, i, readFails).None? <==> cf.used[i] !in s.cached && cf.used[i] in readFails
  {
  }

  /** Which channels from `n` on are in the cache has not changed. */
  ghost predicate RestSame(cf: Config, s: Cache, t: Cache, n: nat) {
    forall i :: n <= i < |cf.used| ==> (cf.used[i] in t.cached <==> cf.used[i] in s.cached)
  }

  lemma ReadRest(cf: Config, s: Cache, p: Cache, i: nat, readFails: set<nat>)
    requires Shape(cf, p) && i < |cf.used| && RestSame(cf, s, p, i) && Read(cf, p, i, readFails).Some?
    ensures RestSame(cf, s, Read(cf, p, i, readFails).value, i + 1)
  {
    assert forall j :: i < j < |cf.used| ==> cf.used[j] != cf.used[i];
  }

  /** What a get has done after `n` channels: the cache is coherent, the device as before, the channels cached. */
  ghost predicate Gotten(cf: Config, s: Cache, n: nat, readFails: set<nat>, p: Progress)
    requires n <= |cf.used|
  {
    && Coherent(cf, p.s) && p.s.dev == s.dev && RestSame(cf, s, p.s, n)
    && (p.stopped <==> StopAt(cf, s, n, readFails) < n)
    && (!p.stopped ==> forall i :: 0 <= i < n ==> cf.used[i] in p.s.cached)
  }

  lemma {:induction false} GetUpToIs(cf: Config, s: Cache, n: nat, readFails: set<nat>)
    requires Coherent(cf, s) && n <= |cf.used|
    ensures Gotten(cf, s, n, readFails, GetUpTo(cf, s, n, readFails))
    decreases n
  {
    hide Coherent, Read, Shown;
    CoherentShape(cf, s);
    if n > 0 {
      GetUpToIs(cf, s, n - 1, readFails);
      var p := GetUpTo(cf, s, n - 1, readFails);
      CoherentShape(cf, p.s);
      ReadAnswers(cf, p.s, n - 1, readFails);
      assert cf.used[n - 1] in p.s.cached <==> cf.used[n - 1] in s.cached;
      if !p.stopped && Read(cf, p.s, n - 1, readFails).Some? {
        ReadKeeps(cf, p.s, n - 1, readFails);
        ReadRest(cf, s, p.s, n - 1, readFails);
      }
    }
  }

  lemma CoherentShape(cf: Config, s: Cache)
    requires Coherent(cf, s)
    ensures Shape(cf, s)
  {
  }

  /** The `i`th channel is not cached, or its value is the device's. */
  predicate Agrees(cf: Config, s: Cache, i: nat)
    requires Shape(cf, s) && i < |cf.used|
  {
    cf.used[i] in s.cached ==> s.vals[i] == Shown(cf, s, i)
  }

  /** The shape of a cache that need not agree with the device. */
  ghost predicate Base(cf: Config, s: Cache) {
    Shape(cf, s) && forall c :: c in s.cached ==> c in cf.used
  }

  lemma CoherentParts(cf: Config, s: Cache)
    ensures Coherent(cf, s) <==> Base(cf, s) && forall i :: 0 <= i < |cf.used| ==> Agrees(cf, s, i)
  {
    if Base(cf, s) && forall i :: 0 <= i < |cf.used| ==> Agrees(cf, s, i) {
      forall i | 0 <= i < |cf.used| && cf.used[i] in s.cached ensures s.vals[i] == Shown(cf, s, i) {
        assert Agrees(cf, s, i);
      }
    }
  }

  /** The device value that the user's value for a channel becomes. */
  function Wanted(cf: Config, user: seq<int>, i: nat): int
    requires i < |user|
  {
    Abs(cf, Int32(user[i]))
  }

  /** What the device shows of a value written to it. */
  function Landed(cf: Config, val: int): int { ToValue(cf.ty, ToBytes(cf.ty, val)) }

  /** What a channel shows after a put that has done `n` channels. */
  function PutShows(cf: Config, s: Cache, user: seq<int>, n: nat, readFails: set<nat>, writeFails: set<nat>, i: nat): int
    requires Shape(cf, s) && n <= |cf.used| <= |user| && i < |cf.used|
  {
    if i < StopAt(cf, s, n, readFails) && Open(cf, i, writeFails) then Landed(cf, Wanted(cf, user, i)) else Shown(cf, s, i)
  }

  /** The put writes a value to the channel that does not fit the type. */
  predicate Misfit(cf: Config, s: Cache, user: seq<int>, n: nat, readFails: set<nat>, writeFails: set<nat>, i: nat)
    requires n <= |cf.used| <= |user| && i < |cf.used|
  {
    i < StopAt(cf, s, n, readFails) && Open(cf, i, writeFails) && !Fits(cf.ty, Wanted(cf, user, i))
  }

  /** Two caches are alike but for one channel. */
  ghost predicate AlikeBut(cf: Config, s: Cache, t: Cache, i: nat)
    requires Shape(cf, s) && Shape(cf, t)
  {
    forall j :: 0 <= j < |cf.used| && j != i ==>
      Shown(cf, t, j) == Shown(cf, s, j) && (Agrees(cf, t, j) <==> Agrees(cf, s, j))
      && (cf.used[j] in t.cached <==> cf.used[j] in s.cached)
  }

  lemma ReadOneIs(cf: Config, s: Cache, i: nat, readFails: set<nat>)
    requires Base(cf, s) && i < |cf.used| && Agrees(cf, s, i) && Read(cf, s, i, readFails).Some?
    ensures var t := Read(cf, s, i, readFails).value;
            && Base(cf, t) && AlikeBut(cf, s, t, i) && cf.used[i] in t.cached
            && t.vals[i] == Shown(cf, s, i) == Shown(cf, t, i) && Agrees(cf, t, i)
  {
    hide ToValue;
    assert forall j :: 0 <= j < |cf.used| && j != i ==> cf.used[j] != cf.used[i];
  }

  lemma PutOneIs(cf: Config, t: Cache, i: nat, val: int, writeFails: set<nat>, changed: bool)
    requires Base(cf, t) && i < |cf.used| && cf.used[i] in t.cached && Agrees(cf, t, i)
    ensures var p := PutOne(cf, t, i, val, writeFails, changed);
            && Base(cf, p.s) && AlikeBut(cf, t, p.s, i) && cf.used[i] in p.s.cached
            && (p.changed <==> changed || Shown(cf, t, i) != val)
            && Shown(cf, p.s, i) == (if Open(cf, i, writeFails) then Landed(cf, val) else Shown(cf, t, i))
            && (Agrees(cf, p.s, i) <==> !Open(cf, i, writeFails) || Fits(cf.ty, val))
  {
    hide ToBytes, ToValue, Fits;
    ConversionRoundTrip(cf.ty, val);
    ConversionRoundTrip(cf.ty, t.dev[cf.used[i]]);
    assert forall j :: 0 <= j < |cf.used| && j != i ==> cf.used[j] != cf.used[i];
  }

  /** What a put has done after `n` channels: exactly the channels given a value that does not fit are wrong. */
  ghost predicate Done(cf: Config, s: Cache, user: seq<int>, n: nat, readFails: set<nat>, writeFails: set<nat>, p: Progress)
    requires Shape(cf, s) && n <= |cf.used| <= |user|
  {
    && Base(cf, p.s) && RestSame(cf, s, p.s, n)
    && (p.stopped <==> StopAt(cf, s, n, readFails) < n)
    && (forall i :: 0 <= i < |cf.used| ==> Shown(cf, p.s, i) == PutShows(cf, s, user, n, readFails, writeFails, i))
    && (forall i :: 0 <= i < |cf.used| ==>
          (Agrees(cf, p.s, i) <==> !Misfit(cf, s, user, n, readFails, writeFails, i)))
    && (p.changed <==> exists i :: 0 <= i < StopAt(cf, s, n, readFails) && Wanted(cf, user, i) != Shown(cf, s, i))
  }

  lemma {:induction false} PutUpToIs(cf: Config, s: Cache, user: seq<int>, n: nat, readFails: set<nat>, writeFails: set<nat>)
    requires Coherent(cf, s) && n <= |cf.used| <= |user|
    ensures Done(cf, s, user, n, readFails, writeFails, PutUpTo(cf, s, user, n, readFails, writeFails))
    decreases n
  {
    hide Coherent, Read, Write, Fits, Abs, Shown, Int32, PutOne, StopAt, Landed;
    CoherentParts(cf, s);
    if n == 0 {
      StopFirst(cf, s, readFails);
    } else {
      var i := n - 1;
      PutUpToIs(cf, s, user, i, readFails, writeFails);
      var p := PutUpTo(cf, s, user, i, readFails, writeFails);
      ReadAnswers(cf, p.s, i, readFails);
      StopNext(cf, s, n, readFails);
      assert cf.used[i] in p.s.cached <==> cf.used[i] in s.cached;
      if !p.stopped && Read(cf, p.s, i, readFails).Some? {
        PutStep(cf, s, user, i, readFails, writeFails, p, Read(cf, p.s, i, readFails).value);
      }
    }
  }

  lemma StopFirst(cf: Config, s: Cache, readFails: set<nat>)
    ensures StopAt(cf, s, 0, readFails) == 0
  {
  }

  lemma StopNext(cf: Config, s: Cache, n: nat, readFails: set<nat>)
    requires 0 < n <= |cf.used|
    ensures var k := StopAt(cf, s, n - 1, readFails);
            StopAt(cf, s, n, readFails)
              == if k < n - 1 || (cf.used[n - 1] !in s.cached && cf.used[n - 1] in readFails) then k else n
  {
  }

  lemma PutStep(cf: Config, s: Cache, user: seq<int>, i: nat, readFails: set<nat>, writeFails: set<nat>,
                p: Progress, t: Cache)
    requires Shape(cf, s) && i < |cf.used| <= |user| && !p.stopped
    requires Done(cf, s, user, i, readFails, writeFails, p)
    requires Shape(cf, p.s) && Read(cf, p.s, i, readFails) == Some(t) && StopAt(cf, s, i + 1, readFails) == i + 1
    ensures Shape(cf, t)
    ensures var q := PutOne(cf, t, i, Wanted(cf, user, i), writeFails, p.changed);
            Done(cf, s, user, i + 1, readFails, writeFails, q)
  {
    hide Read, Write, Fits, Wanted, Int32, PutOne, StopAt, Shown, Agrees, Landed, Open;
    var val := Wanted(cf, user, i);
    assert StopAt(cf, s, i, readFails) == i;
    assert Shown(cf, p.s, i) == PutShows(cf, s, user, i, readFails, writeFails, i) == Shown(cf, s, i);
    ReadOneIs(cf, p.s, i, readFails);
    PutOneIs(cf, t, i, val, writeFails, p.changed);
    var q := PutOne(cf, t, i, val, writeFails, p.changed);
    forall j | 0 <= j < |cf.used|
      ensures Shown(cf, q.s, j) == PutShows(cf, s, user, i + 1, readFails, writeFails, j)
      ensures Agrees(cf, q.s, j) <==> !Misfit(cf, s, user, i + 1, readFails, writeFails, j)
    {
      assert Shown(cf, p.s, j) == PutShows(cf, s, user, i, readFails, writeFails, j);
      assert Agrees(cf, p.s, j) <==> !Misfit(cf, s, user, i, readFails, writeFails, j);
    }
    assert q.changed <==> exists j :: 0 <= j < i + 1 && Wanted(cf, user, j) != Shown(cf, s, j);
  }

  // ---------------------------------------------------------------- put, then get

  /** The user's values of all channels, for a cache that has them all. */
  function UserValues(cf: Config, s: Cache): (u: seq<int>)
    requires Shape(cf, s) && RangeOk(cf)
    ensures |u| == |cf.used| && forall i :: 0 <= i < |u| ==> u[i] == Rel(cf, s.vals[i])
  {
    seq(|cf.used|, i requires 0 <= i < |cf.used| => Rel(cf, s.vals[i]))
  }

  /** The control's `get`: `None` if a channel could not be read. */
  function Get(cf: Config, s: Cache, readFails: set<nat>): (r: (Cache, Option<seq<int>>))
    requires Shape(cf, s) && RangeOk(cf)
    ensures Shape(cf, r.0)
  {
    var p := GetUpTo(cf, s, |cf.used|, readFails);
    (p.s, if p.stopped then None else Some(UserValues(cf, p.s)))
  }

  /** The control's `put`: whether a value has changed, `None` if a channel could not be read. */
  function Put(cf: Config, s: Cache, user: seq<int>, readFails: set<nat>, writeFails: set<nat>): (r: (Cache, Option<bool>))
    requires Shape(cf, s) && |cf.used| <= |user|
    ensures Shape(cf, r.0)
  {
    var p := PutUpTo(cf, s, user, |cf.used|, readFails, writeFails);
    (p.s, if p.stopped then None else Some(p.changed))
  }

  /** The cache is transparent: a get that succeeds returns the device's values, and it succeeds if and only if every
      channel is cached or answers. */
  lemma GetIsTheDevice(cf: Config, s: Cache, readFails: set<nat>)
    requires Coherent(cf, s) && RangeOk(cf)
    ensures var (t, r) := Get(cf, s, readFails);
            && Coherent(cf, t) && t.dev == s.dev
            && (r.Some? <==> StopAt(cf, s, |cf.used|, readFails) == |cf.used|)
            && (r.Some? ==> |r.value| == |cf.used|)
            && (r.Some? ==> forall i :: 0 <= i < |cf.used| ==> r.value[i] == Rel(cf, Shown(cf, s, i)))
  {
    GetUpToIs(cf, s, |cf.used|, readFails);
    var p := GetUpTo(cf, s, |cf.used|, readFails);
    forall i | 0 <= i < |cf.used| && !p.stopped
      ensures p.s.vals[i] == Shown(cf, s, i)
    {
      assert cf.used[i] in p.s.cached;
    }
  }

  /** The user's values are ones the control offers. */
  predicate Offered(cf: Config, user: seq<int>)
    requires RangeOk(cf)
  {
    |cf.used| <= |user| && forall i :: 0 <= i < |cf.used| ==> 0 <= user[i] <= Top(cf)
  }

  lemma OfferedIsOk(cf: Config, user: seq<int>)
    requires ConfigOk(cf) && RangeOk(cf) && Offered(cf, user)
    ensures |cf.used| <= |user|
    ensures forall i :: 0 <= i < |cf.used| ==> Fits(cf.ty, Wanted(cf, user, i)) && Rel(cf, Wanted(cf, user, i)) == user[i]
  {
    forall i | 0 <= i < |cf.used|
      ensures Fits(cf.ty, Wanted(cf, user, i)) && Rel(cf, Wanted(cf, user, i)) == user[i]
    {
      UserValueRoundTrip(cf, user[i]);
      TopIsSmall(cf);
      Small(user[i]);
      InRangeFits(cf.ty, cf.min, cf.max, Abs(cf, user[i]));
    }
  }

  /** A put leaves the cache coherent if and only if every value that reaches a channel it can write fits the type. */
  lemma PutKeepsIff(cf: Config, s: Cache, user: seq<int>, readFails: set<nat>, writeFails: set<nat>)
    requires Coherent(cf, s) && |cf.used| <= |user|
    ensures Coherent(cf, Put(cf, s, user, readFails, writeFails).0) <==>
              forall i :: 0 <= i < |cf.used| ==> !Misfit(cf, s, user, |cf.used|, readFails, writeFails, i)
  {
    hide Coherent, Misfit, Agrees, Shown;
    CoherentParts(cf, s);
    PutUpToIs(cf, s, user, |cf.used|, readFails, writeFails);
    CoherentParts(cf, Put(cf, s, user, readFails, writeFails).0);
  }

  /** After a successful put of offered values, any get that succeeds -- from the cache, or from the device in any
      coherent state in which the device holds the same -- returns them for every channel that can be written. */
  lemma PutThenGet(cf: Config, s: Cache, user: seq<int>, readFails: set<nat>, writeFails: set<nat>,
                   later: Cache, laterFails: set<nat>)
    requires Coherent(cf, s) && RangeOk(cf) && Offered(cf, user) && Coherent(cf, later)
    ensures var (put, changed) := Put(cf, s, user, readFails, writeFails);
            var (_, got) := Get(cf, later, laterFails);
            Coherent(cf, put) && (later.dev == put.dev && changed.Some? && got.Some? ==>
              && |got.value| == |cf.used|
              && forall i :: 0 <= i < |cf.used| ==>
                   got.value[i] == if Open(cf, i, writeFails) then user[i] else Rel(cf, Shown(cf, s, i)))
  {
    hide Coherent, Wanted, Rel, Fits, StopAt, Get, Offered, ToBytes, ToValue;
    CoherentShape(cf, s);
    CoherentShape(cf, later);
    OfferedIsOk(cf, user);
    PutKeepsIff(cf, s, user, readFails, writeFails);
    PutUpToIs(cf, s, user, |cf.used|, readFails, writeFails);
    GetIsTheDevice(cf, later, laterFails);
    var put := Put(cf, s, user, readFails, writeFails).0;
    forall i | 0 <= i < |cf.used| && later.dev == put.dev && Put(cf, s, user, readFails, writeFails).1.Some?
      ensures Shown(cf, later, i) == if Open(cf, i, writeFails) then Wanted(cf, user, i) else Shown(cf, s, i)
    {
      assert Shown(cf, later, i) == Shown(cf, put, i);
      assert Shown(cf, put, i) == PutShows(cf, s, user, |cf.used|, readFails, writeFails, i);
      ConversionRoundTrip(cf.ty, Wanted(cf, user, i));
    }
  }

  // ---------------------------------------------------------------- reset and resume

  /** The first of `n` cached channels whose write is refused. */
  function RestoreStop(cf: Config, s: Cache, n: nat, writeFails: set<nat>): (k: nat)
    requires n <= |cf.used|
    ensures k <= n
  {
    if n == 0 then 0
    else
      var k := RestoreStop(cf, s, n - 1, writeFails);
      if k < n - 1 || (cf.used[n - 1] in s.cached && !WriteOk(cf, n - 1, writeFails)) then k else n
  }

  /** What a channel shows after `n` channels have been restored. */
  function RestoreShows(cf: Config, s: Cache, n: nat, writeFails: set<nat>, i: nat): int
    requires Shape(cf, s) && n <= |cf.used| && i < |cf.used|
  {
    if cf.used[i] in s.cached && i < RestoreStop(cf, s, n, writeFails) && cf.used[i] !in cf.readOnly
    then s.vals[i] else Shown(cf, s, i)
  }

  /** The cached values fit the type of the control. */
  ghost predicate ValuesFit(cf: Config, s: Cache)
    requires Shape(cf, s)
  {
    forall i :: 0 <= i < |cf.used| && cf.used[i] in s.cached ==> Fits(cf.ty, s.vals[i])
  }

  ghost predicate Restored(cf: Config, s: Cache, n: nat, writeFails: set<nat>, p: Progress)
    requires Shape(cf, s) && n <= |cf.used|
  {
    && Shape(cf, p.s) && p.s.cached == s.cached && p.s.vals == s.vals
    && (p.stopped <==> RestoreStop(cf, s, n, writeFails) < n)
    && forall i :: 0 <= i < |cf.used| ==> Shown(cf, p.s, i) == RestoreShows(cf, s, n, writeFails, i)
  }

  lemma {:induction false} RestoreUpToIs(cf: Config, s: Cache, n: nat, writeFails: set<nat>)
    requires Shape(cf, s) && ValuesFit(cf, s) && n <= |cf.used|
    ensures Restored(cf, s, n, writeFails, RestoreUpTo(cf, s, n, writeFails))
    decreases n
  {
    hide Fits, Shown;
    if n > 0 {
      var i := n - 1;
      RestoreUpToIs(cf, s, i, writeFails);
      var p := RestoreUpTo(cf, s, i, writeFails);
      if !p.stopped && cf.used[i] in s.cached && WriteOk(cf, i, writeFails) {
        var t := Write(cf, p.s, i, s.vals[i], writeFails);
        assert t.cached == s.cached && t.vals == s.vals;
        forall j | 0 <= j < |cf.used|
          ensures Shown(cf, t, j) == RestoreShows(cf, s, n, writeFails, j)
        {
          WriteShows(cf, p.s, i, s.vals[i], writeFails, j);
          assert Shown(cf, p.s, j) == RestoreShows(cf, s, i, writeFails, j);
        }
      }
    }
  }

  /** A reset leaves anything in the device; the restore makes the cache coherent again exactly when the channels it
      does not reach -- read-only ones, and those from the first refused write on -- show what they showed before. */
  lemma RestoreIff(cf: Config, s: Cache, dev: seq<int>, writeFails: set<nat>)
    requires Coherent(cf, s) && |dev| == |s.dev|
    ensures var t := s.(dev := dev);
            Coherent(cf, RestoreUpTo(cf, t, |cf.used|, writeFails).s) <==>
              forall i :: 0 <= i < |cf.used| && cf.used[i] in s.cached
                          && (cf.used[i] in cf.readOnly || RestoreStop(cf, t, |cf.used|, writeFails) <= i)
                  ==> Shown(cf, t, i) == Shown(cf, s, i)
  {
    hide Fits, ToValue, RestoreStop;
    var t := s.(dev := dev);
    forall i | 0 <= i < |cf.used| && cf.used[i] in s.cached
      ensures Fits(cf.ty, s.vals[i])
    {
      ConversionRoundTrip(cf.ty, s.dev[cf.used[i]]);
    }
    RestoreUpToIs(cf, t, |cf.used|, writeFails);
    var p := RestoreUpTo(cf, t, |cf.used|, writeFails);
    assert forall i :: 0 <= i < |cf.used| ==> Shown(cf, p.s, i) == RestoreShows(cf, t, |cf.used|, writeFails, i);
  }

  // ---------------------------------------------------------------- invalidation by the device

  /** An interrupt says that a value has changed; channels from MAX_CHANNELS on are taken for nonsense. */
  function Invalidated(cached: set<nat>, channel: nat, channels: nat): set<nat> {
    if channel >= channels then cached else if channel == 0 then {} else cached - {channel}
  }

  function Invalidate(cf: Config, s: Cache, channel: nat): Cache {
    s.(cached := Invalidated(s.cached, channel, cf.channels))
  }

  /** The cache agrees with the device on every channel but one, whose value the device has changed. */
  ghost predicate CoherentBut(cf: Config, s: Cache, channel: nat) {
    && Shape(cf, s) && (forall c :: c in s.cached ==> c in cf.used)
    && forall i :: 0 <= i < |cf.used| && cf.used[i] in s.cached && cf.used[i] != channel ==> s.vals[i] == Shown(cf, s, i)
  }

  /** What the device's change leaves. */
  lemma ChangedBut(cf: Config, s: Cache, channel: nat, raw: int)
    requires Coherent(cf, s) && channel < |s.dev|
    ensures CoherentBut(cf, s.(dev := s.dev[channel := raw]), channel)
  {
  }

  /** An interrupt about that channel makes the cache coherent again. */
  lemma InvalidateHeals(cf: Config, s: Cache, channel: nat)
    requires CoherentBut(cf, s, channel) && channel < cf.channels
    ensures Coherent(cf, Invalidate(cf, s, channel))
  {
    hide ToValue;
    var t := Invalidate(cf, s, channel);
    assert forall i :: 0 <= i < |cf.used| ==> Shown(cf, t, i) == Shown(cf, s, i);
  }

  /** The device changes one of its values and says so in an interrupt that `reaches` the control, or does not. */
  function Notify(cf: Config, s: Cache, channel: nat, raw: int, reaches: bool): Cache
    requires channel < |s.dev|
  {
    var t := s.(dev := s.dev[channel := raw]);
    if reaches then Invalidate(cf, t, channel) else t
  }

  /** The cache stays coherent unless the interrupt is lost on a cached channel whose value is now another one; that
      happens when it does not reach the control, and always for the channel numbered MAX_CHANNELS. */
  lemma NotifyIff(cf: Config, s: Cache, channel: nat, raw: int, reaches: bool)
    requires Coherent(cf, s) && channel < |s.dev|
    ensures Coherent(cf, Notify(cf, s, channel, raw, reaches)) <==>
              || channel !in s.cached
              || (reaches && channel < cf.channels)
              || ToValue(cf.ty, raw) == ToValue(cf.ty, s.dev[channel])
  {
    hide ToValue;
    var t := Notify(cf, s, channel, raw, reaches);
    if channel in s.cached {
      var i :| 0 <= i < |cf.used| && cf.used[i] == channel;
      assert s.vals[i] == ToValue(cf.ty, s.dev[channel]);
      assert Shown(cf, t, i) == ToValue(cf.ty, raw);
      assert forall j :: 0 <= j < |cf.used| && j != i ==> cf.used[j] != channel;
    }
    assert forall j :: 0 <= j < |cf.used| && cf.used[j] != channel ==> Shown(cf, t, j) == Shown(cf, s, j);
  }

  // ---------------------------------------------------------------- runs

  datatype Event =
    | GetEvent(readFails: set<nat>)
    | PutEvent(user: seq<int>, readFails: set<nat>, writeFails: set<nat>)
    | NotifyEvent(channel: nat, raw: int, reaches: bool)
    | ResetResume(dev: seq<int>, writeFails: set<nat>)

  predicate Enabled(cf: Config, s: Cache, e: Event) {
    match e
    case GetEvent(_) => true
    case PutEvent(user, _, _) => |cf.used| <= |user|
    case NotifyEvent(channel, _, _) => channel < |s.dev|
    case ResetResume(dev, _) => |dev| == |s.dev|
  }

  function Next(cf: Config, s: Cache, e: Event): (t: Cache)
    requires Shape(cf, s) && Enabled(cf, s, e)
    ensures Shape(cf, t)
  {
    match e
    case GetEvent(readFails) => GetUpTo(cf, s, |cf.used|, readFails).s
    case PutEvent(user, readFails, writeFails) => Put(cf, s, user, readFails, writeFails).0
    case NotifyEvent(channel, raw, reaches) => Notify(cf, s, channel, raw, reaches)
    case ResetResume(dev, writeFails) => RestoreUpTo(cf, s.(dev := dev), |cf.used|, writeFails).s
  }

  /** What the surroundings have to see to: no put writes a value that does not fit, the device reports its changes
      on channels the driver listens for, and a reset loses no value that is not written back. */
  ghost predicate Safe(cf: Config, s: Cache, e: Event)
    requires Shape(cf, s) && Enabled(cf, s, e)
  {
    match e
    case GetEvent(_) => true
    case PutEvent(user, readFails, writeFails) =>
      forall i :: 0 <= i < |cf.used| ==> !Misfit(cf, s, user, |cf.used|, readFails, writeFails, i)
    case NotifyEvent(channel, raw, reaches) =>
      || channel !in s.cached || (reaches && channel < cf.channels)
      || ToValue(cf.ty, raw) == ToValue(cf.ty, s.dev[channel])
    case ResetResume(dev, writeFails) =>
      var t := s.(dev := dev);
      forall i :: 0 <= i < |cf.used| && cf.used[i] in s.cached
                  && (cf.used[i] in cf.readOnly || RestoreStop(cf, t, |cf.used|, writeFails) <= i)
          ==> Shown(cf, t, i) == Shown(cf, s, i)
  }

  /** An event leaves the cache coherent if and only if it is safe. */
  lemma SafeIff(cf: Config, s: Cache, e: Event)
    requires Coherent(cf, s) && Enabled(cf, s, e)
    ensures Coherent(cf, Next(cf, s, e)) <==> Safe(cf, s, e)
  {
    hide Coherent, Misfit, ToValue, RestoreStop, Shown;
    CoherentShape(cf, s);
    match e {
      case GetEvent(readFails) => GetUpToIs(cf, s, |cf.used|, readFails);
      case PutEvent(user, readFails, writeFails) => PutKeepsIff(cf, s, user, readFails, writeFails);
      case NotifyEvent(channel, raw, reaches) => NotifyIff(cf, s, channel, raw, reaches);
      case ResetResume(dev, writeFails) => RestoreIff(cf, s, dev, writeFails);
    }
  }

  /** Values that land in the range of the control are safe to put, whatever fails. */
  lemma InRangeIsSafe(cf: Config, s: Cache, user: seq<int>, readFails: set<nat>, writeFails: set<nat>)
    requires Coherent(cf, s) && RangeOk(cf) && |cf.used| <= |user|
    requires forall i :: 0 <= i < |cf.used| ==> LandsInRange(cf, Int32(user[i]))
    ensures Safe(cf, s, PutEvent(user, readFails, writeFails))
  {
    hide Coherent, StopAt, Fits, Abs, LandsInRange, Int32;
    CoherentShape(cf, s);
    forall i | 0 <= i < |cf.used| ensures Fits(cf.ty, Wanted(cf, user, i)) {
      AbsInRangeIff(cf, Int32(user[i]));
      InRangeFits(cf.ty, cf.min, cf.max, Wanted(cf, user, i));
    }
  }

  /** The states a run goes through. */
  ghost predicate IsRun(cf: Config, states: seq<Cache>, events: seq<Event>) {
    && |states| == |events| + 1
    && forall k :: 0 <= k < |events| ==>
         Shape(cf, states[k]) && Enabled(cf, states[k], events[k]) && states[k + 1] == Next(cf, states[k], events[k])
  }

  /** Over every run of gets, puts, changes and resets the cached values are the device's, all the way, if and only if
      every event of the run is safe. */
  lemma {:induction false} RunCoherentIff(cf: Config, states: seq<Cache>, events: seq<Event>)
    requires IsRun(cf, states, events) && Coherent(cf, states[0])
    ensures (forall k :: 0 <= k < |states| ==> Coherent(cf, states[k])) <==>
              forall k :: 0 <= k < |events| ==> Safe(cf, states[k], events[k])
    decreases |events|
  {
    hide Coherent, Safe, Next, Shape, Enabled;
    var n := |events|;
    if n > 0 {
      var front := states[..n];
      assert forall k :: 0 <= k < n ==> front[k] == states[k];
      RunCoherentIff(cf, front, events[..n - 1]);
      if forall k :: 0 <= k < |front| ==> Coherent(cf, front[k]) {
        assert Coherent(cf, front[n - 1]);
        SafeIff(cf, states[n - 1], events[n - 1]);
        assert (forall k :: 0 <= k < |states| ==> Coherent(cf, states[k])) <==> Coherent(cf, states[n]);
      }
    }
  }
}
