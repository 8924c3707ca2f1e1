/** The control itself, with the fields the driver updates, and the channel loops over the bits of the channel mask. */
module MixerElem {
  import opened Wrappers
  import opened Mixer
  import opened MixerCache

  /** The channels of a mask, in order; bit `c` stands for channel `c + 1`. */
  function Channels(mask: seq<bool>): (ch: seq<nat>)
    ensures |ch| <= |mask|
    ensures forall i :: 0 <= i < |ch| ==> 1 <= ch[i] <= |mask| && mask[ch[i] - 1]
    ensures forall i, j :: 0 <= i < j < |ch| ==> ch[i] < ch[j]
  {
    if mask == [] then []
    else
      var front, n := Channels(mask[..|mask| - 1]), |mask|;
      if mask[n - 1] then front + [n] else front
  }

  /** A control without channels has the master channel. */
  function Used(mask: seq<bool>): (ch: seq<nat>)
    ensures ch != [] && |ch| <= |mask| + 1
    ensures forall i :: 0 <= i < |ch| ==> ch[i] <= |mask|
    ensures forall i, j :: 0 <= i < j < |ch| ==> ch[i] < ch[j]
  {
    if Channels(mask) == [] then [0] else Channels(mask)
  }

  lemma {:induction false} EveryBitHasARank(mask: seq<bool>, c: nat)
    requires c <= |mask|
    ensures |Channels(mask[..c])| <= |Channels(mask)|
    ensures c < |mask| && mask[c] ==> |Channels(mask[..c])| < |Channels(mask)| && Channels(mask)[|Channels(mask[..c])|] == c + 1
    ensures c < |mask| ==> |Channels(mask[..c + 1])| == |Channels(mask[..c])| + if mask[c] then 1 else 0
    decreases |mask|
  {
    if c < |mask| { assert mask[..c + 1][..c] == mask[..c]; }
    if c < |mask| - 1 {
      assert mask[..|mask| - 1][..c] == mask[..c];
      assert mask[..|mask| - 1][..c + 1] == mask[..c + 1];
      EveryBitHasARank(mask[..|mask| - 1], c);
    } else if c == |mask| {
      assert mask[..c] == mask;
    }
  }

  class MixerElem {
    const mask: seq<bool>
    const ty: ValType
    const min: int
    const max: int
    var res: int
    const masterReadOnly: bool
    const chReadOnly: set<nat>
    var cached: set<nat>
    var cacheVal: array<int>
    /** What the device holds; a transfer reads or writes it. */
    var dev: array<int>

    predicate ReadOnly(channel: nat) {
      if channel == 0 then masterReadOnly else channel - 1 in chReadOnly
    }

    function Conf(): Config
      reads `res
    {
      Config(Used(mask), |mask|, ty, min, max, if res == 0 then 1 else res,
             set c | 0 <= c <= |mask| && ReadOnly(c))
    }

    function State(): Cache
      reads this, cacheVal, dev
    {
      Cache(cached, cacheVal[..], dev[..])
    }

    predicate Valid()
      reads this, cacheVal, dev
    {
      cacheVal != dev && dev.Length == |mask| + 1 && |Used(mask)| <= cacheVal.Length && RangeOk(Conf())
    }

    constructor (mask: seq<bool>, ty: ValType, min: int, max: int, res: int,
                 masterReadOnly: bool, chReadOnly: set<nat>, cacheVal: array<int>, dev: array<int>)
      requires cacheVal != dev && dev.Length == |mask| + 1 && |Used(mask)| <= cacheVal.Length
      requires min <= max && Fits(ty, min) && Fits(ty, max) && 0 <= res < 0x1_0000
      ensures Valid() && State() == Cache({}, cacheVal[..], dev[..]) && Coherent(Conf(), State())
    {
      this.mask, this.ty, this.min, this.max, this.res := mask, ty, min, max, res;
      this.masterReadOnly, this.chReadOnly := masterReadOnly, chReadOnly;
      this.cached, this.cacheVal, this.dev := {}, cacheVal, dev;
    }

    method GetCurMixValue(channel: nat, index: nat, readFails: set<nat>) returns (ok: bool, value: int)
      requires Valid() && index < |Used(mask)| && Used(mask)[index] == channel
      modifies `cached, cacheVal
      ensures Valid() && Conf() == old(Conf())
      ensures ok == Read(Conf(), old(State()), index, readFails).Some?
      ensures State() == if ok then Read(Conf(), old(State()), index, readFails).value else old(State())
      ensures ok ==> value == cacheVal[index]
      ensures forall j :: 0 <= j < cacheVal.Length && j != index ==> cacheVal[j] == old(cacheVal[j])
    {
      if channel in cached {
        return true, cacheVal[index];
      }
      if channel in readFails {
        return false, 0;
      }
      value := ToValue(ty, dev[channel]);
      cached := cached + {channel};
      cacheVal[index] := value;
      ok := true;
    }

    method SetCurMixValue(channel: nat, index: nat, value: int, writeFails: set<nat>) returns (ok: bool)
      requires Valid() && index < |Used(mask)| && Used(mask)[index] == channel
      modifies `cached, cacheVal, dev
      ensures Valid() && Conf() == old(Conf())
      ensures ok == WriteOk(Conf(), index, writeFails)
      ensures State() == Write(Conf(), old(State()), index, value, writeFails)
      ensures !ok ==> State() == old(State())
      ensures var locked := if channel == 0 then masterReadOnly else channel - 1 in chReadOnly;
              && ok == (locked || channel !in writeFails)
              && (if locked || !ok then State() == old(State())
                  else dev[channel] == ToBytes(ty, value) && channel in cached && cacheVal[index] == value)
    {
      if ReadOnly(channel) {
        return true;
      }
      if channel in writeFails {
        return false;
      }
      dev[channel] := ToBytes(ty, value);
      cached := cached + {channel};
      cacheVal[index] := value;
      ok := true;
    }

    method GetAbsValue(userVal: int) returns (r: int)
      requires Valid()
      modifies `res
      ensures Valid() && Conf() == old(Conf()) && r == Abs(Conf(), userVal)
      ensures res == old(res) || (old(res) == 0 && res == 1)
    {
      var val := userVal;
      if val < 0 {
        return min;
      }
      if res == 0 {
        res := 1;
      }
      val := Int32(val * res);
      val := Int32(val + min);
      if val > max {
        return max;
      }
      r := val;
    }

    method GetRelativeValue(val: int) returns (r: int)
      requires Valid()
      modifies `res
      ensures Valid() && Conf() == old(Conf()) && r == Rel(Conf(), val)
      ensures res == if old(res) == 0 then 1 else old(res)
    {
      if res == 0 {
        res := 1;
      }
      if val < min {
        return 0;
      } else if val >= max {
        return (max - min + res - 1) / res;
      } else {
        return (val - min) / res;
      }
    }

    /** The channel loop of `get`. */
    method GetChannels(readFails: set<nat>) returns (values: Option<seq<int>>)
      requires Valid() && Channels(mask) != []
      modifies `cached, `res, cacheVal
      ensures Valid() && Conf() == old(Conf())
      ensures (State(), values) == Get(Conf(), old(State()), readFails)
    {
      hide Read, Channels, Rel;
      ghost var s, cf := State(), Conf();
      var out: seq<int> := [];
      var c, cnt := 0, 0;
      FirstRank(mask);
      while c < |mask|
        invariant Valid() && Conf() == cf && c <= |mask|
        invariant cnt == |Channels(mask[..c])| == |out| && cnt <= |Channels(mask)|
        invariant GetUpTo(cf, s, cnt, readFails) == Progress(State(), false, false)
        invariant forall i :: 0 <= i < cnt ==> out[i] == Rel(cf, cacheVal[i])
      {
        EveryBitHasARank(mask, c);
        if mask[c] {
          var ok, val := GetCurMixValue(c + 1, cnt, readFails);
          if !ok {
            GetStops(cf, s, cnt + 1, |cf.used|, readFails);
            return None;
          }
          val := GetRelativeValue(val);
          out := out + [val];
          cnt := cnt + 1;
        }
        c := c + 1;
      }
      assert mask[..c] == mask;
      assert out == UserValues(cf, State());
      values := Some(out);
    }

    method FeatureGet(readFails: set<nat>) returns (values: Option<seq<int>>)
      requires Valid()
      modifies `cached, `res, cacheVal
      ensures Valid() && Conf() == old(Conf())
      ensures (State(), values) == Get(Conf(), old(State()), readFails)
    {
      hide Read, Channels, Rel;
      HasChannels(mask);
      if true in mask {
        values := GetChannels(readFails);
      } else {
        assert |Used(mask)| == 1 && GetUpTo(Conf(), State(), 0, readFails) == Progress(State(), false, false);
        var ok, val := GetCurMixValue(0, 0, readFails);
        if !ok {
          return None;
        }
        val := GetRelativeValue(val);
        assert [val] == UserValues(Conf(), State());
        values := Some([val]);
      }
    }

    /** One channel of `put`. */
    method PutChannel(channel: nat, index: nat, userVal: int, readFails: set<nat>, writeFails: set<nat>)
      returns (ok: bool, changed: bool)
      requires Valid() && index < |Used(mask)| && Used(mask)[index] == channel
      modifies `cached, `res, cacheVal, dev
      ensures Valid() && Conf() == old(Conf())
      ensures ok == Read(Conf(), old(State()), index, readFails).Some?
      ensures !ok ==> State() == old(State())
      ensures ok ==> PutOne(Conf(), Read(Conf(), old(State()), index, readFails).value, index,
                            Abs(Conf(), Int32(userVal)), writeFails, false) == Progress(State(), false, changed)
    {
      hide Read, Write, Used, Abs, Int32;
      var oval;
      ok, oval := GetCurMixValue(channel, index, readFails);
      if !ok {
        return false, false;
      }
      var val := GetAbsValue(Int32(userVal));
      if oval != val {
        var written := SetCurMixValue(channel, index, val, writeFails);
        changed := true;
      } else {
        changed := false;
      }
    }

    /** The channel loop of `put`. */
    method PutChannels(user: seq<int>, readFails: set<nat>, writeFails: set<nat>) returns (changed: Option<bool>)
      requires Valid() && Channels(mask) != [] && |Used(mask)| <= |user|
      modifies `cached, `res, cacheVal, dev
      ensures Valid() && Conf() == old(Conf())
      ensures (State(), changed) == Put(Conf(), old(State()), user, readFails, writeFails)
    {
      hide Read, Write, Channels, Abs, Int32;
      ghost var s, cf := State(), Conf();
      var any := false;
      var c, cnt := 0, 0;
      FirstRank(mask);
      while c < |mask|
        invariant Valid() && Conf() == cf && c <= |mask|
        invariant cnt == |Channels(mask[..c])| && cnt <= |Channels(mask)|
        invariant PutUpTo(cf, s, user, cnt, readFails, writeFails) == Progress(State(), false, any)
      {
        EveryBitHasARank(mask, c);
        if mask[c] {
          var ok, one := PutChannel(c + 1, cnt, user[cnt], readFails, writeFails);
          if !ok {
            PutStops(cf, s, user, cnt + 1, |cf.used|, readFails, writeFails);
            return None;
          }
          any := any || one;
          cnt := cnt + 1;
        }
        c := c + 1;
      }
      assert mask[..c] == mask;
      changed := Some(any);
    }

    method FeaturePut(user: seq<int>, readFails: set<nat>, writeFails: set<nat>) returns (changed: Option<bool>)
      requires Valid() && |Used(mask)| <= |user|
      modifies `cached, `res, cacheVal, dev
      ensures Valid() && Conf() == old(Conf())
      ensures (State(), changed) == Put(Conf(), old(State()), user, readFails, writeFails)
    {
      hide Read, Write, Channels, Abs, Int32;
      HasChannels(mask);
      if true in mask {
        changed := PutChannels(user, readFails, writeFails);
      } else {
        ghost var s := State();
        assert |Used(mask)| == 1 && PutUpTo(Conf(), s, user, 0, readFails, writeFails) == Progress(s, false, false);
        var ok, one := PutChannel(0, 0, user[0], readFails, writeFails);
        changed := if ok then Some(one) else None;
      }
    }

    /** One channel of the restore. */
    method RestoreChannel(channel: nat, index: nat, writeFails: set<nat>) returns (ok: bool)
      requires Valid() && index < |Used(mask)| && Used(mask)[index] == channel
      modifies `cached, cacheVal, dev
      ensures Valid() && Conf() == old(Conf())
      ensures RestoreOne(Conf(), old(State()), index, writeFails) == Progress(State(), !ok, false)
    {
      hide Write, Channels;
      ok := true;
      if channel in cached {
        ok := SetCurMixValue(channel, index, cacheVal[index], writeFails);
      }
    }

    /** The channel loop of the restore. */
    method RestoreChannels(writeFails: set<nat>) returns (ok: bool)
      requires Valid() && Channels(mask) != []
      modifies `cached, cacheVal, dev
      ensures Valid() && Conf() == old(Conf())
      ensures var p := RestoreUpTo(Conf(), old(State()), |Used(mask)|, writeFails);
              State() == p.s && ok == !p.stopped
    {
      hide Channels, RestoreOne;
      ghost var s, cf := State(), Conf();
      var c, idx := 0, 0;
      FirstRank(mask);
      while c < |mask|
        invariant Valid() && Conf() == cf && c <= |mask|
        invariant idx == |Channels(mask[..c])| && idx <= |Channels(mask)|
        invariant RestoreUpTo(cf, s, idx, writeFails) == Progress(State(), false, false)
      {
        EveryBitHasARank(mask, c);
        if mask[c] {
          ok := RestoreChannel(c + 1, idx, writeFails);
          if !ok {
            RestoreStops(cf, s, idx + 1, |cf.used|, writeFails);
            return;
          }
          idx := idx + 1;
        }
        c := c + 1;
      }
      assert mask[..c] == mask;
      ok := true;
    }

    method RestoreMixerValue(writeFails: set<nat>) returns (ok: bool)
      requires Valid() && forall c :: c in cached ==> c in Used(mask)
      modifies `cached, cacheVal, dev
      ensures Valid() && Conf() == old(Conf())
      ensures var p := RestoreUpTo(Conf(), old(State()), |Used(mask)|, writeFails);
              State() == p.s && ok == !p.stopped
    {
      hide Channels, ToBytes;
      HasChannels(mask);
      if true in mask {
        ok := RestoreChannels(writeFails);
      } else {
        assert |Used(mask)| == 1 && RestoreUpTo(Conf(), State(), 0, writeFails) == Progress(State(), false, false);
        ok := true;
        if cached != {} {
          assert 0 in cached;
          ok := SetCurMixValue(0, 0, cacheVal[0], writeFails);
        }
      }
    }

    /** The part of the interrupt for one control it reaches. */
    method InvalidateChannel(channel: nat)
      requires Valid() && channel < |mask|
      modifies `cached
      ensures State() == Invalidate(Conf(), old(State()), channel)
      ensures cached == Invalidated(old(cached), channel, |mask|)
    {
      if channel != 0 {
        cached := cached - {channel};
      } else {
        cached := {};
      }
    }
  }

  lemma FirstRank(mask: seq<bool>)
    ensures |Channels(mask[..0])| == 0
  {
  }

  lemma {:induction false} HasChannels(mask: seq<bool>)
    ensures true in mask <==> Channels(mask) != []
    decreases |mask|
  {
    if mask != [] {
      var front := mask[..|mask| - 1];
      HasChannels(front);
      assert mask == front + [mask[|mask| - 1]];
    }
  }

  /** A list entry of the unit the interrupt names: the control it belongs to, unless it has none yet, and its number. */
  datatype Entry = Entry(elem: MixerElem, hasControl: bool, control: int)

  function ElemsOf(list: seq<Entry>): (es: set<MixerElem>)
    ensures forall i :: 0 <= i < |list| ==> list[i].elem in es
  {
    set i | 0 <= i < |list| :: list[i].elem
  }

  /** What an interrupt about a control's channel leaves of its cached channels; channel 0 stands for all of them. */
  function Without(cached: set<nat>, channel: nat): set<nat> {
    if channel == 0 then {} else cached - {channel}
  }

  /** The device reports a change: `current` says that it is one of a current value.  A control of the unit that is the
      only one, or has the number in the report, loses the channel, and so is coherent again if it was but for that one;
      the others, and all if the channel number is nonsense or it is no current value, keep what they have. */
  method Interrupt(list: seq<Entry>, current: bool, control: int, channel: nat, maxChannels: nat)
    requires forall i :: 0 <= i < |list| ==> list[i].elem.Valid() && |list[i].elem.mask| == maxChannels
    requires forall i, j :: 0 <= i < j < |list| ==> list[i].elem != list[j].elem
    modifies ElemsOf(list)`cached
    ensures forall i :: 0 <= i < |list| ==>
      list[i].elem.cached == if current && channel < maxChannels && list[i].hasControl
                                && (|list| == 1 || list[i].control == control)
                             then (if channel == 0 then {} else old(list[i].elem.cached) - {channel})
                             else old(list[i].elem.cached)
    ensures forall i :: 0 <= i < |list| && current && channel < maxChannels && list[i].hasControl
                        && (|list| == 1 || list[i].control == control) ==>
      var m := list[i].elem;
      old(CoherentBut(m.Conf(), m.State(), channel)) ==> Coherent(m.Conf(), m.State())
  {
    hide Coherent, CoherentBut;
    if channel >= maxChannels {
      return;
    }
    var count := |list|;
    var k := 0;
    while k < |list|
      invariant 0 <= k <= |list|
      invariant forall i :: 0 <= i < k ==>
        list[i].elem.cached == if current && list[i].hasControl && (count == 1 || list[i].control == control)
                               then Without(old(list[i].elem.cached), channel)
                               else old(list[i].elem.cached)
      invariant forall i :: k <= i < |list| ==> list[i].elem.cached == old(list[i].elem.cached)
    {
      if list[k].hasControl && !(count > 1 && list[k].control != control) && current {
        list[k].elem.InvalidateChannel(channel);
      }
      k := k + 1;
    }
    forall i | 0 <= i < |list| && current && list[i].hasControl && (count == 1 || list[i].control == control)
               && old(CoherentBut(list[i].elem.Conf(), list[i].elem.State(), channel))
      ensures Coherent(list[i].elem.Conf(), list[i].elem.State())
    {
      var m := list[i].elem;
      InvalidateHeals(m.Conf(), old(m.State()), channel);
      assert m.State() == Invalidate(m.Conf(), old(m.State()), channel);
    }
  }
}
