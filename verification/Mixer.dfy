/** The values of a USB mixer control: as the user sees them, as numbers, and as the bytes of the device. */
module Mixer {
  import opened Arithmetic
  datatype ValType = Boolean | InvBoolean | S8 | U8 | S16 | U16

  /** A 32-bit signed integer keeps the low 32 bits. */
  function Int32(x: int): int { (x + 0x8000_0000) % 0x1_0000_0000 - 0x8000_0000 }

  // ---------------------------------------------------------------- conversions

  /** A value as the bytes sent to the device. */
  function ToBytes(t: ValType, val: int): int {
    match t
    case Boolean => if val != 0 then 1 else 0
    case InvBoolean => if val == 0 then 1 else 0
    case S8 | U8 => val % 0x100
    case S16 | U16 => val % 0x1_0000
  }

  /** The bytes read from the device as a value. */
  function ToValue(t: ValType, raw: int): int {
    match t
    case Boolean => if raw != 0 then 1 else 0
    case InvBoolean => if raw == 0 then 1 else 0
    case U8 => raw % 0x100
    case S8 => if raw % 0x100 >= 0x80 then raw % 0x100 - 0x100 else raw % 0x100
    case U16 => raw % 0x1_0000
    case S16 => if raw % 0x1_0000 >= 0x8000 then raw % 0x1_0000 - 0x1_0000 else raw % 0x1_0000
  }

  predicate Fits(t: ValType, val: int) {
    match t
    case Boolean | InvBoolean => 0 <= val <= 1
    case U8 => 0 <= val < 0x100
    case S8 => -0x80 <= val < 0x80
    case U16 => 0 <= val < 0x1_0000
    case S16 => -0x8000 <= val < 0x8000
  }

  /** A value comes back from the device as it was sent exactly when it fits the type, and what is read always fits. */
  lemma ConversionRoundTrip(t: ValType, val: int)
    ensures ToValue(t, ToBytes(t, val)) == val <==> Fits(t, val)
    ensures Fits(t, ToValue(t, val))
  {
    if t == S8 || t == U8 { assert val % 0x100 % 0x100 == val % 0x100; }
    if t == S16 || t == U16 { assert val % 0x1_0000 % 0x1_0000 == val % 0x1_0000; }
  }

  /** The number of values of the bytes sent to the device. */
  function Width(t: ValType): nat {
    if t == S16 || t == U16 then 0x1_0000 else 0x100
  }

  /** What the bytes are: those of the value, in the width of the type, a negative one in two's complement; for the boolean
      types 1 and 0 for a value that is set and one that is not, and the opposite for the inverted one. */
  lemma BytesAre(t: ValType, val: int) returns (turns: int)
    ensures 0 <= ToBytes(t, val) < Width(t)
    ensures t != Boolean && t != InvBoolean ==> ToBytes(t, val) == val - turns * Width(t)
    ensures t == Boolean ==> ToBytes(t, val) == if val != 0 then 1 else 0
    ensures t == InvBoolean ==> ToBytes(t, val) == if val != 0 then 0 else 1
  {
    turns := val / Width(t);
  }

  /** What does not change about a control: `used` are its channels, in order, below or at `channels`. */
  datatype Config = Config(used: seq<nat>, channels: nat, ty: ValType, min: int, max: int, res: int, readOnly: set<nat>)

  function Res(cf: Config): int { if cf.res == 0 then 1 else cf.res }

  predicate RangeOk(cf: Config) {
    cf.min <= cf.max && Fits(cf.ty, cf.min) && Fits(cf.ty, cf.max) && 0 <= cf.res < 0x1_0000
  }

  /** The number of the user's topmost value. */
  function Top(cf: Config): int
    requires RangeOk(cf)
  {
    (cf.max - cf.min + Res(cf) - 1) / Res(cf)
  }

  /** The user's value as the device's. */
  function Abs(cf: Config, val: int): int {
    if val < 0 then cf.min
    else
      var v := Int32(Int32(val * Res(cf)) + cf.min);
      if v > cf.max then cf.max else v
  }

  /** The device's value as the user's. */
  function Rel(cf: Config, val: int): int
    requires RangeOk(cf)
  {
    if val < cf.min then 0
    else if val >= cf.max then (cf.max - cf.min + Res(cf) - 1) / Res(cf)
    else (val - cf.min) / Res(cf)
  }

  lemma Small(x: int)
    requires -0x8000_0000 <= x < 0x8000_0000
    ensures Int32(x) == x
  {
  }

  /** `r` whole steps of `s` against the distance `d`. */
  lemma Steps(d: nat, s: nat, r: nat)
    requires 0 < s && r <= (d + s - 1) / s
    ensures r * s <= d + s - 1 && r * s / s == r
    ensures r < (d + s - 1) / s ==> r * s < d
    ensures r == (d + s - 1) / s ==> d <= r * s
  {
    var q := (d + s - 1) / s;
    assert d + s - 1 == s * q + (d + s - 1) % s;
    if r < q { Below(s, r, q); }
    Quotient(r * s, s, r);
  }

  /** Every value the user can choose is kept by the way to the device and back. */
  lemma UserValueRoundTrip(cf: Config, r: int)
    requires RangeOk(cf) && 0 <= r <= Top(cf)
    ensures Rel(cf, Abs(cf, r)) == r && cf.min <= Abs(cf, r) <= cf.max
  {
    var s, d := Res(cf), cf.max - cf.min;
    Steps(d, s, r);
    Small(r * s);
    Small(r * s + cf.min);
  }

  /** A resolution of 0 counts as 1, and any other as it is. */
  lemma ZeroResolution(cf: Config, x: int)
    requires RangeOk(cf) && cf.res == 0
    ensures Abs(cf, x) == Abs(cf.(res := 1), x) && Rel(cf, x) == Rel(cf.(res := 1), x)
    ensures cf.min <= x < cf.max ==> Rel(cf, x) == x - cf.min
    ensures 0 <= x <= cf.max - cf.min ==> Abs(cf, x) == cf.min + x
  {
    if 0 <= x <= cf.max - cf.min {
      Small(x);
      Small(x + cf.min);
    }
  }

  /** Between the steps of the control the user's value is that of the step below; outside the range it is that of the
      nearest end. */
  lemma RelIsStepBelow(cf: Config, v: int)
    requires RangeOk(cf)
    ensures cf.min <= v < cf.max ==> Rel(cf, v) * Res(cf) <= v - cf.min < (Rel(cf, v) + 1) * Res(cf)
    ensures v < cf.min ==> Rel(cf, v) == 0
    ensures v >= cf.max ==> (Rel(cf, v) - 1) * Res(cf) < cf.max - cf.min <= Rel(cf, v) * Res(cf)
  {
    var s := Res(cf);
    if v >= cf.max {
      var d := cf.max - cf.min + s - 1;
      assert d == s * (d / s) + d % s && (d / s - 1) * s == d / s * s - s;
    } else if v >= cf.min {
      var d := v - cf.min;
      assert d == s * (d / s) + d % s && (d / s + 1) * s == d / s * s + s;
    }
  }

  /** As long as nothing overflows, the user's value is taken in steps from the minimum, up to the maximum; a negative one
      is the minimum. */
  lemma AbsIsClamped(cf: Config, r: int)
    requires RangeOk(cf)
    ensures r < 0 ==> Abs(cf, r) == cf.min
    ensures 0 <= r && r * Res(cf) < 0x7fff_0000 ==>
              && (r * Res(cf) <= cf.max - cf.min ==> Abs(cf, r) - cf.min == r * Res(cf))
              && (r * Res(cf) >= cf.max - cf.min ==> Abs(cf, r) == cf.max)
  {
    var x := r * Res(cf);
    if r >= 0 && x < 0x7fff_0000 {
      Product(r, Res(cf));
      Small(x);
      Small(x + cf.min);
    }
  }

  lemma Product(a: nat, b: nat)
    ensures a * b >= 0
  {
  }

  lemma TopIsSmall(cf: Config)
    requires RangeOk(cf)
    ensures 0 <= Top(cf) < 0x8000_0000
  {
    var d, s := cf.max - cf.min, Res(cf);
    var q := Top(cf);
    assert d + s - 1 == s * q + (d + s - 1) % s;
    if q > d + s - 1 { Below(q, 0, s); }
  }

  lemma InRangeFits(t: ValType, lo: int, hi: int, v: int)
    requires Fits(t, lo) && Fits(t, hi) && lo <= v <= hi
    ensures Fits(t, v)
  {
  }

  /** The user's value lands in the range of the control: it is negative, or the 32-bit product is not negative and
      the sum does not overflow, or both wrap round so far that the sum comes out above the range. */
  predicate LandsInRange(cf: Config, r: int) {
    || r < 0
    || (var low := Int32(r * Res(cf));
        || (0 <= low && low + cf.min < 0x8000_0000)
        || low + cf.min < -0x8000_0000)
  }

  /** A value becomes one in the range of the control if and only if it lands there. */
  lemma AbsInRangeIff(cf: Config, r: int)
    requires RangeOk(cf)
    ensures cf.min <= Abs(cf, r) <= cf.max <==> LandsInRange(cf, r)
  {
    var low := Int32(r * Res(cf));
    if r >= 0 && -0x8000_0000 <= low + cf.min < 0x8000_0000 { Small(low + cf.min); }
  }

  /** Values beyond 32 bits divided by the resolution need not: for every control with an even resolution the topmost
      32-bit value comes out a whole step below the minimum. */
  lemma LargeValueLeavesRange(cf: Config)
    requires RangeOk(cf) && Res(cf) % 2 == 0
    ensures Abs(cf, 0x7fff_ffff) == cf.min - Res(cf) && !LandsInRange(cf, 0x7fff_ffff)
  {
    var s, k := Res(cf), Res(cf) / 2;
    assert 0x7fff_ffff * s == 0x1_0000_0000 * k - s;
    assert Int32(0x7fff_ffff * s) == -s;
    Small(cf.min - s);
    AbsInRangeIff(cf, 0x7fff_ffff);
  }
}
