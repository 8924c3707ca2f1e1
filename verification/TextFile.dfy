/**
  Saving a text field as UTF-8 or UCS-2 and loading it back.  Text and files are sequences of numbers; a bit field
  `(x >> s) & m` is a quotient and a remainder, and `|` of fields that do not overlap is a sum.
*/
module TextFile {
  import opened Wrappers

  type Unit = x: int | 0 <= x < 0x10000

  type Byte = x: int | 0 <= x < 0x100

  /** What `getc` returns: a byte, or -1 at the end of the file. */
  type Char = x: int | -1 <= x < 0x100

  const EOF: Char := -1

  predicate IsHigh(u: Unit) { 0xd800 <= u < 0xdc00 }

  predicate IsLow(u: Unit) { 0xdc00 <= u < 0xe000 }

  /** The text starts with a surrogate pair. */
  predicate Pair(t: seq<Unit>) { |t| > 1 && IsHigh(t[0]) && IsLow(t[1]) }

  /** The text up to its terminator. */
  predicate IsText(t: seq<Unit>) { forall i :: 0 <= i < |t| ==> t[i] != 0 }

  // ---------------------------------------------------------------- writing

  function PairBytes(hi: Unit, lo: Unit): seq<Byte> {
    var u := hi / 64 % 16 + 1;
    [0xf0 + u / 4, 0x80 + u % 4 * 16 + hi / 4 % 16, 0x80 + hi % 4 * 16 + lo / 64 % 16, 0x80 + lo % 64]
  }

  /** The bytes for a unit and the one behind it, 0 at the end. */
  function UnitBytes(c: Unit, next: Unit): seq<Byte> {
    if c < 0x80 then [c]
    else if c < 0x800 then [0xc0 + c / 64, 0x80 + c % 64]
    else if IsHigh(c) && IsLow(next) then PairBytes(c, next)
    else [0xe0 + c / 4096, 0x80 + c / 64 % 64, 0x80 + c % 64]
  }

  function Next(t: seq<Unit>): Unit { if |t| > 1 then t[1] else 0 }

  function Utf8Bytes(t: seq<Unit>): seq<Byte> {
    if t == [] then [] else UnitBytes(t[0], Next(t)) + Utf8Bytes(t[1..])
  }

  function HighByte(c: Unit): Byte { c / 256 }

  function LowByte(c: Unit): Byte { c % 256 }

  function Ucs2Bytes(t: seq<Unit>): seq<Byte> {
    if t == [] then [] else [HighByte(t[0]), LowByte(t[0])] + Ucs2Bytes(t[1..])
  }

  const UTF8_MARK: seq<Byte> := [0xef, 0xbb, 0xbf]
  const UCS2_MARK: seq<Byte> := [0xfe, 0xff]

  /** The UTF-8 loop on `gt`, a zero-terminated text, behind what is in the file already. */
  method SaveUtf8(gt: array<Unit>, ghost t: seq<Unit>, mark: seq<Byte>) returns (file: seq<Byte>)
    requires IsText(t) && |t| < gt.Length && gt[..|t|] == t && gt[|t|] == 0
    ensures file == mark + Utf8Bytes(t)
  {
    hide UnitBytes;
    var pt := 0;
    file := mark;
    assert t[0..] == t;
    while gt[pt] != 0
      invariant 0 <= pt <= |t|
      invariant file + Utf8Bytes(t[pt..]) == mark + Utf8Bytes(t)
      decreases |t| - pt
    {
      ghost var rest := t[pt..];
      assert gt[pt] == t[pt] == rest[0];
      assert pt + 1 < |t| ==> gt[pt + 1] == t[pt + 1];
      assert Next(rest) == gt[pt + 1];
      var bytes := WriteUnit(gt[pt], gt[pt + 1]);
      assert file + Utf8Bytes(rest) == file + bytes + Utf8Bytes(rest[1..]);
      assert rest[1..] == t[pt + 1..];
      file := file + bytes;
      pt := pt + 1;
    }
  }

  method SaveUcs2(gt: array<Unit>, ghost t: seq<Unit>, mark: seq<Byte>) returns (file: seq<Byte>)
    requires IsText(t) && |t| < gt.Length && gt[..|t|] == t && gt[|t|] == 0
    ensures file == mark + Ucs2Bytes(t)
  {
    hide HighByte, LowByte;
    var pt := 0;
    file := mark;
    assert t[0..] == t;
    while gt[pt] != 0
      invariant 0 <= pt <= |t|
      invariant file + Ucs2Bytes(t[pt..]) == mark + Ucs2Bytes(t)
      decreases |t| - pt
    {
      ghost var rest := t[pt..];
      var high, low := HighByte(gt[pt]), LowByte(gt[pt]);
      assert gt[pt] == t[pt] == rest[0];
      assert file + Ucs2Bytes(rest) == file + [high] + [low] + Ucs2Bytes(rest[1..]);
      assert rest[1..] == t[pt + 1..];
      file := file + [high] + [low];
      pt := pt + 1;
    }
  }

  method Save(gt: array<Unit>, ghost t: seq<Unit>, utf8: bool) returns (file: seq<Byte>)
    requires IsText(t) && |t| < gt.Length && gt[..|t|] == t && gt[|t|] == 0
    ensures file == Saved(t, utf8)
  {
    hide Utf8Bytes, Ucs2Bytes;
    if utf8 {
      file := SaveUtf8(gt, t, [0xef] + [0xbb] + [0xbf]);
    } else {
      file := SaveUcs2(gt, t, [0xfeff / 256] + [0xfeff % 256]);
    }
  }

  function Saved(t: seq<Unit>, utf8: bool): seq<Byte> {
    if utf8 then UTF8_MARK + Utf8Bytes(t) else UCS2_MARK + Ucs2Bytes(t)
  }

  /** The branches of the UTF-8 loop, for a unit and the one behind it. */
  method WriteUnit(c: Unit, next: Unit) returns (bytes: seq<Byte>)
    ensures bytes == UnitBytes(c, next)
  {
    if c < 0x80 {
      bytes := [c];
    } else if c < 0x800 {
      bytes := [0xc0 + c / 64];
      bytes := bytes + [0x80 + c % 64];
    } else if c >= 0xd800 && c < 0xdc00 && next >= 0xdc00 && next < 0xe000 {
      var u, y := c / 64 % 16 + 1, c % 4 * 16 + next / 64 % 16;
      bytes := [0xf0 + u / 4];
      bytes := bytes + [0x80 + u % 4 * 16 + c / 4 % 16];
      bytes := bytes + [0x80 + y];
      bytes := bytes + [0x80 + next % 64];
    } else {
      bytes := [0xe0 + c / 4096];
      bytes := bytes + [0x80 + c / 64 % 64];
      bytes := bytes + [0x80 + c % 64];
    }
  }

  // ---------------------------------------------------------------- reading

  function At(b: seq<Byte>, i: nat): Char { if i < |b| then b[i] else EOF }

  function Min(a: int, b: int): int { if a < b then a else b }

  /** The length the first byte announces. */
  function Width(ch: Char): nat { if ch < 0x80 then 1 else if ch < 0xe0 then 2 else if ch < 0xf0 then 3 else 4 }

  function TwoByteUnit(ch: Char, ch2: Char): Unit { ch % 32 * 64 + ch2 % 64 }

  function ThreeByteUnit(ch: Char, ch2: Char, ch3: Char): Unit { ch % 16 * 4096 + ch2 % 64 * 64 + ch3 % 64 }

  /** `0xd800 | (w << 6)` is 0xffc0 in 16 bits when `w` is -1. */
  function HighHalf(ch: Char, ch2: Char, ch3: Char): Unit {
    var w := ch % 8 * 4 + ch2 / 16 % 4 - 1;
    (if w < 0 then 0xffc0 else 0xd800 + w * 64) + ch2 % 16 * 4 + ch3 / 16 % 4
  }

  function LowHalf(ch3: Char, ch4: Char): Unit { 0xdc00 + ch3 % 16 * 64 + ch4 % 64 }

  /** The unit, or the two units, that a character stands for. */
  function CharUnits(ch: Byte, ch2: Char, ch3: Char, ch4: Char): (u: seq<Unit>)
    ensures 1 <= |u| <= 2
  {
    if ch < 0x80 then [ch]
    else if ch < 0xe0 then [TwoByteUnit(ch, ch2)]
    else if ch < 0xf0 then [ThreeByteUnit(ch, ch2, ch3)]
    else [HighHalf(ch, ch2, ch3), LowHalf(ch3, ch4)]
  }

  function HeadUnits(b: seq<Byte>): (u: seq<Unit>)
    requires b != []
    ensures 1 <= |u| <= 2
  {
    CharUnits(b[0], At(b, 1), At(b, 2), At(b, 3))
  }

  function Utf8Units(b: seq<Byte>, max: nat): seq<Unit>
    decreases max
  {
    if max == 0 || b == [] then []
    else
      var u := HeadUnits(b);
      var n := Min(|u|, max);
      u[..n] + Utf8Units(b[Min(Width(b[0]), |b|)..], max - n)
  }

  function Ucs2Unit(ch: Byte, ch2: Byte, swapped: bool): Unit { if swapped then ch2 * 256 + ch else ch * 256 + ch2 }

  function Ucs2Units(b: seq<Byte>, max: nat, swapped: bool): seq<Unit>
    decreases max
  {
    if max == 0 || |b| < 2 then [] else [Ucs2Unit(b[0], b[1], swapped)] + Ucs2Units(b[2..], max - 1, swapped)
  }

  datatype Format = LocalEncoding | Ucs2 | SwappedUcs2 | Utf8

  function FormatOf(b: seq<Byte>): Format {
    if At(b, 0) == 0xfe && At(b, 1) == 0xff then Ucs2
    else if At(b, 0) == 0xff && At(b, 1) == 0xfe then SwappedUcs2
    else if At(b, 0) == 0xef && At(b, 1) == 0xbb && At(b, 2) == 0xbf then Utf8
    else LocalEncoding
  }

  /** What the file holds as text; `None` for a file without a mark, which is in the local encoding. */
  function Loaded(b: seq<Byte>, max: nat): Option<seq<Unit>> {
    match FormatOf(b)
    case LocalEncoding => None
    case Ucs2 => Some(Ucs2Units(b[2..], max, false))
    case SwappedUcs2 => Some(Ucs2Units(b[2..], max, true))
    case Utf8 => Some(Utf8Units(b[3..], max))
  }

  method GetC(b: seq<Byte>, pos: nat) returns (ch: Char, next: nat)
    requires pos <= |b|
    ensures ch == At(b, pos) && next == Min(pos + 1, |b|)
  {
    if pos < |b| {
      ch, next := b[pos], pos + 1;
    } else {
      ch, next := EOF, pos;
    }
  }

  /** One pass of the UTF-8 loop, for a file that has not ended. */
  method ReadChar(b: seq<Byte>, start: nat) returns (units: seq<Unit>, pos: nat)
    requires start < |b|
    ensures units == HeadUnits(b[start..]) && pos == start + Min(Width(b[start]), |b| - start)
  {
    hide TwoByteUnit, ThreeByteUnit, HighHalf, LowHalf;
    assert forall i: nat :: i < 4 ==> At(b[start..], i) == At(b, start + i);
    var ch, ch2, ch3, ch4: Char;
    ch, pos := GetC(b, start);
    if ch < 0x80 {
      units := [ch];
    } else if ch < 0xe0 {
      ch2, pos := GetC(b, pos);
      units := [TwoByteUnit(ch, ch2)];
    } else if ch < 0xf0 {
      ch2, pos := GetC(b, pos);
      ch3, pos := GetC(b, pos);
      units := [ThreeByteUnit(ch, ch2, ch3)];
    } else {
      ch2, pos := GetC(b, pos);
      ch3, pos := GetC(b, pos);
      ch4, pos := GetC(b, pos);
      units := [HighHalf(ch, ch2, ch3), LowHalf(ch3, ch4)];
    }
  }

  /** What one pass of the UTF-8 loop adds behind `space`. */
  lemma Utf8Step(b: seq<Byte>, max: nat, space: seq<Unit>)
    requires b != [] && |space| < max
    ensures var u := HeadUnits(b);
            var added := if |u| == 2 && |space| + 1 < max then [u[0], u[1]] else [u[0]];
            |space| + |added| <= max && space + Utf8Units(b, max - |space|)
              == space + added + Utf8Units(b[Min(Width(b[0]), |b|)..], max - |space| - |added|)
  {
    hide HeadUnits, Width;
    var u := HeadUnits(b);
    var n := Min(|u|, max - |space|);
    assert u[..n] == if |u| == 2 && |space| + 1 < max then [u[0], u[1]] else [u[0]];
    var tail := Utf8Units(b[Min(Width(b[0]), |b|)..], max - |space| - n);
    assert space + (u[..n] + tail) == space + u[..n] + tail;
  }

  method ReadUtf8(b: seq<Byte>, start: nat, max: nat) returns (space: seq<Unit>)
    requires start <= |b|
    ensures space == Utf8Units(b[start..], max)
  {
    hide HeadUnits, Width, Utf8Units;
    var pos := start;
    space := [];
    while |space| < max
      invariant start <= pos <= |b| && |space| <= max
      invariant space + Utf8Units(b[pos..], max - |space|) == Utf8Units(b[start..], max)
      decreases max - |space|
    {
      ghost var rest := b[pos..];
      if pos == |b| {
        Utf8Done(rest, max - |space|);
        return;
      }
      var units, next := ReadChar(b, pos);
      Utf8Step(rest, max, space);
      assert rest[Min(Width(rest[0]), |rest|)..] == b[next..];
      pos := next;
      if |units| == 2 && |space| + 1 < max {
        space := space + [units[0], units[1]];
      } else {
        space := space + [units[0]];
      }
    }
    Utf8Done(b[pos..], 0);
  }

  lemma Utf8Done(b: seq<Byte>, max: nat)
    requires b == [] || max == 0
    ensures Utf8Units(b, max) == []
  {
  }

  method ReadUcs2(b: seq<Byte>, start: nat, max: nat, swapped: bool) returns (space: seq<Unit>)
    requires start <= |b|
    ensures space == Ucs2Units(b[start..], max, swapped)
  {
    var pos := start;
    space := [];
    while |space| < max
      invariant start <= pos <= |b| && |space| <= max
      invariant space + Ucs2Units(b[pos..], max - |space|, swapped) == Ucs2Units(b[start..], max, swapped)
      decreases max - |space|
    {
      ghost var rest := b[pos..];
      var ch, ch2: Char;
      ch, pos := GetC(b, pos);
      ch2, pos := GetC(b, pos);
      if ch2 == EOF { break; }
      var unit := Ucs2Unit(ch, ch2, swapped);
      assert rest[0] == ch && rest[1] == ch2 && rest[2..] == b[pos..];
      assert space + Ucs2Units(rest, max - |space|, swapped)
          == space + [unit] + Ucs2Units(rest[2..], max - |space| - 1, swapped);
      space := space + [unit];
    }
  }

  method Load(b: seq<Byte>, max: nat) returns (space: Option<seq<Unit>>)
    ensures space == Loaded(b, max)
  {
    hide Ucs2Units, Utf8Units;
    var ch, ch2, ch3, pos;
    ch, pos := GetC(b, 0);
    ch2, pos := GetC(b, pos);
    ch3, pos := GetC(b, pos);
    var text;
    if ch == 0xfe && ch2 == 0xff {
      text := ReadUcs2(b, 2, max, false);
    } else if ch == 0xff && ch2 == 0xfe {
      text := ReadUcs2(b, 2, max, true);
    } else if ch == 0xef && ch2 == 0xbb && ch3 == 0xbf {
      text := ReadUtf8(b, 3, max);
    } else {
      return None;
    }
    space := Some(text);
  }

  // ---------------------------------------------------------------- round trips

  /** The first unit, or the surrogate pair it starts. */
  function Head(t: seq<Unit>): (u: seq<Unit>)
    requires t != []
    ensures 1 <= |u| <= 2 && u <= t
  {
    if Pair(t) then t[..2] else t[..1]
  }

  /** The text with the low half of every surrogate pair written twice. */
  function Expand(t: seq<Unit>): seq<Unit> {
    if t == [] then [] else Head(t) + Expand(t[1..])
  }

  predicate NoPair(t: seq<Unit>) { forall i :: 0 <= i < |t| ==> !Pair(t[i..]) }

  function Swapped(b: seq<Byte>): seq<Byte> {
    if |b| < 2 then b else [b[1], b[0]] + Swapped(b[2..])
  }

  lemma TwoByteRoundTrip(c: Unit)
    requires 0x80 <= c < 0x800
    ensures TwoByteUnit(0xc0 + c / 64, 0x80 + c % 64) == c && Width(0xc0 + c / 64) == 2
  {
  }

  lemma ThreeByteRoundTrip(c: Unit)
    ensures ThreeByteUnit(0xe0 + c / 4096, 0x80 + c / 64 % 64, 0x80 + c % 64) == c && Width(0xe0 + c / 4096) == 3
  {
    assert c == c / 4096 * 4096 + c / 64 % 64 * 64 + c % 64;
  }

  lemma HighRoundTrip(hi: Unit, ch: Char, ch2: Char, ch3: Char)
    requires IsHigh(hi) && var u := hi / 64 % 16 + 1;
             ch % 8 == u / 4 && ch2 / 16 % 4 == u % 4 && ch2 % 16 == hi / 4 % 16 && ch3 / 16 % 4 == hi % 4
    ensures HighHalf(ch, ch2, ch3) == hi
  {
    assert hi == 0xd800 + hi / 64 % 16 * 64 + hi / 4 % 16 * 4 + hi % 4;
  }

  lemma LowRoundTrip(lo: Unit, ch3: Char, ch4: Char)
    requires IsLow(lo) && ch3 % 16 == lo / 64 % 16 && ch4 % 64 == lo % 64
    ensures LowHalf(ch3, ch4) == lo
  {
  }

  /** `0x80 + high * 16 + low` taken apart. */
  lemma Halves(high: int, low: int)
    requires 0 <= high < 4 && 0 <= low < 16
    ensures (0x80 + high * 16 + low) / 16 % 4 == high && (0x80 + high * 16 + low) % 16 == low
  {
  }

  lemma PairRoundTrip(hi: Unit, lo: Unit)
    requires IsHigh(hi) && IsLow(lo)
    ensures var b := PairBytes(hi, lo);
            HighHalf(b[0], b[1], b[2]) == hi && LowHalf(b[2], b[3]) == lo && Width(b[0]) == 4
  {
    hide HighHalf, LowHalf;
    var b, u := PairBytes(hi, lo), hi / 64 % 16 + 1;
    Halves(u % 4, hi / 4 % 16);
    Halves(hi % 4, lo / 64 % 16);
    HighRoundTrip(hi, b[0], b[1], b[2]);
    LowRoundTrip(lo, b[2], b[3]);
  }

  /** The bytes of one unit, or of a pair, are read back as that unit or that pair. */
  lemma HeadRoundTrip(t: seq<Unit>, rest: seq<Byte>)
    requires t != []
    ensures var b := UnitBytes(t[0], Next(t));
            b != [] && Width(b[0]) == |b| && HeadUnits(b + rest) == Head(t)
  {
    hide TwoByteUnit, ThreeByteUnit, HighHalf, LowHalf;
    var b := UnitBytes(t[0], Next(t));
    assert forall i: nat :: i < |b| ==> At(b + rest, i) == b[i];
    if Pair(t) {
      PairRoundTrip(t[0], t[1]);
      assert t[..2] == [t[0], t[1]];
    } else {
      if 0x80 <= t[0] < 0x800 { TwoByteRoundTrip(t[0]); }
      ThreeByteRoundTrip(t[0]);
      assert t[..1] == [t[0]];
    }
  }

  lemma ExpandStep(t: seq<Unit>)
    requires t != []
    ensures Expand(t) == Head(t) + Expand(t[1..])
  {
  }

  /** The first `m` of two sequences in a row. */
  lemma TakeJoined<T>(u: seq<T>, rest: seq<T>, n: nat, m: nat)
    requires n == Min(|u|, m)
    ensures u[..n] + rest[..Min(m - n, |rest|)] == (u + rest)[..Min(m, |u + rest|)]
  {
    var k := Min(m - n, |rest|);
    if n < |u| {
      assert k == 0 && (u + rest)[..m] == u[..m];
    } else {
      assert u[..n] == u && (u + rest)[..n + k] == u + rest[..k];
    }
  }

  lemma {:induction false} Utf8RoundTrip(t: seq<Unit>, max: nat)
    ensures Utf8Units(Utf8Bytes(t), max) == Expand(t)[..Min(max, |Expand(t)|)]
  {
    hide UnitBytes, HeadUnits, Width, Head, Next, Expand;
    if t == [] {
      ExpandGrows(t);
    } else if max > 0 {
      var head, rest := UnitBytes(t[0], Next(t)), Utf8Bytes(t[1..]);
      HeadRoundTrip(t, rest);
      var n := Min(|HeadUnits(head + rest)|, max);
      assert (head + rest)[|head|..] == rest;
      Utf8RoundTrip(t[1..], max - n);
      TakeJoined(Head(t), Expand(t[1..]), n, max);
      assert Expand(t) == Head(t) + Expand(t[1..]) by { ExpandStep(t); }
    }
  }

  lemma {:induction false} Ucs2RoundTrip(t: seq<Unit>, max: nat)
    ensures Ucs2Units(Ucs2Bytes(t), max, false) == t[..Min(max, |t|)]
    ensures Ucs2Units(Swapped(Ucs2Bytes(t)), max, true) == t[..Min(max, |t|)]
  {
    if t != [] && max > 0 {
      Ucs2RoundTrip(t[1..], max - 1);
      assert Ucs2Bytes(t)[2..] == Ucs2Bytes(t[1..]);
      assert Swapped(Ucs2Bytes(t))[2..] == Swapped(Ucs2Bytes(t[1..]));
    }
  }

  /** Every text saved as UCS-2 loads as itself, up to the room there is, in either byte order. */
  lemma Ucs2Composition(t: seq<Unit>, max: nat)
    ensures Loaded(Saved(t, false), max) == Some(t[..Min(max, |t|)])
    ensures Loaded(Swapped(Saved(t, false)), max) == Some(t[..Min(max, |t|)])
  {
    Ucs2RoundTrip(t, max);
    assert (UCS2_MARK + Ucs2Bytes(t))[2..] == Ucs2Bytes(t);
    assert Swapped(UCS2_MARK + Ucs2Bytes(t))[2..] == Swapped(Ucs2Bytes(t));
  }

  /** A text saved as UTF-8 loads with the low half of every surrogate pair doubled, up to the room there is. */
  lemma Utf8Composition(t: seq<Unit>, max: nat)
    ensures Loaded(Saved(t, true), max) == Some(Expand(t)[..Min(max, |Expand(t)|)])
  {
    Utf8RoundTrip(t, max);
    assert (UTF8_MARK + Utf8Bytes(t))[3..] == Utf8Bytes(t);
  }

  lemma {:induction false} ExpandGrows(t: seq<Unit>)
    ensures |t| <= |Expand(t)| <= 2 * |t|
    ensures NoPair(t) <==> |Expand(t)| == |t|
    ensures NoPair(t) ==> Expand(t) == t
  {
    if t != [] {
      ExpandGrows(t[1..]);
      assert forall i :: 1 <= i < |t| ==> t[i..] == t[1..][i - 1..];
      assert t[0..] == t;
      assert NoPair(t) <==> !Pair(t) && NoPair(t[1..]);
    }
  }

  /** With room enough, UTF-8 is lossless exactly on the texts without a surrogate pair. */
  lemma Utf8LosslessIff(t: seq<Unit>, max: nat)
    requires 2 * |t| <= max
    ensures Loaded(Saved(t, true), max) == Some(t) <==> NoPair(t)
  {
    Utf8Composition(t, max);
    ExpandGrows(t);
    assert Expand(t)[..|Expand(t)|] == Expand(t);
  }

  // ---------------------------------------------------------------- the bytes as UTF-8

  /** A continuation byte. */
  predicate Follows(b: Byte) { 0x80 <= b < 0xc0 }

  /** `bytes` is the shortest form of the number `s` in UTF-8 (section 3 of RFC 3629). */
  predicate IsUtf8(bytes: seq<Byte>, s: nat) {
    && |bytes| == (if s < 0x80 then 1 else if s < 0x800 then 2 else if s < 0x1_0000 then 3 else 4)
    && (forall i :: 1 <= i < |bytes| ==> Follows(bytes[i]))
    && match |bytes|
       case 1 => s == bytes[0]
       case 2 => 0xc0 <= bytes[0] < 0xe0 && s == (bytes[0] as int - 0xc0) * 0x40 + (bytes[1] as int - 0x80)
       case 3 => 0xe0 <= bytes[0] < 0xf0
                 && s == (bytes[0] as int - 0xe0) * 0x1000 + (bytes[1] as int - 0x80) * 0x40 + (bytes[2] as int - 0x80)
       case _ => 0xf0 <= bytes[0] < 0xf8
                 && s == (bytes[0] as int - 0xf0) * 0x4_0000 + (bytes[1] as int - 0x80) * 0x1000
                         + (bytes[2] as int - 0x80) * 0x40 + (bytes[3] as int - 0x80)
  }

  /** A unit that no surrogate pair starts with is written as the UTF-8 of its number. */
  lemma UnitIsUtf8(c: Unit, next: Unit)
    requires !(0xd800 <= c < 0xdc00 && 0xdc00 <= next < 0xe000)
    ensures IsUtf8(UnitBytes(c, next), c)
  {
  }

  /** The two units of a number beyond 16 bits (section 2.1 of RFC 2781) are written as the UTF-8 of that number. */
  lemma PairIsUtf8(s: nat)
    requires 0x1_0000 <= s < 0x11_0000
    ensures var hi, lo := 0xd800 + (s - 0x1_0000) / 0x400, 0xdc00 + (s - 0x1_0000) % 0x400; IsUtf8(UnitBytes(hi, lo), s)
  {
    var r := s - 0x1_0000;
    var q1 := r / 0x40;
    var q2 := q1 / 0x10;
    var q3 := q2 / 4;
    PairOfFields(q3 / 0x10, q3 % 0x10, q2 % 4, q1 % 0x10, r % 0x40);
  }

  /** The same for the number whose fields of 4, 4, 2, 4 and 6 bits, less 0x10000, are given. */
  lemma PairOfFields(a: nat, b: nat, c: nat, d: nat, e: nat)
    requires a < 0x10 && b < 0x10 && c < 4 && d < 0x10 && e < 0x40
    ensures var r := a * 0x1_0000 + b * 0x1000 + c * 0x400 + d * 0x40 + e;
            IsUtf8(UnitBytes(0xd800 + r / 0x400, 0xdc00 + r % 0x400), 0x1_0000 + r)
  {
    var x, y := a * 0x40 + b * 4 + c, d * 0x40 + e;
    assert var r := a * 0x1_0000 + b * 0x1000 + c * 0x400 + d * 0x40 + e;
           r == x * 0x400 + y && r / 0x400 == x && r % 0x400 == y;
    HighFields(a, b, c);
    LowFields(d, e);
    var u := a + 1;
    assert u == u / 4 * 4 + u % 4;
    assert PairBytes(0xd800 + x, 0xdc00 + y) == [0xf0 + u / 4, 0x80 + u % 4 * 16 + b, 0x80 + (c * 16 + d), 0x80 + e];
  }

  lemma HighFields(a: nat, b: nat, c: nat)
    requires a < 0x10 && b < 0x10 && c < 4
    ensures var hi := 0xd800 + (a * 0x40 + b * 4 + c); hi / 64 % 16 == a && hi / 4 % 16 == b && hi % 4 == c
  {
    var hi := 0xd800 + (a * 0x40 + b * 4 + c);
    assert hi == (0x360 + a) * 64 + (b * 4 + c) && hi / 64 == 0x360 + a;
    assert hi / 4 == (0x360 + a) * 16 + b;
  }

  lemma LowFields(d: nat, e: nat)
    requires d < 0x10 && e < 0x40
    ensures var lo := 0xdc00 + (d * 0x40 + e); lo / 64 % 16 == d && lo % 64 == e
  {
    var lo := 0xdc00 + (d * 0x40 + e);
    assert lo == (0x370 + d) * 64 + e && lo / 64 == 0x370 + d;
  }

  /** What is read for each first byte: the low bits of the bytes put together, continuation bytes or not.  A byte below
      0xe0 that is no character of its own counts as the first of two. */
  lemma HeadIs(b: seq<Byte>)
    requires b != []
    ensures 0 <= b[0] < 0x80 ==> HeadUnits(b) == [b[0]] && Width(b[0]) == 1
    ensures 0x80 <= b[0] < 0xe0 && |b| > 1 ==>
              HeadUnits(b) == [b[0] as int % 0x20 * 0x40 + b[1] as int % 0x40] && Width(b[0]) == 2
    ensures 0xe0 <= b[0] < 0xf0 && |b| > 2 ==>
              && HeadUnits(b) == [b[0] as int % 0x10 * 0x1000 + b[1] as int % 0x40 * 0x40 + b[2] as int % 0x40]
              && Width(b[0]) == 3
    ensures 0xf0 <= b[0] && |b| > 3 ==>
              var s := b[0] as int % 8 * 0x4_0000 + b[1] as int % 0x40 * 0x1000
                       + b[2] as int % 0x40 * 0x40 + b[3] as int % 0x40;
              && Width(b[0]) == 4
              && (s >= 0x1_0000 ==> HeadUnits(b) == [0xd800 + (s - 0x1_0000) / 0x400, 0xdc00 + (s - 0x1_0000) % 0x400])
  {
    if b[0] >= 0xf0 && |b| > 3 { FourBytes(b[0], b[1], b[2], b[3]); }
  }

  lemma FourBytes(b0: Byte, b1: Byte, b2: Byte, b3: Byte)
    ensures var s := b0 % 8 * 0x4_0000 + b1 % 0x40 * 0x1000 + b2 % 0x40 * 0x40 + b3 % 0x40;
            s >= 0x1_0000 ==>
              && HighHalf(b0, b1, b2) == 0xd800 + (s - 0x1_0000) / 0x400
              && LowHalf(b2, b3) == 0xdc00 + (s - 0x1_0000) % 0x400
  {
    var s := b0 % 8 * 0x4_0000 + b1 % 0x40 * 0x1000 + b2 % 0x40 * 0x40 + b3 % 0x40;
    var w := b0 % 8 * 4 + b1 / 16 % 4 - 1;
    var low := b2 % 16 * 64 + b3 % 64;
    var high := w * 64 + b1 % 16 * 4 + b2 / 16 % 4;
    assert b1 % 64 == b1 / 16 % 4 * 16 + b1 % 16 && b2 % 64 == b2 / 16 % 4 * 16 + b2 % 16;
    assert s == 0x1_0000 + high * 0x400 + low && 0 <= low < 0x400;
  }
}
