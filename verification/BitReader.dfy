/**
  The bit reader of the FAAD decoder: two 32-bit words of look-ahead, a count of the bits left in the first, and the
  place and length of what has not been loaded.  It refines a cursor into the bits of the buffer.
*/
module BitReader {
  type Byte = x: int | 0 <= x < 256

  datatype Reader = Reader(bufa: nat, bufb: nat, bitsLeft: nat, bytesLeft: nat, tail: nat, error: bool)

  // ---------------------------------------------------------------- words

  /** A byte of the buffer, 0 behind its end. */
  function ByteAt(buf: seq<Byte>, i: nat): Byte { if i < |buf| then buf[i] else 0 }

  /** The word at `i`, the highest byte first, padded with zeros. */
  function WordAt(buf: seq<Byte>, i: nat): nat {
    ((ByteAt(buf, 4 * i) as int * 256 + ByteAt(buf, 4 * i + 1)) * 256 + ByteAt(buf, 4 * i + 2)) * 256
      + ByteAt(buf, 4 * i + 3)
  }

  function GetDword(buf: seq<Byte>, i: nat): nat
    requires 4 * i + 4 <= |buf|
  {
    ((buf[4 * i] as int * 256 + buf[4 * i + 1]) * 256 + buf[4 * i + 2]) * 256 + buf[4 * i + 3]
  }

  /** The last `n` bytes of the buffer as the start of a word. */
  function GetDwordN(buf: seq<Byte>, i: nat, n: nat): nat
    requires n < 4 && (n > 0 ==> 4 * i + n <= |buf|)
  {
    match n
    case 3 => ((buf[4 * i] as int * 256 + buf[4 * i + 1]) * 256 + buf[4 * i + 2]) * 256
    case 2 => (buf[4 * i] as int * 256 + buf[4 * i + 1]) * 0x1_0000
    case 1 => buf[4 * i] as int * 0x100_0000
    case _ => 0
  }

  /** The bytes from word `i` on. */
  function Rest(buf: seq<Byte>, i: nat): nat { if |buf| <= 4 * i then 0 else |buf| - 4 * i }

  /** The reader with its cursor at bit `pos`. */
  function At(buf: seq<Byte>, pos: nat): Reader {
    Reader(WordAt(buf, pos / 32), WordAt(buf, pos / 32 + 1), 32 - pos % 32, Rest(buf, pos / 32 + 2), pos / 32 + 2, false)
  }

  // ---------------------------------------------------------------- the reader

  const TWO_TO_THE_32 := 0x1_0000_0000

  /** The end of the bytes that a load of word `i` looks at, 0 if it looks at none. */
  function Touched(i: nat, bytesLeft: nat): nat {
    if bytesLeft == 0 then 0 else if bytesLeft >= 4 then 4 * i + 4 else 4 * i + bytesLeft
  }

  /** Loads word `i` of the memory, and counts the bytes left behind it: the next word of a buffer that the memory
      begins with, if the count is that of the buffer. */
  method Load(mem: seq<Byte>, i: nat, bytesLeft: nat, ghost buf: seq<Byte>) returns (tmp: nat, left: nat)
    requires Touched(i, bytesLeft) <= |mem| && buf <= mem
    ensures left == if bytesLeft >= 4 then bytesLeft - 4 else 0
    ensures bytesLeft == Rest(buf, i) ==> tmp == WordAt(buf, i) && left == Rest(buf, i + 1)
  {
    if bytesLeft >= 4 {
      tmp := GetDword(mem, i);
      left := bytesLeft - 4;
    } else {
      tmp := GetDwordN(mem, i, bytesLeft);
      left := 0;
    }
  }

  class Bitfile {
    var buffer: seq<Byte>
    var bufferSize: nat
    var bufa: nat
    var bufb: nat
    var bitsLeft: nat
    var bytesLeft: nat
    var tail: nat
    var error: bool

    function State(): Reader
      reads this
    {
      Reader(bufa, bufb, bitsLeft, bytesLeft, tail, error)
    }

    /** The cursor is at bit `pos` of the buffer. */
    ghost predicate IsAt(buf: seq<Byte>, pos: nat)
      reads this
    {
      buffer == buf && bufferSize == |buf| && State() == At(buf, pos)
    }

    constructor ()
      ensures error
    {
      buffer, bufferSize, bufa, bufb, bitsLeft, bytesLeft, tail := [], 0, 0, 0, 0, 0, 0;
      error := true;
    }

    method InitBits(buf: seq<Byte>)
      modifies this
      ensures buf != [] ==> IsAt(buf, 0)
      ensures buf == [] ==> State() == old(State()).(error := true) && buffer == old(buffer) && bufferSize == old(bufferSize)
    {
      if |buf| == 0 {
        error := true;
        return;
      }
      buffer, bufferSize := buf, |buf|;
      bytesLeft := |buf|;
      bufa, bytesLeft := Load(buffer, 0, bytesLeft, buffer);
      bufb, bytesLeft := Load(buffer, 1, bytesLeft, buffer);
      tail := 2;
      bitsLeft := 32;
      error := false;
    }

    method RewindBits(ghost pos: nat)
      requires IsAt(buffer, pos)
      modifies this
      ensures IsAt(old(buffer), 0)
    {
      bytesLeft := bufferSize;
      bufa, bytesLeft := Load(buffer, 0, bytesLeft, buffer);
      bufb, bytesLeft := Load(buffer, 1, bytesLeft, buffer);
      bitsLeft := 32;
      tail := 2;
    }

    /** Seeks to a bit.  `mem` is the memory that the buffer lies at the start of, and `end` the end of the bytes that the
        loads look at: behind the word that starts at the end of the buffer the count of bytes left, which is unsigned,
        wraps round, and the loads leave the buffer. */
    method ResetBits(bits: nat, mem: seq<Byte>) returns (ghost end: nat)
      requires bufferSize == |buffer| < TWO_TO_THE_32 && bits < 0x8000_0000
      requires buffer <= mem && 4 * (bits / 32) + 8 <= |mem|
      modifies this
      ensures buffer == old(buffer) && bufferSize == old(bufferSize) && bitsLeft == 32 - bits % 32 && !error
      ensures end <= bufferSize <==> 4 * (bits / 32) <= bufferSize
      ensures end <= bufferSize ==> IsAt(old(buffer), bits)
      ensures end > bufferSize ==> bytesLeft == TWO_TO_THE_32 + bufferSize - 4 * (bits / 32) - 8
    {
      hide WordAt;
      WrapsRound(bufferSize, bits / 32);
      var words, remainder := bits / 32, bits % 32;
      bytesLeft := (bufferSize - words * 4) % TWO_TO_THE_32;
      end := Touched(words, bytesLeft);
      bufa, bytesLeft := Load(mem, words, bytesLeft, buffer);
      end := if end >= Touched(words + 1, bytesLeft) then end else Touched(words + 1, bytesLeft);
      bufb, bytesLeft := Load(mem, words + 1, bytesLeft, buffer);
      bitsLeft := 32 - remainder;
      tail := words + 2;
      error := false;
    }

    /** The cursor leaves the first word. */
    method FlushBitsEx(bits: nat, ghost pos: nat)
      requires IsAt(buffer, pos) && bitsLeft <= bits < bitsLeft + 32
      modifies this
      ensures IsAt(old(buffer), pos + bits)
    {
      NextWord(pos, bits);
      bufa := bufb;
      bufb, bytesLeft := Load(buffer, tail, bytesLeft, buffer);
      tail := tail + 1;
      bitsLeft := bitsLeft + 32 - bits;
    }

    method FlushBits(bits: nat, ghost pos: nat)
      requires IsAt(buffer, pos) && bits <= 32
      modifies this
      ensures IsAt(old(buffer), pos + bits)
    {
      if bits < bitsLeft {
        SameWord(pos, bits);
        bitsLeft := bitsLeft - bits;
      } else {
        FlushBitsEx(bits, pos);
      }
    }

    /** Moves the cursor up to a multiple of 8, and says how far. */
    method ByteAlign(ghost pos: nat) returns (n: nat)
      requires IsAt(buffer, pos)
      modifies this
      ensures IsAt(old(buffer), pos + n) && (pos + n) % 8 == 0 && n < 8
    {
      hide WordAt, Rest;
      AlignUp(pos);
      var remainder := (32 - bitsLeft) % 8;
      if remainder != 0 {
        FlushBits(8 - remainder, pos);
        return 8 - remainder;
      }
      n := 0;
    }

    /** The place of the cursor, as a 32-bit number. */
    method GetProcessedBits(ghost pos: nat) returns (n: nat)
      requires IsAt(buffer, pos)
      ensures n == pos % TWO_TO_THE_32
    {
      n := (8 * (4 * tail - 4) - bitsLeft) % TWO_TO_THE_32;
    }
  }

  lemma WrapsRound(size: nat, words: nat)
    requires size < TWO_TO_THE_32 && words < 0x1000_0000
    ensures var left := (size - words * 4) % TWO_TO_THE_32;
            if 4 * words <= size then left == size - 4 * words else left == TWO_TO_THE_32 + size - 4 * words >= 8
  {
  }

  lemma NextWord(pos: nat, bits: nat)
    requires 32 - pos % 32 <= bits < 64 - pos % 32
    ensures (pos + bits) / 32 == pos / 32 + 1 && (pos + bits) % 32 == pos % 32 + bits - 32
  {
  }

  lemma AlignUp(pos: nat)
    ensures pos % 32 % 8 == pos % 8
    ensures pos % 8 != 0 ==> (pos + (8 - pos % 8)) % 8 == 0
  {
  }

  lemma SameWord(pos: nat, bits: nat)
    requires bits < 32 - pos % 32
    ensures (pos + bits) / 32 == pos / 32 && (pos + bits) % 32 == pos % 32 + bits
  {
  }

  // ---------------------------------------------------------------- seeking

  /** What a flush does to the reader, in terms of its fields. */
  function Flushed(buf: seq<Byte>, r: Reader, bits: nat): Reader
    requires bits <= 32
  {
    if bits < r.bitsLeft then r.(bitsLeft := r.bitsLeft - bits)
    else Reader(r.bufb, WordAt(buf, r.tail), r.bitsLeft + 32 - bits,
                if r.bytesLeft >= 4 then r.bytesLeft - 4 else 0, r.tail + 1, r.error)
  }

  function FlushedAll(buf: seq<Byte>, r: Reader, fl: seq<nat>): Reader
    requires forall i :: 0 <= i < |fl| ==> fl[i] <= 32
    decreases |fl|
  {
    if fl == [] then r else FlushedAll(buf, Flushed(buf, r, fl[0]), fl[1..])
  }

  function Sum(fl: seq<nat>): nat { if fl == [] then 0 else fl[0] + Sum(fl[1..]) }

  lemma FlushMoves(buf: seq<Byte>, pos: nat, bits: nat)
    requires bits <= 32
    ensures Flushed(buf, At(buf, pos), bits) == At(buf, pos + bits)
  {
    hide WordAt;
    if bits < 32 - pos % 32 { SameWord(pos, bits); } else { NextWord(pos, bits); }
  }

  /** Any list of flushes moves the cursor by its sum: the very state a seek to that bit gives. */
  lemma {:induction false} FlushesAreASeek(buf: seq<Byte>, pos: nat, fl: seq<nat>)
    requires forall i :: 0 <= i < |fl| ==> fl[i] <= 32
    ensures FlushedAll(buf, At(buf, pos), fl) == At(buf, pos + Sum(fl))
    decreases |fl|
  {
    hide At, Flushed;
    if fl != [] {
      FlushMoves(buf, pos, fl[0]);
      FlushesAreASeek(buf, pos + fl[0], fl[1..]);
    }
  }

  // ---------------------------------------------------------------- the look-ahead

  /** Bit `n` of a number, counted from the lowest. */
  function Bit(x: nat, n: nat): nat { if n == 0 then x % 2 else Bit(x / 2, n - 1) }

  /** Bit `p` of the buffer, counted from the highest bit of the first byte; 0 behind the end. */
  function BufferBit(buf: seq<Byte>, p: nat): nat { Bit(ByteAt(buf, p / 8), 7 - p % 8) }

  /** The `j`th bit ahead of the cursor, as the two words have it. */
  function Ahead(r: Reader, j: nat): nat
    requires r.bitsLeft <= 32 && j < r.bitsLeft + 32
  {
    if j < r.bitsLeft then Bit(r.bufa, r.bitsLeft - 1 - j) else Bit(r.bufb, 31 - (j - r.bitsLeft))
  }

  function Pow(m: nat): nat { if m == 0 then 1 else 2 * Pow(m - 1) }

  /** The bits of `x * 2^m + y` are those of `y` and, above them, those of `x`. */
  lemma {:induction false} BitsOfSum(x: nat, y: nat, m: nat, n: nat)
    requires y < Pow(m)
    ensures Bit(x * Pow(m) + y, n) == if n < m then Bit(y, n) else Bit(x, n - m)
    decreases m
  {
    if m > 0 {
      var z := x * Pow(m - 1);
      assert x * Pow(m) == 2 * z;
      assert (2 * z + y) / 2 == z + y / 2 && (2 * z + y) % 2 == y % 2;
      if n > 0 { BitsOfSum(x, y / 2, m - 1, n - 1); }
    }
  }

  lemma BitsOfBytes(x: nat, y: Byte, n: nat)
    ensures Bit(x * 256 + y, n) == if n < 8 then Bit(y, n) else Bit(x, n - 8)
  {
    assert Pow(8) == 256;
    BitsOfSum(x, y, 8, n);
  }

  /** Bit `k` of word `i`, from the top, is bit `32 i + k` of the buffer. */
  lemma WordBits(buf: seq<Byte>, i: nat, k: nat)
    requires k < 32
    ensures Bit(WordAt(buf, i), 31 - k) == BufferBit(buf, 32 * i + k)
  {
    hide Bit;
    var b0, b1, b2, b3 := ByteAt(buf, 4 * i), ByteAt(buf, 4 * i + 1), ByteAt(buf, 4 * i + 2), ByteAt(buf, 4 * i + 3);
    var n := 31 - k;
    BitsOfBytes((b0 as int * 256 + b1) * 256 + b2, b3, n);
    if n >= 8 { BitsOfBytes(b0 as int * 256 + b1, b2, n - 8); }
    if n >= 16 { BitsOfBytes(b0, b1, n - 16); }
    assert (32 * i + k) / 8 == 4 * i + k / 8 && (32 * i + k) % 8 == k % 8;
  }

  lemma {:induction false} ZeroBits(n: nat)
    ensures Bit(0, n) == 0
  {
    if n > 0 { ZeroBits(n - 1); }
  }

  /** With the cursor at `pos`, the look-ahead has the bits of the buffer from `pos` on, and zeros behind its end. */
  lemma LookAhead(buf: seq<Byte>, pos: nat, j: nat)
    requires j < At(buf, pos).bitsLeft + 32
    ensures Ahead(At(buf, pos), j) == BufferBit(buf, pos + j)
    ensures pos + j < 8 * |buf| ==> Ahead(At(buf, pos), j) == Bit(buf[(pos + j) / 8], 7 - (pos + j) % 8)
    ensures pos + j >= 8 * |buf| ==> Ahead(At(buf, pos), j) == 0
  {
    ZeroBits(7 - (pos + j) % 8);
    assert BufferBit(buf, pos + j) == Bit(ByteAt(buf, (pos + j) / 8), 7 - (pos + j) % 8);
    hide WordAt, Bit, BufferBit;
    var w, m := pos / 32, pos % 32;
    if j < 32 - m { WordBits(buf, w, m + j); } else { WordBits(buf, w + 1, j - (32 - m)); }
  }
}
