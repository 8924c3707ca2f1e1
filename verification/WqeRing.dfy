/**
  The send-queue buffer as a ring of bytes: inline data gathered into it goes round the end in two pieces, and an entry
  is read back in two pieces.
*/
module WqeRing {
  import opened Arithmetic

  type Byte = x: int | 0 <= x < 256

  const MLX5_INLINE_SEG := 0x8000_0000

  // ---------------------------------------------------------------- the ring as a whole

  /** A position at most one turn past the end, taken back into the ring. */
  function Wrap(n: nat, x: nat): nat { if x < n then x else x - n }

  /** How many places `k` is behind `pos`, going round. */
  function Behind(n: nat, pos: nat, k: nat): nat
    requires pos <= n && k < n
  {
    if k >= pos then k - pos else k - pos + n
  }

  /** The ring with `data` at `pos` and on, going round, and nothing else changed. */
  function Written(r: seq<Byte>, pos: nat, data: seq<Byte>): (w: seq<Byte>)
    requires pos < |r|
    ensures |w| == |r|
  {
    seq(|r|, k requires 0 <= k < |r| => if Behind(|r|, pos, k) < |data| then data[Behind(|r|, pos, k)] else r[k])
  }

  /** `n` bytes from `pos` on, going round. */
  function ReadAt(r: seq<Byte>, pos: nat, n: nat): (d: seq<Byte>)
    requires pos < |r| && n <= |r|
    ensures |d| == n
  {
    seq(n, i requires 0 <= i < n => r[Wrap(|r|, pos + i)])
  }

  lemma WrittenNothing(r: seq<Byte>, pos: nat)
    requires pos < |r|
    ensures Written(r, pos, []) == r
  {
  }

  /** Writing two pieces in a row writes their concatenation. */
  lemma WrittenTwice(r: seq<Byte>, pos: nat, a: seq<Byte>, b: seq<Byte>)
    requires pos < |r| && |a| + |b| <= |r| && |a| < |r|
    ensures Written(Written(r, pos, a), Wrap(|r|, pos + |a|), b) == Written(r, pos, a + b)
  {
    var n, q := |r|, Wrap(|r|, pos + |a|);
    forall k | 0 <= k < n
      ensures Written(Written(r, pos, a), q, b)[k] == Written(r, pos, a + b)[k]
    {
      var i, j := Behind(n, pos, k), Behind(n, q, k);
      assert i == (if j + |a| < n then j + |a| else j + |a| - n);
    }
  }

  /** What was written is read back, also as part of a longer stretch that starts `i` places before it. */
  lemma ReadWritten(r: seq<Byte>, start: nat, i: nat, data: seq<Byte>, n: nat)
    requires start < |r| && i + |data| <= n <= |r| && i < |r|
    ensures ReadAt(Written(r, Wrap(|r|, start + i), data), start, n)[i..i + |data|] == data
  {
    var pos := Wrap(|r|, start + i);
    var w := Written(r, pos, data);
    forall j | 0 <= j < |data|
      ensures ReadAt(w, start, n)[i + j] == data[j]
    {
      assert Behind(|r|, pos, Wrap(|r|, start + (i + j))) == j;
    }
  }

  /** Bytes outside the stretch written are as before. */
  lemma WrittenFrame(r: seq<Byte>, pos: nat, data: seq<Byte>, k: nat)
    requires pos < |r| && k < |r| && |data| <= Behind(|r|, pos, k)
    ensures Written(r, pos, data)[k] == r[k]
  {
  }

  // ---------------------------------------------------------------- copying in

  function Spliced(r: seq<Byte>, at: nat, src: seq<Byte>): seq<Byte>
    requires at + |src| <= |r|
  {
    r[..at] + src + r[at + |src|..]
  }

  /** A copy that does not reach past the end is a write. */
  lemma SplicedIsWritten(r: seq<Byte>, at: nat, src: seq<Byte>)
    requires at < |r| && at + |src| <= |r|
    ensures Spliced(r, at, src) == Written(r, at, src)
  {
  }

  method MemCpy(a: array<Byte>, at: nat, src: seq<Byte>)
    requires at + |src| <= a.Length
    modifies a
    ensures a[..] == Spliced(old(a[..]), at, src)
  {
    forall i | 0 <= i < |src| { a[at + i] := src[i]; }
  }

  /** Nothing written at the very end. */
  lemma SplicedNothing(r: seq<Byte>, at: nat, src: seq<Byte>)
    requires at == |r| > 0 && src == []
    ensures Spliced(r, at, src) == r == Written(r, 0, src)
  {
  }

  /** The two pieces of a copy that reaches past the end. */
  lemma CopiedToEnd(r: seq<Byte>, at: nat, src: seq<Byte>)
    requires at <= |r| < at + |src| && |src| <= |r|
    ensures var copy := |r| - at;
            var first := Spliced(r, at, src[..copy]);
            |first| == |r| && Written(first, 0, src[copy..]) == Written(r, Wrap(|r|, at), src)
  {
    hide Written;
    var copy := |r| - at;
    if at == |r| {
      SplicedNothing(r, at, src[..0]);
      assert src[0..] == src;
    } else {
      SplicedIsWritten(r, at, src[..copy]);
      WrittenTwice(r, at, src[..copy], src[copy..]);
      assert src[..copy] + src[copy..] == src;
    }
  }

  /** Copies in one piece, or in two if the data reaches past the end of the ring. */
  method CopyWrapped(ring: array<Byte>, at: nat, src: seq<Byte>) returns (wqe: nat)
    requires at <= ring.Length && 0 < ring.Length && |src| <= ring.Length
    modifies ring
    ensures wqe <= ring.Length
    ensures Wrap(ring.Length, wqe) == Wrap(ring.Length, Wrap(ring.Length, at) + |src|)
    ensures ring[..] == Written(old(ring[..]), Wrap(ring.Length, at), src)
  {
    hide Written, Spliced;
    ghost var r, n := ring[..], ring.Length;
    var addr, len := src, |src|;
    wqe := at;
    if wqe + len > ring.Length {
      var copy := ring.Length - wqe;
      MemCpy(ring, wqe, addr[..copy]);
      CopiedToEnd(r, at, src);
      addr := addr[copy..];
      len := len - copy;
      wqe := 0;
    }
    if wqe == n { SplicedNothing(ring[..], n, addr); } else { SplicedIsWritten(ring[..], wqe, addr); }
    MemCpy(ring, wqe, addr);
    wqe := wqe + len;
  }

  function Concat(entries: seq<seq<Byte>>): seq<Byte> {
    if entries == [] then [] else Concat(entries[..|entries| - 1]) + entries[|entries| - 1]
  }

  /** A 32-bit number as four bytes, the highest first. */
  function BigEndian(x: nat): (b: seq<Byte>)
    requires x < 0x1_0000_0000
    ensures |b| == 4
  {
    [x / 0x100_0000, x / 0x1_0000 % 0x100, x / 0x100 % 0x100, x % 0x100]
  }

  function FromBigEndian(b: seq<Byte>): nat
    requires |b| == 4
  {
    b[0] as int * 0x100_0000 + b[1] as int * 0x1_0000 + b[2] as int * 0x100 + b[3]
  }

  lemma BigEndianRoundTrip(x: nat)
    requires x < 0x1_0000_0000
    ensures FromBigEndian(BigEndian(x)) == x
  {
    assert x / 0x1_0000 == x / 0x100_0000 * 0x100 + x / 0x1_0000 % 0x100;
    assert x / 0x100 == x / 0x1_0000 * 0x100 + x / 0x100 % 0x100;
  }

  /** How many entries fit before the sum of their lengths passes `max`. */
  function Fitting(entries: seq<seq<Byte>>, max: nat): (k: nat)
    ensures k <= |entries| && |Concat(entries[..k])| <= max
    ensures k < |entries| ==> |Concat(entries[..k + 1])| > max
  {
    if entries == [] then 0
    else
      var n := |entries|;
      var k := Fitting(entries[..n - 1], max);
      assert entries[..n] == entries && entries[..n - 1][..k] == entries[..k];
      assert k < n - 1 ==> entries[..n - 1][..k + 1] == entries[..k + 1];
      if k < n - 1 || |Concat(entries)| > max then k else n
  }

  /** A header written in front of data that is there already. */
  lemma HeaderInFront(r: seq<Byte>, seg: nat, header: seq<Byte>, data: seq<Byte>)
    requires seg < |r| && |header| + |data| <= |r| && 0 < |header|
    ensures Written(Written(r, Wrap(|r|, seg + |header|), data), seg, header) == Written(r, seg, header + data)
  {
    var n, q := |r|, Wrap(|r|, seg + |header|);
    forall k | 0 <= k < n
      ensures Written(Written(r, q, data), seg, header)[k] == Written(r, seg, header + data)[k]
    {
      var i, j := Behind(n, seg, k), Behind(n, q, k);
      assert i == (if j + |header| < n then j + |header| else j + |header| - n);
    }
  }

  /** Gathers the entries behind a four-byte header at `seg`.  The header with the length goes in last; when the data is
      too long, the entries before the one that passes the limit have been written. */
  method SetDataInlSeg(ring: array<Byte>, seg: nat, entries: seq<seq<Byte>>, maxInline: nat) returns (ok: bool, sz: nat)
    requires seg + 4 <= ring.Length && maxInline + 4 <= ring.Length && maxInline < MLX5_INLINE_SEG
    modifies ring
    ensures ok <==> |Concat(entries)| <= maxInline
    ensures ok ==>
      ring[..] == Written(old(ring[..]), seg, BigEndian(MLX5_INLINE_SEG + |Concat(entries)|) + Concat(entries))
    ensures ok ==> 16 * sz - 16 < |Concat(entries)| + 4 <= 16 * sz
    ensures !ok ==>
      ring[..] == Written(old(ring[..]), Wrap(ring.Length, seg + 4), Concat(entries[..Fitting(entries, maxInline)]))
  {
    hide Written, Concat, Fitting;
    ghost var r, pos, k := ring[..], Wrap(ring.Length, seg + 4), Fitting(entries, maxInline);
    var wqe: nat, inl: nat, i := seg + 4, 0, 0;
    ConcatNothing(entries);
    WrittenNothing(r, pos);
    sz := 0;
    while i < |entries|
      invariant 0 <= i <= |entries| && inl == |Concat(entries[..i])| <= maxInline && i <= k
      invariant wqe <= ring.Length && Wrap(ring.Length, wqe) == Wrap(ring.Length, pos + inl)
      invariant ring[..] == Written(r, pos, Concat(entries[..i]))
    {
      var len := |entries[i]|;
      inl := inl + len;
      ConcatNext(entries, i);
      FittingIs(entries, maxInline, i);
      if inl > maxInline {
        return false, 0;
      }
      wqe := CopyWrapped(ring, wqe, entries[i]);
      WrittenTwice(r, pos, Concat(entries[..i]), entries[i]);
      i := i + 1;
    }
    assert entries[..i] == entries;
    ghost var data := ring[..];
    var header := BigEndian(MLX5_INLINE_SEG + inl);
    var end := CopyWrapped(ring, seg, header);
    HeaderInFront(r, seg, header, Concat(entries));
    sz := (inl + 4 + 15) / 16;
    ok := true;
  }

  lemma ConcatNothing(entries: seq<seq<Byte>>)
    ensures Concat(entries[..0]) == []
  {
  }

  lemma ConcatNext(entries: seq<seq<Byte>>, i: nat)
    requires i < |entries|
    ensures Concat(entries[..i + 1]) == Concat(entries[..i]) + entries[i]
  {
    assert entries[..i + 1][..i] == entries[..i];
  }

  lemma {:induction false} ConcatGrows(entries: seq<seq<Byte>>, i: nat, j: nat)
    requires i <= j <= |entries|
    ensures |Concat(entries[..i])| <= |Concat(entries[..j])|
    decreases j
  {
    if i < j {
      ConcatGrows(entries, i, j - 1);
      ConcatNext(entries, j - 1);
    }
  }

  /** The entry behind `i` that fit is the one that passes the limit exactly when it does. */
  lemma FittingIs(entries: seq<seq<Byte>>, max: nat, i: nat)
    requires i < |entries| && i <= Fitting(entries, max)
    ensures |Concat(entries[..i + 1])| > max <==> Fitting(entries, max) == i
    ensures |Concat(entries[..i + 1])| > max ==> |Concat(entries)| > max
  {
    hide Concat, Fitting;
    var k := Fitting(entries, max);
    if k > i { ConcatGrows(entries, i + 1, k); }
    ConcatGrows(entries, i + 1, |entries|);
    assert entries[..|entries|] == entries;
  }

  /** The second inline segment, without a header. */
  method SetRegUmrInlineSeg(ring: array<Byte>, seg: nat, descs: seq<Byte>, size: nat)
    requires seg < ring.Length && size <= |descs| && size <= ring.Length
    modifies ring
    ensures ring[..] == Written(old(ring[..]), seg, descs[..size])
  {
    var end := CopyWrapped(ring, seg, descs[..size]);
  }

  // ---------------------------------------------------------------- reading an entry

  /** Where a queue lies in the user's buffer: `cnt` entries of `stride` bytes from `offset` on. */
  datatype Queue = Queue(offset: nat, cnt: nat, stride: nat)

  /** `Overrun`: bytes that are there to be read go past the end of the buffer they are read into, which the code leaves
      to its caller. */
  datatype ReadResult = Bytes(n: nat) | Failed | Overrun

  const CTRL_SEG := 16
  const DS_UNITS := 16

  /** What a copy of `length` bytes to byte `at` of a buffer comes to: it looks at the user's memory first. */
  function CopyResult(umem: seq<Byte>, offset: nat, length: nat, at: nat, room: nat): ReadResult {
    if offset + length > |umem| then Failed else if at + length > room then Overrun else Bytes(at + length)
  }

  method CopyFrom(buffer: array<Byte>, at: nat, umem: seq<Byte>, offset: nat, length: nat) returns (r: ReadResult)
    modifies buffer
    ensures r == CopyResult(umem, offset, length, at, buffer.Length)
    ensures r.Bytes? ==> buffer[..] == Spliced(old(buffer[..]), at, umem[offset..offset + length])
    ensures !r.Bytes? ==> buffer[..] == old(buffer[..])
  {
    if offset + length > |umem| {
      return Failed;
    }
    if at + length > buffer.Length {
      return Overrun;
    }
    MemCpy(buffer, at, umem[offset..offset + length]);
    r := Bytes(at + length);
  }

  /** The bytes of the queue. */
  function Region(umem: seq<Byte>, wq: Queue): seq<Byte>
    requires wq.offset + wq.stride * wq.cnt <= |umem|
  {
    umem[wq.offset..wq.offset + wq.stride * wq.cnt]
  }

  /** Where the entry starts in the queue. */
  function Start(wq: Queue, index: nat): (rel: nat)
    requires 0 < wq.cnt && 0 < wq.stride
    ensures rel + wq.stride <= wq.stride * wq.cnt
  {
    Below(wq.stride, index % wq.cnt, wq.cnt);
    wq.stride * (index % wq.cnt)
  }

  function Min(a: int, b: int): int { if a < b then a else b }

  /** How much of an entry the first copy can hold: up to the end of the queue, or of the buffer. */
  function FirstLength(wq: Queue, index: nat, length: nat): (first: nat)
    requires 0 < wq.cnt && 0 < wq.stride
    ensures first == Min(length, wq.stride * wq.cnt - Start(wq, index))
    ensures Min(length, wq.stride) <= first <= length
  {
    var offset := wq.offset + Start(wq, index);
    Min(offset + length, wq.offset + wq.stride * wq.cnt) - offset
  }

  /** The buffer is long enough for a control segment, and the first copy lies in the user's memory. */
  predicate Readable(umem: seq<Byte>, wq: Queue, send: bool, index: nat, length: nat)
    requires 0 < wq.stride
  {
    && 0 < wq.cnt && (send ==> CTRL_SEG <= length && wq.offset + Start(wq, index) + CTRL_SEG <= |umem|)
    && wq.offset + Start(wq, index) + FirstLength(wq, index, length) <= |umem|
  }

  /** The length of an entry: a send entry has it in its control segment, in units of 16 bytes. */
  function EntryLength(umem: seq<Byte>, wq: Queue, send: bool, index: nat): nat
    requires 0 < wq.cnt && 0 < wq.stride && (send ==> wq.offset + Start(wq, index) + CTRL_SEG <= |umem|)
  {
    if send then umem[wq.offset + Start(wq, index) + 7] as int % 64 * DS_UNITS else wq.stride
  }

  /** An entry of a queue that lies in the user's memory can be read if and only if there is one and, for a send queue, the
      buffer has room for the 16 bytes of a control segment. */
  lemma ReadableIff(umem: seq<Byte>, wq: Queue, send: bool, index: nat, length: nat)
    requires 0 < wq.stride && (send ==> 16 <= wq.stride) && wq.offset + wq.stride * wq.cnt <= |umem|
    ensures Readable(umem, wq, send, index, length) <==> wq.cnt > 0 && (send ==> 16 <= length)
  {
    hide Start;
  }

  /** The control segment has two words; the low six bits of the second, stored with its highest byte first, are the length
      of a send entry in units of 16 bytes. */
  lemma LengthFromControl(umem: seq<Byte>, wq: Queue, index: nat, seg: seq<Byte>)
    requires 0 < wq.cnt && 0 < wq.stride && wq.offset + Start(wq, index) + CTRL_SEG <= |umem|
    requires seg == umem[wq.offset + Start(wq, index)..][..CTRL_SEG]
    ensures EntryLength(umem, wq, true, index) == FromBigEndian(seg[4..8]) % 64 * 16
    ensures EntryLength(umem, wq, true, index) <= 63 * 16
  {
    hide Start;
    var word := seg[4..8];
    var high := word[0] as int * 0x4_0000 + word[1] as int * 0x400 + word[2] as int * 4;
    assert FromBigEndian(word) == 64 * high + word[3] as int;
    assert word[3] == umem[wq.offset + Start(wq, index) + 7];
  }

  /** Two pieces in a row are what a wrapped read returns. */
  lemma TwoPieces(r: seq<Byte>, pos: nat, first: nat, n: nat)
    requires pos < |r| && first <= |r| - pos && n <= |r| && (n <= first || first == |r| - pos)
    ensures n <= first ==> r[pos..pos + n] == ReadAt(r, pos, n)
    ensures n > first ==> r[pos..pos + first] + r[..n - first] == ReadAt(r, pos, n)
  {
    var d := ReadAt(r, pos, n);
    if n <= first {
      forall i | 0 <= i < n ensures r[pos..pos + n][i] == d[i] { assert Wrap(|r|, pos + i) == pos + i; }
    } else {
      var two := r[pos..pos + first] + r[..n - first];
      forall i | 0 <= i < n ensures two[i] == d[i] { assert d[i] == r[Wrap(|r|, pos + i)]; }
    }
  }

  lemma Inside(umem: seq<Byte>, offset: nat, n: nat, rel: nat, k: nat)
    requires offset + n <= |umem| && rel + k <= n
    ensures umem[offset..offset + n][rel..rel + k] == umem[offset + rel..offset + rel + k]
  {
    var a, b := umem[offset..offset + n][rel..rel + k], umem[offset + rel..offset + rel + k];
    forall i | 0 <= i < k ensures a[i] == b[i] { assert umem[offset..offset + n][rel + i] == umem[offset + (rel + i)]; }
  }

  /** The tests, and the copy up to the end of the queue or of the buffer. */
  method ReadFirst(umem: seq<Byte>, wq: Queue, send: bool, index: nat, buffer: array<Byte>) returns (ok: bool, first: nat)
    requires 0 < wq.stride
    modifies buffer
    ensures ok == Readable(umem, wq, send, index, buffer.Length)
    ensures !ok ==> buffer[..] == old(buffer[..])
    ensures ok ==> first == FirstLength(wq, index, buffer.Length)
    ensures ok ==> var offset := wq.offset + Start(wq, index); buffer[..first] == umem[offset..offset + first]
  {
    var length := buffer.Length;
    first := 0;
    if wq.cnt == 0 {
      return false, 0;
    }
    var offset, end := wq.offset + Start(wq, index), wq.offset + wq.stride * wq.cnt;
    if send && length < CTRL_SEG {
      return false, 0;
    }
    if offset > |umem| || (send && offset + CTRL_SEG > |umem|) {
      return false, 0;
    }
    first := Min(offset + length, end) - offset;
    var r := CopyFrom(buffer, 0, umem, offset, first);
    ok := r.Bytes?;
  }

  /** The second copy, from the start of the queue. */
  method ReadRest(umem: seq<Byte>, wq: Queue, first: nat, need: nat, buffer: array<Byte>) returns (r: ReadResult)
    requires first < need && first <= buffer.Length
    modifies buffer
    ensures buffer[..first] == old(buffer[..first])
    ensures r == CopyResult(umem, wq.offset, need - first, first, buffer.Length)
    ensures r.Bytes? ==> buffer[first..need] == umem[wq.offset..wq.offset + (need - first)]
  {
    r := CopyFrom(buffer, first, umem, wq.offset, need - first);
  }

  /** Reads the entry with the given index into a buffer: what the first copy holds and, if the entry is longer, the
      rest from the start of the queue.  `n` also counts what was read behind a short entry. */
  method ReadUserWqe(umem: seq<Byte>, wq: Queue, send: bool, index: nat, buffer: array<Byte>) returns (r: ReadResult)
    requires 0 < wq.stride && (send ==> CTRL_SEG <= wq.stride)
    modifies buffer
    ensures !Readable(umem, wq, send, index, buffer.Length) ==> r == Failed && buffer[..] == old(buffer[..])
    ensures Readable(umem, wq, send, index, buffer.Length) ==>
      var offset, first := wq.offset + Start(wq, index), FirstLength(wq, index, buffer.Length);
      var need := EntryLength(umem, wq, send, index);
      && buffer[..first] == umem[offset..offset + first]
      && r == (if need <= first then Bytes(first)
               else CopyResult(umem, wq.offset, need - first, first, buffer.Length))
      && (first < need && r.Bytes? ==> buffer[first..need] == umem[wq.offset..wq.offset + (need - first)])
  {
    hide Start;
    var ok, first := ReadFirst(umem, wq, send, index, buffer);
    if !ok {
      return Failed;
    }
    var need := wq.stride;
    if send {
      assert buffer[7] == buffer[..first][7];
      need := buffer[7] as int % 64 * DS_UNITS;
    }
    if need <= first {
      return Bytes(first);
    }
    r := ReadRest(umem, wq, first, need, buffer);
  }

  /** An entry of a queue in the user's memory, no longer than the queue, comes out contiguous: the copies hold its
      bytes going round the ring, however it lies there. */
  lemma EntryComesOut(umem: seq<Byte>, wq: Queue, index: nat, length: nat, need: nat)
    requires 0 < wq.cnt && 0 < wq.stride && wq.offset + wq.stride * wq.cnt <= |umem|
    requires need <= length && need <= wq.stride * wq.cnt
    ensures var offset, first := wq.offset + Start(wq, index), FirstLength(wq, index, length);
            var entry := ReadAt(Region(umem, wq), Start(wq, index), need);
            && offset + first <= |umem|
            && (need <= first ==> umem[offset..offset + first][..need] == entry)
            && (need > first ==>
                  umem[offset..offset + first] + umem[wq.offset..wq.offset + (need - first)] == entry)
  {
    hide ReadAt, Start;
    if need <= FirstLength(wq, index, length) {
      OnePieceOut(umem, wq, Start(wq, index), FirstLength(wq, index, length), need);
    } else {
      TwoPiecesOut(umem, wq, Start(wq, index), FirstLength(wq, index, length), need);
    }
  }

  lemma OnePieceOut(umem: seq<Byte>, wq: Queue, rel: nat, first: nat, need: nat)
    requires wq.offset + wq.stride * wq.cnt <= |umem| && need <= first && rel < wq.stride * wq.cnt
    requires rel + first <= wq.stride * wq.cnt
    ensures umem[wq.offset + rel..wq.offset + rel + first][..need] == ReadAt(Region(umem, wq), rel, need)
  {
    hide ReadAt;
    var offset := wq.offset + rel;
    Inside(umem, wq.offset, wq.stride * wq.cnt, rel, need);
    TwoPieces(Region(umem, wq), rel, first, need);
    Inside(umem, offset, first, 0, need);
  }

  lemma TwoPiecesOut(umem: seq<Byte>, wq: Queue, rel: nat, first: nat, need: nat)
    requires wq.offset + wq.stride * wq.cnt <= |umem| && first < need <= wq.stride * wq.cnt
    requires rel < wq.stride * wq.cnt && rel + first == wq.stride * wq.cnt
    ensures umem[wq.offset + rel..wq.offset + rel + first] + umem[wq.offset..wq.offset + (need - first)]
         == ReadAt(Region(umem, wq), rel, need)
  {
    hide ReadAt;
    Inside(umem, wq.offset, wq.stride * wq.cnt, rel, first);
    TwoPieces(Region(umem, wq), rel, first, need);
    Inside(umem, wq.offset, wq.stride * wq.cnt, 0, need - first);
  }

  /** What is gathered into a ring is what a read of the entry around it returns, and every byte elsewhere in the ring
      is as before. */
  lemma GatherThenRead(ring: seq<Byte>, start: nat, i: nat, data: seq<Byte>, n: nat)
    requires start < |ring| && i < |ring| && |data| < MLX5_INLINE_SEG && i + 4 + |data| <= n <= |ring|
    ensures var header := BigEndian(MLX5_INLINE_SEG + |data|);
            var entry := ReadAt(Written(ring, Wrap(|ring|, start + i), header + data), start, n);
            entry[i + 4..i + 4 + |data|] == data && FromBigEndian(entry[i..i + 4]) - MLX5_INLINE_SEG == |data|
    ensures var seg, header := Wrap(|ring|, start + i), BigEndian(MLX5_INLINE_SEG + |data|);
            forall k :: 0 <= k < |ring| && |data| + 4 <= Behind(|ring|, seg, k)
              ==> Written(ring, seg, header + data)[k] == ring[k]
  {
    hide Written, BigEndian, FromBigEndian;
    var header := BigEndian(MLX5_INLINE_SEG + |data|);
    BigEndianRoundTrip(MLX5_INLINE_SEG + |data|);
    ReadWritten(ring, start, i, header + data, n);
    var entry := ReadAt(Written(ring, Wrap(|ring|, start + i), header + data), start, n);
    assert entry[i..i + 4] == (header + data)[..4] == header;
    assert entry[i + 4..i + 4 + |data|] == (header + data)[4..] == data;
    var seg := Wrap(|ring|, start + i);
    forall k | 0 <= k < |ring| && |data| + 4 <= Behind(|ring|, seg, k)
      ensures Written(ring, seg, header + data)[k] == ring[k]
    {
      WrittenFrame(ring, seg, header + data, k);
    }
  }
}
