/**
  The run-length compressor of the lp8000 printer driver.  A lone byte stands for itself; a run is written as
  "byte, byte, extra count" triples of at most 257 bytes each.
*/
module RunLength {
  type Byte = x: int | 0 <= x < 256

  function Repeat(b: Byte, n: nat): seq<Byte> { seq(n, _ => b) }

  /** The length of the maximal run at the start of `s`. */
  function RunLen(s: seq<Byte>): (n: nat)
    requires s != []
    ensures 1 <= n <= |s|
  {
    if |s| == 1 || s[1] != s[0] then 1 else 1 + RunLen(s[1..])
  }

  /** The triples for `n` more bytes `b`. */
  function Triples(b: Byte, n: nat): seq<Byte>
    requires n >= 1
  {
    if n > 257 then [b, b, 255] + Triples(b, n - 257) else [b, b, (n - 2) % 256]
  }

  function Token(b: Byte, n: nat): seq<Byte>
    requires n >= 1
  {
    if n == 1 then [b] else Triples(b, n)
  }

  function Encode(s: seq<Byte>): seq<Byte>
    decreases |s|
  {
    if s == [] then [] else var n := RunLen(s); Token(s[0], n) + Encode(s[n..])
  }

  /** What the printer makes of the data. */
  function Decode(t: seq<Byte>): seq<Byte> {
    if t == [] then []
    else if |t| >= 3 && t[1] == t[0] then Repeat(t[0], t[2] as int + 2) + Decode(t[3..])
    else [t[0]] + Decode(t[1..])
  }

  // ---------------------------------------------------------------- the compressor

  lemma {:induction false} RunLenIs(s: seq<Byte>, n: nat)
    requires 1 <= n <= |s| && (forall j :: 0 <= j < n ==> s[j] == s[0]) && (n < |s| ==> s[n] != s[0])
    ensures RunLen(s) == n
    decreases n
  {
    if n > 1 { RunLenIs(s[1..], n - 1); }
  }

  /** Counts the bytes equal to `line[p]` from `p` on, given that `line[p + 1]` is one. */
  method CountRun(line: seq<Byte>, p: nat) returns (q: nat, count: nat)
    requires p + 2 <= |line| && line[p + 1] == line[p]
    ensures p + 2 <= q <= |line| && count == q - p == RunLen(line[p..])
  {
    q, count := p + 2, 2;
    while q < |line| && line[p] == line[q]
      invariant p + 2 <= q <= |line| && count == q - p
      invariant forall j :: p <= j < q ==> line[j] == line[p]
    {
      q, count := q + 1, count + 1;
    }
    RunLenIs(line[p..], count);
  }

  /** Writes the triples of a run of `run` bytes `b` behind `out`. */
  method EmitRun(out: seq<Byte>, b: Byte, run: nat) returns (done: seq<Byte>)
    requires run >= 1
    ensures done == out + Triples(b, run)
  {
    var count := run;
    done := out;
    while count > 257
      invariant 1 <= count <= run
      invariant done + Triples(b, count) == out + Triples(b, run)
    {
      assert done + Triples(b, count) == done + [b, b, 255] + Triples(b, count - 257);
      done := done + [b, b, 255];
      count := count - 257;
    }
    done := done + [b, b, (count - 2) % 256];
  }

  lemma EncodeHead(s: seq<Byte>, n: nat, out: seq<Byte>)
    requires s != [] && n == RunLen(s)
    ensures out + Encode(s) == out + Token(s[0], n) + Encode(s[n..])
  {
    assert out + (Token(s[0], n) + Encode(s[n..])) == out + Token(s[0], n) + Encode(s[n..]);
  }

  method Compress(line: seq<Byte>) returns (out: seq<Byte>)
    ensures out == Encode(line)
  {
    hide Encode, Triples, RunLen;
    var p, q := 0, 1;
    out := [];
    assert line[0..] == line;
    while q < |line|
      invariant 0 <= p <= |line| && q == p + 1
      invariant out + Encode(line[p..]) == Encode(line)
      decreases |line| - p
    {
      q := q + 1;
      if line[p] != line[q - 1] {
        RunLenIs(line[p..], 1);
        EncodeHead(line[p..], 1, out);
        assert line[p..][1..] == line[p + 1..];
        out := out + [line[p]];
        p := p + 1;
      } else {
        var count: nat;
        q, count := CountRun(line, p);
        EncodeHead(line[p..], count, out);
        assert line[p..][count..] == line[p + count..];
        out := EmitRun(out, line[p], count);
        p := p + count;
        q := p + 1;
      }
    }
    assert Encode([]) == [] by { EncodeNil(); }
    if p == |line| - 1 {
      RunLenIs(line[p..], 1);
      EncodeHead(line[p..], 1, out);
      assert line[p..][1..] == [];
      out := out + [line[p]];
    } else {
      assert line[p..] == [];
    }
  }

  lemma EncodeNil()
    ensures Encode([]) == []
  {
  }

  // ---------------------------------------------------------------- round trip

  /** A run of 257k + 1 bytes, k >= 1, ends in a triple for one byte, whose count wraps round to 255. */
  predicate Wraps(n: nat) { n > 1 && n % 257 == 1 }

  /** The line with every such run 256 bytes longer. */
  function Stretch(s: seq<Byte>): seq<Byte>
    decreases |s|
  {
    if s == [] then []
    else var n := RunLen(s); Repeat(s[0], if Wraps(n) then n + 256 else n) + Stretch(s[n..])
  }

  lemma DecodeTriple(b: Byte, e: Byte, rest: seq<Byte>)
    ensures Decode([b, b, e] + rest) == Repeat(b, e as int + 2) + Decode(rest)
  {
    assert ([b, b, e] + rest)[3..] == rest;
  }

  /** The length at which `n` bytes written as triples come back. */
  function Grown(n: nat): nat { if n % 257 == 1 then n + 256 else n }

  lemma GrownStep(n: nat)
    requires n >= 1
    ensures if n > 257 then Grown(n) == 257 + Grown(n - 257) else Grown(n) == (n - 2) % 256 + 2
  {
    if n > 257 {
      assert (n - 257) % 257 == n % 257;
    } else if n == 257 {
      assert (n - 2) % 256 == 255;
    }
  }

  lemma {:induction false} DecodeTriples(b: Byte, n: nat, rest: seq<Byte>)
    requires n >= 1
    ensures Decode(Triples(b, n) + rest) == Repeat(b, Grown(n)) + Decode(rest)
    decreases n
  {
    hide Decode, Grown;
    GrownStep(n);
    if n > 257 {
      var tail := Triples(b, n - 257) + rest;
      assert Triples(b, n) + rest == [b, b, 255] + tail;
      DecodeTriple(b, 255, tail);
      DecodeTriples(b, n - 257, rest);
      assert Repeat(b, Grown(n)) == Repeat(b, 257) + Repeat(b, Grown(n - 257));
      assert Repeat(b, 257) + (Repeat(b, Grown(n - 257)) + Decode(rest))
          == Repeat(b, 257) + Repeat(b, Grown(n - 257)) + Decode(rest);
    } else {
      DecodeTriple(b, (n - 2) % 256, rest);
    }
  }

  lemma {:induction false} RunLenEnds(s: seq<Byte>)
    requires s != []
    ensures RunLen(s) < |s| ==> s[RunLen(s)] != s[0]
    ensures forall j :: 0 <= j < RunLen(s) ==> s[j] == s[0]
  {
    if RunLen(s) > 1 { RunLenEnds(s[1..]); }
  }

  lemma EncodeStarts(s: seq<Byte>)
    requires s != []
    ensures Encode(s) != [] && Encode(s)[0] == s[0]
  {
  }

  /** Decoding the compressed line gives the line back, except that the runs whose count wraps grow by 256. */
  lemma {:induction false} RoundTrip(s: seq<Byte>)
    ensures Decode(Encode(s)) == Stretch(s)
    decreases |s|
  {
    if s != [] {
      var n := RunLen(s);
      RoundTrip(s[n..]);
      if n > 1 {
        DecodeTriples(s[0], n, Encode(s[n..]));
      } else {
        RunLenEnds(s);
        if s[1..] != [] { EncodeStarts(s[1..]); }
        assert Encode(s)[1..] == Encode(s[1..]);
      }
    }
  }

  /** `n` equal bytes at `i` that cannot be extended on either side. */
  predicate MaximalRun(s: seq<Byte>, i: nat, n: nat) {
    && n >= 1 && i + n <= |s|
    && (forall j :: i <= j < i + n ==> s[j] == s[i])
    && (i > 0 ==> s[i - 1] != s[i])
    && (i + n < |s| ==> s[i + n] != s[i])
  }

  ghost predicate NoRunWraps(s: seq<Byte>) {
    forall i, n :: MaximalRun(s, i, n) ==> !Wraps(n)
  }

  /** A run that does not start the line, seen in the line without its first `r` bytes. */
  lemma RunShift(s: seq<Byte>, r: nat, i: nat, n: nat)
    requires 1 <= r <= i && r <= |s| && (r < |s| ==> s[r] != s[r - 1])
    ensures MaximalRun(s, i, n) <==> MaximalRun(s[r..], i - r, n)
  {
    var t := s[r..];
    if MaximalRun(t, i - r, n) {
      assert forall j :: i <= j < i + n ==> s[j] == t[j - r];
    }
  }

  lemma FirstRun(s: seq<Byte>, i: nat, n: nat)
    requires s != []
    ensures MaximalRun(s, 0, RunLen(s))
    ensures MaximalRun(s, i, n) ==> if i == 0 then n == RunLen(s)
                                    else i >= RunLen(s) && MaximalRun(s[RunLen(s)..], i - RunLen(s), n)
    ensures i >= RunLen(s) && MaximalRun(s[RunLen(s)..], i - RunLen(s), n) ==> MaximalRun(s, i, n)
  {
    hide RunLen;
    RunLenEnds(s);
    var r := RunLen(s);
    if MaximalRun(s, i, n) && i == 0 { RunLenIs(s, n); }
    if i >= r { RunShift(s, r, i, n); }
  }

  lemma NoRunWrapsHead(s: seq<Byte>)
    requires s != []
    ensures NoRunWraps(s) <==> !Wraps(RunLen(s)) && NoRunWraps(s[RunLen(s)..])
  {
    hide RunLen, MaximalRun;
    var r := RunLen(s);
    FirstRun(s, 0, r);
    forall i: nat, n: nat | MaximalRun(s, i, n)
      ensures if i == 0 then n == r else i >= r && MaximalRun(s[r..], i - r, n)
    {
      FirstRun(s, i, n);
    }
    forall i: nat, n: nat | MaximalRun(s[r..], i, n)
      ensures MaximalRun(s, i + r, n)
    {
      FirstRun(s, i + r, n);
    }
  }

  lemma {:induction false} StretchGrows(s: seq<Byte>)
    ensures |Stretch(s)| >= |s|
    ensures NoRunWraps(s) <==> |Stretch(s)| == |s|
    ensures NoRunWraps(s) ==> Stretch(s) == s
    decreases |s|
  {
    hide NoRunWraps, Wraps;
    if s == [] {
      NoRunWrapsNil();
    } else {
      var r := RunLen(s);
      StretchGrows(s[r..]);
      NoRunWrapsHead(s);
      RunLenEnds(s);
      assert s == Repeat(s[0], r) + s[r..];
    }
  }

  lemma NoRunWrapsNil()
    ensures NoRunWraps([])
  {
  }

  /** The compressor is lossless exactly on the lines without a maximal run of length 257k + 1, k >= 1. */
  lemma LosslessIff(s: seq<Byte>)
    ensures Decode(Encode(s)) == s <==> NoRunWraps(s)
  {
    RoundTrip(s);
    StretchGrows(s);
  }

  // ---------------------------------------------------------------- size

  lemma {:induction false} TriplesSize(b: Byte, n: nat)
    requires n >= 1
    ensures 2 * |Triples(b, n)| <= 3 * n + 3 && (n > 1 ==> 2 * |Triples(b, n)| <= 3 * n)
    decreases n
  {
    if n > 257 { TriplesSize(b, n - 257); }
  }

  /** The output is at most half as long again as the line. */
  lemma {:induction false} SizeBound(s: seq<Byte>)
    ensures 2 * |Encode(s)| <= 3 * |s|
    decreases |s|
  {
    if s != [] {
      var n := RunLen(s);
      if n > 1 { TriplesSize(s[0], n); }
      SizeBound(s[n..]);
    }
  }

  /** The bound is reached: pairs of equal bytes take three bytes each. */
  lemma {:induction false} SizeBoundIsTight(k: nat) returns (s: seq<Byte>)
    ensures |s| == 2 * k && |Encode(s)| == 3 * k
    ensures s != [] ==> s[0] == k % 2
  {
    s := [];
    if k > 0 {
      var rest := SizeBoundIsTight(k - 1);
      s := [k % 2, k % 2] + rest;
      RunLenIs(s, 2);
      assert s[2..] == rest;
    }
  }
}
