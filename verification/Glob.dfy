/**
  The glob matcher SubMatch / WildMatch (case-sensitive, without `[...]` classes).

  A pattern pointer is given by the text `w` from it to the end of the pattern, and `m`, the distance from it
  to `eop`; a name pointer by the text `s` from it to the end of the name.  The result is the number of
  characters of the name that the pattern consumed.
*/
module Glob {
  import opened Wrappers

  function Plus(k: nat, r: Option<nat>): Option<nat> {
    match r case Some(n) => Some(k + n) case None => None
  }

  predicate NoClass(w: string) { forall i :: 0 <= i < |w| ==> w[i] != '[' }

  /** The end of the alternative that starts at `p`. */
  function NextSep(w: string, p: nat): (e: nat)
    requires p <= |w|
    ensures p <= e <= |w|
    decreases |w| - p
  {
    if p == |w| || w[p] == '}' || w[p] == ',' then p else NextSep(w, p + 1)
  }

  function CloseBrace(w: string, c: nat, m: int): (e: nat)
    requires c <= |w|
    ensures c <= e <= |w|
    decreases |w| - c
  {
    if c == |w| || w[c] == '}' || c >= m then c else CloseBrace(w, c + 1, m)
  }

  /** SubMatch. */
  function Sub(w: string, m: int, s: string): (r: Option<nat>)
    requires NoClass(w)
    ensures r.Some? ==> r.value <= |s|
    decreases |w|, 2, 0
  {
    if m <= 0 || w == "" then Some(0)
    else if w[0] == '*' then
      if |w| == 1 then Some(|s|) else Star(w, m, s, 0)
    else if w[0] == '{' then Alts(w, m, s, 1)
    else if s != "" && (w[0] == '?' || w[0] == s[0]) then Plus(1, Sub(w[1..], m - 1, s[1..]))
    else None
  }

  /** The loop over the places where the rest of the pattern may start after a star. */
  function Star(w: string, m: int, s: string, k: nat): (r: Option<nat>)
    requires NoClass(w) && w != "" && k <= |s|
    ensures r.Some? ==> r.value <= |s|
    decreases |w|, 1, |s| - k
  {
    var r := Sub(w[1..], m - 1, s[k..]);
    if r.Some? then Plus(k, r) else if k == |s| then None else Star(w, m, s, k + 1)
  }

  /** SubMatch from the closing brace at `c`. */
  function AfterBrace(w: string, c: nat, m: int, s: string): (r: Option<nat>)
    requires NoClass(w) && w != "" && c <= |w|
    ensures r.Some? ==> r.value <= |s|
    decreases |w|, 0, 0
  {
    if c < |w| then Sub(w[c + 1..], m - (c + 1), s) else Some(0)
  }

  /** The loop over the alternatives; `p` is where the next one starts. */
  function Alts(w: string, m: int, s: string, p: nat): (r: Option<nat>)
    requires NoClass(w) && w != "" && 1 <= p <= |w|
    ensures r.Some? ==> r.value <= |s|
    decreases |w|, 1, |w| - p
  {
    if p == |w| then Sub(w[1..], m - 1, s)
    else
      var e := NextSep(w, p);
      var first := Sub(w[p..], e - p, s);
      var hit := if first.Some? then Plus(first.value, AfterBrace(w, CloseBrace(w, e, m), m, s[first.value..])) else None;
      if hit.Some? then hit
      else if e == |w| then Alts(w, m, s, e)
      else if w[e] == '}' then None
      else Alts(w, m, s, e + 1)
  }

  function WildMatch(pattern: string, name: string): bool
    requires NoClass(pattern)
  {
    Sub(pattern, |pattern|, name) == Some(|name|)
  }

  /** An opening brace that is neither closed nor followed by a comma is skipped. */
  lemma UnclosedIsSkipped(u: string, s: string)
    requires NoClass(u) && '}' !in u && ',' !in u
    ensures NoClass("{" + u) && Sub("{" + u, |u| + 1, s) == Sub(u, |u|, s)
  {
    var w := "{" + u;
    assert w[1..] == u && forall i :: 1 <= i < |w| ==> w[i] == u[i - 1];
    if u != "" {
      NoSep(w, 1);
      NoClose(w, |w|, |w|);
      assert Alts(w, |w|, s, |w|) == Sub(u, |u|, s);
      assert Alts(w, |w|, s, 1) == Sub(u, |u|, s);
    }
  }

  lemma {:induction false} NoSep(w: string, p: nat)
    requires p <= |w| && forall i :: p <= i < |w| ==> w[i] != '}' && w[i] != ','
    ensures NextSep(w, p) == |w|
    decreases |w| - p
  {
    if p < |w| { NoSep(w, p + 1); }
  }

  lemma NoClose(w: string, c: nat, m: int)
    requires c == |w|
    ensures CloseBrace(w, c, m) == |w|
  {
  }

  // ---------------------------------------------------------------- the matcher as the source runs it

  /** Pointers are indices into `pat` and `name`; the result is the index where the match ends. */
  method SubMatch(pat: string, start: nat, eop: nat, name: string, from: nat) returns (r: Option<nat>)
    requires NoClass(pat) && start <= |pat| && eop <= |pat| && from <= |name|
    ensures r == Plus(from, Sub(pat[start..], eop - start, name[from..]))
    decreases |pat| - start
  {
    hide Star, Alts;
    var p, n := start, from;
    while p < eop && p < |pat|
      invariant start <= p <= |pat| && from <= n <= |name|
      invariant Plus(from, Sub(pat[start..], eop - start, name[from..])) == Plus(n, Sub(pat[p..], eop - p, name[n..]))
      decreases |pat| - p
    {
      var ch := pat[p];
      if ch == '*' {
        if p + 1 == |pat| { return Some(|name|); }
        r := StarLoop(pat, p, eop, name, n);
        return;
      } else if ch == '?' {
        if n == |name| { return None; }
        assert pat[p..][1..] == pat[p + 1..] && name[n..][1..] == name[n + 1..];
        n := n + 1;
      } else if ch == '{' {
        var done;
        done, r := AltLoop(pat, p, eop, name, n);
        if done { return; }
        assert pat[p..][1..] == pat[p + 1..];
      } else if n < |name| && ch == name[n] {
        assert pat[p..][1..] == pat[p + 1..] && name[n..][1..] == name[n + 1..];
        n := n + 1;
      } else {
        return None;
      }
      p := p + 1;
    }
    return Some(n);
  }

  method StarLoop(pat: string, p: nat, eop: nat, name: string, n: nat) returns (r: Option<nat>)
    requires NoClass(pat) && p < |pat| && eop <= |pat| && n <= |name|
    ensures r == Plus(n, Star(pat[p..], eop - p, name[n..], 0))
    decreases |pat| - p, 0
  {
    hide Sub;
    var npt := n;
    while true
      invariant n <= npt <= |name|
      invariant Star(pat[p..], eop - p, name[n..], 0) == Star(pat[p..], eop - p, name[n..], npt - n)
      decreases |name| - npt
    {
      assert pat[p..][1..] == pat[p + 1..] && name[n..][npt - n..] == name[npt..];
      var eon := SubMatch(pat, p + 1, eop, name, npt);
      if eon.Some? { return eon; }
      if npt == |name| { return None; }
      npt := npt + 1;
    }
  }

  method FindSep(pat: string, ghost p: nat, ppt: nat) returns (ept: nat)
    requires p <= ppt <= |pat|
    ensures ppt <= ept <= |pat| && ept - p == NextSep(pat[p..], ppt - p)
  {
    ept := ppt;
    while ept < |pat| && pat[ept] != '}' && pat[ept] != ','
      invariant ppt <= ept <= |pat|
      invariant NextSep(pat[p..], ppt - p) == NextSep(pat[p..], ept - p)
    {
      ept := ept + 1;
    }
  }

  method FindClose(pat: string, ghost p: nat, ept: nat, eop: nat) returns (ecurly: nat)
    requires p <= ept <= |pat|
    ensures ept <= ecurly <= |pat| && ecurly - p == CloseBrace(pat[p..], ept - p, eop - p)
  {
    ecurly := ept;
    while ecurly < |pat| && pat[ecurly] != '}' && ecurly < eop
      invariant ept <= ecurly <= |pat|
      invariant CloseBrace(pat[p..], ept - p, eop - p) == CloseBrace(pat[p..], ecurly - p, eop - p)
    {
      ecurly := ecurly + 1;
    }
  }

  /** One turn of the loop over the alternatives. */
  lemma AltsTurn(w: string, m: int, s: string, p: nat)
    requires NoClass(w) && w != "" && 1 <= p < |w|
    ensures var e := NextSep(w, p);
            var first := Sub(w[p..], e - p, s);
            var hit := if first.Some? then Plus(first.value, AfterBrace(w, CloseBrace(w, e, m), m, s[first.value..])) else None;
            Alts(w, m, s, p) == if hit.Some? then hit else if e == |w| then Alts(w, m, s, e)
                                else if w[e] == '}' then None else Alts(w, m, s, e + 1)
  {
    hide Sub, NextSep, CloseBrace, AfterBrace;
  }

  lemma AltsEnd(w: string, m: int, s: string)
    requires NoClass(w) && |w| > 1
    ensures Alts(w, m, s, |w|) == Sub(w[1..], m - 1, s)
  {
    hide Sub, NextSep, CloseBrace, AfterBrace;
  }

  lemma AltsAlone(w: string, m: int, s: string)
    requires NoClass(w) && |w| == 1
    ensures Alts(w, m, s, 1) == Sub(w[1..], m - 1, s)
  {
    hide Sub;
  }

  /** `done` is false when the braces are not closed: SubMatch then goes on behind the opening brace. */
  method AltLoop(pat: string, p: nat, eop: nat, name: string, n: nat) returns (done: bool, r: Option<nat>)
    requires NoClass(pat) && p < |pat| && eop <= |pat| && n <= |name|
    ensures done ==> r == Plus(n, Alts(pat[p..], eop - p, name[n..], 1))
    ensures !done ==> Alts(pat[p..], eop - p, name[n..], 1) == Sub(pat[p..][1..], eop - p - 1, name[n..])
    decreases |pat| - p, 0
  {
    hide Sub, Alts, NextSep, CloseBrace;
    ghost var w, m, s := pat[p..], eop - p, name[n..];
    var ppt := p + 1;
    while ppt < |pat|
      invariant p + 1 <= ppt <= |pat|
      invariant Alts(w, m, s, 1) == Alts(w, m, s, ppt - p)
    {
      AltsTurn(w, m, s, ppt - p);
      var ept := FindSep(pat, p, ppt);
      assert w[ppt - p..] == pat[ppt..];
      var npt := SubMatch(pat, ppt, ept, name, n);
      if npt.Some? {
        var ecurly := FindClose(pat, p, ept, eop);
        assert s[npt.value - n..] == name[npt.value..];
        var eon := npt;
        if ecurly < |pat| {
          assert w[ecurly - p + 1..] == pat[ecurly + 1..];
          eon := SubMatch(pat, ecurly + 1, eop, name, npt.value);
        }
        if eon.Some? { return true, eon; }
      }
      if ept < |pat| && pat[ept] == '}' { return true, None; }
      ppt := if ept < |pat| then ept + 1 else ept;
    }
    if |w| > 1 { AltsEnd(w, m, s); } else { AltsAlone(w, m, s); }
    return false, None;
  }
}
