/** The declarative language of patterns, and what the matcher has to do with it. */
module GlobLanguage {
  import opened Wrappers
  import opened Glob

  /** A pattern element that matches by itself. */
  datatype Simple = Lit(c: char) | AnyChar | AnyText

  datatype Element = One(p: Simple) | Choice(alts: seq<seq<Simple>>)

  // ---------------------------------------------------------------- meaning

  /** `s` is in the language of the pattern. */
  ghost predicate Lang(ps: seq<Simple>, s: string) {
    if ps == [] then s == ""
    else match ps[0]
      case Lit(c) => s != "" && s[0] == c && Lang(ps[1..], s[1..])
      case AnyChar => s != "" && Lang(ps[1..], s[1..])
      case AnyText => exists k :: 0 <= k <= |s| && Lang(ps[1..], s[k..])
  }

  ghost predicate PatternLang(es: seq<Element>, s: string) {
    if es == [] then s == ""
    else match es[0]
      case One(Lit(c)) => s != "" && s[0] == c && PatternLang(es[1..], s[1..])
      case One(AnyChar) => s != "" && PatternLang(es[1..], s[1..])
      case One(AnyText) => exists k :: 0 <= k <= |s| && PatternLang(es[1..], s[k..])
      case Choice(alts) =>
        exists i, k :: 0 <= i < |alts| && 0 <= k <= |s| && Lang(alts[i], s[..k]) && PatternLang(es[1..], s[k..])
  }

  // ---------------------------------------------------------------- text

  function CharOf(p: Simple): char {
    match p case Lit(c) => c case AnyChar => '?' case AnyText => '*'
  }

  predicate PlainSimple(p: Simple) {
    p.Lit? ==> p.c != '*' && p.c != '?' && p.c != '[' && p.c != '{'
  }

  predicate Plain(ps: seq<Simple>) {
    forall i :: 0 <= i < |ps| ==> PlainSimple(ps[i])
  }

  function Text(ps: seq<Simple>): (w: string)
    ensures |w| == |ps| && forall i :: 0 <= i < |ps| ==> w[i] == CharOf(ps[i])
  {
    seq(|ps|, i requires 0 <= i < |ps| => CharOf(ps[i]))
  }

  predicate PlainAlt(ps: seq<Simple>) {
    Plain(ps) && forall i :: 0 <= i < |ps| ==> ps[i] != Lit(',') && ps[i] != Lit('}')
  }

  predicate WellFormed(es: seq<Element>) {
    forall i :: 0 <= i < |es| ==>
      match es[i]
      case One(p) => PlainSimple(p)
      case Choice(alts) => alts != [] && forall j :: 0 <= j < |alts| ==> PlainAlt(alts[j])
  }

  /** The alternatives up to and including the closing brace. */
  function AltText(alts: seq<seq<Simple>>): string {
    if alts == [] then "" else if |alts| == 1 then Text(alts[0]) + "}" else Text(alts[0]) + "," + AltText(alts[1..])
  }

  function PatternText(es: seq<Element>): string {
    if es == [] then ""
    else match es[0]
      case One(p) => [CharOf(p)] + PatternText(es[1..])
      case Choice(alts) => "{" + AltText(alts) + PatternText(es[1..])
  }

  // ---------------------------------------------------------------- the star loop finds the first place

  lemma {:induction false} FirstPlace(w: string, m: int, s: string, k: nat) returns (i: nat)
    requires NoClass(w) && w != "" && k <= |s|
    ensures k <= i && forall j :: k <= j < i && j <= |s| ==> Sub(w[1..], m - 1, s[j..]) == None
    ensures Star(w, m, s, k).Some? ==> i <= |s| && Plus(i, Sub(w[1..], m - 1, s[i..])) == Star(w, m, s, k)
    ensures Star(w, m, s, k).None? ==> i == |s| + 1
    decreases |s| - k
  {
    hide Sub;
    if Sub(w[1..], m - 1, s[k..]).Some? {
      i := k;
    } else if k == |s| {
      i := k + 1;
    } else {
      i := FirstPlace(w, m, s, k + 1);
    }
  }

  /** A match that starts later does not end earlier. */
  lemma {:induction false} EndsInOrder(ps: seq<Simple>, rest: string, s: string, d: nat)
    requires Plain(ps) && NoClass(Text(ps) + rest) && d <= |s|
    requires var w := Text(ps) + rest; Sub(w, |ps|, s).Some? && Sub(w, |ps|, s[d..]).Some?
    ensures var w := Text(ps) + rest; Sub(w, |ps|, s).value <= d + Sub(w, |ps|, s[d..]).value
    decreases |ps|
  {
    if ps != [] {
      var w := Text(ps) + rest;
      assert w[1..] == Text(ps[1..]) + rest;
      if ps[0] == AnyText {
        if |w| > 1 { StarEndsInOrder(ps, rest, s, d); }
      } else {
        assert s[1..][d..] == s[d..][1..];
        EndsInOrder(ps[1..], rest, s[1..], d);
      }
    }
  }

  lemma {:induction false} StarEndsInOrder(ps: seq<Simple>, rest: string, s: string, d: nat)
    requires Plain(ps) && NoClass(Text(ps) + rest) && d <= |s| && ps != [] && ps[0] == AnyText && |Text(ps) + rest| > 1
    requires var w := Text(ps) + rest; Sub(w, |ps|, s).Some? && Sub(w, |ps|, s[d..]).Some?
    ensures var w := Text(ps) + rest; Sub(w, |ps|, s).value <= d + Sub(w, |ps|, s[d..]).value
    decreases |ps|, 0
  {
    hide Sub, Star;
    var w := Text(ps) + rest;
    assert w[1..] == Text(ps[1..]) + rest;
    StarHead(w, |ps|, s);
    StarHead(w, |ps|, s[d..]);
    var i := FirstPlace(w, |ps|, s, 0);
    var j := FirstPlace(w, |ps|, s[d..], 0);
    assert s[d..][j..] == s[d + j..];
    assert s[i..][d + j - i..] == s[d + j..];
    EndsInOrder(ps[1..], rest, s[i..], d + j - i);
  }

  // ---------------------------------------------------------------- prefixes in the language

  /** The first `k` characters of `s` are in the language. */
  ghost predicate Prefix(ps: seq<Simple>, s: string, k: nat) {
    k <= |s| && Lang(ps, s[..k])
  }

  lemma PrefixStep(ps: seq<Simple>, s: string, k: nat)
    requires ps != [] && ps[0] != AnyText
    ensures Prefix(ps, s, k) <==>
              k > 0 && s != "" && (ps[0].Lit? ==> s[0] == ps[0].c) && Prefix(ps[1..], s[1..], k - 1)
  {
    if 0 < k <= |s| { assert s[..k][1..] == s[1..][..k - 1]; }
  }

  /** The rest of the pattern matches from `j` to `k`. */
  ghost predicate Tail(ps: seq<Simple>, s: string, j: nat, k: nat)
    requires ps != []
  {
    j <= k <= |s| && Prefix(ps[1..], s[j..], k - j)
  }

  lemma PrefixStar(ps: seq<Simple>, s: string, k: nat)
    requires ps != [] && ps[0] == AnyText
    ensures Prefix(ps, s, k) <==> exists j :: Tail(ps, s, j, k)
  {
    if k <= |s| {
      forall j | 0 <= j <= k ensures s[..k][j..] == s[j..][..k - j] {}
      if Lang(ps, s[..k]) {
        var j :| 0 <= j <= k && Lang(ps[1..], s[..k][j..]);
        assert Tail(ps, s, j, k);
      }
    }
  }

  /** The first `k` characters are in the language, and no fewer are. */
  ghost predicate Shortest(ps: seq<Simple>, s: string, k: nat) {
    Prefix(ps, s, k) && forall j :: 0 <= j < k ==> !Prefix(ps, s, j)
  }

  ghost predicate Exactly(ps: seq<Simple>, s: string, r: Option<nat>) {
    match r
    case Some(k) => Shortest(ps, s, k)
    case None => forall k :: !Prefix(ps, s, k)
  }

  /**
    For a pattern that does not end in a star, SubMatch finds the shortest matching prefix, and finds one
    whenever there is one, although it never looks beyond the first hit of a star.
  */
  lemma {:induction false} SubMatchExact(ps: seq<Simple>, rest: string, s: string)
    requires Plain(ps) && NoClass(Text(ps) + rest)
    requires rest == "" && ps != [] ==> ps[|ps| - 1] != AnyText
    ensures Exactly(ps, s, Sub(Text(ps) + rest, |ps|, s))
    decreases |ps|
  {
    var w := Text(ps) + rest;
    if ps == [] {
      assert s[..0] == "";
    } else if ps[0] == AnyText {
      StarExact(ps, rest, s);
    } else {
      assert w[1..] == Text(ps[1..]) + rest;
      forall k: nat ensures Prefix(ps, s, k) <==>
          k > 0 && s != "" && (ps[0].Lit? ==> s[0] == ps[0].c) && Prefix(ps[1..], s[1..], k - 1) {
        PrefixStep(ps, s, k);
      }
      if s != "" {
        SubMatchExact(ps[1..], rest, s[1..]);
        hide Lang;
        forall k: nat | Prefix(ps[1..], s[1..], k) && (ps[0].Lit? ==> s[0] == ps[0].c) ensures Prefix(ps, s, k + 1) {
          PrefixStep(ps, s, k + 1);
        }
      }
    }
  }

  lemma {:induction false} StarExact(ps: seq<Simple>, rest: string, s: string)
    requires Plain(ps) && NoClass(Text(ps) + rest) && ps != [] && ps[0] == AnyText
    requires rest == "" ==> ps[|ps| - 1] != AnyText
    ensures Exactly(ps, s, Sub(Text(ps) + rest, |ps|, s))
    decreases |ps|, 0
  {
    hide Lang, Sub, Star;
    var w := Text(ps) + rest;
    assert w[1..] == Text(ps[1..]) + rest;
    assert Sub(w, |ps|, s) == Star(w, |ps|, s, 0) by { StarHead(w, |ps|, s); }
    var i := FirstPlace(w, |ps|, s, 0);
    forall k: nat, j: nat | Tail(ps, s, j, k)
      ensures Sub(w, |ps|, s).Some? && Sub(w, |ps|, s).value <= k
    {
      SubMatchExact(ps[1..], rest, s[j..]);
      assert i <= j;
      SubMatchExact(ps[1..], rest, s[i..]);
      assert s[i..][j - i..] == s[j..];
      EndsInOrder(ps[1..], rest, s[i..], j - i);
    }
    forall k: nat ensures Prefix(ps, s, k) <==> exists j :: Tail(ps, s, j, k) {
      PrefixStar(ps, s, k);
    }
    if Sub(w, |ps|, s).Some? {
      SubMatchExact(ps[1..], rest, s[i..]);
      assert Tail(ps, s, i, Sub(w, |ps|, s).value);
    }
  }

  lemma StarHead(w: string, m: int, s: string)
    requires NoClass(w) && |w| > 1 && w[0] == '*' && m > 0
    ensures Sub(w, m, s) == Star(w, m, s, 0)
  {
    hide Star;
  }

  // ---------------------------------------------------------------- whole names

  /** WildMatch of a pattern that does not end in a star: the name matches, and no proper prefix of it does. */
  lemma WildMatchExact(ps: seq<Simple>, name: string)
    requires Plain(ps) && (ps != [] ==> ps[|ps| - 1] != AnyText)
    ensures WildMatch(Text(ps), name) <==> Lang(ps, name) && forall k :: 0 <= k < |name| ==> !Lang(ps, name[..k])
  {
    assert Text(ps) + "" == Text(ps);
    SubMatchExact(ps, "", name);
    assert name[..|name|] == name;
    hide Lang, Sub;
    if Lang(ps, name) { assert Prefix(ps, name, |name|); }
    forall k | 0 <= k < |name| ensures Prefix(ps, name, k) <==> Lang(ps, name[..k]) {}
  }

  lemma {:induction false} StarFreeLength(ps: seq<Simple>, s: string)
    requires Lang(ps, s) && AnyText !in ps
    ensures |s| == |ps|
  {
    if ps != [] { StarFreeLength(ps[1..], s[1..]); }
  }

  /** Without stars WildMatch decides the language. */
  lemma WildMatchStarFree(ps: seq<Simple>, name: string)
    requires Plain(ps) && AnyText !in ps
    ensures WildMatch(Text(ps), name) <==> Lang(ps, name)
  {
    WildMatchExact(ps, name);
    if Lang(ps, name) {
      StarFreeLength(ps, name);
      forall k | 0 <= k < |name| ensures !Lang(ps, name[..k]) {
        if Lang(ps, name[..k]) { StarFreeLength(ps, name[..k]); }
      }
    }
  }

  /** A pattern that ends in a star takes the whole name or nothing. */
  lemma {:induction false} EndStar(ps: seq<Simple>, s: string)
    requires Plain(ps) && ps != [] && ps[|ps| - 1] == AnyText
    ensures Sub(Text(ps), |ps|, s) == if Lang(ps, s) then Some(|s|) else None
    decreases |ps|
  {
    var w := Text(ps);
    assert w[1..] == Text(ps[1..]);
    if |ps| == 1 {
      assert s[|s|..] == "" && Lang([], "");
    } else if ps[0] == AnyText {
      EndStarStar(ps, s);
    } else if s != "" {
      EndStar(ps[1..], s[1..]);
    }
  }

  lemma {:induction false} EndStarStar(ps: seq<Simple>, s: string)
    requires Plain(ps) && |ps| > 1 && ps[0] == AnyText && ps[|ps| - 1] == AnyText
    ensures Sub(Text(ps), |ps|, s) == if Lang(ps, s) then Some(|s|) else None
    decreases |ps|, 0
  {
    hide Sub, Star;
    var w := Text(ps);
    assert w[1..] == Text(ps[1..]);
    StarHead(w, |ps|, s);
    var i := FirstPlace(w, |ps|, s, 0);
    forall j | 0 <= j <= |s|
      ensures Sub(w[1..], |ps| - 1, s[j..]) == if Lang(ps[1..], s[j..]) then Some(|s[j..]|) else None
    {
      EndStar(ps[1..], s[j..]);
    }
  }

  /** With a star at the end WildMatch decides the language. */
  lemma WildMatchEndStar(ps: seq<Simple>, name: string)
    requires Plain(ps) && ps != [] && ps[|ps| - 1] == AnyText
    ensures WildMatch(Text(ps), name) <==> Lang(ps, name)
  {
    EndStar(ps, name);
  }

  /** The star takes any text up to a last character. */
  lemma StarThenLit(c: char, s: string)
    requires s != "" && s[|s| - 1] == c
    ensures Lang([AnyText, Lit(c)], s)
  {
    var ps, n := [AnyText, Lit(c)], |s| - 1;
    assert ps[1..] == [Lit(c)] && ps[1..][1..] == [] && s[n..] == [c] && s[n..][1..] == "";
    assert Lang([], "");
    assert Lang(ps[1..], s[n..]);
  }

  /** In general it does not: "aa" is in the language of "*a" but is refused, since "a" is in it too. */
  lemma WildMatchIncomplete()
    ensures Lang([AnyText, Lit('a')], "aa") && !WildMatch("*a", "aa")
  {
    hide Lang, WildMatch;
    var ps := [AnyText, Lit('a')];
    StarThenLit('a', "aa");
    StarThenLit('a', "a");
    assert Text(ps) == "*a";
    WildMatchExact(ps, "aa");
    assert "aa"[..1] == "a";
  }
}
