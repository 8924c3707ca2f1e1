/** Patterns with non-nested `{a,b}` alternatives: whatever the matcher accepts is in the language. */
module GlobChoice {
  import opened Wrappers
  import opened Glob
  import opened GlobLanguage

  /** Any end found for a plain pattern delimits a prefix in its language, whatever text follows the pattern. */
  lemma {:induction false} SimpleSound(ps: seq<Simple>, rest: string, s: string)
    requires Plain(ps) && NoClass(Text(ps) + rest) && Sub(Text(ps) + rest, |ps|, s).Some?
    ensures Lang(ps, s[..Sub(Text(ps) + rest, |ps|, s).value])
    decreases |ps|
  {
    var w := Text(ps) + rest;
    var k := Sub(w, |ps|, s).value;
    if ps != [] {
      assert w[1..] == Text(ps[1..]) + rest;
      if ps[0] == AnyText {
        if |w| == 1 {
          assert s[..k][k..] == "" && Lang(ps[1..], "");
        } else {
          var i := FirstPlace(w, |ps|, s, 0);
          SimpleSound(ps[1..], rest, s[i..]);
          assert s[..k][i..] == s[i..][..k - i];
        }
      } else {
        SimpleSound(ps[1..], rest, s[1..]);
        assert s[..k][1..] == s[1..][..k - 1];
      }
    }
  }

  lemma {:induction false} SepAt(w: string, p: nat, e: nat)
    requires p <= e < |w| && (w[e] == '}' || w[e] == ',')
    requires forall j :: p <= j < e ==> w[j] != '}' && w[j] != ','
    ensures NextSep(w, p) == e
    decreases e - p
  {
    if p < e { SepAt(w, p + 1, e); }
  }

  lemma {:induction false} CloseAt(w: string, c: nat, e: nat, m: int)
    requires c <= e < |w| && w[e] == '}' && e < m && forall j :: c <= j < e ==> w[j] != '}'
    ensures CloseBrace(w, c, m) == e
    decreases e - c
  {
    if c < e { CloseAt(w, c + 1, e, m); }
  }

  lemma AltTextHead(alts: seq<seq<Simple>>)
    requires alts != []
    ensures |Text(alts[0])| < |AltText(alts)| && AltText(alts)[..|alts[0]|] == Text(alts[0])
    ensures AltText(alts)[|alts[0]|] == if |alts| == 1 then '}' else ','
    ensures |alts| > 1 ==> AltText(alts)[|alts[0]| + 1..] == AltText(alts[1..])
    ensures |alts| == 1 ==> |AltText(alts)| == |alts[0]| + 1
  {
    hide Text;
    var a := Text(alts[0]);
    if |alts| > 1 {
      var b := AltText(alts[1..]);
      assert (a + "," + b)[..|a|] == a && (a + "," + b)[|a| + 1..] == b;
    } else {
      assert (a + "}")[..|a|] == a;
    }
  }

  lemma {:induction false} AltTextShape(alts: seq<seq<Simple>>)
    requires alts != [] && forall j :: 0 <= j < |alts| ==> PlainAlt(alts[j])
    ensures var t := AltText(alts);
            t != "" && t[|t| - 1] == '}' && (forall j :: 0 <= j < |t| - 1 ==> t[j] != '}') && NoClass(t)
    ensures |Text(alts[0])| < |AltText(alts)| && AltText(alts)[..|alts[0]|] == Text(alts[0])
    ensures AltText(alts)[|alts[0]|] == if |alts| == 1 then '}' else ','
    ensures forall j :: 0 <= j < |alts[0]| ==> AltText(alts)[j] != ',' && AltText(alts)[j] != '}'
    ensures |alts| > 1 ==> AltText(alts)[|alts[0]| + 1..] == AltText(alts[1..])
  {
    hide AltText, Text;
    AltTextHead(alts);
    var t, a := AltText(alts), Text(alts[0]);
    assert PlainAlt(alts[0]) && forall j :: 0 <= j < |a| ==> t[j] == a[j];
    if |alts| > 1 {
      AltTextShape(alts[1..]);
      var b := AltText(alts[1..]);
      assert forall j :: |a| < j < |t| ==> t[j] == b[j - |a| - 1];
    }
  }

  lemma {:induction false} NoClassIn(es: seq<Element>)
    requires WellFormed(es)
    ensures NoClass(PatternText(es))
  {
    if es != [] {
      NoClassIn(es[1..]);
      if es[0].Choice? { AltTextShape(es[0].alts); }
    }
  }

  /** `Meets(es, s, k)`: the first `k` characters of the name are in the language. */
  ghost predicate Meets(es: seq<Element>, s: string, k: nat) {
    k <= |s| && PatternLang(es, s[..k])
  }

  /** Where things are in `pre`, some alternatives, and `rest`. */
  lemma AltsPlaces(alts: seq<seq<Simple>>, pre: string, rest: string, w: string)
    requires alts != [] && (forall j :: 0 <= j < |alts| ==> PlainAlt(alts[j])) && w == pre + AltText(alts) + rest
    ensures var p, e, c := |pre|, |pre| + |alts[0]|, |pre| + |AltText(alts)| - 1;
            && e < |w| && e <= c < |w| && NextSep(w, p) == e && CloseBrace(w, e, |w|) == c
            && w[p..] == Text(alts[0]) + w[e..] && w[c + 1..] == rest
            && (if |alts| == 1 then w[e] == '}' else w[e] == ',' && w == w[..e + 1] + AltText(alts[1..]) + rest)
  {
    hide AltText, NextSep, CloseBrace, PlainAlt;
    var t, p := AltText(alts), |pre|;
    AltTextShape(alts);
    var e, c := p + |alts[0]|, p + |t| - 1;
    Within(pre, t, rest, w, |alts[0]|);
    SepAt(w, p, e);
    CloseAt(w, e, c, |w|);
  }

  lemma Within(pre: string, t: string, rest: string, w: string, k: nat)
    requires w == pre + t + rest && k < |t|
    ensures var p := |pre|;
            && (forall j :: p <= j < p + |t| ==> w[j] == t[j - p])
            && w[p..] == t[..k] + w[p + k..] && w[p + |t|..] == rest
            && w == w[..p + k + 1] + t[k + 1..] + rest
  {
    var p := |pre|;
    assert w[p..p + k] == t[..k];
    assert w[p..] == w[p..p + k] + w[p + k..];
    assert w[p + k + 1..] == t[k + 1..] + rest;
  }

  /** The alternatives from position |pre| on: the one that is taken, and what follows, delimit a prefix. */
  lemma {:induction false} AltsSound(es: seq<Element>, n: nat, pre: string, s: string)
    requires WellFormed(es) && es != [] && es[0].Choice? && n < |es[0].alts| && pre != ""
    requires var w := pre + AltText(es[0].alts[n..]) + PatternText(es[1..]); NoClass(w) && Alts(w, |w|, s, |pre|).Some?
    ensures var w := pre + AltText(es[0].alts[n..]) + PatternText(es[1..]); Meets(es, s, Alts(w, |w|, s, |pre|).value)
    decreases |es|, 0, |es[0].alts| - n
  {
    hide Sub, Alts, NextSep, CloseBrace, PatternLang, Lang, AltText, Text, PatternText;
    var alts, p, rest := es[0].alts[n..], |pre|, PatternText(es[1..]);
    var w := pre + AltText(alts) + rest;
    AltsPlaces(alts, pre, rest, w);
    var e, c := p + |alts[0]|, p + |AltText(alts)| - 1;
    AltsHere(w, |w|, s, p, e, c);
    var first := Sub(w[p..], e - p, s);
    var hit := if first.Some? then Plus(first.value, Sub(rest, |rest|, s[first.value..])) else None;
    if hit.Some? {
      var k := first.value;
      SimpleSound(alts[0], w[e..], s);
      ElementsSound(es[1..], s[k..]);
      ChoiceMeets(es, s, n, k, hit.value - k);
    } else if |alts| > 1 {
      assert alts[1..] == es[0].alts[n + 1..];
      AltsSound(es, n + 1, w[..e + 1], s);
    }
  }

  /** One turn of the loop over the alternatives. */
  lemma AltsHere(w: string, m: int, s: string, p: nat, e: nat, c: nat)
    requires NoClass(w) && w != "" && 1 <= p < |w| && p <= e < |w| && e <= c < |w|
    requires NextSep(w, p) == e && CloseBrace(w, e, m) == c
    ensures var first := Sub(w[p..], e - p, s);
            var hit := if first.Some? then Plus(first.value, Sub(w[c + 1..], m - (c + 1), s[first.value..])) else None;
            Alts(w, m, s, p) == if hit.Some? then hit else if w[e] == '}' then None else Alts(w, m, s, e + 1)
  {
    hide Sub, Alts, NextSep, CloseBrace;
    AltsTurn(w, m, s, p);
  }

  lemma ChoiceMeets(es: seq<Element>, s: string, n: nat, k: nat, l: nat)
    requires es != [] && es[0].Choice? && n < |es[0].alts| && k + l <= |s|
    requires Lang(es[0].alts[n], s[..k]) && Meets(es[1..], s[k..], l)
    ensures Meets(es, s, k + l)
  {
    hide Lang;
    assert s[..k + l][..k] == s[..k] && s[..k + l][k..] == s[k..][..l];
  }

  /** Any end that SubMatch returns for a well-formed pattern delimits a prefix in its language. */
  lemma {:induction false} ElementsSound(es: seq<Element>, s: string)
    requires WellFormed(es) && NoClass(PatternText(es))
    requires Sub(PatternText(es), |PatternText(es)|, s).Some?
    ensures Meets(es, s, Sub(PatternText(es), |PatternText(es)|, s).value)
    decreases |es|, 1, 0
  {
    var w := PatternText(es);
    if es == [] {
    } else if es[0].Choice? {
      assert w == "{" + AltText(es[0].alts[0..]) + PatternText(es[1..]) by { assert es[0].alts[0..] == es[0].alts; }
      AltsSound(es, 0, "{", s);
    } else {
      OneSound(es, s);
    }
  }

  lemma {:induction false} OneSound(es: seq<Element>, s: string)
    requires WellFormed(es) && NoClass(PatternText(es)) && es != [] && es[0].One?
    requires Sub(PatternText(es), |PatternText(es)|, s).Some?
    ensures Meets(es, s, Sub(PatternText(es), |PatternText(es)|, s).value)
    decreases |es|, 0, 1
  {
    var w := PatternText(es);
    var k := Sub(w, |w|, s).value;
    assert w[1..] == PatternText(es[1..]);
    if es[0].p == AnyText {
      if |w| == 1 {
        NoMoreText(es[1..]);
        assert s[..k][k..] == "";
      } else {
        StarSound(es, s);
      }
    } else {
      ElementsSound(es[1..], s[1..]);
      assert s[..k][1..] == s[1..][..k - 1];
    }
  }

  lemma {:induction false} StarSound(es: seq<Element>, s: string)
    requires WellFormed(es) && NoClass(PatternText(es)) && es != [] && es[0] == One(AnyText) && |PatternText(es)| > 1
    requires Sub(PatternText(es), |PatternText(es)|, s).Some?
    ensures Meets(es, s, Sub(PatternText(es), |PatternText(es)|, s).value)
    decreases |es|, 0, 0
  {
    hide Sub, Star;
    var w := PatternText(es);
    var k := Sub(w, |w|, s).value;
    assert w[1..] == PatternText(es[1..]);
    StarHead(w, |w|, s);
    var i := FirstPlace(w, |w|, s, 0);
    ElementsSound(es[1..], s[i..]);
    assert s[..k][i..] == s[i..][..k - i];
  }

  lemma NoMoreText(es: seq<Element>)
    requires PatternText(es) == ""
    ensures PatternLang(es, "")
  {
  }

  /** If WildMatch accepts a name, the name is in the language of the pattern. */
  lemma WildMatchSound(es: seq<Element>, name: string)
    requires WellFormed(es)
    ensures NoClass(PatternText(es))
    ensures WildMatch(PatternText(es), name) ==> PatternLang(es, name)
  {
    NoClassIn(es);
    if WildMatch(PatternText(es), name) {
      ElementsSound(es, name);
      assert name[..|name|] == name;
    }
  }

  // ---------------------------------------------------------------- completeness

  /** No alternative has a star; there may be stars outside the braces. */
  predicate StarFreeChoices(es: seq<Element>) {
    forall i, j :: 0 <= i < |es| && es[i].Choice? && 0 <= j < |es[i].alts| ==> AnyText !in es[i].alts[j]
  }

  /** A star-free alternative that matches ends at one place only, and is found to end there. */
  lemma StarFreeTakes(ps: seq<Simple>, rest: string, s: string, j: nat)
    requires Plain(ps) && NoClass(Text(ps) + rest) && AnyText !in ps && j <= |s| && Lang(ps, s[..j])
    ensures Sub(Text(ps) + rest, |ps|, s) == Some(j)
  {
    SubMatchExact(ps, rest, s);
    StarFreeLength(ps, s[..j]);
    hide Lang, Sub;
    assert Prefix(ps, s, j);
    var r := Sub(Text(ps) + rest, |ps|, s);
    if r.Some? { StarFreeLength(ps, s[..r.value]); }
  }

  /** The alternatives from number `n` on, when number `i` matches the first `j` characters and the rest of the pattern
      some that follow. */
  lemma {:induction false} AltsComplete(es: seq<Element>, n: nat, i: nat, pre: string, s: string, j: nat, k: nat)
    requires WellFormed(es) && StarFreeChoices(es) && es != [] && es[0].Choice? && n <= i < |es[0].alts| && pre != ""
    requires j <= |s| && Lang(es[0].alts[i], s[..j]) && Meets(es[1..], s[j..], k)
    requires NoClass(pre + AltText(es[0].alts[n..]) + PatternText(es[1..]))
    ensures var w := pre + AltText(es[0].alts[n..]) + PatternText(es[1..]); Alts(w, |w|, s, |pre|).Some?
    decreases |es|, 0, i - n
  {
    hide Sub, Alts, NextSep, CloseBrace, Meets, PatternLang, Lang, AltText, Text, PatternText;
    var alts, p, rest := es[0].alts[n..], |pre|, PatternText(es[1..]);
    var w := pre + AltText(alts) + rest;
    AltsPlaces(alts, pre, rest, w);
    var e, c := p + |alts[0]|, p + |AltText(alts)| - 1;
    AltsHere(w, |w|, s, p, e, c);
    if n == i {
      StarFreeTakes(alts[0], w[e..], s, j);
      ElementsComplete(es[1..], s[j..], k);
    } else {
      assert alts[1..] == es[0].alts[n + 1..];
      AltsComplete(es, n + 1, i, w[..e + 1], s, j, k);
    }
  }

  /** A pattern in whose language some prefix of the name is has an end found for it. */
  lemma {:induction false} ElementsComplete(es: seq<Element>, s: string, k: nat)
    requires WellFormed(es) && StarFreeChoices(es) && Meets(es, s, k)
    ensures NoClass(PatternText(es)) && Sub(PatternText(es), |PatternText(es)|, s).Some?
    decreases |es|, 1
  {
    NoClassIn(es);
    if es == [] {
    } else if es[0].Choice? {
      ChoiceComplete(es, s, k);
    } else if es[0].p == AnyText {
      StarComplete(es, s, k);
    } else {
      assert PatternText(es)[1..] == PatternText(es[1..]);
      assert s[..k][1..] == s[1..][..k - 1];
      ElementsComplete(es[1..], s[1..], k - 1);
    }
  }

  lemma {:induction false} ChoiceComplete(es: seq<Element>, s: string, k: nat)
    requires WellFormed(es) && StarFreeChoices(es) && Meets(es, s, k) && es != [] && es[0].Choice?
    requires NoClass(PatternText(es))
    ensures Sub(PatternText(es), |PatternText(es)|, s).Some?
    decreases |es|, 0, |es[0].alts| + 1
  {
    var i, j :| 0 <= i < |es[0].alts| && 0 <= j <= k && Lang(es[0].alts[i], s[..k][..j]) && PatternLang(es[1..], s[..k][j..]);
    assert s[..k][..j] == s[..j] && s[..k][j..] == s[j..][..k - j];
    assert Meets(es[1..], s[j..], k - j);
    var w := "{" + AltText(es[0].alts[0..]) + PatternText(es[1..]);
    assert w == PatternText(es) by { assert es[0].alts[0..] == es[0].alts; }
    hide Lang, PatternLang, Meets, Alts;
    AltsComplete(es, 0, i, "{", s, j, k - j);
  }

  lemma {:induction false} StarComplete(es: seq<Element>, s: string, k: nat)
    requires WellFormed(es) && StarFreeChoices(es) && Meets(es, s, k) && es != [] && es[0] == One(AnyText)
    requires NoClass(PatternText(es))
    ensures Sub(PatternText(es), |PatternText(es)|, s).Some?
    decreases |es|, 0, 0
  {
    var w := PatternText(es);
    assert w[1..] == PatternText(es[1..]);
    var j :| 0 <= j <= k && PatternLang(es[1..], s[..k][j..]);
    assert s[..k][j..] == s[j..][..k - j];
    assert Meets(es[1..], s[j..], k - j);
    if |w| > 1 {
      ElementsComplete(es[1..], s[j..], k - j);
      StarHead(w, |w|, s);
      hide Sub, Star;
      var i := FirstPlace(w, |w|, s, 0);
    }
  }

  /** With `{a,b}` alternatives that have no stars in them, and stars anywhere else, SubMatch finds an end if and only if
      some prefix of the name is in the language of the pattern. */
  lemma ElementsFoundIff(es: seq<Element>, s: string)
    requires WellFormed(es) && StarFreeChoices(es)
    ensures NoClass(PatternText(es))
    ensures Sub(PatternText(es), |PatternText(es)|, s).Some? <==> exists k :: Meets(es, s, k)
  {
    NoClassIn(es);
    if k :| Meets(es, s, k) {
      ElementsComplete(es, s, k);
    }
    hide Meets, Sub;
    if Sub(PatternText(es), |PatternText(es)|, s).Some? {
      ElementsSound(es, s);
    }
  }

  /** A name in the language is accepted if no proper prefix of it is in it too. */
  lemma WildMatchComplete(es: seq<Element>, name: string)
    requires WellFormed(es) && StarFreeChoices(es) && PatternLang(es, name)
    requires forall k :: 0 <= k < |name| ==> !PatternLang(es, name[..k])
    ensures NoClass(PatternText(es)) && WildMatch(PatternText(es), name)
  {
    assert name[..|name|] == name;
    assert Meets(es, name, |name|);
    ElementsComplete(es, name, |name|);
    ElementsSound(es, name);
  }

  /** With a star inside an alternative this fails: only the shortest match of the alternative is tried. */
  lemma StarInChoiceMissed()
    ensures var es := [Choice([[AnyText, Lit('a')]]), One(Lit('b'))];
            WellFormed(es) && PatternText(es) == "{*a}b" && PatternLang(es, "aab") && !WildMatch("{*a}b", "aab")
  {
    MissedText();
    MissedIsIn();
    hide Sub, PatternText, PatternLang;
    MissedByMatcher();
  }

  lemma MissedText()
    ensures PatternText([Choice([[AnyText, Lit('a')]]), One(Lit('b'))]) == "{*a}b"
    ensures AltText([[AnyText, Lit('a')]]) == "*a}"
  {
    var ps, es := [AnyText, Lit('a')], [Choice([[AnyText, Lit('a')]]), One(Lit('b'))];
    assert es[1..] == [One(Lit('b'))] && es[1..][1..] == [] && Text(ps) == "*a";
    assert AltText([ps]) == "*a}" && PatternText(es[1..]) == "b";
  }

  lemma MissedIsIn()
    ensures PatternLang([Choice([[AnyText, Lit('a')]]), One(Lit('b'))], "aab")
  {
    var es, s, k := [Choice([[AnyText, Lit('a')]]), One(Lit('b'))], "aab", 2;
    assert es[1..] == [One(Lit('b'))] && es[1..][1..] == [] && s[k..] == "b" && "b"[1..] == "";
    StarThenLit('a', s[..k]);
    hide Lang;
    assert Lang(es[0].alts[0], s[..k]) && PatternLang(es[1..], s[k..]);
  }

  lemma MissedByMatcher()
    ensures Sub("{*a}b", 5, "aab") == None
  {
    MissedAlts("{*a}b", "aab");
    hide Alts, Star;
  }

  lemma MissedAlts(w: string, s: string)
    requires w == "{*a}b" && s == "aab"
    ensures Alts(w, 5, s, 1) == None
  {
    hide Sub, Alts, AltText, NextSep, CloseBrace, Text;
    MissedText();
    assert w == "{" + "*a}" + "b";
    AltsPlaces([[AnyText, Lit('a')]], "{", "b", w);
    AltsHere(w, 5, s, 1, 3, 3);
    MissedFirst(w[3..], s);
    assert w[1..] == "*a" + w[3..] && s[1..] == "ab";
    MissedRest();
  }

  lemma MissedRest()
    ensures Sub("b", 1, "ab") == None
  {
  }

  /** The alternative itself is found to end behind the first letter. */
  lemma MissedFirst(rest: string, s: string)
    requires rest == "}b" && s == "aab"
    ensures Sub("*a" + rest, 2, s) == Some(1)
  {
    var ps := [AnyText, Lit('a')];
    StarThenLit('a', s[..1]);
    assert Text(ps) == "*a" && s[..0] == "" && ps[1..] == [Lit('a')];
    assert !Lang(ps, "") by { assert forall k :: 0 <= k <= 0 ==> ""[k..] == ""; }
    SubMatchExact(ps, rest, s);
    hide Lang, Sub;
    assert Prefix(ps, s, 1) && !Prefix(ps, s, 0);
  }
}
