/**
  The textual rewrites `prepare()` in db.class.php applies to a query
  template before formatting: `str_replace` of quoted placeholders, then
  two `preg_replace` calls with the lookbehind `(?<!%)`.
 */
module Template {

  // ---------------------------------------------------------------------
  // `str_replace`: left-to-right, non-overlapping replacement

  /** `p` occurs in `s` at position `j`. */
  predicate MatchAt(s: string, j: int, p: string) {
    0 <= j && j + |p| <= |s| && s[j..j + |p|] == p
  }

  function ReplaceAll(s: string, pat: string, rep: string): (r: string)
    requires |pat| > 0
    ensures |rep| <= |pat| ==> |r| <= |s|
    ensures |rep| == |pat| ==> |r| == |s|
    decreases |s|
  {
    if |s| < |pat| then s
    else if MatchAt(s, 0, pat) then rep + ReplaceAll(s[|pat|..], pat, rep)
    else [s[0]] + ReplaceAll(s[1..], pat, rep)
  }

  /** Some occurrence of `p` in `s` starts before position `n` and ends after it. */
  predicate Crosses(s: string, n: int, p: string) {
    exists j :: 0 <= j < n < j + |p| && MatchAt(s, j, p)
  }

  lemma CrossesShift(s: string, n: int, k: int, p: string)
    requires 0 <= k <= n <= |s|
    requires !Crosses(s, n, p)
    ensures !Crosses(s[k..], n - k, p)
  {
    forall j | 0 <= j < n - k < j + |p|
      ensures !MatchAt(s[k..], j, p)
    {
      assert !MatchAt(s, j + k, p);
      if j + |p| <= |s[k..]| {
        assert s[k..][j..j + |p|] == s[j + k..j + k + |p|];
      }
    }
  }

  /** No occurrence can cross `n` when none of the characters just before `n` starts the pattern. */
  lemma NoCrossingByFirst(s: string, n: int, p: string)
    requires |p| > 0 && 0 <= n <= |s|
    requires forall j :: 0 <= j < n && n < j + |p| ==> s[j] != p[0]
    ensures !Crosses(s, n, p)
  {
    forall j | 0 <= j < n < j + |p|
      ensures !MatchAt(s, j, p)
    {
      if j + |p| <= |s| {
        assert s[j..j + |p|][0] == s[j];
      }
    }
  }

  /** No occurrence can cross `n` when none of the characters just after `n` ends the pattern. */
  lemma NoCrossingByLast(s: string, n: int, p: string)
    requires |p| > 0 && 0 <= n <= |s|
    requires forall k :: n <= k < |s| && k < n + |p| - 1 ==> s[k] != p[|p| - 1]
    ensures !Crosses(s, n, p)
  {
    forall j | 0 <= j < n < j + |p|
      ensures !MatchAt(s, j, p)
    {
      if j + |p| <= |s| {
        assert s[j..j + |p|][|p| - 1] == s[j + |p| - 1];
      }
    }
  }

  /** Unfolding `ReplaceAll` at an occurrence. */
  lemma ReplaceAtMatch(s: string, p: string, r: string)
    requires |p| > 0 && MatchAt(s, 0, p)
    ensures ReplaceAll(s, p, r) == r + ReplaceAll(s[|p|..], p, r)
  {
  }

  /** Unfolding `ReplaceAll` where no occurrence starts. */
  lemma ReplaceAtOther(s: string, p: string, r: string)
    requires |p| > 0 && |s| > 0 && !MatchAt(s, 0, p)
    ensures ReplaceAll(s, p, r) == [s[0]] + ReplaceAll(s[1..], p, r)
  {
  }

  /** Replacement distributes over a cut that no occurrence of the pattern crosses. */
  lemma {:induction false} ReplaceSplit(a: string, x: string, p: string, r: string)
    requires |p| > 0
    requires !Crosses(a + x, |a|, p)
    ensures ReplaceAll(a + x, p, r) == ReplaceAll(a, p, r) + ReplaceAll(x, p, r)
    decreases |a|, 1
  {
    var s := a + x;
    if |a| == 0 {
      assert s == x;
    } else if |s| < |p| {
      assert ReplaceAll(a, p, r) == a;
      assert ReplaceAll(x, p, r) == x;
    } else if MatchAt(s, 0, p) {
      ReplaceSplitAtMatch(a, x, p, r);
    } else {
      ReplaceSplitAtOther(a, x, p, r);
    }
  }

  lemma {:induction false} ReplaceSplitAtMatch(a: string, x: string, p: string, r: string)
    requires |p| > 0 && |a| > 0
    requires !Crosses(a + x, |a|, p)
    requires MatchAt(a + x, 0, p)
    ensures ReplaceAll(a + x, p, r) == ReplaceAll(a, p, r) + ReplaceAll(x, p, r)
    decreases |a|, 0
  {
    MatchInFirst(a, x, p);
    var a' := a[|p|..];
    MatchOfConcat(a, x, p, r);
    ReplaceAtMatch(a, p, r);
    ShiftedNoCrossing(a, x, |p|, p);
    ReplaceSplit(a', x, p, r);
    assert r + (ReplaceAll(a', p, r) + ReplaceAll(x, p, r)) == (r + ReplaceAll(a', p, r)) + ReplaceAll(x, p, r);
  }

  lemma {:induction false} ReplaceSplitAtOther(a: string, x: string, p: string, r: string)
    requires |p| > 0 && |a| > 0 && |a + x| >= |p|
    requires !Crosses(a + x, |a|, p)
    requires !MatchAt(a + x, 0, p)
    ensures ReplaceAll(a + x, p, r) == ReplaceAll(a, p, r) + ReplaceAll(x, p, r)
    decreases |a|, 0
  {
    var a' := a[1..];
    OtherOfConcat(a, x, p, r);
    OtherInFirst(a, x, p, r);
    ShiftedNoCrossing(a, x, 1, p);
    ReplaceSplit(a', x, p, r);
    assert [a[0]] + (ReplaceAll(a', p, r) + ReplaceAll(x, p, r)) == ([a[0]] + ReplaceAll(a', p, r)) + ReplaceAll(x, p, r);
  }

  /** An occurrence at the start of `a + x` that does not cross `|a|` lies in `a`. */
  lemma MatchInFirst(a: string, x: string, p: string)
    requires |p| > 0 && |a| > 0
    requires !Crosses(a + x, |a|, p)
    requires MatchAt(a + x, 0, p)
    ensures MatchAt(a, 0, p)
  {
    assert |a| >= |p|;
    assert a[..|p|] == (a + x)[..|p|];
  }

  lemma MatchOfConcat(a: string, x: string, p: string, r: string)
    requires |p| > 0 && |p| <= |a|
    requires MatchAt(a + x, 0, p)
    ensures ReplaceAll(a + x, p, r) == r + ReplaceAll(a[|p|..] + x, p, r)
  {
    ReplaceAtMatch(a + x, p, r);
    assert (a + x)[|p|..] == a[|p|..] + x;
  }

  lemma OtherOfConcat(a: string, x: string, p: string, r: string)
    requires |p| > 0 && |a| > 0
    requires !MatchAt(a + x, 0, p)
    ensures ReplaceAll(a + x, p, r) == [a[0]] + ReplaceAll(a[1..] + x, p, r)
  {
    ReplaceAtOther(a + x, p, r);
    assert (a + x)[1..] == a[1..] + x;
  }

  lemma OtherInFirst(a: string, x: string, p: string, r: string)
    requires |p| > 0 && |a| > 0
    requires !MatchAt(a + x, 0, p)
    ensures ReplaceAll(a, p, r) == [a[0]] + ReplaceAll(a[1..], p, r)
  {
    if |a| >= |p| {
      assert a[..|p|] == (a + x)[..|p|];
      ReplaceAtOther(a, p, r);
    }
  }

  lemma ShiftedNoCrossing(a: string, x: string, k: int, p: string)
    requires 0 <= k <= |a|
    requires !Crosses(a + x, |a|, p)
    ensures !Crosses(a[k..] + x, |a| - k, p)
  {
    CrossesShift(a + x, |a|, k, p);
    assert (a + x)[k..] == a[k..] + x;
  }

  /** An occurrence at the very start is replaced. */
  lemma ReplaceHead(p: string, x: string, r: string)
    requires |p| > 0
    ensures ReplaceAll(p + x, p, r) == r + ReplaceAll(x, p, r)
  {
    assert (p + x)[..|p|] == p;
    assert (p + x)[|p|..] == x;
  }

  /** A first character that cannot start the pattern is copied. */
  lemma ReplaceSkip(c: char, x: string, p: string, r: string)
    requires |p| > 0 && c != p[0]
    ensures ReplaceAll([c] + x, p, r) == [c] + ReplaceAll(x, p, r)
  {
    var s := [c] + x;
    assert s[1..] == x;
    if |s| < |p| {
      assert ReplaceAll(x, p, r) == x;
    } else {
      assert s[..|p|][0] == c;
    }
  }

  /** Text without the pattern's first character is left as it is. */
  lemma {:induction false} ReplaceAbsent(s: string, p: string, r: string)
    requires |p| > 0
    requires forall i :: 0 <= i < |s| ==> s[i] != p[0]
    ensures ReplaceAll(s, p, r) == s
    decreases |s|
  {
    if |s| > 0 {
      assert s == [s[0]] + s[1..];
      ReplaceAbsent(s[1..], p, r);
      ReplaceSkip(s[0], s[1..], p, r);
    }
  }

  // ---------------------------------------------------------------------
  // `preg_replace('|(?<!%)%c|', rep)`: `%c` not preceded by `%`

  /**
    Replaces each `%c` whose preceding character is not `%`, scanning left
    to right; `afterPct` says whether the character before `s` is a `%`.
   */
  function Lookbehind(s: string, c: char, rep: string, afterPct: bool): (r: string)
    requires c != '%'
    ensures |rep| >= 2 ==> |r| >= |s|
    ensures |rep| == 2 ==> |r| == |s|
    decreases |s|
  {
    if |s| == 0 then ""
    else if |s| >= 2 && s[0] == '%' && s[1] == c && !afterPct then rep + Lookbehind(s[2..], c, rep, false)
    else [s[0]] + Lookbehind(s[1..], c, rep, s[0] == '%')
  }

  /** Whether the character just before the text that follows `a` is a `%`. */
  function AfterPercent(a: string, afterPct: bool): bool {
    if |a| == 0 then afterPct else a[|a| - 1] == '%'
  }

  /** The scan can be cut anywhere except between a `%` and a following `c`. */
  lemma {:induction false} LookbehindSplit(a: string, x: string, c: char, rep: string, p: bool)
    requires c != '%'
    requires |a| > 0 && a[|a| - 1] == '%' && |x| > 0 ==> x[0] != c
    ensures Lookbehind(a + x, c, rep, p) == Lookbehind(a, c, rep, p) + Lookbehind(x, c, rep, AfterPercent(a, p))
    decreases |a|, 1
  {
    if |a| == 0 {
      assert a + x == x;
    } else if |a| >= 2 && a[0] == '%' && a[1] == c && !p {
      SplitAfterMatch(a, x, c, rep, p);
    } else {
      SplitAfterCopy(a, x, c, rep, p);
    }
  }

  lemma {:induction false} SplitAfterMatch(a: string, x: string, c: char, rep: string, p: bool)
    requires c != '%'
    requires |a| > 0 && a[|a| - 1] == '%' && |x| > 0 ==> x[0] != c
    requires |a| >= 2 && a[0] == '%' && a[1] == c && !p
    ensures Lookbehind(a + x, c, rep, p) == Lookbehind(a, c, rep, p) + Lookbehind(x, c, rep, AfterPercent(a, p))
    decreases |a|, 0
  {
    var a' := a[2..];
    var la := Lookbehind(a', c, rep, false);
    var lx := Lookbehind(x, c, rep, AfterPercent(a, p));
    MatchHeadOfConcat(a, x, c, rep);
    assert Lookbehind(a' + x, c, rep, false) == la + lx by {
      LookbehindSplit(a', x, c, rep, false);
      assert AfterPercent(a', false) == AfterPercent(a, p);
    }
    HeadMatch(a, c, rep);
    assert rep + (la + lx) == (rep + la) + lx;
  }

  /** A match at the head of `a` is also one at the head of `a + x`. */
  lemma MatchHeadOfConcat(a: string, x: string, c: char, rep: string)
    requires c != '%'
    requires |a| >= 2 && a[0] == '%' && a[1] == c
    ensures Lookbehind(a + x, c, rep, false) == rep + Lookbehind(a[2..] + x, c, rep, false)
  {
    var s := a + x;
    assert s[0] == a[0] && s[1] == a[1];
    HeadMatch(s, c, rep);
    assert s[2..] == a[2..] + x;
  }

  /** Unfolding `Lookbehind` at a `%c` pair. */
  lemma HeadMatch(s: string, c: char, rep: string)
    requires c != '%'
    requires |s| >= 2 && s[0] == '%' && s[1] == c
    ensures Lookbehind(s, c, rep, false) == rep + Lookbehind(s[2..], c, rep, false)
  {
  }

  /** Unfolding `Lookbehind` at a character that is copied. */
  lemma HeadCopy(s: string, c: char, rep: string, p: bool)
    requires c != '%'
    requires |s| > 0 && !(|s| >= 2 && s[0] == '%' && s[1] == c && !p)
    ensures Lookbehind(s, c, rep, p) == [s[0]] + Lookbehind(s[1..], c, rep, s[0] == '%')
  {
  }

  /** The first character of `a + x` is copied when that of `a` is. */
  lemma CopyHeadOfConcat(a: string, x: string, c: char, rep: string, p: bool)
    requires c != '%'
    requires |a| > 0 && a[|a| - 1] == '%' && |x| > 0 ==> x[0] != c
    requires |a| > 0 && !(|a| >= 2 && a[0] == '%' && a[1] == c && !p)
    ensures Lookbehind(a + x, c, rep, p) == [a[0]] + Lookbehind(a[1..] + x, c, rep, a[0] == '%')
  {
    var s := a + x;
    assert s[0] == a[0];
    assert !(|s| >= 2 && s[0] == '%' && s[1] == c && !p) by {
      if |a| >= 2 {
        assert s[1] == a[1];
      } else if |s| >= 2 {
        assert s[1] == x[0];
      }
    }
    HeadCopy(s, c, rep, p);
    assert s[1..] == a[1..] + x;
  }

  lemma {:induction false} SplitAfterCopy(a: string, x: string, c: char, rep: string, p: bool)
    requires c != '%'
    requires |a| > 0 && a[|a| - 1] == '%' && |x| > 0 ==> x[0] != c
    requires |a| > 0 && !(|a| >= 2 && a[0] == '%' && a[1] == c && !p)
    ensures Lookbehind(a + x, c, rep, p) == Lookbehind(a, c, rep, p) + Lookbehind(x, c, rep, AfterPercent(a, p))
    decreases |a|, 0
  {
    CopyFacts(a, x, c, rep, p);
    LookbehindSplit(a[1..], x, c, rep, a[0] == '%');
    ConsAssoc(a[0], Lookbehind(a[1..], c, rep, a[0] == '%'), Lookbehind(x, c, rep, AfterPercent(a, p)));
  }

  /** What copying the first character of `a` contributes to the split of `a + x`. */
  lemma CopyFacts(a: string, x: string, c: char, rep: string, p: bool)
    requires c != '%'
    requires |a| > 0 && a[|a| - 1] == '%' && |x| > 0 ==> x[0] != c
    requires |a| > 0 && !(|a| >= 2 && a[0] == '%' && a[1] == c && !p)
    ensures Lookbehind(a + x, c, rep, p) == [a[0]] + Lookbehind(a[1..] + x, c, rep, a[0] == '%')
    ensures Lookbehind(a, c, rep, p) == [a[0]] + Lookbehind(a[1..], c, rep, a[0] == '%')
    ensures AfterPercent(a[1..], a[0] == '%') == AfterPercent(a, p)
    ensures |a[1..]| > 0 && a[1..][|a[1..]| - 1] == '%' && |x| > 0 ==> x[0] != c
  {
    CopyHeadOfConcat(a, x, c, rep, p);
    HeadCopy(a, c, rep, p);
  }

  lemma ConsAssoc(h: char, u: string, v: string)
    ensures [h] + (u + v) == ([h] + u) + v
  {
  }

  /** Text with no `%c` pair is left as it is. */
  lemma {:induction false} LookbehindAbsent(s: string, c: char, rep: string, p: bool)
    requires c != '%'
    requires forall i :: 0 <= i < |s| - 1 ==> !(s[i] == '%' && s[i + 1] == c)
    ensures Lookbehind(s, c, rep, p) == s
    decreases |s|
  {
    if |s| > 0 {
      assert s == [s[0]] + s[1..];
      if |s| >= 2 {
        assert !(s[0] == '%' && s[1] == c);
      }
      LookbehindAbsent(s[1..], c, rep, s[0] == '%');
    }
  }

  /** A `%c` whose preceding character is not `%` is replaced. */
  lemma RewritesBare(a: string, b: string, c: char, rep: string, p: bool)
    requires c != '%'
    requires |a| == 0 ==> !p
    requires |a| > 0 ==> a[|a| - 1] != '%'
    ensures Lookbehind(a + ['%', c] + b, c, rep, p) == Lookbehind(a, c, rep, p) + rep + Lookbehind(b, c, rep, false)
  {
    var x := ['%', c] + b;
    assert a + ['%', c] + b == a + x;
    LookbehindSplit(a, x, c, rep, p);
    assert x[2..] == b;
  }

  /** An escaped `%%c` is copied through unchanged, whatever precedes it. */
  lemma KeepsEscaped(a: string, b: string, c: char, rep: string, p: bool)
    requires c != '%'
    ensures Lookbehind(a + ['%', '%', c] + b, c, rep, p)
         == Lookbehind(a, c, rep, p) + ['%', '%', c] + Lookbehind(b, c, rep, false)
  {
    var x := ['%', '%', c] + b;
    var la := Lookbehind(a, c, rep, p);
    var lb := Lookbehind(b, c, rep, false);
    assert a + ['%', '%', c] + b == a + x;
    LookbehindSplit(a, x, c, rep, p);
    EscapedCopied(b, c, rep, AfterPercent(a, p));
    assert la + (['%', '%', c] + lb) == la + ['%', '%', c] + lb;
  }

  lemma EscapedCopied(b: string, c: char, rep: string, q: bool)
    requires c != '%'
    ensures Lookbehind(['%', '%', c] + b, c, rep, q) == ['%', '%', c] + Lookbehind(b, c, rep, false)
  {
    var x := ['%', '%', c] + b;
    var x1 := ['%', c] + b;
    var x2 := [c] + b;
    var l := Lookbehind(b, c, rep, false);
    assert x[1..] == x1 && x1[1..] == x2 && x2[1..] == b;
    HeadCopy(x2, c, rep, true);
    HeadCopy(x1, c, rep, true);
    HeadCopy(x, c, rep, q);
    assert ['%'] + (['%'] + ([c] + l)) == ['%', '%', c] + l;
  }

  // ---------------------------------------------------------------------
  // The template rewrites of `prepare`

  const SingleQuoted: string := "'%s'"
  const DoubleQuoted: string := "\"%s\""
  const Bare: string := "%s"

  /** Undo single and then double quoting of `%s` placeholders. */
  function Unquote(t: string): string {
    ReplaceAll(ReplaceAll(t, SingleQuoted, Bare), DoubleQuoted, Bare)
  }

  /** The four rewrites in order: unquote, force `%F`, quote `%s`. */
  function Rewrite(t: string): (r: string)
    ensures QuoteFree(t) && (forall i :: 0 <= i < |t| ==> t[i] != '%') ==> r == t
  {
    var r := Lookbehind(Lookbehind(Unquote(t), 'f', "%F", false), 's', SingleQuoted, false);
    if QuoteFree(t) && (forall i :: 0 <= i < |t| ==> t[i] != '%') then
      ReplaceAbsent(t, SingleQuoted, Bare);
      ReplaceAbsent(t, DoubleQuoted, Bare);
      LookbehindAbsent(t, 'f', "%F", false);
      LookbehindAbsent(t, 's', SingleQuoted, false);
      r
    else r
  }

  predicate IsQuote(c: char) {
    c == '\'' || c == '"'
  }

  predicate QuoteFree(s: string) {
    forall i :: 0 <= i < |s| ==> !IsQuote(s[i])
  }

  /** None of the (up to) three characters at the end of `a` is a quote. */
  predicate QuoteFreeTail(a: string) {
    forall j :: 0 <= j < |a| && |a| <= j + 3 ==> !IsQuote(a[j])
  }

  /** A pattern cannot end inside quote-free text that is at least as long as the pattern minus one. */
  lemma NoCrossingIntoQuoteFree(u: string, v: string, x: string, p: string)
    requires |p| == 4 && IsQuote(p[3])
    requires QuoteFree(v) && |v| >= 3
    ensures !Crosses(u + (v + x), |u|, p)
  {
    var s := u + (v + x);
    forall k | |u| <= k < |s| && k < |u| + 3
      ensures s[k] != p[3]
    {
      assert s[k] == v[k - |u|];
    }
    NoCrossingByLast(s, |u|, p);
  }

  /** A pattern cannot start inside a quote-free tail. */
  lemma NoCrossingFromQuoteFree(a: string, x: string, p: string)
    requires |p| == 4 && IsQuote(p[0])
    requires QuoteFreeTail(a)
    ensures !Crosses(a + x, |a|, p)
  {
    var s := a + x;
    forall j | 0 <= j < |a| && |a| < j + |p|
      ensures s[j] != p[0]
    {
      assert s[j] == a[j];
    }
    NoCrossingByFirst(s, |a|, p);
  }

  /** Quote-free text ending in at least three quote-free characters keeps that ending through a pass. */
  lemma PassKeepsEnding(u: string, v: string, p: string, r: string)
    requires |p| == 4 && IsQuote(p[0]) && IsQuote(p[3])
    requires QuoteFree(v) && (|v| >= 3 || u == "")
    ensures ReplaceAll(u + v, p, r) == ReplaceAll(u, p, r) + v
  {
    forall i | 0 <= i < |v|
      ensures v[i] != p[0]
    {
    }
    ReplaceAbsent(v, p, r);
    if u == "" {
      assert u + v == v;
    } else {
      assert u + v == u + (v + "");
      NoCrossingIntoQuoteFree(u, v, "", p);
      ReplaceSplit(u, v, p, r);
    }
  }

  lemma EndingIsTail(w: string, v: string)
    requires QuoteFree(v) && (|v| >= 3 || w == "")
    ensures QuoteFreeTail(w + v)
  {
    var s := w + v;
    forall j | 0 <= j < |s| && |s| <= j + 3
      ensures !IsQuote(s[j])
    {
      assert s[j] == v[j - |w|];
    }
  }

  /** The bare placeholder and what follows it, through one pass. */
  lemma PassOverBare(b: string, p: string, r: string)
    requires |p| == 4 && p[0] != '%' && p[0] != 's'
    ensures ReplaceAll(Bare + b, p, r) == Bare + ReplaceAll(b, p, r)
  {
    assert Bare + b == ['%'] + (['s'] + b);
    ReplaceSkip('s', b, p, r);
    ReplaceSkip('%', ['s'] + b, p, r);
  }

  /** A quoted placeholder the other pass is looking for passes through unchanged. */
  lemma PassOverOther(b: string, p: string, r: string)
    requires p == SingleQuoted
    ensures ReplaceAll(DoubleQuoted + b, p, r) == DoubleQuoted + ReplaceAll(b, p, r)
  {
    var b1 := ['"'] + b;
    var b2 := ['s'] + b1;
    var b3 := ['%'] + b2;
    var b4 := ['"'] + b3;
    assert DoubleQuoted + b == b4;
    var t := ReplaceAll(b, p, r);
    ReplaceSkip('"', b, p, r);
    ReplaceSkip('s', b1, p, r);
    ReplaceSkip('%', b2, p, r);
    ReplaceSkip('"', b3, p, r);
    assert ['"'] + (['%'] + (['s'] + (['"'] + t))) == DoubleQuoted + t;
  }

  /** One pass over `a + m + b` when `m` sits after a quote-free tail. */
  lemma PassAround(a: string, m: string, b: string, p: string, r: string)
    requires |p| == 4 && IsQuote(p[0])
    requires QuoteFreeTail(a)
    ensures ReplaceAll(a + m + b, p, r) == ReplaceAll(a, p, r) + ReplaceAll(m + b, p, r)
  {
    assert a + m + b == a + (m + b);
    NoCrossingFromQuoteFree(a, m + b, p);
    ReplaceSplit(a, m + b, p, r);
  }

  /** One pass over a template whose middle part `m` the pass turns into `m'`. */
  lemma PassWith(u: string, v: string, m: string, b: string, p: string, r: string, m': string)
    requires |p| == 4 && IsQuote(p[0]) && IsQuote(p[3])
    requires QuoteFree(v) && (|v| >= 3 || u == "")
    requires ReplaceAll(m + b, p, r) == m' + ReplaceAll(b, p, r)
    ensures ReplaceAll(u + v + m + b, p, r) == ReplaceAll(u, p, r) + v + m' + ReplaceAll(b, p, r)
  {
    EndingIsTail(u, v);
    PassAround(u + v, m, b, p, r);
    PassKeepsEnding(u, v, p, r);
  }

  /**
    A placeholder someone already quoted, `'%s'` or `"%s"`, rewrites to
    the same text as a bare `%s`, provided it follows at least three
    quote-free characters (or only quote-free characters).
   */
  lemma QuotedIsBare(u: string, v: string, b: string)
    requires QuoteFree(v) && (|v| >= 3 || u == "")
    ensures Unquote(u + v + SingleQuoted + b) == Unquote(u + v + Bare + b)
    ensures Unquote(u + v + DoubleQuoted + b) == Unquote(u + v + Bare + b)
  {
    // first pass, looking for '%s'
    var u1 := ReplaceAll(u, SingleQuoted, Bare);
    var b1 := ReplaceAll(b, SingleQuoted, Bare);
    ReplaceHead(SingleQuoted, b, Bare);
    PassWith(u, v, SingleQuoted, b, SingleQuoted, Bare, Bare);
    PassOverBare(b, SingleQuoted, Bare);
    PassWith(u, v, Bare, b, SingleQuoted, Bare, Bare);
    PassOverOther(b, SingleQuoted, Bare);
    PassWith(u, v, DoubleQuoted, b, SingleQuoted, Bare, DoubleQuoted);
    // second pass, looking for "%s"
    ReplaceHead(DoubleQuoted, b1, Bare);
    PassWith(u1, v, DoubleQuoted, b1, DoubleQuoted, Bare, Bare);
    PassOverBare(b1, DoubleQuoted, Bare);
    PassWith(u1, v, Bare, b1, DoubleQuoted, Bare, Bare);
  }

  /** The same, for any template whose last three characters before the placeholder are not quotes. */
  lemma QuotedPlaceholderIsBare(a: string, b: string)
    requires QuoteFreeTail(a)
    ensures Unquote(a + SingleQuoted + b) == Unquote(a + Bare + b)
    ensures Unquote(a + DoubleQuoted + b) == Unquote(a + Bare + b)
  {
    var k := if |a| < 3 then 0 else |a| - 3;
    var u, v := a[..k], a[k..];
    assert a == u + v;
    forall i | 0 <= i < |v|
      ensures !IsQuote(v[i])
    {
      assert v[i] == a[k + i];
    }
    QuotedIsBare(u, v, b);
  }
}
