/**
  `prepare()` in db.class.php: the template rewrites (module `Template`),
  the escaping of the arguments, and PHP 5's `vsprintf` over the
  directives the method documents (`%d`, `%s`, `%F`/`%f`, `%%`).
 */
module Prepare {
  import opened Php
  import opened Escape
  import opened Template

  // ---------------------------------------------------------------------
  // `vsprintf` over the documented directives

  predicate IsConversion(c: char) {
    c == 'd' || c == 's' || c == 'F' || c == 'f'
  }

  /**
    The outcome of `vsprintf`: the text, PHP 5's failure for too few
    arguments, or a template using a directive outside the documented set,
    which the model does not determine.
   */
  datatype Formatted = Text(s: string) | TooFewArgs | Unsupported

  function Prefix(p: string, f: Formatted): Formatted {
    match f
    case Text(s) => Text(p + s)
    case other => other
  }

  /** One directive applied to one argument. */
  function Convert(rt: Runtime, c: char, v: Scalar): string
    requires IsConversion(c)
  {
    if c == 'd' then IntToDecimal(ToInt(v))
    else if c == 's' then ToString(rt, v)
    else rt.fixedPoint(ToFloat(rt, v))
  }

  function Format(rt: Runtime, t: string, args: seq<Scalar>): (r: Formatted)
    ensures (forall i :: 0 <= i < |t| ==> t[i] != '%') ==> r == Text(t)
    decreases |t|
  {
    if |t| == 0 then Text("")
    else if t[0] != '%' then
      assert t == [t[0]] + t[1..];
      Prefix([t[0]], Format(rt, t[1..], args))
    else if |t| == 1 then Unsupported
    else if t[1] == '%' then Prefix("%", Format(rt, t[2..], args))
    else if IsConversion(t[1]) then
      if |args| == 0 then TooFewArgs
      else Prefix(Convert(rt, t[1], args[0]), Format(rt, t[2..], args[1..]))
    else Unsupported
  }

  /** How many arguments a template consumes; `None` when it uses an undocumented directive. */
  function Directives(t: string): Option<nat>
    decreases |t|
  {
    if |t| == 0 then Some(0)
    else if t[0] != '%' then Directives(t[1..])
    else if |t| == 1 then None
    else if t[1] == '%' then Directives(t[2..])
    else if IsConversion(t[1]) then
      match Directives(t[2..])
      case None => None
      case Some(n) => Some(n + 1)
    else None
  }

  /**
    `vsprintf` fails exactly when the template has more directives than
    there are arguments, and succeeds otherwise; a template the model does
    not cover is never reported as a success or failure.
   */
  lemma {:induction false} FormatArity(rt: Runtime, t: string, args: seq<Scalar>)
    ensures Format(rt, t, args).Unsupported? ==> Directives(t).None?
    ensures Directives(t).Some? ==> (Format(rt, t, args).TooFewArgs? <==> Directives(t).value > |args|)
    ensures Directives(t).Some? ==> (Format(rt, t, args).Text? <==> Directives(t).value <= |args|)
    decreases |t|
  {
    if |t| == 0 {
    } else if t[0] != '%' {
      FormatArity(rt, t[1..], args);
    } else if |t| == 1 {
    } else if t[1] == '%' {
      FormatArity(rt, t[2..], args);
    } else if IsConversion(t[1]) {
      if |args| > 0 {
        FormatArity(rt, t[2..], args[1..]);
      }
    }
  }

  /** Arguments beyond those the directives consume are ignored. */
  lemma {:induction false} ExtraArgsIgnored(rt: Runtime, t: string, args: seq<Scalar>, extra: seq<Scalar>)
    requires Directives(t).Some? && Directives(t).value <= |args|
    ensures Format(rt, t, args + extra) == Format(rt, t, args)
    decreases |t|
  {
    if |t| == 0 {
    } else if t[0] != '%' {
      ExtraArgsIgnored(rt, t[1..], args, extra);
    } else if t[1] == '%' {
      ExtraArgsIgnored(rt, t[2..], args, extra);
    } else {
      assert (args + extra)[1..] == args[1..] + extra;
      ExtraArgsIgnored(rt, t[2..], args[1..], extra);
    }
  }

  /** Text without `%` is copied through and consumes no argument. */
  lemma {:induction false} FormatPlainPrefix(rt: Runtime, u: string, v: string, args: seq<Scalar>)
    requires forall i :: 0 <= i < |u| ==> u[i] != '%'
    ensures Format(rt, u + v, args) == Prefix(u, Format(rt, v, args))
    decreases |u|
  {
    if |u| == 0 {
      assert u + v == v;
      PrefixNothing(Format(rt, v, args));
    } else {
      FormatPlainStep(rt, u, v, args);
      FormatPlainPrefix(rt, u[1..], v, args);
      PrefixPrefix([u[0]], u[1..], Format(rt, v, args));
      assert [u[0]] + u[1..] == u;
    }
  }

  lemma PrefixNothing(f: Formatted)
    ensures Prefix("", f) == f
  {
    match f
    case Text(s) => assert "" + s == s;
    case _ =>
  }

  lemma PrefixPrefix(a: string, b: string, f: Formatted)
    ensures Prefix(a, Prefix(b, f)) == Prefix(a + b, f)
  {
    match f
    case Text(s) => assert a + (b + s) == (a + b) + s;
    case _ =>
  }

  /** One character of plain text is copied before the rest is formatted. */
  lemma FormatPlainStep(rt: Runtime, u: string, v: string, args: seq<Scalar>)
    requires |u| > 0 && u[0] != '%'
    ensures Format(rt, u + v, args) == Prefix([u[0]], Format(rt, u[1..] + v, args))
  {
    assert (u + v)[0] == u[0];
    assert (u + v)[1..] == u[1..] + v;
  }

  // ---------------------------------------------------------------------
  // `prepare`

  /** What `prepare` returns: null, false, the query text, or (outside the model) undetermined. */
  datatype Prepared = NoQuery | Failed | Sql(text: string) | Undetermined

  /** `array_walk($args, escape_by_ref)`. */
  function EscapeArgs(rt: Runtime, connected: bool, args: seq<Scalar>): (r: seq<Scalar>)
    ensures |r| == |args|
    ensures forall i :: 0 <= i < |args| && args[i].Float? ==> r[i] == args[i]
    ensures forall i :: 0 <= i < |args| && !args[i].Float? ==> r[i] == Str(RealEscape(rt, connected, args[i]))
  {
    seq(|args|, i requires 0 <= i < |args| => EscapeArg(rt, connected, args[i]))
  }

  /**
    `prepare($query, $args)` called vsprintf-style. `connected` says
    whether the database object holds a live link, which selects the
    escape function.
   */
  function Prepare(rt: Runtime, connected: bool, query: Option<string>, args: seq<Scalar>): (r: Prepared)
    ensures r.NoQuery? <==> query.None?
    ensures query.Some? && Directives(Rewrite(query.value)).Some? ==>
              (r.Failed? <==> Directives(Rewrite(query.value)).value > |args|)
    ensures query.Some? && r.Undetermined? ==> Directives(Rewrite(query.value)).None?
  {
    match query
    case None => NoQuery
    case Some(q) =>
      var t := Rewrite(q);
      var escaped := EscapeArgs(rt, connected, args);
      FormatArity(rt, t, escaped);
      match Format(rt, t, escaped)
      case Text(s) => Sql(s)
      case TooFewArgs => Failed
      case Unsupported => Undetermined
  }

  /**
    Quoted placeholders prepare exactly like bare ones, when the three
    characters before them are not quotes.
   */
  lemma PrepareQuotedPlaceholder(rt: Runtime, connected: bool, a: string, b: string, args: seq<Scalar>)
    requires QuoteFreeTail(a)
    ensures Prepare(rt, connected, Some(a + SingleQuoted + b), args) == Prepare(rt, connected, Some(a + Bare + b), args)
    ensures Prepare(rt, connected, Some(a + DoubleQuoted + b), args) == Prepare(rt, connected, Some(a + Bare + b), args)
  {
    QuotedPlaceholderIsBare(a, b);
  }

  /** Text with neither `%` nor a quote character. */
  predicate Plain(s: string) {
    forall i :: 0 <= i < |s| ==> s[i] != '%' && !IsQuote(s[i])
  }

  /** Plain text is untouched by every rewrite. */
  lemma PlainUntouched(s: string, c: char, rep: string, p: bool)
    requires Plain(s) && c != '%'
    ensures Unquote(s) == s
    ensures Lookbehind(s, c, rep, p) == s
  {
    ReplaceAbsent(s, SingleQuoted, Bare);
    ReplaceAbsent(s, DoubleQuoted, Bare);
    LookbehindAbsent(s, c, rep, p);
  }

  /** A single directive `%d` between plain text: `d` is the only character following a `%`. */
  lemma OnlyDirective(a: string, d: char, b: string)
    requires Plain(a) && Plain(b) && d != '%'
    ensures var t := a + ['%', d] + b;
            QuoteFree(t) || IsQuote(d)
    ensures var t := a + ['%', d] + b;
            forall i :: 0 <= i < |t| - 1 && t[i] == '%' ==> t[i + 1] == d
  {
    var t := a + ['%', d] + b;
    forall i | 0 <= i < |t| - 1
      ensures t[i] == '%' ==> t[i + 1] == d
    {
      if i < |a| {
        assert t[i] == a[i];
      } else if i == |a| + 1 {
        assert t[i] == d;
      } else if i > |a| + 1 {
        assert t[i] == b[i - |a| - 2];
      }
    }
    if !IsQuote(d) {
      forall i | 0 <= i < |t|
        ensures !IsQuote(t[i])
      {
        if i < |a| {
          assert t[i] == a[i];
        } else if i >= |a| + 2 {
          assert t[i] == b[i - |a| - 2];
        }
      }
    }
  }

  /** A bare `%s` between plain text is the one thing the rewrites change: it gets quoted. */
  lemma RewriteBareString(a: string, b: string)
    requires Plain(a) && Plain(b)
    ensures Rewrite(a + Bare + b) == a + SingleQuoted + b
  {
    var t := a + Bare + b;
    assert t == a + ['%', 's'] + b;
    OnlyDirective(a, 's', b);
    ReplaceAbsent(t, SingleQuoted, Bare);
    ReplaceAbsent(t, DoubleQuoted, Bare);
    LookbehindAbsent(t, 'f', "%F", false);
    RewritesBare(a, b, 's', SingleQuoted, false);
    PlainUntouched(a, 's', SingleQuoted, false);
    PlainUntouched(b, 's', SingleQuoted, false);
  }

  /** `%d` between plain text is left alone by the rewrites. */
  lemma RewriteIntDirective(a: string, b: string)
    requires Plain(a) && Plain(b)
    ensures Rewrite(a + "%d" + b) == a + "%d" + b
  {
    var t := a + "%d" + b;
    assert t == a + ['%', 'd'] + b;
    OnlyDirective(a, 'd', b);
    ReplaceAbsent(t, SingleQuoted, Bare);
    ReplaceAbsent(t, DoubleQuoted, Bare);
    LookbehindAbsent(t, 'f', "%F", false);
    LookbehindAbsent(t, 's', SingleQuoted, false);
  }

  /** Plain text after the last directive is copied once the arguments run out. */
  lemma FormatPlain(rt: Runtime, b: string, args: seq<Scalar>)
    requires Plain(b)
    ensures Format(rt, b, args) == Text(b)
  {
    FormatPlainPrefix(rt, b, "", args);
    assert b + "" == b;
  }

  /**
    Without a connection, a string bound to a bare `%s` lands in the query
    as one single-quoted literal holding its `addslashes` form, which
    cannot end the literal early and reads back as the original string.
   */
  lemma StringArgIsQuotedLiteral(rt: Runtime, a: string, b: string, x: string)
    requires Plain(a) && Plain(b)
    ensures Prepare(rt, false, Some(a + Bare + b), [Str(x)]) == Sql(a + "'" + AddSlashes(x) + "'" + b)
    ensures LiteralBody(AddSlashes(x)) && StripSlashes(AddSlashes(x)) == x
  {
    var esc := AddSlashes(x);
    var a' := a + "'";
    var b' := "'" + b;
    RewriteBareString(a, b);
    assert EscapeArgs(rt, false, [Str(x)]) == [Str(esc)];
    assert a + SingleQuoted + b == a' + ['%', 's'] + b';
    QuoteThenPlain(a, b);
    FormatOne(rt, a', 's', b', Str(esc));
    assert a' + esc + b' == a + "'" + esc + "'" + b;
    PreparedText(rt, false, a + Bare + b, [Str(x)], a' + esc + b');
    StripAfterAdd(x);
    AddSlashesIsLiteralBody(x);
  }

  /** Plain text with a quote added at the inner end still holds no `%`, and copies through `vsprintf`. */
  lemma QuoteThenPlain(a: string, b: string)
    requires Plain(a) && Plain(b)
    ensures forall i :: 0 <= i < |a + "'"| ==> (a + "'")[i] != '%'
    ensures forall rt: Runtime :: Format(rt, "'" + b, []) == Text("'" + b)
  {
    var a' := a + "'";
    var b' := "'" + b;
    forall i | 0 <= i < |a'|
      ensures a'[i] != '%'
    {
      if i < |a| {
        assert a'[i] == a[i];
      }
    }
    forall rt: Runtime
      ensures Format(rt, b', []) == Text(b')
    {
      forall i | 0 <= i < |b'|
        ensures b'[i] != '%'
      {
        if i > 0 {
          assert b'[i] == b[i - 1];
        }
      }
      FormatPlainPrefix(rt, b', "", []);
      assert b' + "" == b';
    }
  }

  /** One directive after `%`-free text consumes the one argument. */
  lemma FormatOne(rt: Runtime, a: string, d: char, b: string, v: Scalar)
    requires IsConversion(d)
    requires forall i :: 0 <= i < |a| ==> a[i] != '%'
    requires Format(rt, b, []) == Text(b)
    ensures Format(rt, a + ['%', d] + b, [v]) == Text(a + Convert(rt, d, v) + b)
  {
    var w := ['%', d] + b;
    var c := Convert(rt, d, v);
    FormatDirectiveHead(rt, d, b, v);
    assert a + ['%', d] + b == a + w;
    FormatPlainPrefix(rt, a, w, [v]);
    assert a + (c + b) == a + c + b;
  }

  lemma FormatDirectiveHead(rt: Runtime, d: char, b: string, v: Scalar)
    requires IsConversion(d)
    requires Format(rt, b, []) == Text(b)
    ensures Format(rt, ['%', d] + b, [v]) == Text(Convert(rt, d, v) + b)
  {
    var w := ['%', d] + b;
    assert w[0] == '%' && w[1] == d;
    assert w[2..] == b;
    assert [v][1..] == [];
  }

  /**
    Without a connection, an integer bound to `%d` (escaped to its decimal
    text first, then read back by `%d`) comes out as that same integer,
    for every 64-bit value.
   */
  lemma IntArgSurvives(rt: Runtime, a: string, b: string, i: int)
    requires Plain(a) && Plain(b)
    requires LongMin <= i <= LongMax
    ensures Prepare(rt, false, Some(a + "%d" + b), [Int(i)]) == Sql(a + IntToDecimal(i) + b)
  {
    var dec := IntToDecimal(i);
    RewriteIntDirective(a, b);
    EscapedDecimal(rt, i);
    DecimalConverts(rt, i);
    FormatPlain(rt, b, []);
    FormatOne(rt, a, 'd', b, Str(dec));
    assert a + "%d" + b == a + ['%', 'd'] + b;
    PreparedText(rt, false, a + "%d" + b, [Int(i)], a + dec + b);
  }

  /** `prepare` returns what `vsprintf` produces from the rewritten template and the escaped arguments. */
  lemma PreparedText(rt: Runtime, connected: bool, q: string, args: seq<Scalar>, s: string)
    requires Format(rt, Rewrite(q), EscapeArgs(rt, connected, args)) == Text(s)
    ensures Prepare(rt, connected, Some(q), args) == Sql(s)
  {
  }

  lemma EscapedDecimal(rt: Runtime, i: int)
    ensures EscapeArgs(rt, false, [Int(i)]) == [Str(IntToDecimal(i))]
  {
    var dec := IntToDecimal(i);
    assert forall k :: 0 <= k < |dec| ==> dec[k] == '-' || IsDigit(dec[k]);
    DecimalHasNoSlashes(dec);
  }

  lemma DecimalConverts(rt: Runtime, i: int)
    requires LongMin <= i <= LongMax
    ensures Convert(rt, 'd', Str(IntToDecimal(i))) == IntToDecimal(i)
  {
    DecimalRoundTrip(i);
  }

  lemma {:induction false} DecimalHasNoSlashes(s: string)
    requires forall i :: 0 <= i < |s| ==> s[i] == '-' || IsDigit(s[i])
    ensures AddSlashes(s) == s
    decreases |s|
  {
    if |s| > 0 {
      DecimalHasNoSlashes(s[1..]);
    }
  }
}
