/**
  The write helpers of db.class.php: `insert()` and `replace()` through
  `_insert_replace_helper()`, `update()` and `delete()`. Each picks one
  format per column, builds a statement template around the column names,
  and hands `prepare(template, values)` to `query()`.
 */
module Writes {
  import opened Php
  import opened Template
  import opened Prepare
  import opened Statement
  import Idb

  /** One `column => value` pair of a PHP array, in iteration order. */
  datatype Item = Item(field: string, value: Scalar)

  /** The `$format` / `$where_format` argument before its `(array)` cast. */
  datatype FormatArg = NoFormat | OneFormat(s: string) | FormatList(xs: seq<string>)

  /** `(array) $format`: null becomes the empty array, a string a one-element array. */
  function AsArray(f: FormatArg): (r: seq<string>)
    ensures f.NoFormat? <==> r == [] && f != FormatList([])
    ensures f.OneFormat? ==> r == [f.s]
  {
    match f
    case NoFormat => []
    case OneFormat(s) => [s]
    case FormatList(xs) => xs
  }

  /** `array_keys($data)`. */
  function Fields(items: seq<Item>): (r: seq<string>)
    ensures |r| == |items|
    ensures forall i :: 0 <= i < |items| ==> r[i] == items[i].field
  {
    seq(|items|, i requires 0 <= i < |items| => items[i].field)
  }

  /** `array_values($data)`. */
  function Values(items: seq<Item>): (r: seq<Scalar>)
    ensures |r| == |items|
    ensures forall i :: 0 <= i < |items| ==> r[i] == items[i].value
  {
    seq(|items|, i requires 0 <= i < |items| => items[i].value)
  }

  // ---------------------------------------------------------------------
  // Format selection

  /**
    The format of the `i`-th column, read off the whole `$format` array:
    its `i`-th entry when that is truthy, otherwise its first entry; with
    no formats at all, the column's entry in `$field_types`, else `%s`.
   */
  function FormatFor(format: seq<string>, types: map<string, string>, field: string, i: nat): (r: string)
    ensures |format| > 0 ==> r in format && (i < |format| && !EmptyString(format[i]) ==> r == format[i])
    ensures |format| > 0 && (i >= |format| || EmptyString(format[i])) ==> r == format[0]
    ensures |format| == 0 && field in types ==> r == types[field]
    ensures |format| == 0 && field !in types ==> r == "%s"
  {
    if |format| > 0 then
      if i < |format| && !EmptyString(format[i]) then format[i] else format[0]
    else if field in types then types[field]
    else "%s"
  }

  function Formats(format: seq<string>, types: map<string, string>, fields: seq<string>): (r: seq<string>)
    ensures |r| == |fields|
    ensures forall i :: 0 <= i < |fields| ==> r[i] == FormatFor(format, types, fields[i], i)
  {
    seq(|fields|, i requires 0 <= i < |fields| => FormatFor(format, types, fields[i], i))
  }

  /**
    The selection loop as the source writes it: `array_shift` on a copy of
    the format array for each column, falling back to `$format[0]` when
    the shifted value is falsy (or the copy is exhausted). It picks the
    same formats as `FormatFor`.
   */
  method SelectFormats(format: seq<string>, types: map<string, string>, fields: seq<string>) returns (forms: seq<string>)
    ensures |forms| == |fields|
    ensures forall i :: 0 <= i < |fields| ==> forms[i] == FormatFor(format, types, fields[i], i)
  {
    var formats := format;
    forms := [];
    var i := 0;
    while i < |fields|
      invariant 0 <= i <= |fields|
      invariant |forms| == i
      invariant forall j :: 0 <= j < i ==> forms[j] == FormatFor(format, types, fields[j], j)
      invariant formats == if i <= |format| then format[i..] else []
    {
      var form;
      if |format| > 0 {
        var shifted: Option<string> := None;
        if |formats| > 0 {
          shifted := Some(formats[0]);
          formats := formats[1..];
        }
        form := if shifted.Some? && !EmptyString(shifted.value) then shifted.value else format[0];
      } else if fields[i] in types {
        form := types[fields[i]];
      } else {
        form := "%s";
      }
      forms := forms + [form];
      i := i + 1;
    }
  }

  /** A single format string applies to every column, whatever `$field_types` says. */
  lemma OneFormatForAll(s: string, types: map<string, string>, fields: seq<string>)
    ensures forall i :: 0 <= i < |fields| ==> Formats(AsArray(OneFormat(s)), types, fields)[i] == s
  {
  }

  // ---------------------------------------------------------------------
  // Statement templates

  /** `implode($sep, $xs)`. */
  function Join(xs: seq<string>, sep: string): string
    decreases |xs|
  {
    if |xs| == 0 then "" else if |xs| == 1 then xs[0] else xs[0] + sep + Join(xs[1..], sep)
  }

  function InsertTemplate(kind: string, table: string, fields: seq<string>, forms: seq<string>): string {
    kind + " INTO `" + table + "` (`" + Join(fields, "`,`") + "`) VALUES (" + Join(forms, ",") + ")"
  }

  /** One piece per column: `pre`, the name, `mid`, the column's format. */
  function Pieces(pre: string, fields: seq<string>, mid: string, forms: seq<string>): (r: seq<string>)
    requires |fields| == |forms|
    ensures |r| == |fields|
  {
    seq(|fields|, i requires 0 <= i < |fields| => pre + fields[i] + mid + forms[i])
  }

  /** The `` `field` = format `` pieces of `update()`. */
  function Assignments(fields: seq<string>, forms: seq<string>): (r: seq<string>)
    requires |fields| == |forms|
  {
    Pieces("`", fields, "` = ", forms)
  }

  function UpdateTemplate(table: string, bits: seq<string>, wheres: seq<string>): string {
    "UPDATE `" + table + "` SET " + Join(bits, ", ") + " WHERE " + Join(wheres, " AND ")
  }

  /** The `field = format` pieces of `delete()`, which quotes neither names nor table. */
  function Conditions(fields: seq<string>, forms: seq<string>): (r: seq<string>)
    requires |fields| == |forms|
  {
    Pieces("", fields, " = ", forms)
  }

  function DeleteTemplate(table: string, wheres: seq<string>): string {
    "DELETE FROM " + table + " WHERE " + Join(wheres, " AND ")
  }

  // ---------------------------------------------------------------------
  // The operations

  /**
    `query(prepare(...))`: a `false` from `prepare` reaches `query()` and
    is trimmed to the empty statement. `None` when `prepare` falls outside
    the model.
   */
  function Submit(env: Idb.Env, w: Idb.World, p: Prepared, d: Idb.DriverResult, now: int): (r: Option<(Idb.World, Idb.Ret)>)
    ensures r.None? <==> p.Undetermined?
    ensures p.Sql? ==> r == Some(Idb.Query(env, w, p.text, d, now))
    ensures p.Failed? ==> r == Some(Idb.Query(env, w, "", d, now))
  {
    match p
    case Sql(s) => Some(Idb.Query(env, w, s, d, now))
    case Failed => Some(Idb.Query(env, w, "", d, now))
    case NoQuery => Some(Idb.Query(env, w, "", d, now))
    case Undetermined => None
  }

  /** `_insert_replace_helper($table, $data, $format, $kind)`. */
  function InsertReplace(env: Idb.Env, w: Idb.World, table: string, data: seq<Item>, format: FormatArg, kind: string,
                         d: Idb.DriverResult, now: int): (r: Option<(Idb.World, Idb.Ret)>)
    ensures UpperString(kind) != "REPLACE" && UpperString(kind) != "INSERT" ==> r == Some((w, Idb.RetFalse))
    ensures UpperString(kind) == "REPLACE" || UpperString(kind) == "INSERT" ==>
              r == Submit(env, w.(db := w.db.(insertId := 0)),
                          Prepare.Prepare(env.rt, w.db.connected,
                                  Some(InsertTemplate(kind, table, Fields(data), Formats(AsArray(format), w.db.fieldTypes, Fields(data)))),
                                  Values(data)),
                          d, now)
  {
    if UpperString(kind) != "REPLACE" && UpperString(kind) != "INSERT" then Some((w, Idb.RetFalse))
    else
      var fields := Fields(data);
      var sql := InsertTemplate(kind, table, fields, Formats(AsArray(format), w.db.fieldTypes, fields));
      Submit(env, w.(db := w.db.(insertId := 0)), Prepare.Prepare(env.rt, w.db.connected, Some(sql), Values(data)), d, now)
  }

  function Insert(env: Idb.Env, w: Idb.World, table: string, data: seq<Item>, format: FormatArg,
                  d: Idb.DriverResult, now: int): (r: Option<(Idb.World, Idb.Ret)>)
    ensures var p := Prepare.Prepare(env.rt, w.db.connected,
                                     Some(InsertTemplate("INSERT", table, Fields(data), FormatsOf(w, format, data))), Values(data));
            var w0 := w.(db := w.db.(insertId := 0));
            (r.None? <==> p.Undetermined?)
            && (p.Sql? ==> r == Some(Idb.Query(env, w0, p.text, d, now)))
            && (p.Failed? ==> r == Some(Idb.Query(env, w0, "", d, now)))
  {
    KindsUpper();
    InsertReplace(env, w, table, data, format, "INSERT", d, now)
  }

  function Replace(env: Idb.Env, w: Idb.World, table: string, data: seq<Item>, format: FormatArg,
                   d: Idb.DriverResult, now: int): (r: Option<(Idb.World, Idb.Ret)>)
    ensures var p := Prepare.Prepare(env.rt, w.db.connected,
                                     Some(InsertTemplate("REPLACE", table, Fields(data), FormatsOf(w, format, data))), Values(data));
            var w0 := w.(db := w.db.(insertId := 0));
            (r.None? <==> p.Undetermined?)
            && (p.Sql? ==> r == Some(Idb.Query(env, w0, p.text, d, now)))
            && (p.Failed? ==> r == Some(Idb.Query(env, w0, "", d, now)))
  {
    KindsUpper();
    InsertReplace(env, w, table, data, format, "REPLACE", d, now)
  }

  function UpdateSql(db: Idb.Db, table: string, data: seq<Item>, where: seq<Item>, format: FormatArg, whereFormat: FormatArg): string {
    var fields := Fields(data);
    var wfields := Fields(where);
    UpdateTemplate(table, Assignments(fields, Formats(AsArray(format), db.fieldTypes, fields)),
                   Assignments(wfields, Formats(AsArray(whereFormat), db.fieldTypes, wfields)))
  }

  /** `update($table, $data, $where, $format, $where_format)`: data values, then where values. */
  function Update(env: Idb.Env, w: Idb.World, table: string, data: seq<Item>, where: seq<Item>,
                  format: FormatArg, whereFormat: FormatArg, d: Idb.DriverResult, now: int): (r: Option<(Idb.World, Idb.Ret)>)
    ensures var p := Prepare.Prepare(env.rt, w.db.connected, Some(UpdateSql(w.db, table, data, where, format, whereFormat)),
                                     Values(data) + Values(where));
            (r.None? <==> p.Undetermined?)
            && (p.Sql? ==> r == Some(Idb.Query(env, w, p.text, d, now)))
            && (p.Failed? ==> r == Some(Idb.Query(env, w, "", d, now)))
  {
    Submit(env, w, Prepare.Prepare(env.rt, w.db.connected, Some(UpdateSql(w.db, table, data, where, format, whereFormat)),
                           Values(data) + Values(where)), d, now)
  }

  function DeleteSql(db: Idb.Db, table: string, where: seq<Item>, whereFormat: FormatArg): string {
    var wfields := Fields(where);
    DeleteTemplate(table, Conditions(wfields, Formats(AsArray(whereFormat), db.fieldTypes, wfields)))
  }

  /** `delete($table, $where, $where_format)`. */
  function Delete(env: Idb.Env, w: Idb.World, table: string, where: seq<Item>, whereFormat: FormatArg,
                  d: Idb.DriverResult, now: int): (r: Option<(Idb.World, Idb.Ret)>)
    ensures var p := Prepare.Prepare(env.rt, w.db.connected, Some(DeleteSql(w.db, table, where, whereFormat)), Values(where));
            (r.None? <==> p.Undetermined?)
            && (p.Sql? ==> r == Some(Idb.Query(env, w, p.text, d, now)))
            && (p.Failed? ==> r == Some(Idb.Query(env, w, "", d, now)))
  {
    Submit(env, w, Prepare.Prepare(env.rt, w.db.connected, Some(DeleteSql(w.db, table, where, whereFormat)), Values(where)), d, now)
  }

  // ---------------------------------------------------------------------
  // Counting placeholders

  /** Every `%` of `t` is followed by one of the documented conversions. */
  predicate Conversions(t: string) {
    forall i :: 0 <= i < |t| && t[i] == '%' ==> i + 1 < |t| && IsConversion(t[i + 1])
  }

  /** A template of plain text and documented directives only, with no quote characters. */
  predicate Simple(t: string) {
    QuoteFree(t) && Conversions(t)
  }

  /** The formats the write helpers document. */
  predicate Documented(f: string) {
    f == "%d" || f == "%s" || f == "%f" || f == "%F"
  }

  function Plus(n: nat, o: Option<nat>): Option<nat> {
    match o
    case None => None
    case Some(m) => Some(n + m)
  }

  /** Directives are counted piecewise when the first piece parses completely. */
  lemma {:induction false} DirectivesAppend(a: string, b: string)
    requires Directives(a).Some?
    ensures Directives(a + b) == Plus(Directives(a).value, Directives(b))
    decreases |a|
  {
    if |a| == 0 {
      assert a + b == b;
    } else if a[0] != '%' {
      assert (a + b)[1..] == a[1..] + b;
      DirectivesAppend(a[1..], b);
    } else {
      assert (a + b)[2..] == a[2..] + b;
      assert (a + b)[1] == a[1];
      DirectivesAppend(a[2..], b);
    }
  }

  lemma SimpleAppend(a: string, b: string)
    requires Simple(a) && Simple(b)
    ensures Simple(a + b)
  {
    var s := a + b;
    forall i | 0 <= i < |s| && s[i] == '%'
      ensures i + 1 < |s| && IsConversion(s[i + 1])
    {
      if i < |a| {
        assert a[i] == '%';
      } else {
        assert b[i - |a|] == '%';
      }
    }
  }

  lemma {:induction false} PlainCount(s: string)
    requires Plain(s)
    ensures Simple(s) && Directives(s) == Some(0)
    decreases |s|
  {
    if |s| > 0 {
      PlainCount(s[1..]);
    }
  }

  lemma DocumentedCount(f: string)
    requires Documented(f)
    ensures Simple(f) && Directives(f) == Some(1)
  {
    assert f[2..] == "";
  }

  /** A plain prefix and a template with `n` directives give a template with `n` directives. */
  lemma PlainThen(u: string, t: string, n: nat)
    requires Plain(u) && Simple(t) && Directives(t) == Some(n)
    ensures Simple(u + t) && Directives(u + t) == Some(n)
  {
    PlainCount(u);
    SimpleAppend(u, t);
    DirectivesAppend(u, t);
  }

  /** Two templates side by side: the counts add up. */
  lemma SimpleConcat(a: string, b: string, m: nat, n: nat)
    requires Simple(a) && Directives(a) == Some(m)
    requires Simple(b) && Directives(b) == Some(n)
    ensures Simple(a + b) && Directives(a + b) == Some(m + n)
  {
    SimpleAppend(a, b);
    DirectivesAppend(a, b);
  }

  /** Joining templates of one directive each, with a plain separator. */
  lemma {:induction false} JoinCount(xs: seq<string>, sep: string)
    requires Plain(sep)
    requires forall i :: 0 <= i < |xs| ==> Simple(xs[i]) && Directives(xs[i]) == Some(1)
    ensures Simple(Join(xs, sep)) && Directives(Join(xs, sep)) == Some(|xs|)
    decreases |xs|
  {
    if |xs| == 0 {
      PlainCount("");
    } else if |xs| > 1 {
      JoinCount(xs[1..], sep);
      PlainThen(sep, Join(xs[1..], sep), |xs| - 1);
      SimpleConcat(xs[0], sep + Join(xs[1..], sep), 1, |xs| - 1);
      assert xs[0] + sep + Join(xs[1..], sep) == xs[0] + (sep + Join(xs[1..], sep));
    }
  }

  lemma PlainAppend(a: string, b: string)
    requires Plain(a) && Plain(b)
    ensures Plain(a + b)
  {
    var s := a + b;
    forall i | 0 <= i < |s|
      ensures s[i] != '%' && !IsQuote(s[i])
    {
      if i < |a| {
        assert s[i] == a[i];
      } else {
        assert s[i] == b[i - |a|];
      }
    }
  }

  lemma {:induction false} JoinPlain(xs: seq<string>, sep: string)
    requires Plain(sep)
    requires forall i :: 0 <= i < |xs| ==> Plain(xs[i])
    ensures Plain(Join(xs, sep))
    decreases |xs|
  {
    if |xs| > 1 {
      JoinPlain(xs[1..], sep);
      PlainAppend(xs[0], sep);
      PlainAppend(xs[0] + sep, Join(xs[1..], sep));
    }
  }

  // ---------------------------------------------------------------------
  // `prepare` keeps the count and the plain head

  /** Every suffix of a template whose directives are all documented is one too. */
  lemma ConversionsSuffix(t: string, k: nat)
    requires Conversions(t) && k <= |t|
    ensures Conversions(t[k..])
  {
    var r := t[k..];
    forall i | 0 <= i < |r| && r[i] == '%'
      ensures i + 1 < |r| && IsConversion(r[i + 1])
    {
      assert t[k + i] == '%';
    }
  }

  /** What one `Lookbehind` pass keeps of a template `t` starting without an active `%`. */
  predicate PassKeeps(t: string, c: char, rep: string)
    requires c != '%'
  {
    Directives(t).Some? && Directives(Lookbehind(t, c, rep, false)) == Directives(t)
    && (Simple(t) && Simple(rep) ==> Simple(Lookbehind(t, c, rep, false)))
  }

  /** The step for a replaced `%c`. */
  lemma PassStepReplace(t: string, c: char, rep: string)
    requires |t| >= 2 && t[0] == '%' && t[1] == c && IsConversion(c)
    requires Directives(rep) == Some(1)
    requires PassKeeps(t[2..], c, rep)
    ensures PassKeeps(t, c, rep)
  {
    var l := Lookbehind(t[2..], c, rep, false);
    DirectivesAppend(rep, l);
    if Simple(t) && Simple(rep) {
      assert QuoteFree(t[2..]);
      ConversionsSuffix(t, 2);
      SimpleAppend(rep, l);
    }
  }

  /** The step for a directive other than `%c`, copied as it is. */
  lemma PassStepOther(t: string, c: char, rep: string)
    requires |t| >= 2 && t[0] == '%' && t[1] != c && IsConversion(t[1]) && IsConversion(c)
    requires PassKeeps(t[2..], c, rep)
    ensures PassKeeps(t, c, rep)
  {
    var l := Lookbehind(t[2..], c, rep, false);
    var head := [t[0], t[1]];
    CopiedDirective(t, c, rep);
    DirectiveCount(head);
    DirectivesAppend(head, l);
    if Simple(t) && Simple(rep) {
      SimpleSuffix(t, 2);
      SimpleAppend(head, l);
    }
  }

  lemma CopiedDirective(t: string, c: char, rep: string)
    requires |t| >= 2 && t[0] == '%' && t[1] != c && t[1] != '%' && c != '%'
    ensures Lookbehind(t, c, rep, false) == [t[0], t[1]] + Lookbehind(t[2..], c, rep, false)
  {
    assert t[1..][1..] == t[2..];
  }

  lemma DirectiveCount(d: string)
    requires |d| == 2 && d[0] == '%' && IsConversion(d[1])
    ensures Simple(d) && Directives(d) == Some(1)
  {
    assert d[2..] == "";
  }

  lemma SimpleSuffix(t: string, k: nat)
    requires Simple(t) && k <= |t|
    ensures Simple(t[k..])
  {
    assert QuoteFree(t[k..]);
    ConversionsSuffix(t, k);
  }

  /** The step for a character other than `%`. */
  lemma PassStepPlain(t: string, c: char, rep: string)
    requires |t| >= 1 && t[0] != '%' && c != '%'
    requires PassKeeps(t[1..], c, rep)
    ensures PassKeeps(t, c, rep)
  {
    var l := Lookbehind(t[1..], c, rep, false);
    assert ([t[0]] + l)[1..] == l;
    if Simple(t) && Simple(rep) {
      assert QuoteFree(t[1..]);
      ConversionsSuffix(t, 1);
      SimpleAppend([t[0]], l);
    }
  }

  /**
    One `Lookbehind` pass over a template whose directives are all
    documented: every directive stays a directive, so the count is
    unchanged, and a simple template stays simple when the replacement is.
   */
  lemma {:induction false} LookbehindKeepsCount(t: string, c: char, rep: string)
    requires Conversions(t) && IsConversion(c)
    requires Directives(rep) == Some(1)
    ensures PassKeeps(t, c, rep)
    decreases |t|
  {
    if |t| == 0 {
    } else if t[0] == '%' {
      assert IsConversion(t[1]);
      ConversionsSuffix(t, 2);
      LookbehindKeepsCount(t[2..], c, rep);
      if t[1] == c {
        PassStepReplace(t, c, rep);
      } else {
        PassStepOther(t, c, rep);
      }
    } else {
      ConversionsSuffix(t, 1);
      LookbehindKeepsCount(t[1..], c, rep);
      PassStepPlain(t, c, rep);
    }
  }

  /** `prepare`'s rewrites neither add nor remove directives of a simple template. */
  lemma RewriteKeepsCount(t: string)
    requires Simple(t)
    ensures Directives(t).Some?
    ensures Directives(Rewrite(t)) == Directives(t)
  {
    ReplaceAbsent(t, SingleQuoted, Bare);
    ReplaceAbsent(t, DoubleQuoted, Bare);
    assert Unquote(t) == t;
    assert Directives("%F") == Some(1) && Simple("%F");
    assert Directives(SingleQuoted) == Some(1) by {
      assert SingleQuoted[1..] == "%s'";
      assert SingleQuoted[1..][2..] == "'";
    }
    LookbehindKeepsCount(t, 'f', "%F");
    LookbehindKeepsCount(Lookbehind(t, 'f', "%F", false), 's', SingleQuoted);
  }

  /**
    A simple template with as many directives as arguments always prepares
    to a statement: `prepare` neither fails nor leaves the model.
   */
  lemma SimplePrepares(rt: Runtime, connected: bool, t: string, args: seq<Scalar>)
    requires Simple(t) && Directives(t) == Some(|args|)
    ensures Prepare.Prepare(rt, connected, Some(t), args).Sql?
  {
    RewriteKeepsCount(t);
  }

  /** The rewrites leave a plain head alone. */
  lemma RewritePlainPrefix(u: string, v: string)
    requires Plain(u)
    ensures Rewrite(u + v) == u + Rewrite(v)
  {
    NoCrossingByFirst(u + v, |u|, SingleQuoted);
    ReplaceSplit(u, v, SingleQuoted, Bare);
    ReplaceAbsent(u, SingleQuoted, Bare);
    var v1 := ReplaceAll(v, SingleQuoted, Bare);
    NoCrossingByFirst(u + v1, |u|, DoubleQuoted);
    ReplaceSplit(u, v1, DoubleQuoted, Bare);
    ReplaceAbsent(u, DoubleQuoted, Bare);
    var v2 := ReplaceAll(v1, DoubleQuoted, Bare);
    assert Unquote(u + v) == u + v2;
    LookbehindSplit(u, v2, 'f', "%F", false);
    LookbehindAbsent(u, 'f', "%F", false);
    var v3 := Lookbehind(v2, 'f', "%F", false);
    LookbehindSplit(u, v3, 's', SingleQuoted, false);
    LookbehindAbsent(u, 's', SingleQuoted, false);
  }

  /** A prepared statement keeps the template's plain head. */
  lemma PreparedHead(rt: Runtime, connected: bool, u: string, v: string, args: seq<Scalar>)
    requires Plain(u)
    requires Prepare.Prepare(rt, connected, Some(u + v), args).Sql?
    ensures |u| <= |Prepare.Prepare(rt, connected, Some(u + v), args).text|
    ensures Prepare.Prepare(rt, connected, Some(u + v), args).text[..|u|] == u
  {
    RewritePlainPrefix(u, v);
    var escaped := EscapeArgs(rt, connected, args);
    FormatPlainPrefix(rt, u, Rewrite(v), escaped);
  }

  // ---------------------------------------------------------------------
  // The generated statements

  /** Names a template can carry without disturbing the directives. */
  predicate PlainNames(fields: seq<string>) {
    forall i :: 0 <= i < |fields| ==> Plain(fields[i])
  }

  predicate AllDocumented(forms: seq<string>) {
    forall i :: 0 <= i < |forms| ==> Documented(forms[i])
  }

  /** Joined pieces of a plain name and one documented format each: one directive per piece. */
  lemma PiecesCount(pre: string, fields: seq<string>, mid: string, forms: seq<string>, sep: string)
    requires |fields| == |forms| && PlainNames(fields) && AllDocumented(forms)
    requires Plain(pre) && Plain(mid) && Plain(sep)
    ensures Simple(Join(Pieces(pre, fields, mid, forms), sep))
    ensures Directives(Join(Pieces(pre, fields, mid, forms), sep)) == Some(|fields|)
  {
    var ps := Pieces(pre, fields, mid, forms);
    forall i | 0 <= i < |fields|
      ensures Simple(ps[i]) && Directives(ps[i]) == Some(1)
    {
      PlainAppend(pre, fields[i]);
      PlainAppend(pre + fields[i], mid);
      DocumentedCount(forms[i]);
      PlainThen(pre + fields[i] + mid, forms[i], 1);
    }
    JoinCount(ps, sep);
  }

  /** The INSERT / REPLACE template has one directive per column. */
  lemma InsertTemplateCount(kind: string, table: string, fields: seq<string>, forms: seq<string>)
    requires Plain(kind) && Plain(table) && PlainNames(fields)
    requires |forms| == |fields| && AllDocumented(forms)
    ensures Simple(InsertTemplate(kind, table, fields, forms))
    ensures Directives(InsertTemplate(kind, table, fields, forms)) == Some(|fields|)
  {
    JoinPlain(fields, "`,`");
    var head := kind + " INTO `" + table + "` (`" + Join(fields, "`,`") + "`) VALUES (";
    PlainAppend(kind, " INTO `");
    PlainAppend(kind + " INTO `", table);
    PlainAppend(kind + " INTO `" + table, "` (`");
    PlainAppend(kind + " INTO `" + table + "` (`", Join(fields, "`,`"));
    PlainAppend(kind + " INTO `" + table + "` (`" + Join(fields, "`,`"), "`) VALUES (");
    forall i | 0 <= i < |forms|
      ensures Simple(forms[i]) && Directives(forms[i]) == Some(1)
    {
      DocumentedCount(forms[i]);
    }
    JoinCount(forms, ",");
    PlainCount(")");
    SimpleConcat(Join(forms, ","), ")", |forms|, 0);
    PlainThen(head, Join(forms, ",") + ")", |fields|);
    assert InsertTemplate(kind, table, fields, forms) == head + (Join(forms, ",") + ")");
  }

  /** The UPDATE template has one directive per data column and one per where column. */
  lemma UpdateTemplateCount(table: string, fields: seq<string>, forms: seq<string>, wfields: seq<string>, wforms: seq<string>)
    requires Plain(table) && PlainNames(fields) && PlainNames(wfields)
    requires |forms| == |fields| && AllDocumented(forms)
    requires |wforms| == |wfields| && AllDocumented(wforms)
    ensures Simple(UpdateTemplate(table, Assignments(fields, forms), Assignments(wfields, wforms)))
    ensures Directives(UpdateTemplate(table, Assignments(fields, forms), Assignments(wfields, wforms)))
         == Some(|fields| + |wfields|)
  {
    var bits := Assignments(fields, forms);
    var wheres := Assignments(wfields, wforms);
    var b := Join(bits, ", ");
    var c := Join(wheres, " AND ");
    PiecesCount("`", fields, "` = ", forms, ", ");
    PiecesCount("`", wfields, "` = ", wforms, " AND ");
    WhereCount(c, |wfields|);
    SimpleConcat(b, " WHERE " + c, |fields|, |wfields|);
    UpdateOpening(table);
    PlainThen("UPDATE `" + table + "` SET ", b + (" WHERE " + c), |fields| + |wfields|);
    UpdateSplit(table, bits, wheres);
  }

  lemma WhereCount(c: string, n: nat)
    requires Simple(c) && Directives(c) == Some(n)
    ensures Simple(" WHERE " + c) && Directives(" WHERE " + c) == Some(n)
  {
    PlainThen(" WHERE ", c, n);
  }

  lemma UpdateOpening(table: string)
    requires Plain(table)
    ensures Plain("UPDATE `" + table + "` SET ")
  {
    PlainAppend("UPDATE `", table);
    PlainAppend("UPDATE `" + table, "` SET ");
  }

  lemma UpdateSplit(table: string, bits: seq<string>, wheres: seq<string>)
    ensures UpdateTemplate(table, bits, wheres)
            == ("UPDATE `" + table + "` SET ") + (Join(bits, ", ") + (" WHERE " + Join(wheres, " AND ")))
  {
  }

  /** The DELETE template has one directive per where column. */
  lemma DeleteTemplateCount(table: string, wfields: seq<string>, wforms: seq<string>)
    requires Plain(table) && PlainNames(wfields)
    requires |wforms| == |wfields| && AllDocumented(wforms)
    ensures Simple(DeleteTemplate(table, Conditions(wfields, wforms)))
    ensures Directives(DeleteTemplate(table, Conditions(wfields, wforms))) == Some(|wfields|)
  {
    PiecesCount("", wfields, " = ", wforms, " AND ");
    PlainAppend("DELETE FROM ", table);
    PlainAppend("DELETE FROM " + table, " WHERE ");
    PlainThen("DELETE FROM " + table + " WHERE ", Join(Conditions(wfields, wforms), " AND "), |wfields|);
  }

  // ---------------------------------------------------------------------
  // End to end

  /** `trim()` keeps a head that starts and ends with characters it does not strip. */
  lemma TrimKeepsHead(s: string, u: string)
    requires 0 < |u| <= |s| && s[..|u|] == u
    requires !IsTrimmed(u[0]) && !IsTrimmed(u[|u| - 1])
    ensures |u| <= |Trim(s)| && Trim(s)[..|u|] == u
  {
    assert s[0] == u[0];
    assert TrimLeft(s) == s;
    assert s[|u| - 1] == u[|u| - 1];
  }

  /** A statement whose head is `u` is classified by the write keyword `k` that `u` starts with. */
  lemma HeadClassifies(q: string, u: string, k: string)
    requires |k| < |u| <= |q| && q[..|u|] == u
    requires k in WriteWords && LowerString(u[..|k|]) == k && IsSpace(u[|k|])
    ensures Classify(q) == Write(k in InsertWords)
  {
    assert q[0..|k|] == u[..|k|];
    assert q[|k|] == u[|k|];
    assert AllSpace(q, 0) && WordAt(q, 0, k);
    assert Matches(q, [k]);
    LeadingWriteWord(q, k);
  }

  /**
    `u` opens a template, cannot be trimmed away, holds no `%` or quote,
    and starts with the write keyword `k` followed by a space.
   */
  predicate Head(u: string, k: string) {
    Plain(u) && |k| < |u| && !IsTrimmed(u[0]) && !IsTrimmed(u[|u| - 1])
    && k in WriteWords && LowerString(u[..|k|]) == k && IsSpace(u[|k|])
  }

  lemma LowerHead(u: string, k: string)
    requires |k| <= |u|
    requires forall i :: 0 <= i < |k| ==> Lower(u[i]) == k[i]
    ensures LowerString(u[..|k|]) == k
  {
  }

  /** The template's head survives `prepare` and `trim` and decides the classification. */
  lemma PreparedClassifies(rt: Runtime, connected: bool, u: string, v: string, args: seq<Scalar>, k: string)
    requires Head(u, k)
    requires Prepare.Prepare(rt, connected, Some(u + v), args).Sql?
    ensures Classify(Trim(Prepare.Prepare(rt, connected, Some(u + v), args).text)) == Write(k in InsertWords)
  {
    var text := Prepare.Prepare(rt, connected, Some(u + v), args).text;
    PreparedHead(rt, connected, u, v, args);
    TrimKeepsHead(text, u);
    HeadClassifies(Trim(text), u, k);
  }

  /** The formats `insert()` / `update()` / `delete()` pick for the columns of `items`. */
  function FormatsOf(w: Idb.World, format: FormatArg, items: seq<Item>): seq<string> {
    Formats(AsArray(format), w.db.fieldTypes, Fields(items))
  }

  /** Columns with plain names, formats all documented. */
  predicate WellFormed(w: Idb.World, format: FormatArg, items: seq<Item>) {
    PlainNames(Fields(items)) && AllDocumented(FormatsOf(w, format, items))
  }

  /** The keyword an INSERT / REPLACE statement starts with. */
  function KindWord(kind: string): string {
    if kind == "INSERT" then "insert" else "replace"
  }

  lemma InsertHeadOf(kind: string)
    requires kind == "INSERT" || kind == "REPLACE"
    ensures Head(kind + " INTO `", KindWord(kind)) && KindWord(kind) in InsertWords
  {
    LowerHead(kind + " INTO `", KindWord(kind));
  }

  /** The head of the INSERT / REPLACE template, and the rest of it. */
  function InsertRest(table: string, fields: seq<string>, forms: seq<string>): string {
    table + "` (`" + Join(fields, "`,`") + "`) VALUES (" + Join(forms, ",") + ")"
  }

  lemma InsertSplit(kind: string, table: string, fields: seq<string>, forms: seq<string>)
    ensures InsertTemplate(kind, table, fields, forms) == (kind + " INTO `") + InsertRest(table, fields, forms)
  {
  }

  lemma KindsUpper()
    ensures UpperString("INSERT") == "INSERT" && UpperString("REPLACE") == "REPLACE"
  {
  }

  /** The INSERT / REPLACE statement prepares and classifies as an insert. */
  lemma InsertStatement(rt: Runtime, connected: bool, kind: string, table: string, fields: seq<string>,
                        forms: seq<string>, args: seq<Scalar>)
    requires kind == "INSERT" || kind == "REPLACE"
    requires Plain(table) && PlainNames(fields)
    requires |forms| == |fields| && AllDocumented(forms) && |args| == |fields|
    ensures var p := Prepare.Prepare(rt, connected, Some(InsertTemplate(kind, table, fields, forms)), args);
            p.Sql? && Classify(Trim(p.text)) == Write(true)
  {
    var t := InsertTemplate(kind, table, fields, forms);
    InsertTemplateCount(kind, table, fields, forms);
    SimplePrepares(rt, connected, t, args);
    InsertHeadOf(kind);
    InsertSplit(kind, table, fields, forms);
    PreparedClassifies(rt, connected, kind + " INTO `", InsertRest(table, fields, forms), args, KindWord(kind));
  }

  /**
    `insert()` and `replace()` on a plain table name, plain column names
    and documented formats: `prepare` yields a statement, which is run by
    `query()` with `insert_id` zeroed first, and which `query()` classifies
    as an insert.
   */
  lemma InsertRunsInsert(env: Idb.Env, w: Idb.World, table: string, data: seq<Item>, format: FormatArg, kind: string,
                         d: Idb.DriverResult, now: int)
    requires kind == "INSERT" || kind == "REPLACE"
    requires Plain(table) && WellFormed(w, format, data)
    ensures var p := Prepare.Prepare(env.rt, w.db.connected, Some(InsertTemplate(kind, table, Fields(data), FormatsOf(w, format, data))), Values(data));
            p.Sql?
            && InsertReplace(env, w, table, data, format, kind, d, now)
               == Some(Idb.Query(env, w.(db := w.db.(insertId := 0)), p.text, d, now))
            && Classify(Trim(p.text)) == Write(true)
  {
    KindsUpper();
    InsertStatement(env.rt, w.db.connected, kind, table, Fields(data), FormatsOf(w, format, data), Values(data));
  }

  lemma UpdateHead(table: string, bits: seq<string>, wheres: seq<string>)
    ensures Head("UPDATE `", "update")
    ensures UpdateTemplate(table, bits, wheres)
            == "UPDATE `" + (table + "` SET " + Join(bits, ", ") + " WHERE " + Join(wheres, " AND "))
  {
    LowerHead("UPDATE `", "update");
  }

  /** The UPDATE statement prepares and classifies as a write that is not an insert. */
  lemma UpdateStatement(rt: Runtime, connected: bool, table: string, fields: seq<string>, forms: seq<string>,
                        wfields: seq<string>, wforms: seq<string>, args: seq<Scalar>)
    requires Plain(table) && PlainNames(fields) && PlainNames(wfields)
    requires |forms| == |fields| && AllDocumented(forms)
    requires |wforms| == |wfields| && AllDocumented(wforms)
    requires |args| == |fields| + |wfields|
    ensures var p := Prepare.Prepare(rt, connected, Some(UpdateTemplate(table, Assignments(fields, forms), Assignments(wfields, wforms))), args);
            p.Sql? && Classify(Trim(p.text)) == Write(false)
  {
    var bits := Assignments(fields, forms);
    var wheres := Assignments(wfields, wforms);
    var t := UpdateTemplate(table, bits, wheres);
    UpdateTemplateCount(table, fields, forms, wfields, wforms);
    SimplePrepares(rt, connected, t, args);
    UpdateHead(table, bits, wheres);
    PreparedClassifies(rt, connected, "UPDATE `",
                       table + "` SET " + Join(bits, ", ") + " WHERE " + Join(wheres, " AND "), args, "update");
  }

  /**
    `update()` on plain names and documented formats: `prepare` yields a
    statement with the data values then the where values bound, which
    `query()` runs and classifies as a write that is not an insert.
   */
  lemma UpdateRunsUpdate(env: Idb.Env, w: Idb.World, table: string, data: seq<Item>, where: seq<Item>,
                         format: FormatArg, whereFormat: FormatArg, d: Idb.DriverResult, now: int)
    requires Plain(table) && WellFormed(w, format, data) && WellFormed(w, whereFormat, where)
    ensures var p := Prepare.Prepare(env.rt, w.db.connected, Some(UpdateSql(w.db, table, data, where, format, whereFormat)),
                                     Values(data) + Values(where));
            p.Sql?
            && Update(env, w, table, data, where, format, whereFormat, d, now) == Some(Idb.Query(env, w, p.text, d, now))
            && Classify(Trim(p.text)) == Write(false)
  {
    UpdateStatement(env.rt, w.db.connected, table, Fields(data), FormatsOf(w, format, data),
                    Fields(where), FormatsOf(w, whereFormat, where), Values(data) + Values(where));
  }

  lemma DeleteHead(table: string, wheres: seq<string>)
    ensures Head("DELETE FROM", "delete")
    ensures DeleteTemplate(table, wheres) == "DELETE FROM" + (" " + table + " WHERE " + Join(wheres, " AND "))
  {
    LowerHead("DELETE FROM", "delete");
  }

  /**
    `delete()` on plain names and documented formats: `prepare` yields a
    statement that `query()` runs and classifies as a write that is not an
    insert.
   */
  lemma DeleteRunsDelete(env: Idb.Env, w: Idb.World, table: string, where: seq<Item>, whereFormat: FormatArg,
                         d: Idb.DriverResult, now: int)
    requires Plain(table) && WellFormed(w, whereFormat, where)
    ensures var p := Prepare.Prepare(env.rt, w.db.connected, Some(DeleteSql(w.db, table, where, whereFormat)), Values(where));
            p.Sql?
            && Delete(env, w, table, where, whereFormat, d, now) == Some(Idb.Query(env, w, p.text, d, now))
            && Classify(Trim(p.text)) == Write(false)
  {
    var wfields := Fields(where);
    var wheres := Conditions(wfields, FormatsOf(w, whereFormat, where));
    var t := DeleteSql(w.db, table, where, whereFormat);
    assert t == DeleteTemplate(table, wheres);
    DeleteTemplateCount(table, wfields, FormatsOf(w, whereFormat, where));
    SimplePrepares(env.rt, w.db.connected, t, Values(where));
    DeleteHead(table, wheres);
    PreparedClassifies(env.rt, w.db.connected, "DELETE FROM", " " + table + " WHERE " + Join(wheres, " AND "),
                       Values(where), "delete");
  }

  /**
    With `cache_inserts` off (the default), `insert()` and `replace()`
    never write to the cache directory: every file afterwards was there
    before, with the same contents.
   */
  lemma InsertLeavesCache(env: Idb.Env, w: Idb.World, table: string, data: seq<Item>, format: FormatArg, kind: string,
                          d: Idb.DriverResult, now: int)
    requires kind == "INSERT" || kind == "REPLACE"
    requires Plain(table) && WellFormed(w, format, data)
    requires !w.db.cache.cacheInserts
    ensures var r := InsertReplace(env, w, table, data, format, kind, d, now);
            r.Some? && Idb.Within(r.value.0.fs, w.fs)
  {
    InsertRunsInsert(env, w, table, data, format, kind, d, now);
    var p := Prepare.Prepare(env.rt, w.db.connected, Some(InsertTemplate(kind, table, Fields(data), FormatsOf(w, format, data))), Values(data));
    Idb.InsertNeverWrites(env, w.(db := w.db.(insertId := 0)), p.text, d, now);
  }
}
