/**
  Escaping of values bound into SQL text (`_real_escape`, `_escape` and
  `escape_by_ref` in db.class.php). Without a connection the escape is
  PHP's `addslashes`, modelled here exactly; with one it is the driver's
  `mysql_real_escape_string`, left abstract in `Runtime`.
 */
module Escape {
  import opened Php

  /** The escape `addslashes` applies to one character. */
  function SlashChar(c: char): string {
    if c == '\'' || c == '"' || c == '\\' then ['\\', c]
    else if c == '\0' then ['\\', '0']
    else [c]
  }

  /** `addslashes`: backslash before `'`, `"` and `\`, and NUL written as `\0`. */
  function AddSlashes(s: string): string
    decreases |s|
  {
    if |s| == 0 then "" else SlashChar(s[0]) + AddSlashes(s[1..])
  }

  /** `stripslashes`: the inverse reading, `\0` becoming NUL and `\c` becoming `c`. */
  function StripSlashes(s: string): string
    decreases |s|
  {
    if |s| == 0 then ""
    else if s[0] == '\\' then
      if |s| == 1 then ""
      else (if s[1] == '0' then ['\0'] else [s[1]]) + StripSlashes(s[2..])
    else [s[0]] + StripSlashes(s[1..])
  }

  /**
    Text that can stand between two single quotes as one MySQL string
    literal: a sequence of backslash pairs and characters other than the
    quote and the backslash, with no lone backslash at the end.
   */
  predicate LiteralBody(t: string)
    decreases |t|
  {
    if |t| == 0 then true
    else if t[0] == '\\' then |t| >= 2 && LiteralBody(t[2..])
    else t[0] != '\'' && LiteralBody(t[1..])
  }

  /** `addslashes` loses nothing: `stripslashes` recovers the original text. */
  lemma {:induction false} StripAfterAdd(s: string)
    ensures StripSlashes(AddSlashes(s)) == s
    decreases |s|
  {
    if |s| > 0 {
      var rest := AddSlashes(s[1..]);
      var t := AddSlashes(s);
      assert t == SlashChar(s[0]) + rest;
      StripAfterAdd(s[1..]);
      if |SlashChar(s[0])| == 2 {
        assert t[0] == '\\' && t[2..] == rest;
      } else {
        assert t[0] == s[0] && t[1..] == rest;
      }
    }
  }

  /** Whatever the input, `addslashes` output cannot close a single-quoted literal. */
  lemma {:induction false} AddSlashesIsLiteralBody(s: string)
    ensures LiteralBody(AddSlashes(s))
    decreases |s|
  {
    if |s| > 0 {
      var rest := AddSlashes(s[1..]);
      var t := AddSlashes(s);
      AddSlashesIsLiteralBody(s[1..]);
      if |SlashChar(s[0])| == 2 {
        assert t[2..] == rest;
      } else {
        assert t[1..] == rest;
      }
    }
  }

  /** `_real_escape($v)`: the driver's escape with a live link, `addslashes` otherwise. */
  function RealEscape(rt: Runtime, connected: bool, v: Scalar): (r: string)
    ensures !connected ==> StripSlashes(r) == ToString(rt, v) && LiteralBody(r)
  {
    var s := ToString(rt, v);
    StripAfterAdd(s);
    AddSlashesIsLiteralBody(s);
    if connected then rt.mysqlEscape(s) else AddSlashes(s)
  }

  /** `escape_by_ref($v)`: floats pass through, anything else becomes its escaped string. */
  function EscapeArg(rt: Runtime, connected: bool, v: Scalar): (r: Scalar)
    ensures v.Float? ==> r == v
    ensures !v.Float? ==> r.Str? && r.s == RealEscape(rt, connected, v)
  {
    if v.Float? then v else Str(RealEscape(rt, connected, v))
  }

  // ---------------------------------------------------------------------
  // `_escape` over nested arrays

  /** A PHP value handed to `_escape`: a scalar or an array of keyed entries. */
  datatype Data = Leaf(v: Scalar) | Arr(entries: seq<Pair>)

  datatype Pair = Pair(key: string, value: Data)

  /** `_escape($data)`: each leaf escaped in place; keys and nesting kept. */
  function EscapeData(rt: Runtime, connected: bool, d: Data): (r: Data)
    ensures d.Leaf? ==> r == Leaf(Str(RealEscape(rt, connected, d.v)))
    ensures d.Arr? ==> r.Arr? && |r.entries| == |d.entries|
    ensures d.Arr? ==> forall i :: 0 <= i < |d.entries| ==>
              r.entries[i].key == d.entries[i].key && r.entries[i].value == EscapeData(rt, connected, d.entries[i].value)
    decreases d
  {
    match d
    case Leaf(v) => Leaf(Str(RealEscape(rt, connected, v)))
    case Arr(es) =>
      Arr(seq(|es|, i requires 0 <= i < |es| => Pair(es[i].key, EscapeData(rt, connected, es[i].value))))
  }

  /** The keys and nesting of a value, every leaf replaced by null. */
  function Shape(d: Data): Data
    decreases d
  {
    match d
    case Leaf(_) => Leaf(Null)
    case Arr(es) => Arr(seq(|es|, i requires 0 <= i < |es| => Pair(es[i].key, Shape(es[i].value))))
  }

  function Concat<T>(xs: seq<seq<T>>): seq<T> {
    if |xs| == 0 then [] else xs[0] + Concat(xs[1..])
  }

  /** The leaves of a value, in iteration order. */
  function Leaves(d: Data): seq<Scalar>
    decreases d
  {
    match d
    case Leaf(v) => [v]
    case Arr(es) => Concat(seq(|es|, i requires 0 <= i < |es| => Leaves(es[i].value)))
  }

  function EscapeAll(rt: Runtime, connected: bool, vs: seq<Scalar>): (r: seq<Scalar>)
    ensures |r| == |vs|
    ensures forall i :: 0 <= i < |vs| ==> r[i] == Str(RealEscape(rt, connected, vs[i]))
  {
    seq(|vs|, i requires 0 <= i < |vs| => Str(RealEscape(rt, connected, vs[i])))
  }

  lemma {:induction false} EscapeAllConcat(rt: Runtime, connected: bool, xs: seq<seq<Scalar>>)
    ensures EscapeAll(rt, connected, Concat(xs))
         == Concat(seq(|xs|, i requires 0 <= i < |xs| => EscapeAll(rt, connected, xs[i])))
  {
    var ys := seq(|xs|, i requires 0 <= i < |xs| => EscapeAll(rt, connected, xs[i]));
    if |xs| > 0 {
      EscapeAllConcat(rt, connected, xs[1..]);
      assert ys[1..] == seq(|xs[1..]|, i requires 0 <= i < |xs[1..]| => EscapeAll(rt, connected, xs[1..][i]));
      assert EscapeAll(rt, connected, xs[0] + Concat(xs[1..]))
          == EscapeAll(rt, connected, xs[0]) + EscapeAll(rt, connected, Concat(xs[1..]));
    }
  }

  /** `_escape` keeps every key at every level and changes nothing but the leaves. */
  lemma {:induction false} EscapeKeepsShape(rt: Runtime, connected: bool, d: Data)
    ensures Shape(EscapeData(rt, connected, d)) == Shape(d)
    decreases d
  {
    match d
    case Leaf(_) =>
    case Arr(es) =>
      var e := EscapeData(rt, connected, d);
      forall i | 0 <= i < |es|
        ensures Shape(e.entries[i].value) == Shape(es[i].value)
      {
        EscapeKeepsShape(rt, connected, es[i].value);
      }
      assert Shape(e).entries == Shape(d).entries;
  }

  /** `_escape` escapes every leaf, in order, and only the leaves. */
  lemma {:induction false} EscapeEscapesLeaves(rt: Runtime, connected: bool, d: Data)
    ensures Leaves(EscapeData(rt, connected, d)) == EscapeAll(rt, connected, Leaves(d))
    decreases d
  {
    match d
    case Leaf(v) =>
    case Arr(es) =>
      var e := EscapeData(rt, connected, d);
      var inner := seq(|es|, i requires 0 <= i < |es| => Leaves(es[i].value));
      forall i | 0 <= i < |es|
        ensures Leaves(e.entries[i].value) == EscapeAll(rt, connected, inner[i])
      {
        EscapeEscapesLeaves(rt, connected, es[i].value);
      }
      EscapeAllConcat(rt, connected, inner);
      assert seq(|e.entries|, i requires 0 <= i < |e.entries| => Leaves(e.entries[i].value))
          == seq(|inner|, i requires 0 <= i < |inner| => EscapeAll(rt, connected, inner[i]));
  }
}
