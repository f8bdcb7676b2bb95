/**
  Reading results back in db.class.php: `get_var()` and `get_results()`
  with its four output shapes, over the `last_result` rows that `query()`
  leaves behind.
 */
module Fetch {
  import opened Php
  import opened Records
  import Idb

  /** The `$output` argument: the constants OBJECT, OBJECT_K, ARRAY_A, ARRAY_N, or anything else. */
  datatype Output = Object | ObjectK | ArrayA | ArrayN | OtherOutput

  /** What `get_results` returns. */
  datatype Fetched =
    | NullResult
    | Objects(rows: seq<Row>)
    | Keyed(entries: seq<(string, Row)>)
    | Assoc(maps: seq<seq<Field>>)
    | Numeric(lists: seq<seq<Cell>>)

  /** `$query` is truthy: given, and neither "" nor "0". */
  predicate Truthy(query: Option<string>) {
    query.Some? && !EmptyString(query.value)
  }

  /** Runs `query($query)` when the argument is truthy; otherwise nothing changes. */
  function RunIfGiven(env: Idb.Env, w: Idb.World, query: Option<string>, d: Idb.DriverResult, now: int): (r: Idb.World)
    ensures !Truthy(query) ==> r == w
    ensures Truthy(query) ==> r == Idb.Query(env, w, query.value, d, now).0
  {
    if Truthy(query) then Idb.Query(env, w, query.value, d, now).0 else w
  }

  /** `array_values(get_object_vars($row))`. */
  function CellsOf(row: Row): (r: seq<Cell>)
    ensures |r| == |row.fields|
    ensures forall i :: 0 <= i < |r| ==> r[i] == row.fields[i].value
  {
    seq(|row.fields|, i requires 0 <= i < |row.fields| => row.fields[i].value)
  }

  // ---------------------------------------------------------------------
  // `get_var`

  /**
    `get_var($query, $x, $y)`: the cell at column `x` of row `y` of the
    (possibly new) last result, or null when that row or cell is missing,
    is NULL, or is the empty string.
   */
  function GetVar(env: Idb.Env, w: Idb.World, query: Option<string>, x: int, y: int,
                  d: Idb.DriverResult, now: int): (r: (Idb.World, Option<string>))
    ensures r.0 == RunIfGiven(env, w, query, d, now)
    ensures var rows := r.0.db.res.lastResult;
            r.1.Some? <==> 0 <= y < |rows| && 0 <= x < |rows[y].fields|
                           && rows[y].fields[x].value.Text? && rows[y].fields[x].value.s != ""
    ensures r.1.Some? ==> r.0.db.res.lastResult[y].fields[x].value == Text(r.1.value)
  {
    var w' := RunIfGiven(env, w, query, d, now);
    var rows := w'.db.res.lastResult;
    if 0 <= y < |rows| then
      var values := CellsOf(rows[y]);
      if 0 <= x < |values| && values[x].Text? && values[x].s != "" then (w', Some(values[x].s))
      else (w', None)
    else (w', None)
  }

  // ---------------------------------------------------------------------
  // OBJECT_K: the first row for each first-column key

  /**
    The key a row is filed under: its first column's value, with NULL (and
    a row without columns) becoming the empty-string key as PHP does.
   */
  function KeyOf(row: Row): (k: string)
    ensures |row.fields| > 0 && row.fields[0].value.Text? ==> k == row.fields[0].value.s
    ensures |row.fields| == 0 || row.fields[0].value.NullCell? ==> k == ""
  {
    if |row.fields| == 0 then ""
    else match row.fields[0].value
      case NullCell => ""
      case Text(s) => s
  }

  /** Row `i` is the first row with its key. */
  predicate First(rows: seq<Row>, i: int)
    requires 0 <= i < |rows|
  {
    forall j :: 0 <= j < i ==> KeyOf(rows[j]) != KeyOf(rows[i])
  }

  /** The positions among the first `n` rows that are first for their key, in order. */
  function FirstIndices(rows: seq<Row>, n: nat): (r: seq<nat>)
    requires n <= |rows|
    ensures forall k :: 0 <= k < |r| ==> r[k] < n && First(rows, r[k])
    ensures forall i :: 0 <= i < n && First(rows, i) ==> i in r
    ensures forall k, l :: 0 <= k < l < |r| ==> r[k] < r[l]
  {
    if n == 0 then []
    else FirstIndices(rows, n - 1) + (if First(rows, n - 1) then [n - 1] else [])
  }

  /** Key and row for each of the given positions. */
  function Entries(rows: seq<Row>, f: seq<nat>): (r: seq<(string, Row)>)
    requires forall k :: 0 <= k < |f| ==> f[k] < |rows|
    ensures |r| == |f| && forall k :: 0 <= k < |r| ==> r[k] == (KeyOf(rows[f[k]]), rows[f[k]])
  {
    seq(|f|, k requires 0 <= k < |f| => (KeyOf(rows[f[k]]), rows[f[k]]))
  }

  /** The `get_results(..., OBJECT_K)` array: key and row, for each first row, in row order. */
  function KeepFirst(rows: seq<Row>): seq<(string, Row)> {
    Entries(rows, FirstIndices(rows, |rows|))
  }

  /** Every key has a first row. */
  lemma {:induction false} FirstOccurrence(rows: seq<Row>, i: int)
    requires 0 <= i < |rows|
    ensures exists i0 :: 0 <= i0 <= i && First(rows, i0) && KeyOf(rows[i0]) == KeyOf(rows[i])
    decreases i
  {
    if !First(rows, i) {
      var j :| 0 <= j < i && KeyOf(rows[j]) == KeyOf(rows[i]);
      FirstOccurrence(rows, j);
    }
  }

  /** OBJECT_K discards later duplicates: no key is filed twice. */
  lemma KeepFirstDistinct(rows: seq<Row>)
    ensures var r := KeepFirst(rows);
            forall k, l :: 0 <= k < l < |r| ==> r[k].0 != r[l].0
  {
    var r := KeepFirst(rows);
    var f := FirstIndices(rows, |rows|);
    forall k, l | 0 <= k < l < |r|
      ensures r[k].0 != r[l].0
    {
      assert f[k] < f[l] && First(rows, f[l]);
    }
  }

  /** Every row's key is filed, under the first row that has it. */
  lemma KeepFirstComplete(rows: seq<Row>, i: int)
    requires 0 <= i < |rows|
    ensures var r := KeepFirst(rows);
            exists k, i0 :: 0 <= k < |r| && 0 <= i0 <= i && First(rows, i0) && r[k] == (KeyOf(rows[i]), rows[i0])
  {
    var r := KeepFirst(rows);
    var f := FirstIndices(rows, |rows|);
    FirstOccurrence(rows, i);
    var i0 :| 0 <= i0 <= i && First(rows, i0) && KeyOf(rows[i0]) == KeyOf(rows[i]);
    assert i0 in f;
    var k :| 0 <= k < |f| && f[k] == i0;
    assert r[k] == (KeyOf(rows[i]), rows[i0]);
  }

  /** Every filed row is the first row with its key. */
  lemma KeepFirstSound(rows: seq<Row>, k: int)
    requires 0 <= k < |KeepFirst(rows)|
    ensures exists i :: 0 <= i < |rows| && First(rows, i) && KeepFirst(rows)[k] == (KeyOf(rows[i]), rows[i])
  {
    var f := FirstIndices(rows, |rows|);
    assert First(rows, f[k]);
  }

  /** The keys of the first `n` rows. */
  function KeysUpTo(rows: seq<Row>, n: nat): (r: set<string>)
    requires n <= |rows|
    ensures forall j :: 0 <= j < n ==> KeyOf(rows[j]) in r
    ensures forall key :: key in r ==> exists j :: 0 <= j < n && KeyOf(rows[j]) == key
  {
    if n == 0 then {} else KeysUpTo(rows, n - 1) + {KeyOf(rows[n - 1])}
  }

  /** A key already seen is exactly a row that is not first for its key. */
  lemma SeenStep(rows: seq<Row>, i: nat)
    requires i < |rows|
    ensures KeyOf(rows[i]) in KeysUpTo(rows, i) <==> !First(rows, i)
  {
  }

  /** One turn of the OBJECT_K loop keeps its two invariants. */
  lemma LoopStep(rows: seq<Row>, i: nat, seen: set<string>, out: seq<(string, Row)>)
    requires i < |rows|
    requires seen == KeysUpTo(rows, i) && out == Entries(rows, FirstIndices(rows, i))
    ensures var key := KeyOf(rows[i]);
            key !in seen ==> seen + {key} == KeysUpTo(rows, i + 1) && out + [(key, rows[i])] == Entries(rows, FirstIndices(rows, i + 1))
    ensures var key := KeyOf(rows[i]);
            key in seen ==> seen == KeysUpTo(rows, i + 1) && out == Entries(rows, FirstIndices(rows, i + 1))
  {
    SeenStep(rows, i);
    var f := FirstIndices(rows, i);
    if First(rows, i) {
      EntriesAppend(rows, f, i);
    } else {
      assert FirstIndices(rows, i + 1) == f + [];
      assert f + [] == f;
    }
  }

  /** Filing one more position appends its key and row. */
  lemma EntriesAppend(rows: seq<Row>, f: seq<nat>, x: nat)
    requires x < |rows| && forall k :: 0 <= k < |f| ==> f[k] < |rows|
    ensures Entries(rows, f + [x]) == Entries(rows, f) + [(KeyOf(rows[x]), rows[x])]
  {
  }

  /**
    The OBJECT_K loop as the source writes it: `array_shift` of each row's
    properties gives the key, and a row is filed only when `isset` finds no
    entry under that key yet.
   */
  method KeyRows(rows: seq<Row>) returns (out: seq<(string, Row)>)
    ensures out == KeepFirst(rows)
  {
    out := [];
    var seen: set<string> := {};
    var i := 0;
    while i < |rows|
      invariant 0 <= i <= |rows|
      invariant seen == KeysUpTo(rows, i)
      invariant out == Entries(rows, FirstIndices(rows, i))
    {
      var key := KeyOf(rows[i]);
      LoopStep(rows, i, seen, out);
      if key !in seen {
        out := out + [(key, rows[i])];
        seen := seen + {key};
      }
      i := i + 1;
    }
  }

  // ---------------------------------------------------------------------
  // `get_results`

  /**
    `get_results($query, $output)`: null without running anything when
    the query is falsy; otherwise the rows of the last result in the shape
    `$output` asks for, null for an unknown shape.
   */
  function GetResults(env: Idb.Env, w: Idb.World, query: Option<string>, output: Output,
                      d: Idb.DriverResult, now: int): (r: (Idb.World, Fetched))
    ensures !Truthy(query) ==> r == (w, NullResult)
    ensures Truthy(query) ==> r.0 == Idb.Query(env, w, query.value, d, now).0
    ensures r.1.NullResult? <==> !Truthy(query) || output.OtherOutput?
    ensures Truthy(query) && output.Object? ==> r.1 == Objects(r.0.db.res.lastResult)
    ensures Truthy(query) && output.ObjectK? ==> r.1 == Keyed(KeepFirst(r.0.db.res.lastResult))
    ensures Truthy(query) && output.ArrayA? ==>
              r.1.Assoc? && |r.1.maps| == |r.0.db.res.lastResult|
              && forall i :: 0 <= i < |r.1.maps| ==> r.1.maps[i] == r.0.db.res.lastResult[i].fields
    ensures Truthy(query) && output.ArrayN? ==>
              r.1.Numeric? && |r.1.lists| == |r.0.db.res.lastResult|
              && forall i :: 0 <= i < |r.1.lists| ==> r.1.lists[i] == CellsOf(r.0.db.res.lastResult[i])
  {
    if !Truthy(query) then (w, NullResult)
    else
      var w' := Idb.Query(env, w, query.value, d, now).0;
      var rows := w'.db.res.lastResult;
      match output
      case Object => (w', Objects(rows))
      case ObjectK => (w', Keyed(KeepFirst(rows)))
      case ArrayA => (w', Assoc(seq(|rows|, i requires 0 <= i < |rows| => rows[i].fields)))
      case ArrayN => (w', Numeric(seq(|rows|, i requires 0 <= i < |rows| => CellsOf(rows[i]))))
      case OtherOutput => (w', NullResult)
  }

  /**
    `get_var` and `get_results(..., ARRAY_N)` read the same cell: after the
    same query, `get_var` returns the cell at `[y][x]` of the ARRAY_N rows
    exactly when it is text other than the empty string.
   */
  lemma GetVarIsArrayNCell(env: Idb.Env, w: Idb.World, query: string, x: int, y: int, d: Idb.DriverResult, now: int)
    requires !EmptyString(query)
    ensures var (w1, v) := GetVar(env, w, Some(query), x, y, d, now);
            var (w2, f) := GetResults(env, w, Some(query), ArrayN, d, now);
            w1 == w2 && f.Numeric?
            && (v.Some? <==> 0 <= y < |f.lists| && 0 <= x < |f.lists[y]| && f.lists[y][x].Text? && f.lists[y][x].s != "")
            && (v.Some? ==> f.lists[y][x] == Text(v.value))
  {
  }
}
