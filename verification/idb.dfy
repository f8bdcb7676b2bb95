/**
  The database object of db.class.php as far as `query()` goes: its
  state, `flush()`, `query()` with its cache lookup, execution through the
  driver, statement classification and cache store, plus `db_version()`
  and `get_charset_collate()`.

  The driver (`mysql_query`, `mysql_error`, `mysql_affected_rows`,
  `mysql_insert_id`, `mysql_fetch_object`, `mysql_fetch_field`) is one
  `DriverResult` value per executed statement; the clock is `now`.
 */
module Idb {
  import opened Php
  import opened Records
  import Disk
  import Cache
  import opened Statement

  /** What the driver reports for one executed statement. */
  datatype DriverResult = DriverResult(
    error: string,
    rows: seq<Row>,
    columns: seq<Column>,
    affected: int,
    insertId: int)

  /**
    The fields of the database object `query()` reads or writes.
    `connected` says whether it holds a live link (which selects the
    escape function).
   */
  datatype Db = Db(
    ready: bool,
    connected: bool,
    useCache: bool,
    cache: Cache.Config,
    fieldTypes: map<string, string>,
    charset: string,
    collate: string,
    res: Results,
    lastQuery: Option<string>,
    lastError: string,
    rowsAffected: int,
    insertId: int,
    numQueries: int)

  /** The collaborators: PHP and driver conversions, `md5`, and the cache file codec. */
  datatype Env = Env(rt: Runtime, hash: string -> string, codec: Disk.Codec)

  datatype World = World(db: Db, fs: Disk.Fs)

  /** What `query()` returns: false, the driver's `true` for DDL, or a row count. */
  datatype Ret = RetFalse | RetTrue | RetInt(n: int)

  /** `flush()`: forget the previous result, query text and error; the old result handle is freed. */
  function Flush(db: Db): (r: Db)
    ensures r.res.lastResult == [] && r.res.colInfo.None? && r.res.numRows == 0 && r.res.resultColumns == []
    ensures r.lastQuery.None? && r.rowsAffected == 0 && r.lastError == ""
    ensures r.insertId == db.insertId && r.numQueries == db.numQueries
    ensures r.ready == db.ready && r.useCache == db.useCache && r.cache == db.cache
    ensures r.connected == db.connected && r.fieldTypes == db.fieldTypes
    ensures r.charset == db.charset && r.collate == db.collate
  {
    db.(res := Results([], None, [], 0), lastQuery := None, rowsAffected := 0, lastError := "")
  }

  lemma FlushIdempotent(db: Db)
    ensures Flush(Flush(db)) == Flush(db)
  {
  }

  /** The rows a fetch loop writes over `last_result` from index 0 on. */
  function Overlay(prev: seq<Row>, rows: seq<Row>): (r: seq<Row>)
    ensures rows <= r
    ensures |prev| <= |rows| ==> r == rows
    ensures |prev| > |rows| ==> r == rows + prev[|rows|..]
  {
    if |prev| <= |rows| then rows else rows + prev[|rows|..]
  }

  // ---------------------------------------------------------------------
  // `query()` in three stages

  /** Flush, trim, and record the query text. */
  function Begin(db: Db, query: string): (r: Db)
    ensures r.lastQuery == Some(Trim(query))
    ensures r.res.lastResult == [] && r.res.colInfo.None? && r.res.numRows == 0
    ensures r.rowsAffected == 0 && r.lastError == ""
    ensures r.insertId == db.insertId && r.numQueries == db.numQueries
    ensures r.ready == db.ready && r.useCache == db.useCache && r.cache == db.cache
  {
    Flush(db).(lastQuery := Some(Trim(query)))
  }

  /** The cache lookup, when the cache is on. */
  function Lookup(env: Env, db: Db, fs: Disk.Fs, q: string, now: int): (Results, Disk.Fs, Option<int>) {
    if db.useCache then Cache.GetCache(db.cache, env.codec, env.hash, db.res, fs, q, now)
    else (db.res, fs, None)
  }

  /** The lookup `query()` performs on a ready object. */
  function LookupOf(env: Env, w: World, query: string, now: int): (Results, Disk.Fs, Option<int>) {
    Lookup(env, Begin(w.db, query), w.fs, Trim(query), now)
  }

  /** The query is answered from the cache: the lookup found a truthy (non-zero) value. */
  predicate Hit(env: Env, w: World, query: string, now: int) {
    w.db.ready && LookupOf(env, w, query, now).2.Some? && LookupOf(env, w, query, now).2.value != 0
  }

  /** The state changes a successful statement of each kind makes, and its `$is_insert`. */
  function Apply(db: Db, q: string, d: DriverResult): (r: (Db, Ret, bool))
    ensures r.0 == db.(res := r.0.res, rowsAffected := r.0.rowsAffected, insertId := r.0.insertId)
    ensures r.1 != RetFalse
    ensures r.2 <==> Classify(q) == Write(true)
    ensures Classify(q) != Read ==> r.0.res.numRows == db.res.numRows && r.0.res.lastResult == db.res.lastResult
    ensures Classify(q) == Ddl ==> r.1 == RetTrue && r.0.rowsAffected == db.rowsAffected && r.0.insertId == db.insertId
    ensures Classify(q).Write? ==>
              r.1 == RetInt(d.affected) && r.0.rowsAffected == d.affected
              && r.0.insertId == (if Classify(q).isInsert then d.insertId else db.insertId)
    ensures Classify(q) == Read ==>
              r.1 == RetInt(|d.rows|) && r.0.res.numRows == |d.rows|
              && r.0.res.lastResult == Overlay(db.res.lastResult, d.rows)
              && r.0.rowsAffected == db.rowsAffected && r.0.insertId == db.insertId
  {
    match Classify(q)
    case Ddl => (db.(res := db.res.(resultColumns := [])), RetTrue, false)
    case Write(ins) =>
      (db.(res := db.res.(resultColumns := []), rowsAffected := d.affected,
           insertId := if ins then d.insertId else db.insertId),
       RetInt(d.affected), ins)
    case Read =>
      (db.(res := db.res.(lastResult := Overlay(db.res.lastResult, d.rows), numRows := |d.rows|,
                          resultColumns := d.columns)),
       RetInt(|d.rows|), false)
  }

  /** Execution after a cache miss: count, record the error, classify, store. */
  function Run(env: Env, w: World, q: string, d: DriverResult, now: int): (r: (World, Ret))
    ensures r.0.db.numQueries == w.db.numQueries + 1 && r.0.db.lastError == d.error
    ensures r.0.db.lastQuery == w.db.lastQuery
    ensures r.0.db.ready == w.db.ready && r.0.db.useCache == w.db.useCache && r.0.db.cache == w.db.cache
    ensures r.1 == RetFalse <==> !EmptyString(d.error)
    ensures r.1 == RetFalse ==> r.0.fs == w.fs
    ensures !w.db.useCache ==> r.0.fs == w.fs
  {
    var db := w.db.(numQueries := w.db.numQueries + 1, lastError := d.error);
    if !EmptyString(d.error) then
      var db' := if db.insertId != 0 && Matches(q, InsertWords) then db.(insertId := 0) else db;
      (World(db'.(res := db'.res.(resultColumns := [])), w.fs), RetFalse)
    else
      var (db', ret, isInsert) := Apply(db, q, d);
      if db'.useCache then
        var (res, fs, _) := Cache.StoreCache(db'.cache, env.codec, env.hash, db'.res, w.fs, q, isInsert, None, now);
        (World(db'.(res := res), fs), ret)
      else (World(db', w.fs), ret)
  }

  /**
    `query($query)` at time `now`, with `d` the driver's answer should the
    statement reach the driver.
   */
  function Query(env: Env, w: World, query: string, d: DriverResult, now: int): (r: (World, Ret))
    ensures !w.db.ready ==> r == (w, RetFalse)
    ensures w.db.ready ==> r.0.db.numQueries == w.db.numQueries + 1
    ensures w.db.ready ==> r.0.db.lastQuery == Some(Trim(query))
    ensures r.0.db.ready == w.db.ready && r.0.db.useCache == w.db.useCache && r.0.db.cache == w.db.cache
    ensures w.db.ready && !w.db.useCache ==> r.0.fs == w.fs
    ensures Hit(env, w, query, now) ==> r.1 == RetInt(LookupOf(env, w, query, now).2.value)
    ensures w.db.ready && !Hit(env, w, query, now) ==> r.0.db.lastError == d.error
    ensures w.db.ready && r.1 == RetFalse ==> !EmptyString(d.error)
  {
    if !w.db.ready then (w, RetFalse)
    else
      var q := Trim(query);
      var db := Begin(w.db, query);
      var (res, fs, cached) := Lookup(env, db, w.fs, q, now);
      var db' := db.(res := res);
      if cached.Some? && cached.value != 0 then
        (World(db'.(numQueries := db'.numQueries + 1), fs), RetInt(cached.value))
      else Run(env, World(db', fs), q, d, now)
  }

  /** A hit is answered without the driver: any two driver answers give the same outcome. */
  lemma HitIgnoresDriver(env: Env, w: World, query: string, d1: DriverResult, d2: DriverResult, now: int)
    requires Hit(env, w, query, now)
    ensures Query(env, w, query, d1, now) == Query(env, w, query, d2, now)
  {
  }

  /** On a hit the cache file is left as it was. */
  lemma HitLeavesDisk(env: Env, w: World, query: string, d: DriverResult, now: int)
    requires Hit(env, w, query, now)
    ensures Query(env, w, query, d, now).0.fs == w.fs
  {
  }

  /**
    On a driver error for an INSERT or REPLACE statement, a non-zero
    `insert_id` is reset to 0; any other failed statement leaves it alone.
   */
  lemma ErrorResetsInsertId(env: Env, w: World, query: string, d: DriverResult, now: int)
    requires w.db.ready && !Hit(env, w, query, now) && !EmptyString(d.error)
    ensures var r := Query(env, w, query, d, now);
            r.1 == RetFalse
            && r.0.db.insertId == (if Matches(Trim(query), InsertWords) then 0 else w.db.insertId)
  {
  }

  /**
    What a miss that the driver answers without error returns: `true` for
    DDL, the affected row count for a write (with the driver's insert id
    for an insert), the selected row count for a read, whose rows lead
    `last_result`.
   */
  lemma MissResult(env: Env, w: World, query: string, d: DriverResult, now: int)
    requires w.db.ready && !Hit(env, w, query, now) && EmptyString(d.error)
    ensures var (w1, ret) := Query(env, w, query, d, now);
            match Classify(Trim(query))
            case Ddl => ret == RetTrue && w1.db.rowsAffected == 0 && w1.db.insertId == w.db.insertId
            case Write(ins) =>
              ret == RetInt(d.affected) && w1.db.rowsAffected == d.affected
              && w1.db.insertId == (if ins then d.insertId else w.db.insertId)
            case Read =>
              ret == RetInt(|d.rows|) && w1.db.res.numRows == |d.rows| && d.rows <= w1.db.res.lastResult
              && w1.db.rowsAffected == 0 && w1.db.insertId == w.db.insertId
    ensures var w1 := Query(env, w, query, d, now).0;
            Classify(Trim(query)) == Read && LookupOf(env, w, query, now).2.None? ==> w1.db.res.lastResult == d.rows
  {
    var (res, fs1, cached) := LookupOf(env, w, query, now);
    MissRuns(env, w, query, d, now);
    var q := Trim(query);
    var db0 := Begin(w.db, query).(res := res);
    var db := db0.(numQueries := db0.numQueries + 1, lastError := d.error);
    var (db', ret, isInsert) := Apply(db, q, d);
    if cached.None? {
      assert res == Begin(w.db, query).res;
    }
  }

  // ---------------------------------------------------------------------
  // What `query()` does to the cache file

  /** The cache file of a query. */
  function CachePath(env: Env, db: Db, query: string): string {
    Disk.Path(db.cache.dir, Cache.Key(db.cache, env.hash, Trim(query)))
  }

  /** The file is absent or holds exactly one encoded value. */
  ghost predicate SinglePayload(codec: Disk.Codec, fs: Disk.Fs, path: string) {
    path !in fs.files || exists v :: fs.files[path] == codec.encode(v)
  }

  /**
    The only way a cache file comes to hold a second payload: it holds a
    live snapshot whose return value is 0, so the lookup neither serves
    nor removes it and the store appends after it.
   */
  predicate ZeroEntry(codec: Disk.Codec, fs: Disk.Fs, path: string, now: int) {
    path in fs.files && codec.decode(fs.files[path]).Some?
    && Disk.Live(codec.decode(fs.files[path]).value, now)
    && codec.decode(fs.files[path]).value.entry.returnValue == 0
  }

  /**
    Execution changes the store at most by one `set` of a snapshot under
    the query's key, and a successful statement that is not an uncached
    insert does reach that `set`.
   */
  lemma RunStoresAtMostOnce(env: Env, w: World, q: string, d: DriverResult, now: int)
    ensures var r := Run(env, w, q, d, now).0.fs;
            r == w.fs || exists v: Value :: v.Snapshot? && r == Disk.Set(env.codec, w.db.cache.dir, w.fs, Cache.Key(w.db.cache, env.hash, q), v).0
    ensures var r := Run(env, w, q, d, now).0.fs;
            w.db.useCache && EmptyString(d.error) && (w.db.cache.cacheInserts || Classify(q) != Write(true)) ==>
              exists v: Value :: v.Snapshot? && r == Disk.Set(env.codec, w.db.cache.dir, w.fs, Cache.Key(w.db.cache, env.hash, q), v).0
    ensures var r := Run(env, w, q, d, now).0.fs;
            Classify(q) != Read ==>
              r == w.fs || exists v: Value :: Cache.Stores(v, w.db.res) && r == Disk.Set(env.codec, w.db.cache.dir, w.fs, Cache.Key(w.db.cache, env.hash, q), v).0
  {
    var db := w.db.(numQueries := w.db.numQueries + 1, lastError := d.error);
    if EmptyString(d.error) {
      var (db', ret, isInsert) := Apply(db, q, d);
      Cache.StoreIsOneSet(db'.cache, env.codec, env.hash, db'.res, w.fs, q, isInsert, None, now);
      if Classify(q) != Read {
        assert forall v: Value :: Cache.Stores(v, db'.res) ==> Cache.Stores(v, w.db.res);
      }
    }
  }

  /** A miss is answered by `Run` on the flushed object, after the lookup. */
  lemma MissRuns(env: Env, w: World, query: string, d: DriverResult, now: int)
    requires w.db.ready && !Hit(env, w, query, now)
    ensures var (res, fs1, _) := LookupOf(env, w, query, now);
            Query(env, w, query, d, now) == Run(env, World(Begin(w.db, query).(res := res), fs1), Trim(query), d, now)
  {
  }

  /** After a miss the cache file changes at most by one `set` of a snapshot. */
  lemma MissStoresAtMostOnce(env: Env, w: World, query: string, d: DriverResult, now: int)
    requires w.db.ready && !Hit(env, w, query, now)
    ensures var fs1 := LookupOf(env, w, query, now).1;
            var r := Query(env, w, query, d, now).0.fs;
            var key := Cache.Key(w.db.cache, env.hash, Trim(query));
            r == fs1 || exists v: Value :: v.Snapshot? && r == Disk.Set(env.codec, w.db.cache.dir, fs1, key, v).0
    ensures var fs1 := LookupOf(env, w, query, now).1;
            var r := Query(env, w, query, d, now).0.fs;
            var key := Cache.Key(w.db.cache, env.hash, Trim(query));
            w.db.useCache && EmptyString(d.error) && (w.db.cache.cacheInserts || Classify(Trim(query)) != Write(true)) ==>
              exists v: Value :: v.Snapshot? && r == Disk.Set(env.codec, w.db.cache.dir, fs1, key, v).0
  {
    var (res, fs1, _) := LookupOf(env, w, query, now);
    MissRuns(env, w, query, d, now);
    RunStoresAtMostOnce(env, World(Begin(w.db, query).(res := res), fs1), Trim(query), d, now);
  }

  /**
    Apart from a live zero-valued entry, `query()` writes a cache file
    only after the lookup found none or removed it, so a file holding at
    most one payload still holds at most one afterwards.
   */
  lemma SinglePayloadPreserved(env: Env, w: World, query: string, d: DriverResult, now: int)
    requires w.db.ready && w.db.useCache
    requires SinglePayload(env.codec, w.fs, CachePath(env, w.db, query))
    requires !ZeroEntry(env.codec, w.fs, CachePath(env, w.db, query), now)
    ensures SinglePayload(env.codec, Query(env, w, query, d, now).0.fs, CachePath(env, w.db, query))
  {
    if Hit(env, w, query, now) {
      HitLeavesDisk(env, w, query, d, now);
    } else {
      MissLeavesNoFile(env, w, query, now);
      MissStoresAtMostOnce(env, w, query, d, now);
      var path := CachePath(env, w.db, query);
      var key := Cache.Key(w.db.cache, env.hash, Trim(query));
      var fs1 := LookupOf(env, w, query, now).1;
      var r := Query(env, w, query, d, now).0.fs;
      if r != fs1 {
        var v: Value :| v.Snapshot? && r == Disk.Set(env.codec, w.db.cache.dir, fs1, key, v).0;
        SetOnFreshFile(env.codec, w.db.cache.dir, fs1, key, v);
      }
    }
  }

  /**
    A lookup that misses on a file without a live zero-valued entry leaves
    no file under a non-empty key: the file was absent, or the lookup
    removed it.
   */
  lemma MissLeavesNoFile(env: Env, w: World, query: string, now: int)
    requires w.db.ready && w.db.useCache && !Hit(env, w, query, now)
    requires !ZeroEntry(env.codec, w.fs, CachePath(env, w.db, query), now)
    ensures var fs1 := LookupOf(env, w, query, now).1;
            fs1 == w.fs || CachePath(env, w.db, query) !in fs1.files
    ensures EmptyString(Cache.Key(w.db.cache, env.hash, Trim(query)))
            || CachePath(env, w.db, query) !in LookupOf(env, w, query, now).1.files
  {
  }

  /** A `set` under a key whose file is absent leaves exactly one payload there. */
  lemma SetOnFreshFile(codec: Disk.Codec, dir: string, fs: Disk.Fs, key: string, v: Value)
    requires EmptyString(key) || Disk.Path(dir, key) !in fs.files
    ensures var r := Disk.Set(codec, dir, fs, key, v).0;
            r == fs || (Disk.Path(dir, key) in r.files && r.files[Disk.Path(dir, key)] == codec.encode(v))
  {
  }

  /**
    A cached zero is falsy: a query whose file holds a live snapshot with
    return value 0 is executed again, and a successful re-execution that
    reaches the store appends a second payload after the first.
   */
  lemma ZeroIsReExecuted(env: Env, w: World, query: string, d: DriverResult, now: int)
    requires w.db.ready && w.db.useCache
    requires ZeroEntry(env.codec, w.fs, CachePath(env, w.db, query), now)
    requires !EmptyString(Cache.Key(w.db.cache, env.hash, Trim(query)))
    requires w.db.cache.dir in w.fs.dirs
    requires EmptyString(d.error)
    requires w.db.cache.cacheInserts || Classify(Trim(query)) != Write(true)
    ensures !Hit(env, w, query, now)
    ensures var r := Query(env, w, query, d, now).0.fs;
            var path := CachePath(env, w.db, query);
            path in r.files && exists v :: r.files[path] == w.fs.files[path] + env.codec.encode(v)
  {
    var path := CachePath(env, w.db, query);
    var key := Cache.Key(w.db.cache, env.hash, Trim(query));
    var fs1 := LookupOf(env, w, query, now).1;
    assert fs1 == w.fs;
    MissStoresAtMostOnce(env, w, query, d, now);
    var r := Query(env, w, query, d, now).0.fs;
    var v: Value :| v.Snapshot? && r == Disk.Set(env.codec, w.db.cache.dir, fs1, key, v).0;
    assert r.files[path] == w.fs.files[path] + env.codec.encode(v);
  }

  /**
    Statements other than SELECT-like reads leave `num_rows` at the 0 that
    `flush()` set, so the snapshot they store (into a file that did not
    exist) has return value 0.
   */
  lemma NonReadStoredAsZero(env: Env, w: World, query: string, d: DriverResult, now: int)
    requires w.db.ready && w.db.useCache
    requires CachePath(env, w.db, query) !in w.fs.files
    requires Classify(Trim(query)) != Read
    ensures var r := Query(env, w, query, d, now).0.fs;
            var path := CachePath(env, w.db, query);
            path !in r.files || exists v: Value :: v.Snapshot? && v.entry.returnValue == 0 && r.files[path] == env.codec.encode(v)
  {
    var path := CachePath(env, w.db, query);
    var key := Cache.Key(w.db.cache, env.hash, Trim(query));
    var (res, fs1, cached) := LookupOf(env, w, query, now);
    assert fs1 == w.fs && cached.None? && res == Begin(w.db, query).res;
    MissRuns(env, w, query, d, now);
    var w1 := World(Begin(w.db, query).(res := res), fs1);
    RunStoresAtMostOnce(env, w1, Trim(query), d, now);
    var r := Query(env, w, query, d, now).0.fs;
    if r != fs1 {
      var v: Value :| Cache.Stores(v, w1.db.res) && r == Disk.Set(env.codec, w.db.cache.dir, fs1, key, v).0;
      if path in r.files {
        assert r.files[path] == env.codec.encode(v);
      }
    }
  }

  /**
    Consequently a DDL or write statement is never answered from the
    cache: run once with the cache on (starting without a cache file), the
    same statement run again at any later time reaches the driver.
   */
  lemma NonReadIsReExecuted(env: Env, w: World, query: string, d: DriverResult, t1: int, t2: int)
    requires Disk.SinglePayloadRoundTrip(env.codec)
    requires w.db.ready && w.db.useCache
    requires CachePath(env, w.db, query) !in w.fs.files
    requires Classify(Trim(query)) != Read
    ensures !Hit(env, Query(env, w, query, d, t1).0, query, t2)
  {
    NonReadStoredAsZero(env, w, query, d, t1);
  }

  /** With `cache_inserts` off, an INSERT or REPLACE result is never stored. */
  lemma InsertNotStored(env: Env, w: World, query: string, d: DriverResult, now: int)
    requires w.db.ready && w.db.useCache && !w.db.cache.cacheInserts
    requires Classify(Trim(query)) == Write(true)
    ensures Query(env, w, query, d, now).0.fs == LookupOf(env, w, query, now).1
  {
  }

  /** `a` is `b` with at most some files removed: no directory or file is created or changed. */
  predicate Within(a: Disk.Fs, b: Disk.Fs) {
    a.dirs == b.dirs && forall path :: path in a.files ==> path in b.files && a.files[path] == b.files[path]
  }

  /** The cache lookup only ever removes files. */
  lemma LookupWithin(env: Env, w: World, query: string, now: int)
    ensures Within(LookupOf(env, w, query, now).1, w.fs)
  {
  }

  /**
    With `cache_inserts` off, running an INSERT or REPLACE creates and
    changes nothing on disk; at most the lookup drops a stale file.
   */
  lemma InsertNeverWrites(env: Env, w: World, query: string, d: DriverResult, now: int)
    requires !w.db.cache.cacheInserts
    requires Classify(Trim(query)) == Write(true)
    ensures Within(Query(env, w, query, d, now).0.fs, w.fs)
  {
    if w.db.ready && w.db.useCache {
      InsertNotStored(env, w, query, d, now);
      LookupWithin(env, w, query, now);
    }
  }

  /**
    UPDATE and DELETE reach `store_cache` as non-inserts: even with
    `cache_inserts` off, a successful one writes its cache file.
   */
  lemma UpdateDeleteStored(env: Env, w: World, query: string, k: string, d: DriverResult, now: int)
    requires w.db.ready && w.db.useCache && !w.db.cache.cacheInserts
    requires k == "update" || k == "delete"
    requires Matches(Trim(query), [k])
    requires CachePath(env, w.db, query) !in w.fs.files
    requires !EmptyString(Cache.Key(w.db.cache, env.hash, Trim(query))) && w.db.cache.dir in w.fs.dirs
    requires EmptyString(d.error)
    ensures CachePath(env, w.db, query) in Query(env, w, query, d, now).0.fs.files
  {
    UpdateDeleteAreNotInserts(Trim(query), k);
    MissStoresAtMostOnce(env, w, query, d, now);
  }

  // ---------------------------------------------------------------------
  // `db_version()` and `get_charset_collate()`

  predicate VersionChar(c: char) {
    IsDigit(c) || c == '.'
  }

  /**
    `db_version()`: the server version string cut at its first character
    other than a digit or a dot.
   */
  function DbVersion(info: string): (r: string)
    ensures r <= info
    ensures forall i :: 0 <= i < |r| ==> VersionChar(r[i])
    ensures |r| < |info| ==> !VersionChar(info[|r|])
  {
    if |info| > 0 && VersionChar(info[0]) then [info[0]] + DbVersion(info[1..]) else ""
  }

  /** Cutting a version number again changes nothing. */
  lemma DbVersionIdempotent(info: string)
    ensures DbVersion(DbVersion(info)) == DbVersion(info)
  {
    var r := DbVersion(info);
    var r' := DbVersion(r);
    assert r' <= r;
  }

  /**
    `get_charset_collate()`: the charset clause leads exactly when the
    charset is set, the collate clause ends the text when the collation is
    set, and the text is empty exactly when neither is.
   */
  function CharsetCollate(charset: string, collate: string): (r: string)
    ensures r == "" <==> EmptyString(charset) && EmptyString(collate)
    ensures "DEFAULT CHARACTER SET " + charset <= r <==> !EmptyString(charset)
    ensures !EmptyString(collate) ==> |r| >= |" COLLATE " + collate| && r[|r| - |" COLLATE " + collate|..] == " COLLATE " + collate
    ensures EmptyString(collate) ==> r == (if EmptyString(charset) then "" else "DEFAULT CHARACTER SET " + charset)
    ensures |r| == (if EmptyString(charset) then 0 else |"DEFAULT CHARACTER SET " + charset|)
                 + (if EmptyString(collate) then 0 else |" COLLATE " + collate|)
  {
    var head := if EmptyString(charset) then "" else "DEFAULT CHARACTER SET " + charset;
    var r := if EmptyString(collate) then head else head + " COLLATE " + collate;
    assert EmptyString(charset) ==> r == [] || r[0] == ' ';
    r
  }
}
