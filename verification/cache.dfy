/**
  The query-result cache policy (`idb_Cache_Core` in cache.class.php) over
  the disk backend: which results are stored, under which key, with which
  lifetime, what the stored snapshot holds, and how a hit is restored into
  the database object. `md5` is the parameter `hash`.
 */
module Cache {
  import opened Php
  import opened Records
  import Disk

  /** Default lifetime of a cached result, in seconds (one day). */
  const DefaultTimeout: int := 24 * 60 * 60

  /**
    `cache_timeout`, `cache_inserts` and `cache_prefix` of the cache
    object, and `cache_dir` of the disk backend.
   */
  datatype Config = Config(timeout: int, cacheInserts: bool, prefix: string, dir: string)

  /** The configuration with no `DB_CACHE_*` constant defined. */
  function DefaultConfig(dir: string): (c: Config)
    ensures c.timeout == 86400 && !c.cacheInserts && c.prefix == "" && c.dir == dir
  {
    Config(DefaultTimeout, false, "", dir)
  }

  /** The cache key of a query: the hash of the prefix followed by the query text. */
  function Key(c: Config, hash: string -> string, query: string): string {
    hash(c.prefix + query)
  }

  /** A falsy TTL (null or 0) stands for `cache_timeout`. */
  function ResolveTtl(c: Config, ttl: Option<int>): (t: int)
    ensures ttl == None || ttl == Some(0) ==> t == c.timeout
    ensures ttl.Some? && ttl.value != 0 ==> t == ttl.value
  {
    match ttl
    case None => c.timeout
    case Some(n) => if n == 0 then c.timeout else n
  }

  /**
    Reading `col_info` from outside the database object goes through its
    magic getter, which loads the column metadata of the last result
    handle when `col_info` is still falsy.
   */
  function LoadColInfo(res: Results): (r: Results)
    ensures r.lastResult == res.lastResult && r.numRows == res.numRows
    ensures r.resultColumns == res.resultColumns
    ensures HasColInfo(res) ==> r == res
    ensures !HasColInfo(res) && |res.resultColumns| > 0 ==> r.colInfo == Some(res.resultColumns)
    ensures !HasColInfo(res) && |res.resultColumns| == 0 ==> r == res
  {
    if HasColInfo(res) || |res.resultColumns| == 0 then res
    else res.(colInfo := Some(res.resultColumns))
  }

  /**
    `store_cache($query, $is_insert, $ttl)` at time `now`. Returns the
    database fields (col_info may have been loaded), the filesystem and the
    returned flag.
   */
  function StoreCache(c: Config, codec: Disk.Codec, hash: string -> string, res: Results, fs: Disk.Fs,
                      query: string, isInsert: bool, ttl: Option<int>, now: int): (r: (Results, Disk.Fs, bool))
    ensures !c.cacheInserts && isInsert ==> r == (res, fs, false)
    ensures r.2 <==> c.cacheInserts || !isInsert
    ensures r.2 ==> r.0 == LoadColInfo(res)
    ensures r.2 ==> r.1 == Disk.Set(codec, c.dir, fs, Key(c, hash, query),
                                    Snapshot(Entry(r.0.colInfo, res.lastResult, res.numRows, res.numRows,
                                                   now + ResolveTtl(c, ttl)))).0
  {
    if !c.cacheInserts && isInsert then (res, fs, false)
    else
      var loaded := LoadColInfo(res);
      var entry := Entry(loaded.colInfo, loaded.lastResult, loaded.numRows, loaded.numRows,
                         now + ResolveTtl(c, ttl));
      var (fs', _) := Disk.Set(codec, c.dir, fs, Key(c, hash, query), Snapshot(entry));
      (loaded, fs', true)
  }

  /**
    `get_cache($query)` at time `now`: on a miss returns false (`None`)
    and leaves the database fields alone; on a hit overwrites exactly
    `col_info`, `last_result` and `num_rows` and returns `return_value`.
   */
  function GetCache(c: Config, codec: Disk.Codec, hash: string -> string, res: Results, fs: Disk.Fs,
                    query: string, now: int): (r: (Results, Disk.Fs, Option<int>))
    ensures r.1 == Disk.Get(codec, c.dir, fs, Key(c, hash, query), now).0
    ensures r.2.None? <==> Disk.Get(codec, c.dir, fs, Key(c, hash, query), now).1.None?
    ensures r.2.None? ==> r.0 == res
    ensures r.2.Some? ==>
              var e := Disk.Get(codec, c.dir, fs, Key(c, hash, query), now).1.value.entry;
              r.0 == res.(colInfo := e.colInfo, lastResult := e.lastResult, numRows := e.numRows)
              && r.2 == Some(e.returnValue)
  {
    var (fs', v) := Disk.Get(codec, c.dir, fs, Key(c, hash, query), now);
    match v
    case None => (res, fs', None)
    case Some(Falsy) => (res, fs', None)
    case Some(Snapshot(e)) =>
      (res.(colInfo := e.colInfo, lastResult := e.lastResult, numRows := e.numRows), fs', Some(e.returnValue))
  }

  /** `v` is a snapshot of the result fields `res`, with the row count as its return value. */
  predicate Stores(v: Value, res: Results) {
    v.Snapshot? && v.entry.lastResult == res.lastResult
    && v.entry.numRows == res.numRows && v.entry.returnValue == res.numRows
  }

  /**
    `store_cache` touches the store through at most one `set` of a
    snapshot under the query's key, and exactly one when the result is
    not an uncached insert.
   */
  lemma StoreIsOneSet(c: Config, codec: Disk.Codec, hash: string -> string, res: Results, fs: Disk.Fs,
                      query: string, isInsert: bool, ttl: Option<int>, now: int)
    ensures var r := StoreCache(c, codec, hash, res, fs, query, isInsert, ttl, now).1;
            r == fs || exists v: Value :: Stores(v, res) && r == Disk.Set(codec, c.dir, fs, Key(c, hash, query), v).0
    ensures var r := StoreCache(c, codec, hash, res, fs, query, isInsert, ttl, now).1;
            c.cacheInserts || !isInsert ==>
              exists v: Value :: Stores(v, res) && r == Disk.Set(codec, c.dir, fs, Key(c, hash, query), v).0
  {
    var (stored, fs', ok) := StoreCache(c, codec, hash, res, fs, query, isInsert, ttl, now);
    if ok {
      var v := Snapshot(Entry(stored.colInfo, res.lastResult, res.numRows, res.numRows, now + ResolveTtl(c, ttl)));
      assert fs' == Disk.Set(codec, c.dir, fs, Key(c, hash, query), v).0;
    }
  }

  /**
    Round trip: a result stored at time `t` (into a cache file that did not
    exist) and looked up at any time up to `t + ttl` restores the three
    stored fields into whatever state the database object is in, and
    returns the stored row count.
   */
  lemma StoreThenGet(c: Config, codec: Disk.Codec, hash: string -> string, res: Results, later: Results,
                     fs: Disk.Fs, query: string, isInsert: bool, ttl: Option<int>, t: int, t': int)
    requires Disk.SinglePayloadRoundTrip(codec)
    requires c.cacheInserts || !isInsert
    requires !EmptyString(Key(c, hash, query))
    requires c.dir in fs.dirs && Disk.Path(c.dir, Key(c, hash, query)) !in fs.files
    requires t' <= t + ResolveTtl(c, ttl)
    ensures var (stored, fs1, ok) := StoreCache(c, codec, hash, res, fs, query, isInsert, ttl, t);
            var (restored, fs2, ret) := GetCache(c, codec, hash, later, fs1, query, t');
            ok && fs2 == fs1 && ret == Some(res.numRows)
            && restored == later.(colInfo := stored.colInfo, lastResult := res.lastResult, numRows := res.numRows)
  {
    var (stored, fs1, ok) := StoreCache(c, codec, hash, res, fs, query, isInsert, ttl, t);
    var e := Entry(stored.colInfo, res.lastResult, res.numRows, res.numRows, t + ResolveTtl(c, ttl));
    Disk.GetAfterSet(codec, c.dir, fs, Key(c, hash, query), e, t');
  }
}
