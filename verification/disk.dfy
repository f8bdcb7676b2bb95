/**
  The disk cache backend (`iDB_Cache` in disk.cache.class.php).

  The filesystem is a set of directories plus a map from file path to file
  bytes; the clock is the parameter `now`. `serialize` followed by
  `gzdeflate` is the `encode` half of a `Codec`, and `gzinflate` followed by
  `unserialize` its `decode` half, where `None` stands for an exception
  thrown while decoding. The only thing assumed of a codec is that a file
  holding exactly one encoded payload decodes to that payload; what a file
  holding several appended payloads decodes to is left open.
 */
module Disk {
  import opened Php
  import opened Records

  datatype Fs = Fs(dirs: set<string>, files: map<string, seq<byte>>)

  datatype Codec = Codec(encode: Value -> seq<byte>, decode: seq<byte> -> Option<Value>)

  ghost predicate SinglePayloadRoundTrip(codec: Codec) {
    forall v :: codec.decode(codec.encode(v)) == Some(v)
  }

  /** The file that holds the entry for `key`. */
  function Path(dir: string, key: string): string {
    dir + "/" + key
  }

  /** The bytes of a file, empty when it does not exist. */
  function Contents(fs: Fs, path: string): seq<byte> {
    if path in fs.files then fs.files[path] else []
  }

  /** A decoded value `get` hands back at time `now`: a snapshot whose expiry is unset or not yet passed. */
  predicate Live(v: Value, now: int) {
    v.Snapshot? && (v.entry.expireAt == 0 || now <= v.entry.expireAt)
  }

  /**
    `set($key, $value)`: refuses an empty key, an empty value or a missing
    cache directory; otherwise appends the encoded value to the key's file
    (`error_log` with message type 3 appends) and reports success.
   */
  function Set(codec: Codec, dir: string, fs: Fs, key: string, value: Value): (r: (Fs, bool))
    ensures r.1 <==> !EmptyString(key) && value.Snapshot? && dir in fs.dirs
    ensures !r.1 ==> r.0 == fs
    ensures r.1 ==> r.0.dirs == fs.dirs
    ensures r.1 ==> Path(dir, key) in r.0.files
                    && r.0.files[Path(dir, key)] == Contents(fs, Path(dir, key)) + codec.encode(value)
    ensures forall p :: p != Path(dir, key) ==> (p in r.0.files <==> p in fs.files)
    ensures forall p :: p != Path(dir, key) && p in fs.files ==> r.0.files[p] == fs.files[p]
  {
    if EmptyString(key) || value.Falsy? then (fs, false)
    else if dir !in fs.dirs then (fs, false)
    else
      var path := Path(dir, key);
      (fs.(files := fs.files[path := Contents(fs, path) + codec.encode(value)]), true)
  }

  /**
    `get($key)` at time `now`: null for an empty key or a missing file;
    a file that fails to decode, decodes to a falsy value or holds an
    entry whose `expire_at` is set and strictly in the past is deleted and
    read as null; anything else is returned and the file left in place.
   */
  function Get(codec: Codec, dir: string, fs: Fs, key: string, now: int): (r: (Fs, Option<Value>))
    ensures EmptyString(key) || Path(dir, key) !in fs.files ==> r == (fs, None)
    ensures r.1.Some? ==> r.0 == fs && Path(dir, key) in fs.files
                          && codec.decode(fs.files[Path(dir, key)]) == r.1 && Live(r.1.value, now)
    ensures (!EmptyString(key) && Path(dir, key) in fs.files && r.1.None?) ==>
              r.0 == fs.(files := fs.files - {Path(dir, key)})
    ensures (!EmptyString(key) && Path(dir, key) in fs.files) ==>
              (r.1.None? <==> !(var d := codec.decode(fs.files[Path(dir, key)]); d.Some? && Live(d.value, now)))
  {
    if EmptyString(key) then (fs, None)
    else
      var path := Path(dir, key);
      if path !in fs.files then (fs, None)
      else
        var removed := fs.(files := fs.files - {path});
        match codec.decode(fs.files[path])
        case None => (removed, None)
        case Some(v) =>
          if v.Falsy? || (v.entry.expireAt != 0 && now > v.entry.expireAt) then (removed, None)
          else (fs, Some(v))
  }

  // ---------------------------------------------------------------------
  // Properties relating `Set` and `Get`

  /**
    A successful `set` into a file that did not exist, read back at any
    time up to the entry's expiry (or at any time when it has none),
    returns exactly the value set and leaves the file in place.
   */
  lemma GetAfterSet(codec: Codec, dir: string, fs: Fs, key: string, e: Entry, now: int)
    requires SinglePayloadRoundTrip(codec)
    requires !EmptyString(key) && dir in fs.dirs && Path(dir, key) !in fs.files
    requires e.expireAt == 0 || now <= e.expireAt
    ensures var fs1 := Set(codec, dir, fs, key, Snapshot(e)).0;
            Get(codec, dir, fs1, key, now) == (fs1, Some(Snapshot(e)))
  {
    var fs1 := Set(codec, dir, fs, key, Snapshot(e)).0;
    assert fs1.files[Path(dir, key)] == codec.encode(Snapshot(e));
  }

  /**
    Lazy eviction: once `now` is strictly past a set expiry, `get` deletes
    the file and misses, and a later `get` misses without touching the store.
   */
  lemma ExpiredIsEvicted(codec: Codec, dir: string, fs: Fs, key: string, e: Entry, now: int, later: int)
    requires SinglePayloadRoundTrip(codec)
    requires !EmptyString(key) && dir in fs.dirs && Path(dir, key) !in fs.files
    requires e.expireAt != 0 && now > e.expireAt
    ensures var fs1 := Set(codec, dir, fs, key, Snapshot(e)).0;
            var (fs2, v) := Get(codec, dir, fs1, key, now);
            v.None? && Path(dir, key) !in fs2.files && fs2.files == fs.files
            && Get(codec, dir, fs2, key, later) == (fs2, None)
  {
    var fs1 := Set(codec, dir, fs, key, Snapshot(e)).0;
    assert fs1.files[Path(dir, key)] == codec.encode(Snapshot(e));
    assert fs1.files - {Path(dir, key)} == fs.files;
  }

  /** A file that does not decode, or decodes to a falsy value, is removed by `get`. */
  lemma CorruptIsDeleted(codec: Codec, dir: string, fs: Fs, key: string, now: int)
    requires !EmptyString(key) && Path(dir, key) in fs.files
    requires codec.decode(fs.files[Path(dir, key)]) in {None, Some(Falsy)}
    ensures Get(codec, dir, fs, key, now) == (fs.(files := fs.files - {Path(dir, key)}), None)
  {
  }

  /**
    Two successful `set`s of the same key leave both payloads in the file,
    one after the other: the second write does not replace the first.
   */
  lemma SetAppends(codec: Codec, dir: string, fs: Fs, key: string, a: Entry, b: Entry)
    requires !EmptyString(key) && dir in fs.dirs && Path(dir, key) !in fs.files
    ensures var fs1 := Set(codec, dir, fs, key, Snapshot(a)).0;
            var fs2 := Set(codec, dir, fs1, key, Snapshot(b)).0;
            fs2.files[Path(dir, key)] == codec.encode(Snapshot(a)) + codec.encode(Snapshot(b))
  {
  }
}
