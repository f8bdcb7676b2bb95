# idb — a Dafny model of the query layer and its result cache

`idb` is a PHP database class with an optional query-result cache. A
statement goes through `prepare()` (escaping and `vsprintf` substitution)
and then `query()`. `query()`:

- flushes the previous result;
- looks the statement up in the cache;
- on a miss, runs it through the MySQL driver;
- classifies it by its leading keyword (DDL, write, insert, read);
- stores the result snapshot in the cache.

The write helpers (`insert`, `replace`, `update`, `delete`) build an SQL
template with one format per column and hand it to `prepare()` and then
`query()`. The read helpers (`get_var`, `get_results`) run a query and
reshape its rows. The cache keeps one file per statement in a cache
directory. Its name is the `md5` of the prefix and the query. Its contents
are the serialized, deflated snapshot. Files are evicted lazily when they
are read after their expiry.

The model is purely functional:

- The database object is the `Idb.Db` record.
- The filesystem of the disk backend is `Disk.Fs`.
- Each operation takes the state and returns the new state with the
  PHP return value.
- Everything outside the class is a parameter:
  - the clock is `now`;
  - what the driver answers for one statement is a `DriverResult`;
  - `md5` is the function `hash`;
  - `serialize`+`gzdeflate` and their inverses form a `Disk.Codec`;
  - `mysql_real_escape_string` and PHP's float rendering and parsing are
    the fields of `Php.Runtime`.

Modules, in dependency order:

| module | file | models |
|---|---|---|
| `Php` | php.dfy | PHP 5 scalar semantics the code relies on: `empty()` on strings, `trim`, `strtolower`, `(string)` and `strtol` on integers with 64-bit saturation |
| `Records` | records.dfy | rows, cells, column metadata, the cached snapshot, the result fields of the database object |
| `Disk` | disk.dfy | `set` and `get` of disk.cache.class.php |
| `Cache` | cache.dfy | `store_cache` and `get_cache` of cache.class.php, `load_col_info` |
| `Escape` | escape.dfy | `addslashes`, `_real_escape`, `_escape`, `escape_by_ref` |
| `Template` | template.dfy | the four textual rewrites of `prepare()` (`str_replace` and the `(?<!%)` look-behind replacements) |
| `Prepare` | prepare.dfy | `vsprintf` restricted to `%d %s %f %F %%`, and `prepare()` |
| `Statement` | classify.dfy | the leading-keyword regular expressions of `query()` |
| `Idb` | idb.dfy | `flush`, `query`, `db_version`, `get_charset_collate` |
| `Writes` | writes.dfy | `_insert_replace_helper`, `insert`, `replace`, `update`, `delete` |
| `Fetch` | fetch.dfy | `get_var`, `get_results` |

## Where the code and its documentation differ

Where the two disagree, the model follows the code:

- `prepare()` is documented as needing an argument for every `%d`, `%f`
  and `%s`, with `false` signalling an error. The code hands the
  arguments to `vsprintf`. That fails only when there are too few
  arguments; extra arguments are silently ignored
  (`Prepare.FormatArity`, `Prepare.ExtraArgsIgnored`).
- `update()` documents an omitted `$where_format` as meaning that every
  where value is treated as a string. The code first consults
  `field_types`, as `delete()`'s documentation says, and only then falls
  back to `%s`, exactly as for the data columns.
- A cached result with return value 0 is not served. This covers
  SELECTs with no rows and every DDL or write statement, whose
  `num_rows` stays at 0. `get_cache` returns the 0, which `query()`
  treats as a miss. The statement is then run again, and the new
  snapshot is appended after the old one in the same file
  (`Idb.ZeroIsReExecuted`, `Idb.NonReadIsReExecuted`).

## Model

| member | source | states |
|---|---|---|
| Php.DecimalRoundTrip | db.class.php:528-529 | an integer within the 64-bit range, rendered as decimal text and read back with `%d` semantics (`strtol`), is the same integer |
| Php.StrToInt | db.class.php:529 | the value `%d` reads from a string always lies within the 64-bit signed range |
| Disk.Set | disk.cache.class.php:57-80 | `set` succeeds exactly when the key is non-empty, the value truthy and the directory present; on failure nothing changes; on success only the key's file changes, by appending the encoded value |
| Disk.Get | disk.cache.class.php:89-118 | `get` misses without touching the store for an empty key or missing file; a returned value is live and leaves the file in place; a miss on an existing file deletes exactly that file, and it misses exactly when the file does not decode to a live snapshot |
| Disk.GetAfterSet | disk.cache.class.php:57-118 | round trip: a value set into a fresh file is read back unchanged at any time up to its expiry |
| Disk.ExpiredIsEvicted | disk.cache.class.php:104-106 | a read after the expiry deletes the file and misses, restoring the store to its state before the set, and a later read misses too |
| Disk.CorruptIsDeleted | disk.cache.class.php:101-116 | a file that fails to decode or decodes to a falsy value is removed and read as a miss |
| Disk.SetAppends | disk.cache.class.php:78 | a second set of the same key appends its payload after the first instead of replacing it |
| Cache.DefaultConfig | cache.class.php:31-58 | without configuration the lifetime is one day (86400 s), inserts are not cached and the key prefix is empty |
| Cache.ResolveTtl | cache.class.php:130 | a null or zero TTL means the configured timeout; any other TTL is used as given |
| Cache.LoadColInfo | db.class.php:1094-1101 | column metadata is loaded from the result handle only when `col_info` is still empty; nothing else changes |
| Cache.StoreCache | cache.class.php:125-144 | an insert with `cache_inserts` off is refused with no effect; otherwise it reports success and writes, under the hash of prefix and query, a snapshot whose return value is the row count and whose expiry is `now` plus the resolved TTL |
| Cache.GetCache | cache.class.php:153-166 | a miss returns false and leaves the result fields alone; a hit overwrites exactly `col_info`, `last_result` and `num_rows` and returns the stored return value |
| Cache.StoreIsOneSet | cache.class.php:125-144 | `store_cache` changes the store by at most one `set` of a snapshot of the current result, and by exactly one unless it is an uncached insert |
| Cache.StoreThenGet | cache.class.php:125-166 | round trip: a result stored into a fresh file and looked up before its expiry restores the three stored fields into any later state and returns the stored row count |
| Escape.StripAfterAdd | db.class.php:437 | `addslashes` is undone by stripping the slashes it added: the escaped text always decodes back to the original |
| Escape.AddSlashesIsLiteralBody | db.class.php:437 | `addslashes` output can sit between single quotes: every quote or backslash in it is escaped |
| Escape.RealEscape | db.class.php:433-438 | without a connection the escaped text of a value is a valid quoted-literal body that decodes back to the value's string form |
| Escape.EscapeArg | db.class.php:473-476 | floats pass through untouched; every other argument becomes its escaped string |
| Escape.EscapeAll | db.class.php:450-463 | escaping a list of scalars keeps its length and escapes each element in place |
| Escape.EscapeAllConcat | db.class.php:450-463 | escaping a concatenation of lists is the concatenation of the escaped lists |
| Escape.EscapeData | db.class.php:450-463 | a scalar becomes its escaped string; an array keeps its length and, position by position, its keys, with each value escaped recursively |
| Escape.EscapeKeepsShape | db.class.php:450-463 | `_escape` keeps the nesting of arrays and their keys exactly as they were |
| Escape.EscapeEscapesLeaves | db.class.php:450-463 | the leaves of the result of `_escape`, in iteration order, are the escaped leaves of the input |
| Template.ReplaceAll | db.class.php:524-525 | `str_replace` with a replacement no longer than the pattern never lengthens the text, and with one of equal length keeps its length |
| Template.Lookbehind | db.class.php:526-527 | the look-behind replacement with a replacement of at least two characters never shortens the text, and with one of exactly two (as `%F` for `%f`) keeps its length |
| Template.Rewrite | db.class.php:524-527 | text without `%` or quotes passes the four rewrites of `prepare()` unchanged |
| Template.ReplaceSplit | db.class.php:524-525 | `str_replace` distributes over concatenation when no occurrence crosses the cut |
| Template.ReplaceAbsent | db.class.php:524-525 | `str_replace` leaves a text with no occurrence of the pattern unchanged |
| Template.LookbehindSplit | db.class.php:526-527 | the look-behind replacement distributes over a cut after a match or after a copied character |
| Template.LookbehindAbsent | db.class.php:526-527 | text without a `%` is untouched by the look-behind replacement |
| Template.RewritesBare | db.class.php:527 | a `%s` not preceded by `%` becomes `'%s'` |
| Template.KeepsEscaped | db.class.php:526-527 | an escaped `%%s` or `%%f` is left alone by both look-behind replacements |
| Template.QuotedPlaceholderIsBare | db.class.php:524-527 | a placeholder the caller already wrapped in single or double quotes is rewritten exactly as a bare one, so it is not quoted twice, when none of the three characters before the placeholder is a quote |
| Prepare.FormatArity | db.class.php:529 | for a template of documented directives, `vsprintf` yields text exactly when there are at least as many arguments as directives, and fails exactly when there are fewer |
| Prepare.ExtraArgsIgnored | db.class.php:529 | arguments beyond the directive count do not change the output |
| Prepare.Format | db.class.php:529 | `vsprintf` of a template without `%` is that template, whatever the arguments |
| Prepare.FormatPlainPrefix | db.class.php:529 | text without `%` is copied to the output verbatim |
| Prepare.EscapeArgs | db.class.php:528 | the argument list keeps its length; floats are untouched and every other argument is replaced by its escaped string |
| Prepare.Prepare | db.class.php:515-530 | a null query gives null; otherwise the result fails exactly when the rewritten template has more directives than arguments |
| Prepare.PrepareQuotedPlaceholder | db.class.php:524-527 | `'%s'` and `"%s"` in a template prepare exactly like a bare `%s`, when none of the three characters before the placeholder is a quote |
| Prepare.PlainUntouched | db.class.php:524-527 | text without `%` or quotes passes every rewrite unchanged |
| Prepare.StringArgIsQuotedLiteral | db.class.php:515-530 | a string bound to a single `%s` appears in the statement as one single-quoted literal whose body decodes back to the string |
| Prepare.IntArgSurvives | db.class.php:515-530 | a 64-bit integer bound to `%d` appears in the statement as its own decimal text |
| Statement.SkipSpace | db.class.php:743 | skipping leading `\s` removes only whitespace and stops at the first other character |
| Statement.LeadsIffMatches | db.class.php:743-748 | greedy skipping of leading whitespace finds a keyword exactly when the regular expression `^\s*(kw…)\s` matches |
| Statement.Classify | db.class.php:742-765 | DDL exactly when the DDL pattern matches; a write when only the write pattern does, an insert exactly when the insert pattern also matches; a read otherwise |
| Statement.WordsExclusive | db.class.php:743-748 | no two different keywords of the patterns match at the same place |
| Statement.LeadingWriteWord | db.class.php:745-751 | a statement led by a write keyword is a write, and an insert exactly when that keyword is INSERT or REPLACE |
| Statement.UpdateDeleteAreNotInserts | db.class.php:745-751 | UPDATE and DELETE statements are writes that are not inserts |
| Idb.Begin | db.class.php:704-713 | the start of `query()` empties the result, error and affected count, records the trimmed query, and keeps the insert id, the query count and the configuration |
| Idb.Flush | db.class.php:640-649 | `flush` clears the result, query text, error and counters of the last statement and keeps the configuration, insert id and query count |
| Idb.FlushIdempotent | db.class.php:640-649 | flushing twice is flushing once |
| Idb.Overlay | db.class.php:755-759 | the fetch loop writes the new rows over `last_result` from index 0; rows beyond them survive |
| Idb.Apply | db.class.php:742-765 | a successful statement changes only the result fields, `rows_affected` and `insert_id`, never returns false, and reports an insert exactly when it classifies as one; DDL returns `true` and keeps the counters; a write returns the affected count, records it, and takes the driver's insert id exactly when it is an INSERT or REPLACE; a read returns the selected count, sets `num_rows` to it, writes the rows over `last_result` and keeps the counters; non-reads keep the rows |
| Idb.MissResult | db.class.php:726-771 | on a ready object whose lookup misses, a statement the driver answers without error returns `true` for DDL, the affected count for a write and the selected count for a read; `rows_affected` is the affected count for a write and 0 otherwise; `insert_id` is the driver's for an INSERT or REPLACE and unchanged otherwise; a read's rows lead `last_result`, and are all of it when the lookup found nothing |
| Idb.Run | db.class.php:726-770 | execution counts the query and records the driver error; it returns false exactly on an error, and then leaves the store alone |
| Idb.Query | db.class.php:699-772 | an object that is not ready returns false and changes nothing; otherwise the query is counted and its trimmed text recorded, a hit returns the cached value, and a miss records the driver error |
| Idb.HitIgnoresDriver | db.class.php:717-721 | a cache hit never reaches the driver: any driver answer gives the same outcome |
| Idb.HitLeavesDisk | db.class.php:717-721 | a cache hit leaves the store unchanged |
| Idb.ErrorResetsInsertId | db.class.php:733-740 | a failed INSERT or REPLACE returns false and resets `insert_id` to 0; other failed statements keep it |
| Idb.RunStoresAtMostOnce | db.class.php:742-769 | execution changes the store by at most one `set` under the query's key, and reaches that `set` for every successful statement that is not an uncached insert |
| Idb.MissRuns | db.class.php:716-727 | a miss is answered by executing the statement on the flushed object after the lookup |
| Idb.MissStoresAtMostOnce | db.class.php:716-769 | after a miss the store differs from the looked-up store by at most one `set` of a snapshot |
| Idb.SinglePayloadPreserved | db.class.php:716-769 | unless the file holds a live zero-valued entry, a cache file with at most one payload still has at most one after `query()` |
| Idb.MissLeavesNoFile | db.class.php:717 | a lookup that misses on a file without a live zero-valued entry leaves no file behind |
| Idb.ZeroIsReExecuted | db.class.php:717-769 | a live cached zero is not a hit; re-execution appends a second payload after the first |
| Idb.NonReadStoredAsZero | db.class.php:742-769 | a DDL or write statement stores a snapshot with return value 0 |
| Idb.NonReadIsReExecuted | db.class.php:717-769 | a DDL or write statement is never answered from the cache on a later call |
| Idb.InsertNotStored | db.class.php:767-769 | with `cache_inserts` off, an INSERT or REPLACE leaves the store as the lookup left it |
| Idb.LookupWithin | cache.class.php:153-166 | the cache lookup only ever removes files |
| Idb.InsertNeverWrites | db.class.php:742-769 | with `cache_inserts` off, an INSERT or REPLACE creates or changes no file |
| Idb.UpdateDeleteStored | db.class.php:745-769 | a successful UPDATE or DELETE is cached even with `cache_inserts` off |
| Idb.DbVersion | db.class.php:1253-1255 | the version is the longest prefix of the server string made of digits and dots |
| Idb.DbVersionIdempotent | db.class.php:1253-1255 | cutting a version number again changes nothing |
| Idb.CharsetCollate | db.class.php:1190-1199 | the text is empty exactly when neither setting is set; it starts with the charset clause exactly when the charset is set, and ends with the collate clause whenever the collation is set; its length is exactly the sum of the clauses present, so nothing lies between or around them |
| Writes.FormatFor | db.class.php:841-847 | with formats given, a column gets one of them: its own when that is truthy, the first otherwise; without formats it gets its `field_types` entry when there is one, else `%s` |
| Writes.AsArray | db.class.php:838 | `(array)` of null is empty, of a string the one-element list |
| Writes.SelectFormats | db.class.php:838-849 | the loop picks, for each column, the caller's format at its position, falling back to the first format when that one is missing or empty; without formats it picks `field_types`, then `%s` |
| Writes.OneFormatForAll | db.class.php:838-849 | a single format string applies to every column |
| Writes.Submit | db.class.php:851 | `query(prepare(...))`: a prepared statement is run, and a failed `prepare` runs the empty statement |
| Writes.Insert | db.class.php:792-794 | `insert` resets `insert_id` and runs the prepared INSERT template of the data's columns and formats, or the empty statement when `prepare` fails |
| Writes.Replace | db.class.php:814-816 | `replace` does the same with a REPLACE template |
| Writes.InsertReplace | db.class.php:834-852 | a type other than INSERT or REPLACE returns false with no effect; otherwise `insert_id` is reset and the prepared template runs |
| Writes.JoinCount | db.class.php:850 | joining one-directive pieces with a plain separator gives as many directives as pieces |
| Writes.LookbehindKeepsCount | db.class.php:526-527 | the look-behind rewrites keep the number of directives of a template |
| Writes.RewriteKeepsCount | db.class.php:524-527 | `prepare`'s rewrites keep the number of directives of a template of plain text and documented directives |
| Writes.SimplePrepares | db.class.php:515-530 | such a template with exactly one argument per directive always prepares to a statement |
| Writes.PreparedHead | db.class.php:515-530 | plain text leading the template leads the prepared statement |
| Writes.InsertTemplateCount | db.class.php:850 | the INSERT/REPLACE template has one directive per column |
| Writes.Update | db.class.php:874-903 | `update` runs the prepared UPDATE template with the data values followed by the where values, or the empty statement when `prepare` fails, on the object as it is, without resetting `insert_id` |
| Writes.Delete | db.class.php:922-944 | `delete` runs the prepared DELETE template with the where values, or the empty statement when `prepare` fails |
| Writes.UpdateTemplateCount | db.class.php:901 | the UPDATE template has one directive per data column plus one per where column |
| Writes.DeleteTemplateCount | db.class.php:942 | the DELETE template has one directive per where column |
| Writes.PreparedClassifies | db.class.php:708-751 | a prepared statement led by a write keyword classifies as that write |
| Writes.InsertStatement | db.class.php:834-851 | for table and column names without `%` or quotes and formats among `%d %s %f %F`, the INSERT/REPLACE template always prepares, and the statement classifies as an insert |
| Writes.InsertRunsInsert | db.class.php:834-851 | for table and column names without `%` or quotes and formats among `%d %s %f %F`, `insert`/`replace` always reach `query()` with a prepared statement that classifies as an insert |
| Writes.UpdateStatement | db.class.php:874-902 | for table and column names without `%` or quotes and formats among `%d %s %f %F`, the UPDATE template always prepares, and the statement classifies as a non-insert write |
| Writes.UpdateRunsUpdate | db.class.php:874-903 | for table and column names without `%` or quotes and formats among `%d %s %f %F`, `update` runs a prepared statement that classifies as a non-insert write |
| Writes.DeleteRunsDelete | db.class.php:922-944 | for table and column names without `%` or quotes and formats among `%d %s %f %F`, `delete` runs a prepared statement that classifies as a non-insert write |
| Writes.InsertLeavesCache | db.class.php:834-851 | for table and column names without `%` or quotes and formats among `%d %s %f %F`, with `cache_inserts` off, `insert`/`replace` never create or change a cache file |
| Fetch.RunIfGiven | db.class.php:963-964 | a falsy query argument leaves the state alone; a truthy one runs `query()` |
| Fetch.GetVar | db.class.php:961-973 | the value is returned exactly when row `y` and column `x` exist and hold a non-empty string, and it is that cell's string |
| Fetch.KeyOf | db.class.php:1063-1064 | a row's OBJECT_K key is the text of its first column; a NULL first column or a row without columns gives the empty key |
| Fetch.FirstIndices | db.class.php:1062-1067 | the indices kept are exactly the rows whose key has not appeared before, in increasing order |
| Fetch.FirstOccurrence | db.class.php:1062-1067 | every key has a first row |
| Fetch.KeepFirstDistinct | db.class.php:1059-1068 | OBJECT_K has no duplicate keys |
| Fetch.KeepFirstComplete | db.class.php:1059-1068 | every row's key appears in OBJECT_K, mapped to the first row with that key |
| Fetch.KeepFirstSound | db.class.php:1059-1068 | every OBJECT_K entry is the first row with its key |
| Fetch.KeysUpTo | db.class.php:1065 | the key set holds exactly the keys of the rows seen so far |
| Fetch.KeyRows | db.class.php:1062-1067 | the loop with its `isset` check computes the keep-first keyed array |
| Fetch.GetResults | db.class.php:1047-1085 | a falsy query gives null with no effect; otherwise it runs the query and returns the rows as objects, as the first-key map, as column-keyed arrays or as value lists; unknown output types give null |
| Fetch.GetVarIsArrayNCell | db.class.php:961-1083 | `get_var(x, y)` is the non-empty cell at row `y`, position `x` of the ARRAY_N result of the same query |

## Left out

- The memcache and memcached backends are left out, and so is the disk backend's `flush` (`shell_exec("rm …")`). Both are processes outside PHP.
- The driver itself is a value per executed statement: `mysql_query`, `mysql_error`, `mysql_fetch_object`, `mysql_affected_rows` and `mysql_insert_id`. Connection handling is left out: the constructor, `db_connect`, `select`, `set_charset`, `init_cache` and `init_charset`.
- Error reporting and debugging helpers have no effect on the modelled state. These are `print_error`, `bail`, `show_errors`, `hide_errors`, `suppress_errors`, the timers, `SAVEQUERIES`, `get_caller` and `func_call`.
- `has_cap` is left out: it compares version strings with `version_compare`, which is not modelled. `db_version` is modelled.
- `get_row`, `get_col` and `get_col_info` are left out; `get_var` and `get_results` are modelled.
- The `__get` magic getter is modelled only for `col_info`, which `store_cache` reads (`Cache.LoadColInfo`).
- `prepare` always receives its arguments as one array, the `vsprintf` form. The `sprintf`-style variadic call is a calling convention only.
- The `is_array` guards of `update` and `delete` are left out, because the model's data and where lists are always arrays.
- `vsprintf` directives outside `%d %s %f %F %%`, and a trailing lone `%`, give `Undetermined`. Flags, widths, precision and argument numbering are not modelled.
- The text produced for `%f`/`%F` and for a float passed to `%s` is the runtime's `floatToString`/`fixedPoint`, and a string read by `%f` is `stringToFloat`. Floating-point formatting is not modelled. `%f` and `%F` are both rendered with `fixedPoint`, so the locale-aware rendering of `%f`, which survives in `%%%f`, is not told apart from `%F`.
- `mysql_real_escape_string` is the runtime's `mysqlEscape`. The quoted-literal properties are proved for the unconnected path (`addslashes`).
- Cache.ResolveTtl: the TTL is an integer number of seconds; the `(float)` cast of cache.class.php:130 is not modelled.
- `serialize` throwing, failed file writes, directory permissions and concurrent writers are left out. Decoding a file that holds several appended payloads is left open: the model assumes nothing about it.
- Writes.InsertStatement: proved only for table and column names free of `%` and quotes, with formats among `%d %s %f %F`. The code interpolates names unescaped, so other names can add directives.
- Writes.InsertRunsInsert: proved only for table and column names free of `%` and quotes, with formats among `%d %s %f %F`. The code interpolates names unescaped, so other names can add directives.
- Writes.UpdateStatement: proved only for table and column names free of `%` and quotes, with formats among `%d %s %f %F`. The code interpolates names unescaped, so other names can add directives.
- Writes.UpdateRunsUpdate: proved only for table and column names free of `%` and quotes, with formats among `%d %s %f %F`. The code interpolates names unescaped, so other names can add directives.
- Writes.DeleteRunsDelete: proved only for table and column names free of `%` and quotes, with formats among `%d %s %f %F`. The code interpolates names unescaped, so other names can add directives.
- Writes.InsertLeavesCache: proved only for table and column names free of `%` and quotes, with formats among `%d %s %f %F`. The code interpolates names unescaped, so other names can add directives.
- Fetch.GetResults: OBJECT_K keys are kept as strings; PHP's conversion of numeric-string array keys to integers is not modelled. Duplicate column names within a row are not modelled.
- Fetch.GetVar: the PHP 5 `empty()` test on a row object is treated as "the row exists".
- Idb.Apply: a DDL statement returns the driver's `true` (`RetTrue`), standing for the result resource.
- Prepare.Prepare: its contract fixes when `prepare` fails or leaves the model, not the text it produces. The text is stated by Prepare.StringArgIsQuotedLiteral and Prepare.IntArgSurvives for one-directive templates, and by Writes.SimplePrepares for templates of documented directives.
- Php.StrToInt: integers outside the 64-bit range are unbounded in the model; only `strtol`'s saturation when reading digits is modelled.
