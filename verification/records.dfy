/**
  The records shared by the database object and its cache: column metadata,
  rows as the driver hands them over, the snapshot the cache stores, and the
  result-holding fields of the database object that the cache reads and
  restores.
 */
module Records {
  import opened Php

  /** Column metadata as `mysql_fetch_field` reports it. */
  datatype Column = Column(name: string, table: string, sqlType: string, maxLength: int, notNull: bool)

  /** A cell of a fetched row: MySQL hands back NULL or text. */
  datatype Cell = NullCell | Text(s: string)

  datatype Field = Field(name: string, value: Cell)

  /** A row object from `mysql_fetch_object`: its properties in column order. */
  datatype Row = Row(fields: seq<Field>)

  /**
    The snapshot `store_cache` writes: the fields `col_info`, `last_result`,
    `num_rows`, `return_value` and `expire_at` of the cached array.
    `expireAt == 0` is the value `empty()` accepts, which never expires.
   */
  datatype Entry = Entry(
    colInfo: Option<seq<Column>>,
    lastResult: seq<Row>,
    numRows: int,
    returnValue: int,
    expireAt: int)

  /**
    A value as the disk backend stores and reads it back: one of PHP's
    falsy values (what `empty()` accepts and what a failed `unserialize`
    yields), or a snapshot array, which is never empty.
   */
  datatype Value = Falsy | Snapshot(entry: Entry)

  /**
    The result-holding fields of the database object.
    `resultColumns` stands for the columns of the driver's last result
    handle, from which `col_info` is loaded lazily.
   */
  datatype Results = Results(
    lastResult: seq<Row>,
    colInfo: Option<seq<Column>>,
    resultColumns: seq<Column>,
    numRows: int)

  /** PHP truthiness of `col_info`: null and the empty array are falsy. */
  predicate HasColInfo(r: Results) {
    r.colInfo.Some? && |r.colInfo.value| > 0
  }
}
