/**
 * The byte layout of an SSTable file and what the reader makes of it, as pure
 * functions. A file is a sequence of records
 *
 *   '\0' token '\1' rowkey '\2' column column ... '\n'
 *   column = name '\3' createTime '\3' time '\3' ttl '\3' value
 *
 * where the three numbers are decimal text. The writer never emits the
 * column separator '\4' (its `first` flag is never cleared), while the reader
 * still stops a value at '\4' or '\n'.
 *
 * The reader's functions work on the unread rest of the file: each returns
 * what it read together with the bytes still to be read, so the cursor of the
 * imperative reader is the length of the file minus the length of that rest.
 */
module SSTableFormat {
  import opened Wrappers
  import opened Primitives
  import opened Memtable
  import Decimal

  const START_RECORD: byte := 0
  const END_TOKEN: byte := 1
  const END_ROWKEY: byte := 2
  const END_COLUMN_PART: byte := 3
  const END_COLUMN: byte := 4
  /** '\n', which closes every record. */
  const END_RECORD: byte := 10

  datatype Error =
    | Corrupt(got: byte)             // the record does not start with '\0'
    | EndOfData                      // a scan ran past the last byte of the file
    | NumberFormat(input: seq<byte>) // `Long.parseLong` refused a numeric field

  // ---------------------------------------------------------------- writer

  /** A column: name, createTime, time and ttl, each followed by '\3', then the value; so it starts with its name and '\3' and ends with its value. */
  function EncodeColumn(c: Column): (r: seq<byte>)
    ensures |c.name| < |r| && r[..|c.name|] == c.name && r[|c.name|] == END_COLUMN_PART
    ensures |c.val.value| <= |r| && r[|r| - |c.val.value|..] == c.val.value
  {
    c.name + [END_COLUMN_PART]
    + Decimal.ValueOf(c.val.createTime) + [END_COLUMN_PART]
    + Decimal.ValueOf(c.val.time) + [END_COLUMN_PART]
    + Decimal.ValueOf(c.val.ttl) + [END_COLUMN_PART]
    + c.val.value
  }

  /** The columns of a row back to back: no separator is ever written between them. */
  function EncodeColumns(cs: seq<Column>): (r: seq<byte>)
    ensures (|r| == 0) == (|cs| == 0)
    ensures |cs| > 0 ==> |cs[0].name| < |r| && r[..|cs[0].name|] == cs[0].name && r[|cs[0].name|] == END_COLUMN_PART
  {
    if |cs| == 0 then [] else EncodeColumn(cs[0]) + EncodeColumns(cs[1..])
  }

  /** A record: '\0', token, '\1', row key, '\2', the columns, '\n'; so it is longer than its token and starts with '\0' and ends with '\n'. */
  function EncodeRow(r: Row): (b: seq<byte>)
    ensures |r.key.token| + 2 < |b| && b[0] == START_RECORD && b[|b| - 1] == END_RECORD
  {
    [START_RECORD] + r.key.token + [END_TOKEN] + r.key.rowkey + [END_ROWKEY]
    + EncodeColumns(r.columns) + [END_RECORD]
  }

  function EncodeRows(rows: seq<Row>): (b: seq<byte>)
    ensures (|b| == 0) == (|rows| == 0)
  {
    if |rows| == 0 then [] else EncodeRow(rows[0]) + EncodeRows(rows[1..])
  }

  /** The file `flushToDisk` writes for a Memtable: one record per entry, in iteration order. */
  function Flush(m: Memtable): (file: seq<byte>)
    ensures (|file| == 0) == (|m.rows| == 0)
  {
    EncodeRows(m.rows)
  }

  // ---------------------------------------------------------------- reader

  /** What a scan read, and the unread rest of the file after it. */
  datatype Scan = Scan(text: seq<byte>, rest: seq<byte>)

  /** The index of the first byte of `s` that is one of `stops`, if there is one. */
  function FirstOf(s: seq<byte>, stops: set<byte>): (r: Option<nat>)
    ensures r.Some? ==> r.value < |s| && s[r.value] in stops
    ensures r.Some? ==> forall k :: 0 <= k < r.value ==> s[k] !in stops
    ensures r.None? ==> forall k :: 0 <= k < |s| ==> s[k] !in stops
  {
    if |s| == 0 then None
    else if s[0] in stops then Some(0)
    else match FirstOf(s[1..], stops)
      case None => None
      case Some(k) => Some(k + 1)
  }

  /** `readHeader`: the record must start with '\0', which is consumed. */
  function ScanHeader(s: seq<byte>): (r: Result<seq<byte>, Error>)
    ensures r.Ok? <==> |s| > 0 && s[0] == START_RECORD
    ensures r.Ok? ==> s == [START_RECORD] + r.value
    ensures |s| > 0 && s[0] != START_RECORD ==> r == Err(Corrupt(s[0]))
  {
    if |s| == 0 then Err(EndOfData)
    else if s[0] != START_RECORD then Err(Corrupt(s[0]))
    else Ok(s[1..])
  }

  /** `readToken`, `readRowkey`, `readColumn`: the bytes before the first `stop`, which is consumed. */
  function ScanThrough(s: seq<byte>, stop: byte): (r: Result<Scan, Error>)
    ensures r.Ok? ==> s == r.value.text + [stop] + r.value.rest && stop !in r.value.text
    ensures r.Err? ==> r.error == EndOfData && stop !in s
  {
    match FirstOf(s, {stop})
    case Some(k) =>
      assert s == s[..k] + [stop] + s[k + 1..];
      Ok(Scan(s[..k], s[k + 1..]))
    case None => Err(EndOfData)
  }

  /** `endColumn`: the bytes before the first '\4' or '\n', which is left unread. */
  function ScanValue(s: seq<byte>): (r: Result<Scan, Error>)
    ensures r.Ok? ==> s == r.value.text + r.value.rest
    ensures r.Ok? ==> |r.value.rest| > 0 && r.value.rest[0] in {END_COLUMN, END_RECORD}
    ensures r.Ok? ==> END_COLUMN !in r.value.text && END_RECORD !in r.value.text
    ensures r.Err? ==> r.error == EndOfData && END_COLUMN !in s && END_RECORD !in s
  {
    match FirstOf(s, {END_COLUMN, END_RECORD})
    case Some(k) =>
      assert s == s[..k] + s[k..];
      Ok(Scan(s[..k], s[k..]))
    case None => Err(EndOfData)
  }

  /** `Long.parseLong` on a numeric field. */
  function ParseLongField(text: seq<byte>): (r: Result<Long, Error>)
    ensures r.Err? ==> r.error == NumberFormat(text)
  {
    match Decimal.ParseLong(text)
    case Some(v) => Ok(v)
    case None => Err(NumberFormat(text))
  }

  /** A column name the reader can return: it has no '\3'. */
  predicate ReadableName(name: seq<byte>) {
    END_COLUMN_PART !in name
  }

  /** A value the reader can return: it has no '\4' and no '\n'. */
  predicate ReadableValue(value: seq<byte>) {
    END_COLUMN !in value && END_RECORD !in value
  }

  datatype ColumnScan = ColumnScan(column: Column, rest: seq<byte>)

  /**
   * One pass of `readColumns`' loop body: four '\3'-terminated fields, then the
   * value; the numbers are parsed in the order the `Val` constructor's
   * arguments are evaluated (time, then createTime, then ttl).
   */
  function ScanColumn(s: seq<byte>): (r: Result<ColumnScan, Error>)
    ensures r.Ok? ==> |r.value.rest| < |s| && |r.value.rest| > 0
    ensures r.Ok? ==> r.value.rest[0] in {END_COLUMN, END_RECORD}
    ensures r.Ok? ==> ReadableName(r.value.column.name) && ReadableValue(r.value.column.val.value)
  {
    var name :- ScanThrough(s, END_COLUMN_PART);
    var create :- ScanThrough(name.rest, END_COLUMN_PART);
    var time :- ScanThrough(create.rest, END_COLUMN_PART);
    var ttl :- ScanThrough(time.rest, END_COLUMN_PART);
    var value :- ScanValue(ttl.rest);
    var t :- ParseLongField(time.text);
    var c :- ParseLongField(create.text);
    var l :- ParseLongField(ttl.text);
    Ok(ColumnScan(Column(name.text, Val(value.text, t, c, l)), value.rest))
  }

  datatype ColumnsScan = ColumnsScan(columns: seq<Column>, rest: seq<byte>)

  /** The columns `readColumns` parses, in order: at least one, until the cursor is on '\n'. */
  function ScanColumns(s: seq<byte>): (r: Result<ColumnsScan, Error>)
    ensures r.Ok? ==> |r.value.columns| > 0 && |r.value.rest| > 0 && r.value.rest[0] == END_RECORD
    ensures r.Ok? ==> |r.value.rest| < |s|
    ensures r.Ok? ==> forall i :: 0 <= i < |r.value.columns| ==>
                        ReadableName(r.value.columns[i].name) && ReadableValue(r.value.columns[i].val.value)
    decreases |s|
  {
    var first :- ScanColumn(s);
    if first.rest[0] == END_RECORD then Ok(ColumnsScan([first.column], first.rest))
    else
      var more :- ScanColumns(first.rest);
      Ok(ColumnsScan([first.column] + more.columns, more.rest))
  }

  /** The `TreeMap` that `readColumns` fills: a later column with the same name replaces an earlier one. */
  function ColumnMap(cs: seq<Column>): (m: map<seq<byte>, Val>)
    ensures forall i :: 0 <= i < |cs| ==> cs[i].name in m
  {
    if |cs| == 0 then map[]
    else ColumnMap(cs[..|cs| - 1])[cs[|cs| - 1].name := cs[|cs| - 1].val]
  }

  /** Every key of the map holds the Val of some column with that name: `i` is one. */
  lemma {:induction false} ColumnMapFrom(cs: seq<Column>, k: seq<byte>) returns (i: nat)
    requires k in ColumnMap(cs)
    ensures i < |cs| && cs[i].name == k && ColumnMap(cs)[k] == cs[i].val
  {
    var n := |cs| - 1;
    if cs[n].name == k {
      i := n;
    } else {
      i := ColumnMapFrom(cs[..n], k);
    }
  }

  datatype Record = Record(token: seq<byte>, rowkey: seq<byte>, columns: map<seq<byte>, Val>, rest: seq<byte>)

  /** Header, token, row key and columns of the record at the start of `s`; the closing '\n' is left unread. */
  function ScanRecord(s: seq<byte>): (r: Result<Record, Error>)
    ensures |s| > 0 && s[0] != START_RECORD ==> r == Err(Corrupt(s[0]))
    ensures r.Ok? ==> |s| > 0 && s[0] == START_RECORD
    ensures r.Ok? ==> END_TOKEN !in r.value.token && END_ROWKEY !in r.value.rowkey
    ensures r.Ok? ==> |r.value.rest| > 0 && r.value.rest[0] == END_RECORD && |r.value.rest| < |s|
  {
    var afterHeader :- ScanHeader(s);
    var token :- ScanThrough(afterHeader, END_TOKEN);
    var rowkey :- ScanThrough(token.rest, END_ROWKEY);
    var columns :- ScanColumns(rowkey.rest);
    Ok(Record(token.text, rowkey.text, ColumnMap(columns.columns), columns.rest))
  }

  /** What `get(row, column)` returns on a file: the column of the FIRST record, whatever `row` is. */
  function Lookup(file: seq<byte>, column: seq<byte>): (r: Result<Option<Val>, Error>)
    ensures |file| == 0 ==> r == Err(EndOfData)
    ensures |file| > 0 && file[0] != START_RECORD ==> r == Err(Corrupt(file[0]))
  {
    var record :- ScanRecord(file);
    Ok(if column in record.columns then Some(record.columns[column]) else None)
  }
}
