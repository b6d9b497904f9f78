/**
 * What the SSTable writer and reader promise about each other: the layout of
 * a flushed file, which Memtables survive a flush-then-get round trip, and
 * the consequences of the missing column separator and of `get` stopping
 * after the first record.
 */
module SSTableProperties {
  import opened Wrappers
  import opened Primitives
  import opened Memtable
  import opened SSTableFormat
  import Decimal

  // ---------------------------------------------------------------- layout

  /** Concatenation regroups; the layout proofs line pieces up with it instead of comparing bytes. */
  lemma AppendAssoc(a: seq<byte>, b: seq<byte>, c: seq<byte>)
    ensures a + b + c == a + (b + c)
  {
  }

  /** A field and its stop byte move from the end of the bytes before them to the front of the bytes after them. */
  lemma Regroup(p: seq<byte>, field: seq<byte>, stop: seq<byte>, s: seq<byte>)
    ensures p + field + stop + s == p + (field + stop + s)
  {
    AppendAssoc(p + field, stop, s);
    AppendAssoc(p, field, stop + s);
    AppendAssoc(field, stop, s);
  }

  lemma {:induction false} EncodeColumnsSnoc(cs: seq<Column>, c: Column)
    ensures EncodeColumns(cs + [c]) == EncodeColumns(cs) + EncodeColumn(c)
    decreases |cs|
  {
    if |cs| == 0 {
      assert [c][1..] == [];
    } else {
      assert (cs + [c])[0] == cs[0];
      assert (cs + [c])[1..] == cs[1..] + [c];
      EncodeColumnsSnoc(cs[1..], c);
      AppendAssoc(EncodeColumn(cs[0]), EncodeColumns(cs[1..]), EncodeColumn(c));
    }
  }

  lemma {:induction false} EncodeRowsAppend(a: seq<Row>, b: seq<Row>)
    ensures EncodeRows(a + b) == EncodeRows(a) + EncodeRows(b)
    decreases |a|
  {
    if |a| == 0 {
      assert a + b == b;
    } else {
      assert (a + b)[0] == a[0];
      assert (a + b)[1..] == a[1..] + b;
      EncodeRowsAppend(a[1..], b);
      AppendAssoc(EncodeRow(a[0]), EncodeRows(a[1..]), EncodeRows(b));
    }
  }

  /** A non-empty run of entries is written as its first record followed by the rest. */
  lemma RowsCons(rows: seq<Row>)
    requires |rows| > 0
    ensures EncodeRows(rows) == EncodeRow(rows[0]) + EncodeRows(rows[1..])
  {
  }

  /** The i-th record of a flushed file is the i-th Memtable entry's, after the records of all earlier entries. */
  lemma FlushRecordAt(m: Memtable, i: nat)
    requires i < |m.rows|
    ensures Flush(m) == EncodeRows(m.rows[..i]) + EncodeRow(m.rows[i]) + EncodeRows(m.rows[i + 1..])
  {
    var before, tail := m.rows[..i], m.rows[i..];
    assert m.rows == before + tail;
    EncodeRowsAppend(before, tail);
    RowsCons(tail);
    assert tail[0] == m.rows[i] && tail[1..] == m.rows[i + 1..];
    AppendAssoc(EncodeRows(before), EncodeRow(m.rows[i]), EncodeRows(m.rows[i + 1..]));
  }

  /** The k-th entry's record occupies the bytes of a flushed file that follow the records of the entries before it. */
  lemma RecordSlice(m: Memtable, k: nat)
    requires k < |m.rows|
    ensures var start := |EncodeRows(m.rows[..k])|;
            && start + |EncodeRow(m.rows[k])| <= |Flush(m)|
            && Flush(m)[start..start + |EncodeRow(m.rows[k])|] == EncodeRow(m.rows[k])
  {
    FlushRecordAt(m, k);
  }

  /**
   * A flushed file lists the records in the Memtable's iteration order, which for
   * a sorted Memtable is ascending token order: a later entry has a greater,
   * different token, and its record starts after the earlier entry's record ends.
   */
  lemma FlushInTokenOrder(m: Memtable, i: nat, j: nat)
    requires Sorted(m) && i < j < |m.rows|
    ensures TokenLess(m.rows[i].key, m.rows[j].key) && m.rows[i].key != m.rows[j].key
    ensures |EncodeRows(m.rows[..i])| + |EncodeRow(m.rows[i])| <= |EncodeRows(m.rows[..j])|
    ensures var start := |EncodeRows(m.rows[..j])|;
            && start + |EncodeRow(m.rows[j])| <= |Flush(m)|
            && Flush(m)[start..start + |EncodeRow(m.rows[j])|] == EncodeRow(m.rows[j])
  {
    SortedRowsAscend(m, i, j);
    var before, between := m.rows[..i], m.rows[i..j];
    assert m.rows[..j] == before + between;
    EncodeRowsAppend(before, between);
    RowsCons(between);
    assert between[0] == m.rows[i];
    RecordSlice(m, j);
  }

  /** A byte that decimal text never holds: neither '-' nor a digit (every sentinel is one). */
  predicate NotNumeric(b: byte) {
    b != Decimal.MINUS && !Decimal.IsDigit(b)
  }

  predicate ColumnsAvoid(cs: seq<Column>, b: byte) {
    forall i :: 0 <= i < |cs| ==> b !in cs[i].name && b !in cs[i].val.value
  }

  predicate RowAvoids(r: Row, b: byte) {
    b !in r.key.token && b !in r.key.rowkey && ColumnsAvoid(r.columns, b)
  }

  predicate RowsAvoid(rows: seq<Row>, b: byte) {
    forall i :: 0 <= i < |rows| ==> RowAvoids(rows[i], b)
  }

  predicate MemtableAvoids(m: Memtable, b: byte) {
    RowsAvoid(m.rows, b)
  }

  lemma ValueOfAvoids(n: Long, b: byte)
    requires NotNumeric(b)
    ensures b !in Decimal.ValueOf(n)
  {
  }

  lemma {:induction false} EncodeColumnsAvoid(cs: seq<Column>, b: byte)
    requires NotNumeric(b) && b != END_COLUMN_PART
    requires ColumnsAvoid(cs, b)
    ensures b !in EncodeColumns(cs)
    decreases |cs|
  {
    if |cs| > 0 {
      var c := cs[0];
      ValueOfAvoids(c.val.createTime, b);
      ValueOfAvoids(c.val.time, b);
      ValueOfAvoids(c.val.ttl, b);
      EncodeColumnsAvoid(cs[1..], b);
    }
  }

  /** A byte that no entry holds is held by no entry after the first either. */
  lemma TailAvoids(rows: seq<Row>, b: byte)
    requires |rows| > 0 && RowsAvoid(rows, b)
    ensures RowAvoids(rows[0], b) && RowsAvoid(rows[1..], b)
  {
    assert forall i :: 0 <= i < |rows| - 1 ==> rows[1..][i] == rows[i + 1];
  }

  lemma EncodeRowAvoids(r: Row, b: byte)
    requires b == END_COLUMN
    requires RowAvoids(r, b)
    ensures b !in EncodeRow(r)
  {
    EncodeColumnsAvoid(r.columns, b);
    var head := [START_RECORD] + r.key.token + [END_TOKEN] + r.key.rowkey + [END_ROWKEY];
    assert b !in head;
    assert EncodeRow(r) == head + EncodeColumns(r.columns) + [END_RECORD];
  }

  lemma {:induction false} EncodeRowsAvoid(rows: seq<Row>, b: byte)
    requires b == END_COLUMN
    requires RowsAvoid(rows, b)
    ensures b !in EncodeRows(rows)
    decreases |rows|
  {
    if |rows| > 0 {
      TailAvoids(rows, b);
      EncodeRowAvoids(rows[0], b);
      EncodeRowsAvoid(rows[1..], b);
    }
  }

  /**
   * The column separator '\4' is never written: a flushed file holds one only
   * where a token, row key, column name or value itself holds one.
   */
  lemma NoColumnSeparatorWritten(m: Memtable)
    requires MemtableAvoids(m, END_COLUMN)
    ensures END_COLUMN !in Flush(m)
  {
    EncodeRowsAvoid(m.rows, END_COLUMN);
  }

  lemma RecordBytesCount(token: seq<byte>, rowkey: seq<byte>, cols: seq<byte>, b: byte)
    requires b == START_RECORD || b == END_RECORD
    requires b !in token && b !in rowkey && b !in cols
    ensures multiset([START_RECORD] + token + [END_TOKEN] + rowkey + [END_ROWKEY] + cols + [END_RECORD])[b] == 1
  {
  }

  lemma RowRecordCount(r: Row, b: byte)
    requires b == START_RECORD || b == END_RECORD
    requires RowAvoids(r, b)
    ensures multiset(EncodeRow(r))[b] == 1
  {
    EncodeColumnsAvoid(r.columns, b);
    RecordBytesCount(r.key.token, r.key.rowkey, EncodeColumns(r.columns), b);
  }

  /** Occurrences of a byte add up over a concatenation. */
  lemma CountAppend(a: seq<byte>, c: seq<byte>, b: byte)
    ensures multiset(a + c)[b] == multiset(a)[b] + multiset(c)[b]
  {
  }

  lemma {:induction false} RecordCount(rows: seq<Row>, b: byte)
    requires b == START_RECORD || b == END_RECORD
    requires RowsAvoid(rows, b)
    ensures multiset(EncodeRows(rows))[b] == |rows|
    decreases |rows|
  {
    if |rows| > 0 {
      RowsCountCons(rows, b);
      TailAvoids(rows, b);
      RowRecordCount(rows[0], b);
      RecordCount(rows[1..], b);
    }
  }

  /** The count of a byte in a flushed run splits into its first record and the rest. */
  lemma RowsCountCons(rows: seq<Row>, b: byte)
    requires |rows| > 0
    ensures multiset(EncodeRows(rows))[b] == multiset(EncodeRow(rows[0]))[b] + multiset(EncodeRows(rows[1..]))[b]
  {
    CountAppend(EncodeRow(rows[0]), EncodeRows(rows[1..]), b);
  }

  /** With no '\0' or '\n' in its fields, a flushed file holds exactly one record start and one record end per Memtable entry. */
  lemma OneRecordPerRow(m: Memtable)
    requires MemtableAvoids(m, START_RECORD) && MemtableAvoids(m, END_RECORD)
    ensures multiset(Flush(m))[START_RECORD] == |m.rows|
    ensures multiset(Flush(m))[END_RECORD] == |m.rows|
  {
    RecordCount(m.rows, START_RECORD);
    RecordCount(m.rows, END_RECORD);
  }

  // ---------------------------------------------------------------- reader

  lemma FirstOfAt(s: seq<byte>, stops: set<byte>, k: nat)
    requires k < |s| && s[k] in stops
    requires forall j :: 0 <= j < k ==> s[j] !in stops
    ensures FirstOf(s, stops) == Some(k)
  {
  }

  /** `readToken`/`readRowkey`/`readColumn` read back a field that lacks their terminator, and stop right after it. */
  lemma ScanThroughOver(text: seq<byte>, stop: byte, rest: seq<byte>)
    requires stop !in text
    ensures ScanThrough(text + [stop] + rest, stop) == Ok(Scan(text, rest))
  {
    var s := text + [stop] + rest;
    FirstOfAt(s, {stop}, |text|);
    assert s[..|text|] == text;
    assert s[|text| + 1..] == rest;
  }

  /** `endColumn` reads back a value that lacks '\4' and '\n', and leaves the stop byte after it unread. */
  lemma ScanValueOver(text: seq<byte>, rest: seq<byte>)
    requires ReadableValue(text)
    requires |rest| > 0 && rest[0] in {END_COLUMN, END_RECORD}
    ensures ScanValue(text + rest) == Ok(Scan(text, rest))
  {
    var s := text + rest;
    FirstOfAt(s, {END_COLUMN, END_RECORD}, |text|);
    assert s[..|text|] == text;
    assert s[|text|..] == rest;
  }

  /** The bytes of a column followed by `rest`, regrouped as the reader meets them: field, stop byte, remainder. */
  lemma EncodeColumnThen(c: Column, rest: seq<byte>)
    ensures var ct, tt, lt := Decimal.ValueOf(c.val.createTime), Decimal.ValueOf(c.val.time), Decimal.ValueOf(c.val.ttl);
            EncodeColumn(c) + rest
            == c.name + [END_COLUMN_PART] + (ct + [END_COLUMN_PART] + (tt + [END_COLUMN_PART] + (lt + [END_COLUMN_PART] + (c.val.value + rest))))
  {
    var ct, tt, lt := Decimal.ValueOf(c.val.createTime), Decimal.ValueOf(c.val.time), Decimal.ValueOf(c.val.ttl);
    var sep := [END_COLUMN_PART];
    var x1 := c.name + sep;
    var x3 := x1 + ct + sep;
    var x5 := x3 + tt + sep;
    var x7 := x5 + lt + sep;
    var s4 := c.val.value + rest;
    var s3 := lt + sep + s4;
    var s2 := tt + sep + s3;
    var s1 := ct + sep + s2;
    AppendAssoc(x7, c.val.value, rest);
    Regroup(x5, lt, sep, s4);
    Regroup(x3, tt, sep, s3);
    Regroup(x1, ct, sep, s2);
  }

  /** One column as the writer lays it out is parsed back to the same name and Val. */
  lemma ScanColumnOver(c: Column, rest: seq<byte>)
    requires ReadableName(c.name) && ReadableValue(c.val.value)
    requires |rest| > 0 && rest[0] in {END_COLUMN, END_RECORD}
    ensures ScanColumn(EncodeColumn(c) + rest) == Ok(ColumnScan(c, rest))
  {
    var ct := Decimal.ValueOf(c.val.createTime);
    var tt := Decimal.ValueOf(c.val.time);
    var lt := Decimal.ValueOf(c.val.ttl);
    ValueOfAvoids(c.val.createTime, END_COLUMN_PART);
    ValueOfAvoids(c.val.time, END_COLUMN_PART);
    ValueOfAvoids(c.val.ttl, END_COLUMN_PART);
    var s4 := c.val.value + rest;
    var s3 := lt + [END_COLUMN_PART] + s4;
    var s2 := tt + [END_COLUMN_PART] + s3;
    var s1 := ct + [END_COLUMN_PART] + s2;
    var s := EncodeColumn(c) + rest;
    EncodeColumnThen(c, rest);
    ScanThroughOver(c.name, END_COLUMN_PART, s1);
    ScanThroughOver(ct, END_COLUMN_PART, s2);
    ScanThroughOver(tt, END_COLUMN_PART, s3);
    ScanThroughOver(lt, END_COLUMN_PART, s4);
    ScanValueOver(c.val.value, rest);
    Decimal.ParseLongValueOf(c.val.createTime);
    Decimal.ParseLongValueOf(c.val.time);
    Decimal.ParseLongValueOf(c.val.ttl);
    assert ParseLongField(tt) == Ok(c.val.time);
    assert ParseLongField(ct) == Ok(c.val.createTime);
    assert ParseLongField(lt) == Ok(c.val.ttl);
  }

  /** `TreeMap.put` semantics: the last column parsed with a given name is the one kept. */
  lemma {:induction false} ColumnMapLastWins(cs: seq<Column>, i: nat)
    requires i < |cs|
    requires forall j :: i < j < |cs| ==> cs[j].name != cs[i].name
    ensures cs[i].name in ColumnMap(cs) && ColumnMap(cs)[cs[i].name] == cs[i].val
    decreases |cs|
  {
    if i < |cs| - 1 {
      var init := cs[..|cs| - 1];
      assert init[i] == cs[i];
      ColumnMapLastWins(init, i);
    }
  }

  /** A column followed by more bytes is laid out like the same column with those bytes run onto its value. */
  lemma EncodeColumnRunOn(c: Column, tail: seq<byte>)
    ensures EncodeColumn(c) + tail == EncodeColumn(Column(c.name, c.val.(value := c.val.value + tail)))
  {
    var sep := [END_COLUMN_PART];
    AppendAssoc(c.name + sep + Decimal.ValueOf(c.val.createTime) + sep + Decimal.ValueOf(c.val.time) + sep
                + Decimal.ValueOf(c.val.ttl) + sep, c.val.value, tail);
  }

  /** The first column of a row, with the bytes of all later columns run onto its value. */
  function RunTogether(cs: seq<Column>): Column
    requires |cs| > 0
  {
    Column(cs[0].name, cs[0].val.(value := cs[0].val.value + EncodeColumns(cs[1..])))
  }

  /** A record's bytes followed by `q`, regrouped as the reader meets them: field, stop byte, remainder. */
  lemma RecordThen(token: seq<byte>, rowkey: seq<byte>, body: seq<byte>, q: seq<byte>)
    ensures [START_RECORD] + token + [END_TOKEN] + rowkey + [END_ROWKEY] + body + q
            == [START_RECORD] + (token + [END_TOKEN] + (rowkey + [END_ROWKEY] + (body + q)))
  {
    var p1 := [START_RECORD] + token + [END_TOKEN];
    var p2 := p1 + rowkey + [END_ROWKEY];
    assert p2 + body + q == p2 + (body + q);
    assert p2 + (body + q) == p1 + (rowkey + [END_ROWKEY] + (body + q));
    assert p1 + (rowkey + [END_ROWKEY] + (body + q))
        == [START_RECORD] + (token + [END_TOKEN] + (rowkey + [END_ROWKEY] + (body + q)));
  }

  /** The columns of a record that end in one column are read back as that single column. */
  lemma ScanColumnsOne(c: Column, q: seq<byte>)
    requires ReadableName(c.name) && ReadableValue(c.val.value)
    requires |q| > 0 && q[0] == END_RECORD
    ensures ScanColumns(EncodeColumn(c) + q) == Ok(ColumnsScan([c], q))
  {
    ScanColumnOver(c, q);
  }

  /** A record whose last bytes are one column is read back as a record with that single column. */
  lemma ScanRecordOver(token: seq<byte>, rowkey: seq<byte>, c: Column, q: seq<byte>)
    requires END_TOKEN !in token && END_ROWKEY !in rowkey
    requires ReadableName(c.name) && ReadableValue(c.val.value)
    requires |q| > 0 && q[0] == END_RECORD
    ensures ScanRecord([START_RECORD] + token + [END_TOKEN] + rowkey + [END_ROWKEY] + EncodeColumn(c) + q)
            == Ok(Record(token, rowkey, map[c.name := c.val], q))
  {
    var s3 := EncodeColumn(c) + q;
    var s2 := rowkey + [END_ROWKEY] + s3;
    var s1 := token + [END_TOKEN] + s2;
    RecordThen(token, rowkey, EncodeColumn(c), q);
    assert ScanHeader([START_RECORD] + s1) == Ok(s1);
    ScanThroughOver(token, END_TOKEN, s2);
    ScanThroughOver(rowkey, END_ROWKEY, s3);
    ScanColumnsOne(c, q);
    assert [c][..0] == [];
    assert ColumnMap([c]) == map[c.name := c.val];
  }

  /**
   * What `get` makes of a flushed file: the first entry's columns are read as
   * ONE column, named like the first, whose value runs on through the bytes of
   * all later columns (no separator was written), and later entries are never
   * looked at. This holds when each field of the first entry lacks the byte
   * that ends it and the later columns hold no '\4' or '\n'.
   */
  lemma FlushThenGet(m: Memtable, column: seq<byte>)
    requires |m.rows| > 0 && |m.rows[0].columns| > 0
    requires END_TOKEN !in m.rows[0].key.token && END_ROWKEY !in m.rows[0].key.rowkey
    requires ReadableName(m.rows[0].columns[0].name) && ReadableValue(m.rows[0].columns[0].val.value)
    requires ColumnsAvoid(m.rows[0].columns[1..], END_COLUMN) && ColumnsAvoid(m.rows[0].columns[1..], END_RECORD)
    ensures var c := RunTogether(m.rows[0].columns);
            Lookup(Flush(m), column) == Ok(if column == c.name then Some(c.val) else None)
  {
    var r := m.rows[0];
    var cs := r.columns;
    var c := RunTogether(cs);
    EncodeColumnsAvoid(cs[1..], END_COLUMN);
    EncodeColumnsAvoid(cs[1..], END_RECORD);
    EncodeColumnRunOn(cs[0], EncodeColumns(cs[1..]));
    assert EncodeColumns(cs) == EncodeColumn(c);
    var h := [START_RECORD] + r.key.token + [END_TOKEN] + r.key.rowkey + [END_ROWKEY];
    var later := EncodeRows(m.rows[1..]);
    var q := [END_RECORD] + later;
    assert Flush(m) == h + EncodeColumns(cs) + [END_RECORD] + later;
    AppendAssoc(h + EncodeColumn(c), [END_RECORD], later);
    assert Flush(m) == h + EncodeColumn(c) + q;
    ScanRecordOver(r.key.token, r.key.rowkey, c, q);
  }

  /**
   * Round trip: when the first Memtable entry has exactly one column and no
   * field holds the byte that ends it, `get` on the flushed file returns that
   * column's Val for its name, with value, time, createTime and ttl intact,
   * and nothing for any other name; the rest of the Memtable does not matter.
   */
  lemma RoundTrip(m: Memtable, column: seq<byte>)
    requires |m.rows| > 0 && |m.rows[0].columns| == 1
    requires END_TOKEN !in m.rows[0].key.token && END_ROWKEY !in m.rows[0].key.rowkey
    requires ReadableName(m.rows[0].columns[0].name) && ReadableValue(m.rows[0].columns[0].val.value)
    ensures var c := m.rows[0].columns[0];
            Lookup(Flush(m), column) == Ok(if column == c.name then Some(c.val) else None)
  {
    var cs := m.rows[0].columns;
    assert cs[1..] == [];
    assert cs[0].val.value + EncodeColumns(cs[1..]) == cs[0].val.value;
    FlushThenGet(m, column);
  }

  /** Whatever the file, `get` only ever finds names without '\3' and values without '\4' or '\n'. */
  lemma LookupResultReadable(file: seq<byte>, column: seq<byte>)
    requires Lookup(file, column).Ok? && Lookup(file, column).value.Some?
    ensures ReadableName(column)
    ensures ReadableValue(Lookup(file, column).value.value.value)
  {
    assert ScanRecord(file).Ok?;
    var cols := RecordColumns(file);
    ColumnMapReadable(cols, column);
  }

  /** The columns a parsed record's map was built from, all of them readable. */
  lemma RecordColumns(s: seq<byte>) returns (cols: seq<Column>)
    requires ScanRecord(s).Ok?
    ensures ScanRecord(s).value.columns == ColumnMap(cols)
    ensures forall i :: 0 <= i < |cols| ==> ReadableName(cols[i].name) && ReadableValue(cols[i].val.value)
  {
    var afterHeader := ScanHeader(s);
    assert afterHeader.Ok?;
    var token := ScanThrough(afterHeader.value, END_TOKEN);
    assert token.Ok?;
    var rowkey := ScanThrough(token.value.rest, END_ROWKEY);
    assert rowkey.Ok?;
    var columns := ScanColumns(rowkey.value.rest);
    assert columns.Ok?;
    cols := columns.value.columns;
    assert ScanRecord(s).value.columns == ColumnMap(cols);
  }

  /** A map built from readable columns holds only readable names and values. */
  lemma ColumnMapReadable(cs: seq<Column>, name: seq<byte>)
    requires forall i :: 0 <= i < |cs| ==> ReadableName(cs[i].name) && ReadableValue(cs[i].val.value)
    requires name in ColumnMap(cs)
    ensures ReadableName(name) && ReadableValue(ColumnMap(cs)[name].value)
  {
    var i := ColumnMapFrom(cs, name);
  }

  /**
   * The round trip's conditions on the column are exact: for a one-column
   * first entry, `get` returns the original Val for its name if and only if
   * the name has no '\3' and the value has no '\4' or '\n'.
   */
  lemma RoundTripExactly(m: Memtable)
    requires |m.rows| > 0 && |m.rows[0].columns| == 1
    requires END_TOKEN !in m.rows[0].key.token && END_ROWKEY !in m.rows[0].key.rowkey
    ensures var c := m.rows[0].columns[0];
            Lookup(Flush(m), c.name) == Ok(Some(c.val))
            <==> ReadableName(c.name) && ReadableValue(c.val.value)
  {
    var c := m.rows[0].columns[0];
    if ReadableName(c.name) && ReadableValue(c.val.value) {
      RoundTrip(m, c.name);
    } else if Lookup(Flush(m), c.name) == Ok(Some(c.val)) {
      LookupResultReadable(Flush(m), c.name);
    }
  }

  /** The missing separator loses the second column: `get` of its name on the flushed file finds nothing. */
  lemma SecondColumnLost(m: Memtable)
    requires |m.rows| > 0 && |m.rows[0].columns| >= 2
    requires m.rows[0].columns[1].name != m.rows[0].columns[0].name
    requires END_TOKEN !in m.rows[0].key.token && END_ROWKEY !in m.rows[0].key.rowkey
    requires ReadableName(m.rows[0].columns[0].name) && ReadableValue(m.rows[0].columns[0].val.value)
    requires ColumnsAvoid(m.rows[0].columns[1..], END_COLUMN) && ColumnsAvoid(m.rows[0].columns[1..], END_RECORD)
    ensures Lookup(Flush(m), m.rows[0].columns[1].name) == Ok(None)
  {
    FlushThenGet(m, m.rows[0].columns[1].name);
  }

  // ---------------------------------------------------------------- locality
  //
  // Each reader stops at its stop byte: replacing whatever follows the bytes it
  // consumed (`r` below) by anything else (`x`) changes only the rest it returns.

  /** Two ways of cutting the same bytes: the shorter head is a head of `q`. */
  lemma SplitHead(q: seq<byte>, r: seq<byte>, a: seq<byte>, b: seq<byte>)
    requires q + r == a + b && |a| <= |q|
    ensures q == a + q[|a|..] && b == q[|a|..] + r
  {
    assert q == (q + r)[..|q|];
    assert a == (a + b)[..|a|];
    assert b == (a + b)[|a|..];
  }

  /** A '\1'/'\2'/'\3' scan whose stop byte lies in `q` does not look at what follows `q`. */
  lemma ThroughTail(q: seq<byte>, r: seq<byte>, x: seq<byte>, stop: byte) returns (q2: seq<byte>)
    requires ScanThrough(q + r, stop).Ok? && |ScanThrough(q + r, stop).value.rest| >= |r|
    ensures ScanThrough(q + r, stop).value.rest == q2 + r
    ensures ScanThrough(q + x, stop) == Ok(Scan(ScanThrough(q + r, stop).value.text, q2 + x))
  {
    var res := ScanThrough(q + r, stop).value;
    var a := res.text + [stop];
    SplitHead(q, r, a, res.rest);
    q2 := q[|a|..];
    ScanThroughOver(res.text, stop, q2 + x);
    assert q + x == res.text + [stop] + (q2 + x);
  }

  /** `endColumn` does not look past its stop byte, which lies in `q` or is the first byte after it. */
  lemma ValueTail(q: seq<byte>, r: seq<byte>, x: seq<byte>) returns (q2: seq<byte>)
    requires ScanValue(q + r).Ok? && |ScanValue(q + r).value.rest| >= |r|
    requires |x| > 0 && x[0] in {END_COLUMN, END_RECORD}
    ensures ScanValue(q + r).value.rest == q2 + r
    ensures ScanValue(q + x) == Ok(Scan(ScanValue(q + r).value.text, q2 + x))
  {
    var res := ScanValue(q + r).value;
    SplitHead(q, r, res.text, res.rest);
    q2 := q[|res.text|..];
    var y := q2 + x;
    assert q + x == res.text + y;
    assert y[0] == if |q2| > 0 then res.rest[0] else x[0];
    ScanValueOver(res.text, y);
  }

  /** A parsed column, taken apart into the five scans of `readColumns`' loop body. */
  lemma ColumnFields(s: seq<byte>) returns (name: Scan, create: Scan, time: Scan, ttl: Scan, value: Scan)
    requires ScanColumn(s).Ok?
    ensures ScanThrough(s, END_COLUMN_PART) == Ok(name)
    ensures ScanThrough(name.rest, END_COLUMN_PART) == Ok(create)
    ensures ScanThrough(create.rest, END_COLUMN_PART) == Ok(time)
    ensures ScanThrough(time.rest, END_COLUMN_PART) == Ok(ttl)
    ensures ScanValue(ttl.rest) == Ok(value)
    ensures ParseLongField(time.text).Ok? && ParseLongField(create.text).Ok? && ParseLongField(ttl.text).Ok?
    ensures ScanColumn(s).value
            == ColumnScan(Column(name.text, Val(value.text, ParseLongField(time.text).value,
                                                ParseLongField(create.text).value, ParseLongField(ttl.text).value)),
                          value.rest)
  {
    name := ScanThrough(s, END_COLUMN_PART).value;
    create := ScanThrough(name.rest, END_COLUMN_PART).value;
    time := ScanThrough(create.rest, END_COLUMN_PART).value;
    ttl := ScanThrough(time.rest, END_COLUMN_PART).value;
    value := ScanValue(ttl.rest).value;
  }

  /** Five scans that succeed with well-formed numbers make up a parsed column. */
  lemma FieldsColumn(s: seq<byte>, name: Scan, create: Scan, time: Scan, ttl: Scan, value: Scan)
    requires ScanThrough(s, END_COLUMN_PART) == Ok(name)
    requires ScanThrough(name.rest, END_COLUMN_PART) == Ok(create)
    requires ScanThrough(create.rest, END_COLUMN_PART) == Ok(time)
    requires ScanThrough(time.rest, END_COLUMN_PART) == Ok(ttl)
    requires ScanValue(ttl.rest) == Ok(value)
    requires ParseLongField(time.text).Ok? && ParseLongField(create.text).Ok? && ParseLongField(ttl.text).Ok?
    ensures ScanColumn(s)
            == Ok(ColumnScan(Column(name.text, Val(value.text, ParseLongField(time.text).value,
                                                   ParseLongField(create.text).value, ParseLongField(ttl.text).value)),
                             value.rest))
  {
  }

  /** One pass of `readColumns` does not look past the stop byte after the value. */
  lemma ColumnTail(q: seq<byte>, r: seq<byte>, x: seq<byte>) returns (q5: seq<byte>)
    requires ScanColumn(q + r).Ok? && |ScanColumn(q + r).value.rest| >= |r|
    requires |x| > 0 && x[0] in {END_COLUMN, END_RECORD}
    ensures ScanColumn(q + r).value.rest == q5 + r
    ensures ScanColumn(q + x) == Ok(ColumnScan(ScanColumn(q + r).value.column, q5 + x))
  {
    var name, create, time, ttl, value := ColumnFields(q + r);
    var q1 := ThroughTail(q, r, x, END_COLUMN_PART);
    var q2 := ThroughTail(q1, r, x, END_COLUMN_PART);
    var q3 := ThroughTail(q2, r, x, END_COLUMN_PART);
    var q4 := ThroughTail(q3, r, x, END_COLUMN_PART);
    q5 := ValueTail(q4, r, x);
    FieldsColumn(q + x, Scan(name.text, q1 + x), Scan(create.text, q2 + x), Scan(time.text, q3 + x),
                 Scan(ttl.text, q4 + x), Scan(value.text, q5 + x));
  }

  /** `readColumns` does not look past the '\n' that ends its loop. */
  lemma {:induction false} ColumnsTail(q: seq<byte>, r: seq<byte>, x: seq<byte>)
    requires ScanColumns(q + r).Ok? && ScanColumns(q + r).value.rest == r
    requires |x| > 0 && x[0] == END_RECORD
    ensures ScanColumns(q + x) == Ok(ColumnsScan(ScanColumns(q + r).value.columns, x))
    decreases |q|
  {
    var first := ScanColumn(q + r).value;
    var q1 := ColumnTail(q, r, x);
    if first.rest[0] == END_RECORD {
      assert q1 == [] && q1 + x == x;
      assert ScanColumns(q + r) == Ok(ColumnsScan([first.column], r));
    } else {
      var more := ScanColumns(first.rest).value;
      assert |q1| > 0;
      assert (q1 + x)[0] == first.rest[0] != END_RECORD;
      assert ScanColumns(q + r) == Ok(ColumnsScan([first.column] + more.columns, r));
      ColumnsTail(q1, r, x);
      assert ScanColumns(q1 + x) == Ok(ColumnsScan(more.columns, x));
    }
  }

  /** `readHeader` consumes only the first byte. */
  lemma HeaderTail(q: seq<byte>, r: seq<byte>, x: seq<byte>)
    requires ScanHeader(q + r).Ok? && |q| > 0
    ensures (q + r)[1..] == q[1..] + r
    ensures ScanHeader(q + x) == Ok(q[1..] + x)
  {
    assert (q + x)[0] == (q + r)[0];
    assert (q + x)[1..] == q[1..] + x;
  }

  /** Reading the first record does not look past its closing '\n'. */
  lemma RecordTail(q: seq<byte>, r: seq<byte>, x: seq<byte>)
    requires ScanRecord(q + r).Ok? && ScanRecord(q + r).value.rest == r
    requires |x| > 0 && x[0] == END_RECORD
    ensures ScanRecord(q + x) == Ok(ScanRecord(q + r).value.(rest := x))
  {
    var token := ScanThrough((q + r)[1..], END_TOKEN).value;
    var rowkey := ScanThrough(token.rest, END_ROWKEY).value;
    var columns := ScanColumns(rowkey.rest).value;
    assert |q| > 0 by {
      assert |columns.rest| < |q + r|;
    }
    HeaderTail(q, r, x);
    var q1 := ThroughTail(q[1..], r, x, END_TOKEN);
    var q2 := ThroughTail(q1, r, x, END_ROWKEY);
    ColumnsTail(q2, r, x);
  }

  /**
   * `get` never reads a second record: a file that begins with the same first
   * record (`record` holds its bytes up to the closing '\n'), whatever follows
   * that '\n', gives the same answer for every column.
   */
  lemma LookupIgnoresLaterRecords(record: seq<byte>, rest: seq<byte>, later: seq<byte>, column: seq<byte>)
    requires ScanRecord(record + rest).Ok? && ScanRecord(record + rest).value.rest == rest
    ensures Lookup(record + [END_RECORD] + later, column) == Lookup(record + rest, column)
  {
    var x := [END_RECORD] + later;
    assert record + [END_RECORD] + later == record + x;
    RecordTail(record, rest, x);
  }
}
