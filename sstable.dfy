/**
 * The SSTable reader and writer as the engine runs them: the reader moves a
 * cursor over a buffer holding the file, the writer appends bytes to its
 * output. Each method is proved against the pure functions of `SSTableFormat`.
 */
module SSTable {
  import opened Wrappers
  import opened Primitives
  import opened Memtable
  import opened SSTableFormat
  import Decimal
  import SSTableProperties

  /** The file's bytes and the reader's cursor into them. */
  class BufferGroup {
    const dst: array<byte>
    var currentIndex: nat

    ghost predicate Valid()
      reads this
    {
      currentIndex <= dst.Length
    }

    /** The bytes not read yet. */
    ghost function Rest(): seq<byte>
      reads this, dst
      requires Valid()
    {
      dst[currentIndex..]
    }

    constructor(file: array<byte>)
      ensures dst == file && currentIndex == 0
      ensures Valid() && Rest() == file[..]
    {
      dst := file;
      currentIndex := 0;
    }

    method AdvanceIndex()
      modifies this
      ensures currentIndex == old(currentIndex) + 1
    {
      currentIndex := currentIndex + 1;
    }
  }

  /** `readHeader`: consumes the '\0' that opens a record, or fails without moving. */
  method ReadHeader(bg: BufferGroup) returns (r: Result<(), Error>)
    requires bg.Valid()
    modifies bg
    ensures bg.Valid()
    ensures var h := ScanHeader(old(bg.Rest()));
            && (h.Ok? ==> r.Ok? && bg.Rest() == h.value && bg.currentIndex == old(bg.currentIndex) + 1)
            && (h.Err? ==> r == Err(h.error) && bg.currentIndex == old(bg.currentIndex))
  {
    if bg.currentIndex == bg.dst.Length {
      return Err(EndOfData);
    }
    if bg.dst[bg.currentIndex] != START_RECORD {
      return Err(Corrupt(bg.dst[bg.currentIndex]));
    }
    bg.AdvanceIndex();
    r := Ok(());
  }

  /**
   * `readToken`, `readRowkey` and `readColumn`: collects the bytes before the
   * first `stop` and moves the cursor one past it.
   */
  method ReadThrough(bg: BufferGroup, stop: byte) returns (r: Result<seq<byte>, Error>)
    requires bg.Valid()
    modifies bg
    ensures bg.Valid()
    ensures var s := ScanThrough(old(bg.Rest()), stop);
            && (s.Ok? ==> r == Ok(s.value.text) && bg.Rest() == s.value.rest)
            && (s.Err? ==> r == Err(s.error))
  {
    var start := bg.currentIndex;
    var text: seq<byte> := [];
    while bg.currentIndex < bg.dst.Length && bg.dst[bg.currentIndex] != stop
      invariant start <= bg.currentIndex <= bg.dst.Length
      invariant text == bg.dst[start..bg.currentIndex]
      invariant stop !in text
      decreases bg.dst.Length - bg.currentIndex
    {
      text := text + [bg.dst[bg.currentIndex]];
      bg.AdvanceIndex();
    }
    ghost var s := bg.dst[start..];
    if bg.currentIndex == bg.dst.Length {
      assert s == text;
      return Err(EndOfData);
    }
    var k := bg.currentIndex - start;
    assert s[..k] == text && s[k] == stop;
    SSTableProperties.FirstOfAt(s, {stop}, k);
    bg.AdvanceIndex();
    assert bg.Rest() == s[k + 1..];
    r := Ok(text);
  }

  /** `endColumn`: collects the bytes before the first '\4' or '\n' and leaves the cursor on it. */
  method EndColumn(bg: BufferGroup) returns (r: Result<seq<byte>, Error>)
    requires bg.Valid()
    modifies bg
    ensures bg.Valid()
    ensures var s := ScanValue(old(bg.Rest()));
            && (s.Ok? ==> r == Ok(s.value.text) && bg.Rest() == s.value.rest)
            && (s.Err? ==> r == Err(s.error))
  {
    var start := bg.currentIndex;
    var text: seq<byte> := [];
    while bg.currentIndex < bg.dst.Length
          && !(bg.dst[bg.currentIndex] == END_COLUMN || bg.dst[bg.currentIndex] == END_RECORD)
      invariant start <= bg.currentIndex <= bg.dst.Length
      invariant text == bg.dst[start..bg.currentIndex]
      invariant END_COLUMN !in text && END_RECORD !in text
      decreases bg.dst.Length - bg.currentIndex
    {
      text := text + [bg.dst[bg.currentIndex]];
      bg.AdvanceIndex();
    }
    ghost var s := bg.dst[start..];
    if bg.currentIndex == bg.dst.Length {
      assert s == text;
      return Err(EndOfData);
    }
    var k := bg.currentIndex - start;
    assert s[..k] == text && s[k] in {END_COLUMN, END_RECORD};
    SSTableProperties.FirstOfAt(s, {END_COLUMN, END_RECORD}, k);
    assert bg.Rest() == s[k..];
    r := Ok(text);
  }

  /**
   * One pass of the body of `readColumns`' do-while loop: name, createTime,
   * time and ttl, then the value; the numbers are parsed as the `Val`
   * constructor's arguments are evaluated (time, createTime, ttl).
   */
  method ReadColumn(bg: BufferGroup) returns (r: Result<Column, Error>)
    requires bg.Valid()
    modifies bg
    ensures bg.Valid()
    ensures var s := ScanColumn(old(bg.Rest()));
            && (s.Ok? ==> r == Ok(s.value.column) && bg.Rest() == s.value.rest)
            && (s.Err? ==> r == Err(s.error))
  {
    var name :- ReadThrough(bg, END_COLUMN_PART);
    var create :- ReadThrough(bg, END_COLUMN_PART);
    var time :- ReadThrough(bg, END_COLUMN_PART);
    var ttl :- ReadThrough(bg, END_COLUMN_PART);
    var value :- EndColumn(bg);
    var t :- ParseLongField(time);
    var c :- ParseLongField(create);
    var l :- ParseLongField(ttl);
    r := Ok(Column(name, Val(value, t, c, l)));
  }

  /** `parsed` put in front of the columns of a successful scan; an error passes through. */
  ghost function Prepend(parsed: seq<Column>, s: Result<ColumnsScan, Error>): Result<ColumnsScan, Error> {
    match s
    case Ok(cs) => Ok(ColumnsScan(parsed + cs.columns, cs.rest))
    case Err(e) => Err(e)
  }

  /** One more column read: the scan of the rest before it is that column in front of the scan after it. */
  lemma ColumnsStep(parsed: seq<Column>, before: seq<byte>)
    ensures ScanColumn(before).Err? ==> Prepend(parsed, ScanColumns(before)) == Err(ScanColumn(before).error)
    ensures ScanColumn(before).Ok? ==>
              var first := ScanColumn(before).value;
              Prepend(parsed, ScanColumns(before))
              == if first.rest[0] == END_RECORD then Ok(ColumnsScan(parsed + [first.column], first.rest))
                 else Prepend(parsed + [first.column], ScanColumns(first.rest))
  {
    if ScanColumn(before).Ok? {
      var first := ScanColumn(before).value;
      if first.rest[0] != END_RECORD {
        match ScanColumns(first.rest)
        case Ok(more) =>
          assert parsed + ([first.column] + more.columns) == parsed + [first.column] + more.columns;
        case Err(_) =>
      }
    }
  }

  /** The loop invariant of `readColumns` carried over one more column, or to the scan's end or error. */
  lemma ColumnsAdvance(whole: seq<byte>, parsed: seq<Column>, before: seq<byte>)
    requires ScanColumns(whole) == Prepend(parsed, ScanColumns(before))
    ensures ScanColumn(before).Err? ==> ScanColumns(whole) == Err(ScanColumn(before).error)
    ensures ScanColumn(before).Ok? ==>
              var first := ScanColumn(before).value;
              if first.rest[0] == END_RECORD then ScanColumns(whole) == Ok(ColumnsScan(parsed + [first.column], first.rest))
              else ScanColumns(whole) == Prepend(parsed + [first.column], ScanColumns(first.rest))
  {
    ColumnsStep(parsed, before);
  }

  lemma ColumnMapSnoc(parsed: seq<Column>, c: Column)
    ensures ColumnMap(parsed + [c]) == ColumnMap(parsed)[c.name := c.val]
  {
    assert (parsed + [c])[..|parsed|] == parsed;
  }

  /** `readColumns`: parses columns into a sorted map until the cursor is on '\n'. */
  method ReadColumns(bg: BufferGroup) returns (r: Result<map<seq<byte>, Val>, Error>)
    requires bg.Valid()
    modifies bg
    ensures bg.Valid()
    ensures var s := ScanColumns(old(bg.Rest()));
            && (s.Ok? ==> r == Ok(ColumnMap(s.value.columns)) && bg.Rest() == s.value.rest)
            && (s.Err? ==> r == Err(s.error))
  {
    var result: map<seq<byte>, Val> := map[];
    ghost var parsed: seq<Column> := [];
    ghost var whole := bg.Rest();
    assert Prepend(parsed, ScanColumns(whole)) == ScanColumns(whole) by {
      match ScanColumns(whole)
      case Ok(cs) => assert [] + cs.columns == cs.columns;
      case Err(_) =>
    }
    while true
      invariant bg.Valid()
      invariant result == ColumnMap(parsed)
      invariant ScanColumns(whole) == Prepend(parsed, ScanColumns(bg.Rest()))
      decreases |bg.Rest()|
    {
      ghost var before := bg.Rest();
      var column := ReadColumn(bg);
      ColumnsAdvance(whole, parsed, before);
      if column.Err? {
        return Err(column.error);
      }
      ColumnMapSnoc(parsed, column.value);
      result := result[column.value.name := column.value.val];
      parsed := parsed + [column.value];
      assert bg.dst[bg.currentIndex] == bg.Rest()[0];
      if bg.dst[bg.currentIndex] == END_RECORD {
        return Ok(result);
      }
    }
  }

  /**
   * `get(row, column)`: reads the first record of the file and looks the
   * column up in it. The loop around the body always returns in its first
   * pass, so `row` is never consulted and no second record is read.
   */
  method Get(file: array<byte>, row: seq<byte>, column: seq<byte>) returns (r: Result<Option<Val>, Error>)
    ensures r == Lookup(file[..], column)
  {
    var bg := new BufferGroup(file);
    var header :- ReadHeader(bg);
    var token :- ReadThrough(bg, END_TOKEN);
    var rowkey :- ReadThrough(bg, END_ROWKEY);
    var columns :- ReadColumns(bg);
    r := Ok(if column in columns then Some(columns[column]) else None);
  }

  /** One more column of a row written: its bytes follow those of the columns before it. */
  lemma ColumnsPrefixStep(cs: seq<Column>, j: nat)
    requires j < |cs|
    ensures EncodeColumns(cs[..j + 1]) == EncodeColumns(cs[..j]) + EncodeColumn(cs[j])
  {
    assert cs[..j + 1] == cs[..j] + [cs[j]];
    SSTableProperties.EncodeColumnsSnoc(cs[..j], cs[j]);
  }

  /** One more record written: its bytes follow those of the rows before it. */
  lemma RowsPrefixStep(rows: seq<Row>, i: nat)
    requires i < |rows|
    ensures EncodeRows(rows[..i + 1]) == EncodeRows(rows[..i]) + EncodeRow(rows[i])
  {
    assert rows[..i + 1] == rows[..i] + [rows[i]];
    SSTableProperties.EncodeRowsAppend(rows[..i], [rows[i]]);
    assert [rows[i]][1..] == [];
  }

  /** The writes of one column, appended one after another, add that column's bytes. */
  lemma WritesOfColumn(o: seq<byte>, c: Column)
    ensures o + c.name + [END_COLUMN_PART]
            + Decimal.ValueOf(c.val.createTime) + [END_COLUMN_PART]
            + Decimal.ValueOf(c.val.time) + [END_COLUMN_PART]
            + Decimal.ValueOf(c.val.ttl) + [END_COLUMN_PART]
            + c.val.value
            == o + EncodeColumn(c)
  {
    var ct, tt, lt := Decimal.ValueOf(c.val.createTime), Decimal.ValueOf(c.val.time), Decimal.ValueOf(c.val.ttl);
    var sep := [END_COLUMN_PART];
    var x1 := c.name + sep;
    var x2 := x1 + ct;
    var x3 := x2 + sep;
    var x4 := x3 + tt;
    var x5 := x4 + sep;
    var x6 := x5 + lt;
    var x7 := x6 + sep;
    SSTableProperties.AppendAssoc(o, c.name, sep);
    SSTableProperties.AppendAssoc(o, x1, ct);
    SSTableProperties.AppendAssoc(o, x2, sep);
    SSTableProperties.AppendAssoc(o, x3, tt);
    SSTableProperties.AppendAssoc(o, x4, sep);
    SSTableProperties.AppendAssoc(o, x5, lt);
    SSTableProperties.AppendAssoc(o, x6, sep);
    SSTableProperties.AppendAssoc(o, x7, c.val.value);
  }

  /** The writes of one record, appended one after another, add that row's bytes. */
  lemma WritesOfRow(o: seq<byte>, r: Row)
    ensures o + [START_RECORD] + r.key.token + [END_TOKEN] + r.key.rowkey + [END_ROWKEY]
            + EncodeColumns(r.columns) + [END_RECORD]
            == o + EncodeRow(r)
  {
    var h1 := [START_RECORD] + r.key.token;
    var h2 := h1 + [END_TOKEN];
    var h3 := h2 + r.key.rowkey;
    var h4 := h3 + [END_ROWKEY];
    var h5 := h4 + EncodeColumns(r.columns);
    SSTableProperties.AppendAssoc(o, [START_RECORD], r.key.token);
    SSTableProperties.AppendAssoc(o, h1, [END_TOKEN]);
    SSTableProperties.AppendAssoc(o, h2, r.key.rowkey);
    SSTableProperties.AppendAssoc(o, h3, [END_ROWKEY]);
    SSTableProperties.AppendAssoc(o, h4, EncodeColumns(r.columns));
    SSTableProperties.AppendAssoc(o, h5, [END_RECORD]);
  }

  /** The inner loop of `flushToDisk` one column further: the column's writes extend the row's column bytes. */
  lemma ColumnWritten(head: seq<byte>, cs: seq<Column>, j: nat, mid: seq<byte>)
    requires j < |cs| && mid == head + EncodeColumns(cs[..j])
    ensures mid + cs[j].name + [END_COLUMN_PART]
            + Decimal.ValueOf(cs[j].val.createTime) + [END_COLUMN_PART]
            + Decimal.ValueOf(cs[j].val.time) + [END_COLUMN_PART]
            + Decimal.ValueOf(cs[j].val.ttl) + [END_COLUMN_PART]
            + cs[j].val.value
            == head + EncodeColumns(cs[..j + 1])
  {
    ColumnsPrefixStep(cs, j);
    WritesOfColumn(mid, cs[j]);
    SSTableProperties.AppendAssoc(head, EncodeColumns(cs[..j]), EncodeColumn(cs[j]));
  }

  /** The outer loop of `flushToDisk` one entry further: the record's writes extend the file. */
  lemma RowWritten(rows: seq<Row>, i: nat, before: seq<byte>)
    requires i < |rows| && before == EncodeRows(rows[..i])
    ensures before + [START_RECORD] + rows[i].key.token + [END_TOKEN] + rows[i].key.rowkey + [END_ROWKEY]
            + EncodeColumns(rows[i].columns[..|rows[i].columns|]) + [END_RECORD]
            == EncodeRows(rows[..i + 1])
  {
    assert rows[i].columns[..|rows[i].columns|] == rows[i].columns;
    WritesOfRow(before, rows[i]);
    RowsPrefixStep(rows, i);
  }

  /**
   * `flushToDisk`: writes one record per Memtable entry in iteration order.
   * The separator branch is never taken, because `first` is only cleared
   * inside it.
   */
  method FlushToDisk(m: Memtable) returns (output: seq<byte>)
    ensures output == Flush(m)
  {
    output := [];
    for i := 0 to |m.rows|
      invariant output == EncodeRows(m.rows[..i])
    {
      var row := m.rows[i];
      ghost var before := output;
      output := output + [START_RECORD] + row.key.token + [END_TOKEN] + row.key.rowkey + [END_ROWKEY];
      ghost var head := output;
      var first := true;
      for j := 0 to |row.columns|
        invariant first
        invariant output == head + EncodeColumns(row.columns[..j])
      {
        if !first {
          output := output + [END_COLUMN];
          first := false;
        }
        var c := row.columns[j];
        ghost var mid := output;
        output := output + c.name + [END_COLUMN_PART];
        output := output + Decimal.ValueOf(c.val.createTime) + [END_COLUMN_PART];
        output := output + Decimal.ValueOf(c.val.time) + [END_COLUMN_PART];
        output := output + Decimal.ValueOf(c.val.ttl) + [END_COLUMN_PART];
        output := output + c.val.value;
        ColumnWritten(head, row.columns, j, mid);
      }
      output := output + [END_RECORD];
      RowWritten(m.rows, i, before);
    }
    assert m.rows[..|m.rows|] == m.rows;
  }
}
