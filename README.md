# Nibiru SSTable record codec and counting output stream

This project models two parts of the Nibiru storage engine in Dafny.

- The SSTable record codec. `flushToDisk` writes a Memtable to a file. The file holds one record per row: `'\0' token '\1' rowkey '\2'`, then the columns, then `'\n'`. Each column is `name '\3' createTime '\3' time '\3' ttl '\3' value`, with the three numbers as decimal text. `get(row, column)` reads a record back with a cursor over the file's bytes: `readHeader`, `readToken`, `readRowkey`, then `readColumns`, which repeats `readColumn` four times and `endColumn` once per column.
- `CountingBufferedOutputStream`. This is a buffered output stream whose `writeAndCount` methods keep a `long` count of the bytes written.

The model reproduces the code's behaviour as written, including two quirks:

- The writer's `first` flag starts true and is only cleared inside the branch it guards. So the column separator `'\4'` is never written, and the columns of a row run together.
- `get` returns from inside its first loop pass. It parses the first record only, whatever `row` asks for.

Because of these quirks, a flush followed by a `get` gives a column back unchanged only under narrow conditions. The model proves the following about them:

- Sufficient: the first entry has exactly one column, its token has no `'\1'`, its row key has no `'\2'`, the column's name has no `'\3'`, and its value has no `'\4'` or `'\n'`.
- Necessary, but only for a first entry with exactly one column and such a token and row key: the conditions on the name and the value.
- Outside that case the conditions are not necessary. A token holding `'\1'` can still read back, because `get` ignores the token and row key it reads. A later column whose bytes hold `'\4'` can split off from the first column's value again.

Two parts of the code suggest a different intent:

- the dead `!first` branch would write exactly one `'\4'` between consecutive columns;
- the loop around the body of `get` suggests a scan over every record until the row key matches.

The code does neither. The model follows the code.

Layout:

- `primitives.dfy`: Java `byte`, `int` and `long`, with `long` wrap-around and the `(byte)` narrowing of `write(int)`.
- `decimal.dfy`: `String.valueOf(long)` and `Long.parseLong` on ASCII text, and the proof that the second undoes the first.
- `memtable.dfy`: tokens, `Val`s, columns, rows, the Memtable as its entries in iteration order, and the order they are sorted by.
- `sstable_format.dfy`: the file layout the writer produces (`Flush`) and what the reader makes of a file (`Lookup`), as pure functions. The reader functions work on the unread rest of the file.
- `sstable_properties.dfy`: what the writer and reader promise about each other. This covers the record layout, the missing separator, the round trip and its exact conditions, and the fact that `get` never reads past the first record.
- `sstable.dfy`: the reader as imperative code over a `BufferGroup` (the file's bytes and a cursor), and the writer as a nested loop. Each method is proved against the functions above.
- `counting_stream.dfy`: `CountingBufferedOutputStream` as a class with the bytes it has accepted and its `long` counter.

## Model

Source paths are relative to the repository root. `SSTable.java` is `src/main/java/io/teknek/nibiru/engine/SSTable.java`.

| member | source | states |
|---|---|---|
| Primitives.WrapLong | src/main/java/io/teknek/nibiru/io/CountingBufferedOutputStream.java:14-17 | The result is a `long` congruent to its argument modulo 2^64, and equal to it when the argument is already in range. This is how `writtenOffset++` behaves on overflow. |
| Primitives.WrapLongAdd | src/main/java/io/teknek/nibiru/io/CountingBufferedOutputStream.java:19-22 | Adding to a wrapped counter and wrapping again is the same as wrapping the exact sum. So a sequence of `+=` gives the wrapped total. |
| Primitives.WrapLongSucc | src/main/java/io/teknek/nibiru/io/CountingBufferedOutputStream.java:14-17 | Counting one more byte always changes the `long` counter, even across wrap-around. |
| Primitives.LowByte | src/main/java/io/teknek/nibiru/io/CountingBufferedOutputStream.java:14-15 | `write(int)` stores the low eight bits of its argument: the byte is congruent to it modulo 256, and equal to it when it is 0..255. |
| Decimal.Digits | src/main/java/io/teknek/nibiru/engine/SSTable.java:137-141 | The decimal digits of a magnitude are non-empty, all ASCII digits, and have no leading zero unless the number is 0. |
| Decimal.ValueOf | src/main/java/io/teknek/nibiru/engine/SSTable.java:137-141 | `String.valueOf(long)` is non-empty, and each byte is `'-'` or a digit. |
| Decimal.ValueOfShape | src/main/java/io/teknek/nibiru/engine/SSTable.java:137-141 | The text of `n` starts with `'-'` exactly when `n < 0`, and all of its other bytes are digits. |
| Decimal.ParseLong | src/main/java/io/teknek/nibiru/engine/SSTable.java:96-98 | `Long.parseLong` succeeds only on non-empty text that is an optional sign followed by digits. A negative result comes only from text starting with `'-'`. |
| Decimal.DigitsValueOfDigits | src/main/java/io/teknek/nibiru/engine/SSTable.java:95-98 | Reading the digits of a magnitude back gives that magnitude. |
| Decimal.ParseLongValueOf | src/main/java/io/teknek/nibiru/engine/SSTable.java:95-98 | `Long.parseLong(String.valueOf(n)) == n` for every `long`, negative values and the extremes included. |
| Memtable.ByteLess | src/main/java/io/teknek/nibiru/engine/SSTable.java:123 | A string that sorts before another differs from it, and its first byte is not above the other's. |
| Memtable.TokenLess | src/main/java/io/teknek/nibiru/engine/SSTable.java:123 | A token that sorts before another differs from it. |
| Memtable.Sorted | src/main/java/io/teknek/nibiru/engine/SSTable.java:123 | A sorted Memtable has no two neighbouring entries with the same token. |
| Memtable.ByteLessIrreflexive | src/main/java/io/teknek/nibiru/engine/SSTable.java:123 | No string sorts before itself. |
| Memtable.ByteLessTransitive | src/main/java/io/teknek/nibiru/engine/SSTable.java:123 | The lexicographic order of keys is transitive. |
| Memtable.ByteLessTotal | src/main/java/io/teknek/nibiru/engine/SSTable.java:123 | Of two different strings, one sorts before the other. |
| Memtable.TokenLessStrictTotalOrder | src/main/java/io/teknek/nibiru/engine/SSTable.java:123 | The token order of the Memtable's sorted map is a strict total order. |
| Memtable.SortedRowsAscend | src/main/java/io/teknek/nibiru/engine/SSTable.java:123 | In a sorted Memtable, every entry's token is below every later entry's token, so iteration is ascending. |
| SSTableFormat.FirstOf | src/main/java/io/teknek/nibiru/engine/SSTable.java:50-53 | The index found holds a stop byte and no earlier byte does. "None" means no byte is a stop byte. |
| SSTableFormat.ScanHeader | src/main/java/io/teknek/nibiru/engine/SSTable.java:41-46 | Succeeds exactly when the first byte is `'\0'` and then consumes only that byte. Any other first byte is a `Corrupt` error carrying the byte found. |
| SSTableFormat.ScanThrough | src/main/java/io/teknek/nibiru/engine/SSTable.java:48-76 | The input is the text read, then the stop byte, then the rest, and the text has no stop byte. It fails only when there is no stop byte at all. |
| SSTableFormat.ScanValue | src/main/java/io/teknek/nibiru/engine/SSTable.java:78-85 | The text read has no `'\4'` or `'\n'`, and the rest starts with one of them, left unread. It fails only when neither occurs. |
| SSTableFormat.ScanColumn | src/main/java/io/teknek/nibiru/engine/SSTable.java:90-98 | A parsed column consumes input, leaves the cursor on `'\4'` or `'\n'`, and its name has no `'\3'` and its value no `'\4'` or `'\n'`. |
| SSTableFormat.ScanColumns | src/main/java/io/teknek/nibiru/engine/SSTable.java:87-102 | At least one column is parsed. The loop ends with the cursor on `'\n'`, and every parsed column is readable. |
| SSTableFormat.ParseLongField | src/main/java/io/teknek/nibiru/engine/SSTable.java:96-98 | A field that `Long.parseLong` rejects fails with a `NumberFormat` error carrying that field's text. |
| SSTableFormat.ColumnMap | src/main/java/io/teknek/nibiru/engine/SSTable.java:88-99 | Every parsed name is a key of the map. |
| SSTableFormat.ColumnMapFrom | src/main/java/io/teknek/nibiru/engine/SSTable.java:88-99 | Every key of the map holds the Val of some parsed column with that name, and the lemma returns that column's index. |
| SSTableFormat.EncodeColumn | src/main/java/io/teknek/nibiru/engine/SSTable.java:135-143 | A written column starts with its name and `'\3'`, and ends with its value. |
| SSTableFormat.EncodeColumns | src/main/java/io/teknek/nibiru/engine/SSTable.java:130-144 | A row's columns write no bytes exactly when the row has no columns. Otherwise the bytes start with the first column's name and `'\3'`: no separator comes first. |
| SSTableFormat.EncodeRow | src/main/java/io/teknek/nibiru/engine/SSTable.java:124-145 | A record is longer than its token, starts with `'\0'` and ends with `'\n'`. |
| SSTableFormat.EncodeRows | src/main/java/io/teknek/nibiru/engine/SSTable.java:123-146 | A run of entries writes no bytes exactly when it is empty. |
| SSTableFormat.Flush | src/main/java/io/teknek/nibiru/engine/SSTable.java:123-146 | The flushed file is empty exactly when the Memtable has no entries. |
| SSTableFormat.ScanRecord | src/main/java/io/teknek/nibiru/engine/SSTable.java:109-113 | A first byte other than `'\0'` is a `Corrupt` error carrying that byte. A parsed record starts with `'\0'`, its token has no `'\1'`, its row key no `'\2'`, and it leaves the cursor on `'\n'` after consuming input. |
| SSTableFormat.Lookup | src/main/java/io/teknek/nibiru/engine/SSTable.java:104-116 | `get` on an empty file fails with `EndOfData`, and on a file that does not start with `'\0'` with `Corrupt` carrying the first byte. |
| SSTableProperties.EncodeColumnsSnoc | src/main/java/io/teknek/nibiru/engine/SSTable.java:130-144 | Writing one more column appends exactly that column's bytes, with no separator before it. |
| SSTableProperties.EncodeRowsAppend | src/main/java/io/teknek/nibiru/engine/SSTable.java:123-146 | The file for two runs of entries is the first run's records followed by the second's. |
| SSTableProperties.FlushRecordAt | src/main/java/io/teknek/nibiru/engine/SSTable.java:123-146 | The i-th record of the file is the i-th entry's, after the records of all earlier entries and before those of later ones. |
| SSTableProperties.RecordSlice | src/main/java/io/teknek/nibiru/engine/SSTable.java:123-146 | The k-th entry's record occupies the bytes of the flushed file that follow the records of the earlier entries. |
| SSTableProperties.FlushInTokenOrder | src/main/java/io/teknek/nibiru/engine/SSTable.java:123-146 | In a sorted Memtable, a later entry has a greater and different token, and its record in the flushed file starts after the earlier entry's record ends. So the file lists the records in ascending token order. |
| SSTableProperties.ValueOfAvoids | src/main/java/io/teknek/nibiru/engine/SSTable.java:137-141 | The decimal text of a number holds no sentinel byte and no `'\n'`. |
| SSTableProperties.EncodeColumnsAvoid | src/main/java/io/teknek/nibiru/engine/SSTable.java:130-144 | The written columns hold a non-numeric byte other than `'\3'` only where a name or value holds it. |
| SSTableProperties.EncodeRowAvoids | src/main/java/io/teknek/nibiru/engine/SSTable.java:124-145 | One written record holds `'\4'` only where its token, row key, or a column name or value holds it. |
| SSTableProperties.EncodeRowsAvoid | src/main/java/io/teknek/nibiru/engine/SSTable.java:123-146 | The written records hold `'\4'` only where some field holds it. |
| SSTableProperties.NoColumnSeparatorWritten | src/main/java/io/teknek/nibiru/engine/SSTable.java:129-134 | The separator `'\4'` never appears in a flushed file unless a token, row key, name or value contains it: the `!first` branch never runs. |
| SSTableProperties.RecordBytesCount | src/main/java/io/teknek/nibiru/engine/SSTable.java:124-145 | One record's bytes hold exactly one `'\0'` and one `'\n'` when its fields hold none. |
| SSTableProperties.RowRecordCount | src/main/java/io/teknek/nibiru/engine/SSTable.java:124-145 | An entry whose fields hold no `'\0'` (or no `'\n'`) is written with exactly one of that byte. |
| SSTableProperties.RecordCount | src/main/java/io/teknek/nibiru/engine/SSTable.java:123-146 | Any run of such entries is written with as many `'\0'` (or `'\n'`) bytes as entries. |
| SSTableProperties.OneRecordPerRow | src/main/java/io/teknek/nibiru/engine/SSTable.java:123-146 | A flushed Memtable whose fields hold no `'\0'` or `'\n'` has exactly one record start and one record end per entry. |
| SSTableProperties.FirstOfAt | src/main/java/io/teknek/nibiru/engine/SSTable.java:50-53 | A stop byte at `k` with none before it is what the scan finds. |
| SSTableProperties.ScanThroughOver | src/main/java/io/teknek/nibiru/engine/SSTable.java:48-76 | `readToken`/`readRowkey`/`readColumn` read back any text without their terminator and stop right after the terminator. This is the inverse of writing `text` then the terminator. |
| SSTableProperties.ScanValueOver | src/main/java/io/teknek/nibiru/engine/SSTable.java:78-85 | `endColumn` reads back any value without `'\4'`/`'\n'` and leaves the following stop byte unread. |
| SSTableProperties.EncodeColumnThen | src/main/java/io/teknek/nibiru/engine/SSTable.java:135-143 | A written column is the name, `'\3'`, createTime, `'\3'`, time, `'\3'`, ttl, `'\3'`, value, in that order. |
| SSTableProperties.ScanColumnOver | src/main/java/io/teknek/nibiru/engine/SSTable.java:90-98 | One written column is parsed back to the same name and Val. This relies on createTime being written before time and read before time, and on the `Val` constructor's argument order. |
| SSTableProperties.ColumnMapLastWins | src/main/java/io/teknek/nibiru/engine/SSTable.java:99 | A name that occurs again later in a row keeps the Val parsed last, as `TreeMap.put` does. |
| SSTableProperties.EncodeColumnRunOn | src/main/java/io/teknek/nibiru/engine/SSTable.java:135-143 | The bytes of a column followed by more bytes are exactly the bytes of the same column whose value has those bytes appended. This is how a missing separator turns later columns into part of a value. |
| SSTableProperties.RecordThen | src/main/java/io/teknek/nibiru/engine/SSTable.java:124-128 | A record's bytes regroup as the reader meets them: header, token and terminator, row key and terminator, then the rest. |
| SSTableProperties.ScanColumnsOne | src/main/java/io/teknek/nibiru/engine/SSTable.java:87-102 | One readable column followed by `'\n'` is read as exactly that one column. |
| SSTableProperties.ScanRecordOver | src/main/java/io/teknek/nibiru/engine/SSTable.java:110-113 | A record with one readable column is read back with its token, row key and a one-entry column map. |
| SSTableProperties.FlushThenGet | src/main/java/io/teknek/nibiru/engine/SSTable.java:104-116 | Assume the first entry has a column, its token has no `'\1'` and its row key no `'\2'`. Assume also that its first column's name has no `'\3'`, its value no `'\4'` or `'\n'`, and no later column's name or value holds `'\4'` or `'\n'`. Then `get` on the flushed file finds one column, named like the first column, whose value runs on through the bytes of all later columns. Every other name gives nothing, and later entries never matter. |
| SSTableProperties.RoundTrip | src/main/java/io/teknek/nibiru/engine/SSTable.java:95-143 | Flush then `get`, when the first entry has exactly one column, a token without `'\1'` and a row key without `'\2'`, and the column has a name without `'\3'` and a value without `'\4'` or `'\n'`. Then `get` returns the original Val (value, time, createTime, ttl) for that name, and nothing for any other name. |
| SSTableProperties.LookupResultReadable | src/main/java/io/teknek/nibiru/engine/SSTable.java:104-116 | Whatever the file, a name `get` finds has no `'\3'`, and the value it returns has no `'\4'` or `'\n'`. |
| SSTableProperties.RoundTripExactly | src/main/java/io/teknek/nibiru/engine/SSTable.java:95-143 | Take a one-column first entry whose token has no `'\1'` and whose row key has no `'\2'`. Then `get` returns the original Val if and only if the name has no `'\3'` and the value has no `'\4'` or `'\n'`. |
| SSTableProperties.SecondColumnLost | src/main/java/io/teknek/nibiru/engine/SSTable.java:129-134 | Take a first entry with at least two columns, where the second column's name differs from the first's. Its token has no `'\1'` and its row key no `'\2'`, and its first column has a name without `'\3'` and a value without `'\4'` or `'\n'`. No later column's name or value holds `'\4'` or `'\n'`. Then, because no separator is written, `get` of the second column's name on the flushed file finds nothing. |
| SSTableProperties.ThroughTail | src/main/java/io/teknek/nibiru/engine/SSTable.java:48-76 | A terminator scan reads nothing past its terminator: replacing the bytes after it changes only the rest it returns. |
| SSTableProperties.ValueTail | src/main/java/io/teknek/nibiru/engine/SSTable.java:78-85 | `endColumn` reads nothing past its stop byte. |
| SSTableProperties.ColumnTail | src/main/java/io/teknek/nibiru/engine/SSTable.java:90-98 | One pass of `readColumns` reads nothing past the stop byte after the value. |
| SSTableProperties.ColumnsTail | src/main/java/io/teknek/nibiru/engine/SSTable.java:87-102 | `readColumns` reads nothing past the `'\n'` that ends its loop. |
| SSTableProperties.HeaderTail | src/main/java/io/teknek/nibiru/engine/SSTable.java:41-46 | `readHeader` reads only the first byte. |
| SSTableProperties.RecordTail | src/main/java/io/teknek/nibiru/engine/SSTable.java:109-113 | Parsing the first record reads nothing past its closing `'\n'`. |
| SSTableProperties.LookupIgnoresLaterRecords | src/main/java/io/teknek/nibiru/engine/SSTable.java:109-115 | `get` never reads a second record. Any file that starts with the same first record, through its `'\n'`, gives the same answer for every column, whatever follows. |
| SSTable.BufferGroup.constructor | src/main/java/io/teknek/nibiru/engine/SSTable.java:105-108 | A new buffer holds the whole file, with the cursor at its start. |
| SSTable.BufferGroup.AdvanceIndex | src/main/java/io/teknek/nibiru/engine/SSTable.java:45 | Moves the cursor one byte forward. |
| SSTable.ReadHeader | src/main/java/io/teknek/nibiru/engine/SSTable.java:41-46 | Matches `ScanHeader` on the unread bytes. On `'\0'` the cursor moves by exactly one. Otherwise it fails with `Corrupt` and the cursor does not move. |
| SSTable.ReadThrough | src/main/java/io/teknek/nibiru/engine/SSTable.java:48-76 | The loop returns the bytes before the first terminator and leaves the unread bytes equal to the rest after the terminator, as `ScanThrough` says. |
| SSTable.EndColumn | src/main/java/io/teknek/nibiru/engine/SSTable.java:78-85 | The loop returns the bytes before the first `'\4'`/`'\n'` and leaves the cursor on it, as `ScanValue` says. |
| SSTable.ReadColumn | src/main/java/io/teknek/nibiru/engine/SSTable.java:90-98 | One pass of the do-while body returns the column and new cursor `ScanColumn` gives, or the same error. |
| SSTable.ColumnsStep | src/main/java/io/teknek/nibiru/engine/SSTable.java:89-100 | The columns still to be read are the next column in front of those after it. The loop stops when that column ends on `'\n'`. |
| SSTable.ColumnsAdvance | src/main/java/io/teknek/nibiru/engine/SSTable.java:89-100 | The loop invariant of `readColumns` survives one more column. An error ends the scan with that error, and `'\n'` after the column ends it with the columns read so far. |
| SSTable.ColumnMapSnoc | src/main/java/io/teknek/nibiru/engine/SSTable.java:99 | `result.put` after the columns so far gives the map of those columns plus the new one. |
| SSTable.ReadColumns | src/main/java/io/teknek/nibiru/engine/SSTable.java:87-102 | The do-while loop returns the map `ColumnMap` builds from the columns `ScanColumns` parses, and leaves the cursor on `'\n'`. Any error comes out as it is. |
| SSTable.Get | src/main/java/io/teknek/nibiru/engine/SSTable.java:104-116 | Returns exactly `Lookup(file, column)`: the column's Val in the first record, nothing if absent, or the parse error. The lemmas above state what that is. |
| SSTable.ColumnsPrefixStep | src/main/java/io/teknek/nibiru/engine/SSTable.java:130-144 | After column j is written, the output holds the first j+1 columns. |
| SSTable.RowsPrefixStep | src/main/java/io/teknek/nibiru/engine/SSTable.java:123-146 | After entry i is written, the output holds the records of the first i+1 entries. |
| SSTable.ColumnWritten | src/main/java/io/teknek/nibiru/engine/SSTable.java:135-143 | The writes of column j, after the bytes of the first j columns, give the bytes of the first j+1 columns. |
| SSTable.RowWritten | src/main/java/io/teknek/nibiru/engine/SSTable.java:124-145 | The writes of entry i, after the records of the first i entries, give the records of the first i+1 entries. |
| SSTable.WritesOfColumn | src/main/java/io/teknek/nibiru/engine/SSTable.java:135-143 | The nine writes of one column append that column's bytes. |
| SSTable.WritesOfRow | src/main/java/io/teknek/nibiru/engine/SSTable.java:124-145 | The writes of one entry append that entry's record. |
| SSTable.FlushToDisk | src/main/java/io/teknek/nibiru/engine/SSTable.java:118-153 | The nested loops write exactly `Flush(m)`, keeping `first` true throughout, so the `'\4'` branch is dead. |
| CountingStream.CountingBufferedOutputStream.constructor | src/main/java/io/teknek/nibiru/io/CountingBufferedOutputStream.java:9-12 | A new stream has written nothing and its counter is 0, so the counter starts out right. |
| CountingStream.CountingBufferedOutputStream.WriteAndCount | src/main/java/io/teknek/nibiru/io/CountingBufferedOutputStream.java:14-17 | Appends the low byte of `b`, adds one to the counter with `long` wrap-around, and keeps a right counter right. |
| CountingStream.CountingBufferedOutputStream.WriteAndCountBytes | src/main/java/io/teknek/nibiru/io/CountingBufferedOutputStream.java:19-22 | Appends every byte of `b`, adds `b.length` to the counter with wrap-around, and keeps a right counter right. |
| CountingStream.CountingBufferedOutputStream.Write | src/main/java/io/teknek/nibiru/io/CountingBufferedOutputStream.java:7 | The inherited `write(int)` appends a byte but leaves the counter alone, so a counter that was right becomes wrong. |
| CountingStream.CountingBufferedOutputStream.GetWrittenOffset | src/main/java/io/teknek/nibiru/io/CountingBufferedOutputStream.java:24-26 | Returns the counter and changes nothing. With only counted writes, that is the number of bytes written, wrapped to a `long`. |
| CountingStream.CounterExact | src/main/java/io/teknek/nibiru/io/CountingBufferedOutputStream.java:9-26 | Until more than `Long.MAX_VALUE` bytes have been written through `writeAndCount`, the counter equals the number of bytes written. |

## Left out

- `SSTable.open` and the constructor are not modelled: they open a hard-coded path with `RandomAccessFile` and a `FileChannel`. `Get` takes the file's bytes as an array instead of memory-mapping the channel.
- `BufferGroup.java` is not part of this model. The buffer is modelled as the whole file plus a cursor, and refills at buffer boundaries and `startOffset` are not modelled.
- Reading past the last byte: the Java code would throw or depend on the unseen buffer refill. Here it is the error `EndOfData`.
- The do-while condition of `get` (`bg.startOffset + bg.currentIndex + 1 < channel.size()`) is never evaluated, because the body always returns. `Get` is therefore straight-line code, and its `row` argument is unused, as in the source.
- Characters and encodings are not modelled. Text is bytes: `(char) byte` sign extension of bytes above 127 and the platform charset of `getBytes()` are left out, so the model is exact for ASCII text.
- `Long.parseLong` also accepts non-ASCII Unicode digits. `Decimal.ParseLong` accepts ASCII digits only.
- `String.valueOf` of a null value (it writes `null`) is not modelled: a `Val`'s value is never null here.
- Exceptions become `Error` values: `Corrupt` with the byte found, `EndOfData`, and `NumberFormat`. Message texts and `IOException` are not modelled.
- The output side of `flushToDisk` is not modelled: creating the file, buffering, closing in `finally`, and the null `output` if the file cannot be opened. The output is the returned byte sequence.
- The Memtable's concurrent maps are not modelled: `ConcurrentSkipListMap`, and iteration while other threads update it. A Memtable is the list of its entries in iteration order. `Memtable.java`, `Token.java` and `Val.java` are not part of this model: their fields are taken from how the code uses them.
- `BufferedOutputStream`'s own buffer and its flushing to the wrapped stream are not modelled: `out` holds every byte the stream has accepted. `writeAndCount(null)` and `IOException` are not modelled.
- `Server.java` and `KeyspaceMetadata.java` are not part of this model.
- SSTable.ReadThrough: on an error, the cursor's final position is not stated. The Java code throws and abandons the reader there.
- SSTable.EndColumn: on an error, the cursor's final position is not stated, for the same reason.
- SSTable.ReadColumn: on an error, the cursor's final position is not stated, for the same reason.
- SSTable.ReadColumns: on an error, the cursor's final position is not stated, for the same reason.
