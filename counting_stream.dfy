/**
 * A buffered output stream that counts the bytes handed to it through its
 * `writeAndCount` methods, so that a writer can learn the offset at which the
 * next byte will land.
 */
module CountingStream {
  import opened Primitives

  class CountingBufferedOutputStream {
    /** The bytes handed to the underlying buffered stream, in order. */
    var out: seq<byte>
    /** The Java `long` counter; it wraps around modulo 2^64 like the field it models. */
    var writtenOffset: Long

    /** The counter agrees with the bytes written: it holds their number, as a `long`. */
    ghost predicate Counted()
      reads this
    {
      writtenOffset == WrapLong(|out|)
    }

    /** A new stream has written nothing, and its counter starts at its default of zero. */
    constructor()
      ensures out == [] && writtenOffset == 0
      ensures Counted()
    {
      out := [];
      writtenOffset := 0;
    }

    /** `writeAndCount(int)`: writes the low byte of `b` and counts one byte. */
    method WriteAndCount(b: Int32)
      modifies this
      ensures out == old(out) + [LowByte(b)]
      ensures writtenOffset == WrapLong(old(writtenOffset) + 1)
      ensures old(Counted()) ==> Counted()
    {
      out := out + [LowByte(b)];
      WrapLongAdd(|old(out)|, 1);
      writtenOffset := WrapLong(writtenOffset + 1);
    }

    /** `writeAndCount(byte[])`: writes every byte of `b` and counts `b.length` bytes. */
    method WriteAndCountBytes(b: array<byte>)
      modifies this
      ensures out == old(out) + b[..]
      ensures writtenOffset == WrapLong(old(writtenOffset) + b.Length)
      ensures old(Counted()) ==> Counted()
    {
      out := out + b[..];
      WrapLongAdd(|old(out)|, b.Length);
      writtenOffset := WrapLong(writtenOffset + b.Length);
    }

    /**
     * The `write(int)` inherited from `BufferedOutputStream`: the byte is
     * written but not counted, so a counter that was right is now wrong.
     */
    method Write(b: Int32)
      modifies this
      ensures out == old(out) + [LowByte(b)]
      ensures writtenOffset == old(writtenOffset)
      ensures old(Counted()) ==> !Counted()
    {
      out := out + [LowByte(b)];
      if old(Counted()) {
        WrapLongSucc(|old(out)|);
      }
    }

    /** `getWrittenOffset`: reads the counter; with only counted writes it is the number of bytes written. */
    method GetWrittenOffset() returns (r: Long)
      ensures r == writtenOffset
      ensures Counted() ==> r == WrapLong(|out|)
    {
      r := writtenOffset;
    }
  }

  /** Until more than `Long.MAX_VALUE` bytes have been written, the counter is exactly their number. */
  lemma CounterExact(s: CountingBufferedOutputStream)
    requires s.Counted() && |s.out| <= MAX_LONG
    ensures s.writtenOffset == |s.out|
  {
  }
}
