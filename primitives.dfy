/** The Java primitive types the engine's code works with, at their real widths. */
module Primitives {

  /** A Java `byte`, seen unsigned: the sentinels and ASCII text all lie in 0..127. */
  type byte = x: int | 0 <= x < 0x100

  const MIN_INT: int := -0x8000_0000
  const MAX_INT: int := 0x7FFF_FFFF

  /** A Java `int`. */
  type Int32 = x: int | MIN_INT <= x <= MAX_INT

  const MIN_LONG: int := -0x8000_0000_0000_0000
  const MAX_LONG: int := 0x7FFF_FFFF_FFFF_FFFF
  const LONG_MODULUS: int := 0x1_0000_0000_0000_0000

  /** A Java `long`. */
  type Long = x: int | MIN_LONG <= x <= MAX_LONG

  /** Two's-complement wrap-around of `long` arithmetic: the `Long` congruent to `x` modulo 2^64. */
  function WrapLong(x: int): (r: Long)
    ensures (x - r) % LONG_MODULUS == 0
    ensures MIN_LONG <= x <= MAX_LONG ==> r == x
  {
    var m := x % LONG_MODULUS;
    if m > MAX_LONG then m - LONG_MODULUS else m
  }

  /** Adding to a wrapped value and wrapping again is the same as wrapping the exact sum. */
  lemma WrapLongAdd(a: int, b: int)
    ensures WrapLong(WrapLong(a) + b) == WrapLong(a + b)
  {
    var w := WrapLong(a);
    var k := (a - w) / LONG_MODULUS;
    assert a - w == k * LONG_MODULUS;
    assert (w + b) % LONG_MODULUS == (a + b) % LONG_MODULUS;
  }

  /** Wrapping never maps two neighbouring integers to the same `long`. */
  lemma WrapLongSucc(x: int)
    ensures WrapLong(x + 1) != WrapLong(x)
  {
  }

  /** Java's `(byte) b` narrowing: the low eight bits of an `int`. */
  function LowByte(b: Int32): (r: byte)
    ensures (b - r) % 0x100 == 0
    ensures 0 <= b < 0x100 ==> r == b
  {
    b % 0x100
  }
}
