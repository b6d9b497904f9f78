/**
 * Decimal text of `long` values, as the SSTable writer produces it with
 * `String.valueOf(long)` and the reader consumes it with `Long.parseLong`.
 */
module Decimal {
  import opened Wrappers
  import opened Primitives

  const MINUS: byte := 45  // '-'
  const PLUS: byte := 43   // '+'
  const ZERO: byte := 48   // '0'

  predicate IsDigit(b: byte) {
    ZERO <= b <= ZERO + 9
  }

  predicate AllDigits(s: seq<byte>) {
    forall i :: 0 <= i < |s| ==> IsDigit(s[i])
  }

  /** The decimal digits of `n`, most significant first, without leading zeros. */
  function Digits(n: nat): (s: seq<byte>)
    ensures |s| >= 1 && AllDigits(s)
    ensures s[0] == ZERO ==> n == 0
    decreases n
  {
    if n < 10 then [(48 + n) as byte]
    else Digits(n / 10) + [(48 + n % 10) as byte]
  }

  /** The number a string of decimal digits denotes (leading zeros allowed). */
  function DigitsValue(s: seq<byte>): nat
    requires AllDigits(s)
  {
    if |s| == 0 then 0 else DigitsValue(s[..|s| - 1]) * 10 + (s[|s| - 1] - ZERO)
  }

  /** `String.valueOf(long)`: an optional '-' followed by the digits of the magnitude. */
  function ValueOf(n: Long): (s: seq<byte>)
    ensures |s| >= 1
    ensures forall i :: 0 <= i < |s| ==> s[i] == MINUS || IsDigit(s[i])
  {
    if n < 0 then [MINUS] + Digits(-(n as int)) else Digits(n)
  }

  /** The text of `n` starts with '-' exactly when `n` is negative, and every other byte is a digit. */
  lemma ValueOfShape(n: Long)
    ensures ValueOf(n)[0] == MINUS <==> n < 0
    ensures AllDigits(if n < 0 then ValueOf(n)[1..] else ValueOf(n))
  {
    if n < 0 {
      assert ValueOf(n)[1..] == Digits(-(n as int));
    }
  }

  /**
   * `Long.parseLong` on ASCII text: an optional sign, at least one digit, and
   * a value within the `long` range; anything else is a number format failure.
   */
  function ParseLong(s: seq<byte>): (r: Option<Long>)
    ensures |s| == 0 ==> r.None?
    ensures r.Some? ==> IsDigit(s[0]) || (|s| > 1 && (s[0] == MINUS || s[0] == PLUS))
    ensures r.Some? ==> forall i :: 0 < i < |s| ==> IsDigit(s[i])
    ensures r.Some? && r.value < 0 ==> s[0] == MINUS
  {
    var signed := |s| > 0 && (s[0] == MINUS || s[0] == PLUS);
    var digits := if signed then s[1..] else s;
    if |digits| == 0 || !AllDigits(digits) then None
    else
      var magnitude: int := DigitsValue(digits);
      var v: int := if |s| > 0 && s[0] == MINUS then -magnitude else magnitude;
      if MIN_LONG <= v <= MAX_LONG then Some(v) else None
  }

  lemma {:induction false} DigitsValueOfDigits(n: nat)
    ensures DigitsValue(Digits(n)) == n
    decreases n
  {
    if n >= 10 {
      DigitsValueOfDigits(n / 10);
      var s := Digits(n);
      assert s[..|s| - 1] == Digits(n / 10);
    }
  }

  /** The reader recovers every number the writer prints: `parseLong(valueOf(n)) == n`. */
  lemma ParseLongValueOf(n: Long)
    ensures ParseLong(ValueOf(n)) == Some(n)
  {
    var text := ValueOf(n);
    if n < 0 {
      var d := Digits(-(n as int));
      DigitsValueOfDigits(-(n as int));
      assert text == [MINUS] + d && text[1..] == d;
    } else {
      DigitsValueOfDigits(n);
      assert text == Digits(n) && IsDigit(text[0]);
    }
  }
}
