/**
  Decimal printing and parsing of machine integers: Rust's `to_string` and `str::parse` for
  `u64`, `usize` (64 bit) and `i64`, and the `as` casts between `u64` and `i64`.
 */
module Decimal {
  import opened Text
  import Utf8

  const TWO_TO_THE_63: int := 0x8000_0000_0000_0000
  const TWO_TO_THE_64: int := 0x1_0000_0000_0000_0000

  type U64 = n: int | 0 <= n < 0x1_0000_0000_0000_0000
  type I64 = n: int | -0x8000_0000_0000_0000 <= n < 0x8000_0000_0000_0000

  predicate IsDigit(c: Byte) {
    '0' <= c <= '9'
  }

  predicate AllDigits(s: Bytes) {
    forall i :: 0 <= i < |s| ==> IsDigit(s[i])
  }

  function Digit(d: nat): Byte
    requires d < 10
  {
    (d + 48) as char
  }

  function Print(n: nat): (s: Bytes)
    ensures s != [] && AllDigits(s)
  {
    if n < 10 then [Digit(n)] else Print(n / 10) + [Digit(n % 10)]
  }

  function PrintInt(n: int): Bytes {
    if n < 0 then "-" + Print(-n) else Print(n)
  }

  /** Value of a digit string, most significant digit first. */
  function Value(s: Bytes): nat
    requires AllDigits(s)
  {
    if s == [] then 0 else Value(s[..|s| - 1]) * 10 + (s[|s| - 1] as int - 48)
  }

  /** `parse::<u64>()` and `parse::<usize>()`: an optional plus sign, digits, no overflow. */
  function ParseU64(s: Bytes): Option<U64> {
    var body := if |s| > 1 && s[0] == '+' then s[1..] else s;
    if body != [] && AllDigits(body) && Value(body) < TWO_TO_THE_64 then Some(Value(body)) else None
  }

  /** `parse::<i64>()`: an optional sign, digits, no overflow. */
  function ParseI64(s: Bytes): Option<I64> {
    var negative := |s| > 1 && s[0] == '-';
    var body := if negative || (|s| > 1 && s[0] == '+') then s[1..] else s;
    if body == [] || !AllDigits(body) then None
    else
      var magnitude: int := Value(body);
      var v := if negative then -magnitude else magnitude;
      if -TWO_TO_THE_63 <= v < TWO_TO_THE_63 then Some(v) else None
  }

  /** `u64 as i64`. */
  function AsI64(n: U64): I64 {
    if n < TWO_TO_THE_63 then n else n - TWO_TO_THE_64
  }

  /** `i64 as u64`. */
  function AsU64(n: I64): U64 {
    if n < 0 then n + TWO_TO_THE_64 else n
  }

  lemma {:induction false} PrintValue(n: nat)
    ensures Value(Print(n)) == n
  {
    if n >= 10 {
      PrintValue(n / 10);
      assert Print(n)[..|Print(n)| - 1] == Print(n / 10);
    } else {
      assert Print(n)[..0] == [];
    }
  }

  lemma ParsePrintU64(n: U64)
    ensures ParseU64(Print(n)) == Some(n)
  {
    PrintValue(n);
  }

  lemma ParsePrintI64(n: I64)
    ensures ParseI64(PrintInt(n)) == Some(n)
  {
    hide Value, Print;
    if n < 0 {
      var m: int := n;
      PrintValue(-m);
      assert PrintInt(n)[1..] == Print(-m);
    } else {
      PrintValue(n);
    }
  }

  /** Printed integers are single-line ASCII text. */
  lemma PrintIsText(n: int)
    ensures '\n' !in PrintInt(n)
    ensures Utf8.Valid(PrintInt(n))
    ensures PrintInt(n) != []
    ensures forall i :: 0 <= i < |PrintInt(n)| ==> IsDigit(PrintInt(n)[i]) || PrintInt(n)[i] == '-'
  {
    var s := PrintInt(n);
    assert forall i :: 0 <= i < |s| ==> IsDigit(s[i]) || s[i] == '-';
    Utf8.AsciiValid(s);
  }

  /** The two casts undo each other on every value, including those at or above 2^63. */
  lemma CastRoundTrip(n: U64, z: I64)
    ensures AsU64(AsI64(n)) == n
    ensures AsI64(AsU64(z)) == z
  {
  }
}
