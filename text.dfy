/**
 * Decimal rendering and parsing of integers, ASCII lower-casing and ASCII
 * whitespace: the parts of Rust's `Display`, `str::parse` and `char` that the
 * bot relies on.
 */
module Text {
  import opened Wrappers

  predicate IsDigit(c: char) {
    '0' <= c <= '9'
  }

  predicate AllDigits(s: string) {
    forall i :: 0 <= i < |s| ==> IsDigit(s[i])
  }

  /** `char::is_whitespace`, restricted to ASCII: space, tab, LF, VT, FF, CR. */
  predicate IsWhitespace(c: char) {
    c == ' ' || '\t' <= c <= '\r'
  }

  function DigitChar(d: nat): (c: char)
    requires d < 10
    ensures IsDigit(c)
  {
    "0123456789"[d]
  }

  function DigitValue(c: char): (d: nat)
    requires IsDigit(c)
    ensures d < 10
  {
    (c as int - '0' as int) as nat
  }

  /** `format!("{}", n)` for a non-negative integer. */
  function NatToString(n: nat): (s: string)
    ensures |s| >= 1 && AllDigits(s)
    ensures s[0] == '0' ==> n == 0 && s == "0"
  {
    if n < 10 then [DigitChar(n)] else NatToString(n / 10) + [DigitChar(n % 10)]
  }

  /** `format!("{}", i)` for any integer: a minus sign, then the digits of its magnitude. */
  function IntToString(i: int): (s: string)
    ensures i >= 0 ==> s == NatToString(i)
    ensures i < 0 ==> s == "-" + NatToString(-i)
  {
    if i < 0 then "-" + NatToString(-i) else NatToString(i)
  }

  /** The number a string of decimal digits denotes. */
  function DigitsValue(s: string): nat
    requires AllDigits(s)
  {
    if s == [] then 0 else DigitsValue(s[..|s| - 1]) * 10 + DigitValue(s[|s| - 1])
  }

  /**
   * Rust's `str::parse` for a primitive integer type whose range is lo..=hi:
   * an optional `+` (or, for a signed type, `-`), then at least one ASCII
   * digit and nothing else; out-of-range values are errors.
   */
  function ParseInteger(s: string, signed: bool, lo: int, hi: int): (r: Option<int>)
    ensures r.Some? ==> lo <= r.value <= hi && |s| >= 1
    ensures r.Some? && s[0] != '-' ==> r.value >= 0
  {
    if s == [] then None
    else
      var negative := signed && s[0] == '-';
      var digits := if s[0] == '+' || negative then s[1..] else s;
      if digits == [] || !AllDigits(digits) then None
      else
        var v: int := if negative then 0 - DigitsValue(digits) as int else DigitsValue(digits);
        if lo <= v <= hi then Some(v) else None
  }

  const I32Min := -0x8000_0000
  const I32Max := 0x7fff_ffff
  const U64Max := 0xffff_ffff_ffff_ffff

  /** `s.parse::<i32>()` */
  function ParseI32(s: string): Option<int> {
    ParseInteger(s, true, I32Min, I32Max)
  }

  /** `s.parse::<u64>()`; `usize` is 64 bits wide on the targets the bot runs on. */
  function ParseU64(s: string): Option<int> {
    ParseInteger(s, false, 0, U64Max)
  }

  lemma {:induction false} DigitsOfNat(n: nat)
    ensures DigitsValue(NatToString(n)) == n
  {
    var s := NatToString(n);
    if n >= 10 {
      DigitsOfNat(n / 10);
      assert s[..|s| - 1] == NatToString(n / 10);
    }
  }

  /** Parsing what `format!` printed gives the number back. */
  lemma ParsePrinted(n: nat)
    requires n <= U64Max
    ensures ParseU64(NatToString(n)) == Some(n)
    ensures n <= I32Max ==> ParseI32(NatToString(n)) == Some(n)
  {
    DigitsOfNat(n);
  }

  /** Parsing what `format!` printed gives back any `i32`, negative ones included. */
  lemma ParsePrintedI32(i: int)
    requires I32Min <= i <= I32Max
    ensures ParseI32(IntToString(i)) == Some(i)
  {
    if i >= 0 {
      ParsePrinted(i);
    } else {
      DigitsOfNat(-i);
      assert IntToString(i)[1..] == NatToString(-i);
    }
  }

  /** ASCII lower-casing of one character (`char::to_lowercase` on ASCII). */
  function LowerChar(c: char): (l: char)
    ensures !('A' <= l <= 'Z')
    ensures !('A' <= c <= 'Z') ==> l == c
  {
    if 'A' <= c <= 'Z' then (c as int - 'A' as int + 'a' as int) as char else c
  }

  /** `str::to_lowercase`, ASCII only. */
  function ToLower(s: string): (r: string)
    ensures |r| == |s|
    ensures forall i :: 0 <= i < |s| ==> r[i] == LowerChar(s[i])
  {
    if s == [] then [] else [LowerChar(s[0])] + ToLower(s[1..])
  }
}
