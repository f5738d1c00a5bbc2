/**
 * Rust's `usize` on a 64-bit target: its range, `wrapping_add` and
 * `usize::from_str` (decimal digits with an optional leading `+`).
 */
module RustUsize {
  import opened Wrappers

  const USIZE_MODULUS: int := 0x1_0000_0000_0000_0000

  type Usize = x: int | 0 <= x < USIZE_MODULUS

  /** `a.wrapping_add(b)`: the sum modulo 2^64. */
  function WrappingAdd(a: Usize, b: Usize): (r: Usize)
    ensures a + b < USIZE_MODULUS ==> r == a + b
    ensures a + b >= USIZE_MODULUS ==> r == a + b - USIZE_MODULUS
  {
    (a + b) % USIZE_MODULUS
  }

  predicate IsDigit(c: char) {
    '0' <= c <= '9'
  }

  predicate AllDigits(s: string) {
    forall k :: 0 <= k < |s| ==> IsDigit(s[k])
  }

  function DigitValue(c: char): (d: nat)
    requires IsDigit(c)
    ensures d < 10
  {
    c as int - '0' as int
  }

  function DigitChar(d: nat): (c: char)
    requires d < 10
    ensures IsDigit(c) && DigitValue(c) == d
  {
    ('0' as int + d) as char
  }

  /** The value of a string of decimal digits, most significant first. */
  function DigitsValue(s: string): nat
    requires AllDigits(s)
    decreases |s|
  {
    if s == [] then 0 else DigitsValue(s[..|s| - 1]) * 10 + DigitValue(s[|s| - 1])
  }

  /** The canonical decimal spelling of `n` (no sign, no leading zeros). */
  function Decimal(n: nat): (s: string)
    ensures |s| > 0 && AllDigits(s)
    ensures n >= 10 ==> s[0] != '0'
    decreases n
  {
    (if n < 10 then "" else Decimal(n / 10)) + [DigitChar(n % 10)]
  }

  lemma {:induction false} DecimalRoundTrip(n: nat)
    ensures DigitsValue(Decimal(n)) == n
    decreases n
  {
    var s := Decimal(n);
    assert s[..|s| - 1] == (if n < 10 then "" else Decimal(n / 10));
    if n >= 10 {
      DecimalRoundTrip(n / 10);
    }
  }

  /**
   * `usize::from_str`: one optional leading `+`, then one or more decimal
   * digits whose value fits in 64 bits; anything else (empty, a lone `+`,
   * a `-`, any other character, overflow) is an error.
   */
  function ParseUsize(s: string): (r: Option<Usize>)
    ensures r.Some? ==> |s| > 0
    ensures r.Some? ==> forall k :: 0 <= k < |s| ==> IsDigit(s[k]) || (k == 0 && s[k] == '+')
    ensures s == "" || s == "+" ==> r.None?
  {
    var digits := if |s| > 0 && s[0] == '+' then s[1..] else s;
    if |digits| > 0 && AllDigits(digits) && DigitsValue(digits) < USIZE_MODULUS
    then Some(DigitsValue(digits))
    else None
  }

  /** Every `usize` is read back from its own decimal spelling. */
  lemma ParseUsizeRoundTrip(n: Usize)
    ensures ParseUsize(Decimal(n)) == Some(n)
  {
    DecimalRoundTrip(n);
  }

  /** A leading `+` is accepted and does not change the value. */
  lemma ParseUsizePlus(s: string)
    requires |s| > 0 && AllDigits(s)
    ensures ParseUsize("+" + s) == ParseUsize(s)
  {
    assert ("+" + s)[1..] == s;
  }
}
