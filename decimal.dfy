/** Decimal text of unsigned integers: `to_string` and `str::parse::<u32>`. */
module Decimal {
  import opened Wrappers

  const U32_LIMIT: nat := 0x1_0000_0000

  predicate IsDigit(c: char) {
    '0' <= c <= '9'
  }

  function DigitChar(d: nat): (c: char)
    requires d < 10
    ensures IsDigit(c)
  {
    ('0' as int + d) as char
  }

  function DigitValue(c: char): (d: nat)
    requires IsDigit(c)
    ensures d < 10 && DigitChar(d) == c
  {
    c as int - '0' as int
  }

  /** `n.to_string()`: the decimal digits of n, most significant first, without leading zeros. */
  function Show(n: nat): (s: string)
    ensures 1 <= |s| && forall i :: 0 <= i < |s| ==> IsDigit(s[i])
    ensures s[0] == '0' <==> n == 0
    ensures n < 10 <==> |s| == 1
  {
    if n < 10 then [DigitChar(n)] else Show(n / 10) + [DigitChar(n % 10)]
  }

  /** The number a string of digits denotes. */
  function Value(s: string): nat
    requires forall i :: 0 <= i < |s| ==> IsDigit(s[i])
  {
    if s == [] then 0 else Value(s[..|s| - 1]) * 10 + DigitValue(s[|s| - 1])
  }

  /** `s.parse::<u32>()`: an optional '+' followed by at least one digit, at most `u32::MAX`. */
  function ParseU32(s: string): (r: Option<nat>)
    ensures r.Some? ==> r.value < U32_LIMIT
    ensures r.Some? ==> exists t :: (s == t || s == "+" + t) && t != [] && forall i :: 0 <= i < |t| ==> IsDigit(t[i])
  {
    var t := if s != [] && s[0] == '+' then s[1..] else s;
    assert s == t || s == "+" + t;
    if t != [] && (forall i :: 0 <= i < |t| ==> IsDigit(t[i])) && Value(t) < U32_LIMIT then Some(Value(t)) else None
  }

  lemma {:induction false} ValueShow(n: nat)
    ensures Value(Show(n)) == n
  {
    if n >= 10 {
      var s := Show(n);
      assert s[..|s| - 1] == Show(n / 10);
      ValueShow(n / 10);
    }
  }

  /** Parsing the text of a `u32` gives the number back. */
  lemma ParseShow(n: nat)
    requires n < U32_LIMIT
    ensures ParseU32(Show(n)) == Some(n)
  {
    ValueShow(n);
  }
}
