/** Decimal text of integers: `%d` printing and `strconv.ParseInt(s, 10, 64)`. */
module Decimal {
  import opened Wrappers

  const MIN_INT64 := -0x8000_0000_0000_0000
  const MAX_INT64 := 0x7FFF_FFFF_FFFF_FFFF

  predicate IsInt64(i: int) {
    MIN_INT64 <= i <= MAX_INT64
  }

  predicate IsDigit(c: char) {
    '0' <= c <= '9'
  }

  predicate AllDigits(s: string) {
    forall i :: 0 <= i < |s| ==> IsDigit(s[i])
  }

  function DigitValue(c: char): int
    requires IsDigit(c)
  {
    c as int - '0' as int
  }

  function DigitChar(d: int): (c: char)
    requires 0 <= d <= 9
    ensures IsDigit(c) && DigitValue(c) == d
  {
    ['0', '1', '2', '3', '4', '5', '6', '7', '8', '9'][d]
  }

  function NatText(n: nat): (s: string)
    ensures s != [] && AllDigits(s)
  {
    if n < 10 then [DigitChar(n)] else NatText(n / 10) + [DigitChar(n % 10)]
  }

  function NatValue(s: string): (n: nat)
    requires AllDigits(s)
  {
    if s == [] then 0 else 10 * NatValue(s[..|s| - 1]) + DigitValue(s[|s| - 1])
  }

  function IntText(i: int): (s: string) {
    if i < 0 then "-" + NatText(-i) else NatText(i)
  }

  /** `strconv.ParseInt(s, 10, 64)`: an optional sign, at least one digit, 64-bit range. */
  function ParseInt64(s: string): (r: Option<int>)
    ensures r.Some? ==> IsInt64(r.value)
  {
    if s != [] && s[0] in {'+', '-'} then
      ParseMagnitude(s[1..], s[0] == '-')
    else
      ParseMagnitude(s, false)
  }

  function ParseMagnitude(digits: string, negative: bool): (r: Option<int>)
    ensures r.Some? ==> IsInt64(r.value)
  {
    if digits == [] || !AllDigits(digits) then None
    else
      var n: int := NatValue(digits);
      var i := if negative then -n else n;
      if IsInt64(i) then Some(i) else None
  }

  lemma {:induction false} NatRoundTrip(n: nat)
    ensures NatValue(NatText(n)) == n
  {
    if n >= 10 {
      NatRoundTrip(n / 10);
      var s := NatText(n);
      assert s[..|s| - 1] == NatText(n / 10);
    }
  }

  /** Zeros in front do not change the number. */
  lemma {:induction false} LeadingZero(digits: string)
    requires AllDigits(digits)
    ensures AllDigits("0" + digits) && NatValue("0" + digits) == NatValue(digits)
  {
    var s := "0" + digits;
    if digits == "" {
      assert s[..0] == "";
    } else {
      LeadingZero(digits[..|digits| - 1]);
      assert s[..|s| - 1] == "0" + digits[..|digits| - 1];
    }
  }

  /** A plus sign does not either, and a minus sign negates it. */
  lemma SignedExactly(digits: string)
    requires AllDigits(digits) && digits != ""
    ensures var n: int := NatValue(digits);
            && ParseInt64(digits) == ParseInt64("+" + digits) == (if n <= MAX_INT64 then Some(n) else None)
            && ParseInt64("-" + digits) == (if -n >= MIN_INT64 then Some(-n) else None)
  {
    assert ("+" + digits)[1..] == digits && ("-" + digits)[1..] == digits;
    assert IsDigit(digits[0]);
  }

  /** Printing with `%d` and reading back is the identity on 64-bit integers. */
  lemma IntRoundTrip(i: int)
    requires IsInt64(i)
    ensures ParseInt64(IntText(i)) == Some(i)
  {
    var n: nat := if i < 0 then -i else i;
    var digits := NatText(n);
    NatRoundTrip(n);
    assert ParseMagnitude(digits, i < 0) == Some(i);
    if i < 0 {
      assert ("-" + digits)[1..] == digits;
    } else {
      assert IsDigit(digits[0]);
    }
  }
}
