/** Rust's `str::parse::<i32>` and the decimal rendering of an `i32`. */
module Decimal {
  import opened Wrappers

  newtype int32 = x: int | -0x8000_0000 <= x < 0x8000_0000

  predicate InI32Range(v: int) {
    -0x8000_0000 <= v < 0x8000_0000
  }

  predicate IsDigit(c: char) {
    '0' <= c <= '9'
  }

  predicate AllDigits(s: string) {
    forall i :: 0 <= i < |s| ==> IsDigit(s[i])
  }

  /** The value of a string of decimal digits, most significant first. */
  function DigitsValue(s: string): (v: nat)
    requires AllDigits(s)
  {
    if s == [] then 0
    else DigitsValue(s[..|s| - 1]) * 10 + (s[|s| - 1] as int - '0' as int)
  }

  /** The decimal digits of `n`, without leading zeros. */
  function ShowNat(n: nat): (r: string)
    ensures r != [] && AllDigits(r)
    ensures DigitsValue(r) == n
  {
    if n < 10 then [('0' as int + n) as char]
    else
      var r := ShowNat(n / 10) + [('0' as int + n % 10) as char];
      assert r[..|r| - 1] == ShowNat(n / 10);
      r
  }

  /** Decimal rendering of an integer, with a leading `-` when negative. */
  function ShowInt(n: int): (r: string)
    ensures r != []
    ensures forall i :: 0 <= i < |r| ==> IsDigit(r[i]) || (i == 0 && r[i] == '-')
  {
    if n < 0 then "-" + ShowNat(-n) else ShowNat(n)
  }

  /** Rust's `i32::from_str`: an optional `+` or `-`, then one or more ASCII
      digits whose value lies in the `i32` range; anything else is an error. */
  function ParseI32(s: string): (r: Option<int32>)
    ensures r.Some? ==> s != [] && s != "-" && s != "+"
  {
    var negative := |s| > 0 && s[0] == '-';
    var digits := if |s| > 0 && (s[0] == '-' || s[0] == '+') then s[1..] else s;
    if digits == [] || !AllDigits(digits) then None
    else
      var magnitude: int := DigitsValue(digits);
      var v := if negative then -magnitude else magnitude;
      if InI32Range(v) then Some(v as int32) else None
  }

  /** Parsing the rendering of any integer gives it back exactly when it fits
      in an `i32`, and fails otherwise (overflow). */
  lemma ParseShowInt(n: int)
    ensures ParseI32(ShowInt(n)) == if InI32Range(n) then Some(n as int32) else None
  {
    var s := ShowInt(n);
    if n < 0 {
      assert s[0] == '-';
      assert s[1..] == ShowNat(-n);
    } else {
      assert IsDigit(s[0]);
    }
  }

  /** The `i32` round trip used by `exit N`. */
  lemma ParseShowI32(n: int32)
    ensures ParseI32(ShowInt(n as int)) == Some(n)
  {
    ParseShowInt(n as int);
  }

  /** A character that is not a digit, anywhere but in a leading sign,
      makes parsing fail. */
  lemma ParseRejectsNonDigit(s: string, k: int)
    requires 0 <= k < |s| && !IsDigit(s[k])
    requires k > 0 || (s[0] != '-' && s[0] != '+')
    ensures ParseI32(s) == None
  {
    if s[0] == '-' || s[0] == '+' {
      assert s[1..][k - 1] == s[k];
    }
  }

  /** A word of letters is not a number. */
  lemma ParseRejectsWord()
    ensures ParseI32("abc") == None
  {
    ParseRejectsNonDigit("abc", 0);
  }

  /** A run of digits, alone or behind one sign, parses to its value, or
      fails when that value is outside the `i32` range. */
  lemma ParseDigits(s: string)
    requires s != [] && AllDigits(s)
    ensures ParseI32(s) ==
              if DigitsValue(s) < 0x8000_0000 then Some(DigitsValue(s) as int32) else None
    ensures ParseI32("+" + s) ==
              if DigitsValue(s) < 0x8000_0000 then Some(DigitsValue(s) as int32) else None
    ensures ParseI32("-" + s) ==
              if DigitsValue(s) <= 0x8000_0000 then Some((-(DigitsValue(s) as int)) as int32) else None
  {
    assert IsDigit(s[0]);
    assert ("+" + s)[1..] == s;
    assert ("-" + s)[1..] == s;
  }
}
