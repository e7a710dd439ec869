/** Decimal integers as text: Python's `int(token)` on the tokens the parser
    meets, and the `f"{i}"` rendering used for core names. */
module Decimal {
  import opened Outcomes

  predicate IsDigit(c: char) {
    '0' <= c <= '9'
  }

  predicate AllDigits(s: string) {
    forall k :: 0 <= k < |s| ==> IsDigit(s[k])
  }

  function DigitValue(c: char): (d: nat)
    requires IsDigit(c)
  {
    (c as int) - ('0' as int)
  }

  function DigitChar(d: nat): (c: char)
    requires d < 10
    ensures IsDigit(c) && DigitValue(c) == d
  {
    ('0' as int + d) as char
  }

  /** The value of a run of decimal digits, most significant first. */
  function DigitsValue(s: string): (n: nat)
    requires AllDigits(s)
    decreases |s|
  {
    if |s| == 0 then 0
    else DigitsValue(s[..|s| - 1]) * 10 + DigitValue(s[|s| - 1])
  }

  /** An unsigned decimal literal; leading zeros are accepted, as by `int()`. */
  function ParseNat(s: string): (r: Option<nat>)
    ensures r.Some? <==> |s| > 0 && AllDigits(s)
  {
    if |s| > 0 && AllDigits(s) then Some(DigitsValue(s)) else None
  }

  /** `int(s)` for a token without whitespace: an optional `+` or `-` followed
      by at least one decimal digit. */
  function ParseInt(s: string): (r: Option<int>)
    ensures r.Some? <==>
      (|s| > 0 && AllDigits(s)) ||
      (|s| > 1 && (s[0] == '+' || s[0] == '-') && AllDigits(s[1..]))
    ensures r.Some? && r.value < 0 ==> s[0] == '-'
  {
    if |s| > 0 && (s[0] == '+' || s[0] == '-') then
      match ParseNat(s[1..])
      case None => None
      case Some(n) =>
        var v: int := if s[0] == '-' then -(n as int) else n;
        Some(v)
    else
      match ParseNat(s)
      case None => None
      case Some(n) => Some(n)
  }

  /** Decimal rendering of a natural number, as Python's `str`/f-string does it. */
  function ShowNat(n: nat): (s: string)
    ensures |s| > 0 && AllDigits(s)
    ensures s[0] == '0' ==> n == 0
    decreases n
  {
    if n < 10 then [DigitChar(n)] else ShowNat(n / 10) + [DigitChar(n % 10)]
  }

  function ShowInt(x: int): (s: string)
    ensures |s| > 0
  {
    if x < 0 then "-" + ShowNat(-x) else ShowNat(x)
  }

  lemma {:induction false} ParseShowNat(n: nat)
    ensures ParseNat(ShowNat(n)) == Some(n)
    decreases n
  {
    var s := ShowNat(n);
    if n >= 10 {
      ParseShowNat(n / 10);
      assert s[..|s| - 1] == ShowNat(n / 10);
      assert DigitsValue(s) == (n / 10) * 10 + n % 10;
    } else {
      assert s[..|s| - 1] == [];
      assert DigitsValue(s) == n;
    }
  }

  /** Rendering an integer and reading it back with `int()` is the identity. */
  lemma ParseShowInt(x: int)
    ensures ParseInt(ShowInt(x)) == Some(x)
  {
    if x < 0 {
      ParseShowNat(-x);
      assert ShowInt(x)[1..] == ShowNat(-x);
    } else {
      ParseShowNat(x);
    }
  }
}
