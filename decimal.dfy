/// Decimal text of `int64` values: `fmt.Sprintf("%d", …)` when the index is
/// written and `parseInt64` (strconv.ParseInt in base 10, 64 bits) when it is
/// read back.
module Decimal {
  import opened Types
  import opened Wrappers

  const Digits: string := "0123456789"

  predicate IsDigit(c: char) {
    '0' <= c <= '9'
  }

  predicate AllDigits(s: string) {
    forall i :: 0 <= i < |s| ==> IsDigit(s[i])
  }

  function DigitChar(d: int): (c: char)
    requires 0 <= d < 10
    ensures IsDigit(c)
  {
    Digits[d]
  }

  function DigitValue(c: char): (d: int)
    requires IsDigit(c)
    ensures 0 <= d < 10 && DigitChar(d) == c
  {
    c as int - '0' as int
  }

  /// Value of a string of decimal digits, most significant digit first;
  /// leading zeros do not matter.
  function DigitsValue(s: string): (r: nat)
    requires AllDigits(s)
  {
    if s == [] then 0 else DigitsValue(s[..|s| - 1]) * 10 + DigitValue(s[|s| - 1])
  }

  /// `%d` of a non-negative number: at least one digit, no leading zero.
  function FormatNat(n: nat): (s: string)
    ensures |s| >= 1 && AllDigits(s)
    ensures s[0] == '0' <==> n == 0
  {
    if n < 10 then [DigitChar(n)] else FormatNat(n / 10) + [DigitChar(n % 10)]
  }

  /// `%d` of an `int64`: a minus sign before the digits of a negative value.
  function FormatInt(n: int64): (s: string)
    ensures |s| >= 1 && (s[0] == '-' <==> n < 0)
    ensures forall i :: 0 <= i < |s| ==> s[i] == '-' || IsDigit(s[i])
  {
    if n < 0 then "-" + FormatNat(-(n as int)) else FormatNat(n)
  }

  /// `strconv.ParseInt(s, 10, 64)`: an optional `+` or `-`, then one or more
  /// decimal digits (leading zeros allowed), and a value in the `int64` range;
  /// anything else is a syntax or range error.
  function ParseInt64(s: string): (r: Option<int64>)
    ensures r.Some? ==> s != ""
    ensures r.Some? ==>
              var body := if s[0] == '+' || s[0] == '-' then s[1..] else s;
              && body != "" && AllDigits(body)
              && r.value == if s[0] == '-' then -(DigitsValue(body) as int) else DigitsValue(body)
    ensures (s != "" &&
             var body := if s[0] == '+' || s[0] == '-' then s[1..] else s;
             && body != "" && AllDigits(body)
             && if s[0] == '-' then DigitsValue(body) <= -Int64Min else DigitsValue(body) <= Int64Max)
            ==> r.Some?
  {
    if s == "" then None
    else
      var body := if s[0] == '+' || s[0] == '-' then s[1..] else s;
      if body == "" || !AllDigits(body) then None
      else
        var v := DigitsValue(body);
        if s[0] == '-' then
          if v <= -Int64Min then Some(-(v as int)) else None
        else
          if v <= Int64Max then Some(v) else None
  }

  lemma {:induction false} DigitsValueOfFormat(n: nat)
    ensures DigitsValue(FormatNat(n)) == n
  {
    if n >= 10 {
      var s := FormatNat(n);
      assert s[..|s| - 1] == FormatNat(n / 10);
      DigitsValueOfFormat(n / 10);
    }
  }

  /// Reading back the digits of any natural number gives it back exactly when
  /// it fits in an `int64`; a larger one is a range error.
  lemma ParseFormatNat(n: nat)
    ensures ParseInt64(FormatNat(n)) == if n <= Int64Max then Some(n) else None
  {
    DigitsValueOfFormat(n);
  }

  /// The same with a minus sign: the least `int64` is accepted, one below it is not.
  lemma ParseNegatedFormatNat(n: nat)
    ensures ParseInt64("-" + FormatNat(n)) == if n <= -Int64Min then Some(-(n as int)) else None
  {
    DigitsValueOfFormat(n);
    assert ("-" + FormatNat(n))[1..] == FormatNat(n);
  }

  /// Every `int64` written with `%d` is read back unchanged by `parseInt64`.
  lemma ParseFormatRoundTrip(n: int64)
    ensures ParseInt64(FormatInt(n)) == Some(n)
  {
    if n < 0 {
      ParseNegatedFormatNat(-(n as int));
    } else {
      ParseFormatNat(n);
    }
  }

  /// Leading zeros and a plus sign are accepted; a bare sign is not.
  lemma ParseInt64Examples()
    ensures ParseInt64("007") == Some(7)
    ensures ParseInt64("+42") == Some(42)
    ensures ParseInt64("-0") == Some(0)
    ensures ParseInt64("-") == None
    ensures ParseInt64("") == None
    ensures ParseInt64("1a") == None
  {
    assert DigitsValue("007") == 7 by {
      assert "007"[..2] == "00" && "00"[..1] == "0" && "0"[..0] == "";
    }
    assert "+42"[1..] == "42";
    assert DigitsValue("42") == 42 by {
      assert "42"[..1] == "4" && "4"[..0] == "";
    }
    assert "-0"[1..] == "0";
    assert DigitsValue("0") == 0 by {
      assert "0"[..0] == "";
    }
    assert !AllDigits("1a") by { assert !IsDigit("1a"[1]); }
  }
}
