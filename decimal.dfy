/**
 * Base-10 integers as text: Go's strconv.ParseInt(s, 10, 32), which reads an
 * optional sign and one or more decimal digits and rejects values outside the
 * 32-bit signed range, and the `%d` rendering the messages use.
 */
module Decimal {
  import opened Results

  const Int32Min: int := -0x8000_0000
  const Int32Max: int := 0x7FFF_FFFF

  predicate InInt32(n: int) {
    Int32Min <= n <= Int32Max
  }

  predicate IsDigit(c: char) {
    '0' <= c <= '9'
  }

  predicate AllDigits(s: string) {
    forall i :: 0 <= i < |s| ==> IsDigit(s[i])
  }

  /** The number a run of decimal digits denotes, leading zeros allowed. */
  function DigitsValue(s: string): nat
    requires AllDigits(s)
    decreases |s|
  {
    if s == [] then 0 else DigitsValue(s[..|s| - 1]) * 10 + (s[|s| - 1] as int - '0' as int)
  }

  function DigitChar(d: int): char
    requires 0 <= d < 10
  {
    ('0' as int + d) as char
  }

  /** The shortest decimal digits of `n`. */
  function Digits(n: nat): (r: string)
    ensures r != [] && AllDigits(r)
    ensures DigitsValue(r) == n
    ensures n > 0 ==> r[0] != '0'
    ensures r[0] == '0' ==> r == "0"
    decreases n
  {
    if n < 10 then [DigitChar(n)]
    else
      var high := Digits(n / 10);
      var r := high + [DigitChar(n % 10)];
      assert r[..|r| - 1] == high;
      r
  }

  /** `n` written with `%d`: a minus sign for negative numbers, then its digits. */
  function Render(n: int): (r: string)
    ensures r != []
  {
    if n < 0 then "-" + Digits(-n) else Digits(n)
  }

  /**
   * strconv.ParseInt(s, 10, 32): an optional `+` or `-`, then at least one
   * decimal digit and nothing else (base 10 admits no prefix and no
   * underscores), with a value in the 32-bit signed range; None stands for
   * both the syntax and the range error.
   */
  function ParseInt32(s: string): (r: Option<int>)
    ensures r.Some? ==> InInt32(r.value)
    ensures r.Some? ==> s != []
  {
    var signed := s != [] && (s[0] == '+' || s[0] == '-');
    var digits := if signed then s[1..] else s;
    if digits == [] || !AllDigits(digits) then None
    else
      var magnitude: int := DigitsValue(digits);
      var v := if signed && s[0] == '-' then -magnitude else magnitude;
      if InInt32(v) then Some(v) else None
  }

  /**
   * Reading back what `%d` wrote gives the number itself when it fits in 32
   * bits and the range error when it does not.
   */
  lemma ParseRender(n: int)
    ensures ParseInt32(Render(n)) == if InInt32(n) then Some(n) else None
  {
    var s := Render(n);
    if n < 0 {
      assert s[0] == '-' && s[1..] == Digits(-n);
    } else {
      assert IsDigit(s[0]);
    }
  }

  /** Texts that are not a signed decimal are refused: the empty text, a bare sign, letters. */
  lemma ParseRejectsNonNumbers()
    ensures ParseInt32("") == None
    ensures ParseInt32("-") == None && ParseInt32("+") == None
    ensures ParseInt32("abc") == None
    ensures ParseInt32("1a") == None
  {
    assert !AllDigits("abc") by { assert !IsDigit("abc"[0]); }
    assert !AllDigits("1a") by { assert !IsDigit("1a"[1]); }
  }

  /** The value `sign` applied to `d` denotes, when in range: `-` negates, `+` or no sign keeps it. */
  function SignedValue(sign: string, d: string): (r: Option<int>)
    requires AllDigits(d)
    ensures r.Some? ==> InInt32(r.value)
    ensures r.Some? ==> (if sign == "-" then -r.value else r.value) == DigitsValue(d)
    ensures r.None? <==> DigitsValue(d) > Int32Max + (if sign == "-" then 1 else 0)
  {
    var magnitude: int := DigitsValue(d);
    var v := if sign == "-" then -magnitude else magnitude;
    if InInt32(v) then Some(v) else None
  }

  /**
   * Every optional sign followed by a non-empty run of digits (leading zeros
   * allowed) is read as its signed value when that fits in 32 bits, and is
   * refused as out of range otherwise.
   */
  lemma ParseSignedDigits(sign: string, d: string)
    requires sign == "" || sign == "+" || sign == "-"
    requires d != [] && AllDigits(d)
    ensures ParseInt32(sign + d) == SignedValue(sign, d)
  {
    var s := sign + d;
    if sign == "" {
      assert s == d;
      assert !(s[0] == '+' || s[0] == '-') by { assert IsDigit(d[0]); }
    } else {
      assert s[0] == sign[0] && s[1..] == d;
    }
  }

  /**
   * Conversely, every text that is accepted is an optional sign followed by a
   * non-empty run of digits, so ParseSignedDigits gives its value.
   */
  lemma ParseAcceptedShape(s: string)
    requires ParseInt32(s).Some?
    ensures var sign := if s[0] == '+' || s[0] == '-' then s[..1] else "";
      && s == sign + s[|sign|..]
      && s[|sign|..] != [] && AllDigits(s[|sign|..])
      && ParseInt32(s) == SignedValue(sign, s[|sign|..])
  {
    if s[0] == '+' || s[0] == '-' {
      assert s == s[..1] + s[1..];
      assert s[..1] == "-" <==> s[0] == '-';
    }
  }

  /** A leading `+` and leading zeros are accepted, as strconv accepts them. */
  lemma ParseAcceptsSignAndZeros()
    ensures ParseInt32("+7") == Some(7)
    ensures ParseInt32("-007") == Some(-7)
  {
    assert "+7"[1..] == "7" && "7"[..0] == "";
    assert "-007"[1..] == "007";
    assert "007"[..2] == "00" && "00"[..1] == "0" && "0"[..0] == "";
  }
}
