/** Decimal conversion between Go `int` values and their text, as the
    program uses `strconv.Atoi` (reading operands) and `strconv.Itoa`
    (writing the CSV columns). */
module Strconv {
  import opened GoInt
  import opened Options

  predicate IsDigit(c: char) { '0' <= c <= '9' }

  predicate AllDigits(s: string) { forall i :: 0 <= i < |s| ==> IsDigit(s[i]) }

  function DigitValue(c: char): (d: int)
    requires IsDigit(c)
    ensures 0 <= d < 10
  {
    c as int - '0' as int
  }

  function DigitChar(d: int): (c: char)
    requires 0 <= d < 10
    ensures IsDigit(c) && DigitValue(c) == d
  {
    ('0' as int + d) as char
  }

  /** The value of a string of decimal digits, most significant first. */
  function DigitsValue(s: string): nat
    requires AllDigits(s)
  {
    if s == [] then 0 else DigitsValue(s[..|s| - 1]) * 10 + DigitValue(s[|s| - 1])
  }

  /** The value of a string of digits after an optional sign. */
  function SignedValue(negative: bool, digits: string): int
    requires AllDigits(digits)
  {
    if negative then -(DigitsValue(digits) as int) else DigitsValue(digits)
  }

  /** `strconv.Atoi`: an optional `+` or `-` followed by at least one decimal
      digit, whose value must fit in an `int`; anything else (the empty
      string, a lone sign, a space, a letter, an out-of-range value) is an
      error, here `None`. Leading zeros are accepted. */
  function Atoi(s: string): (r: Option<Int64>)
    ensures r.Some? ==> s != []
    ensures r.Some? ==>
              var digits := if s[0] == '+' || s[0] == '-' then s[1..] else s;
              digits != [] && AllDigits(digits) && r.value == SignedValue(s[0] == '-', digits)
    ensures r.Some? && s[0] == '-' ==> r.value <= 0
    ensures r.Some? && s[0] != '-' ==> r.value >= 0
  {
    if s == [] then None
    else
      var digits := if s[0] == '+' || s[0] == '-' then s[1..] else s;
      if digits == [] || !AllDigits(digits) then None
      else
        var v := SignedValue(s[0] == '-', digits);
        if MinInt64 <= v <= MaxInt64 then Some(v) else None
  }

  /** Every in-range value written as an optional sign and digits is read,
      whatever leading zeros the digits have. */
  lemma AtoiSignedDigits(sign: string, digits: string)
    requires sign == "" || sign == "+" || sign == "-"
    requires digits != [] && AllDigits(digits)
    requires MinInt64 <= SignedValue(sign == "-", digits) <= MaxInt64
    ensures Atoi(sign + digits) == Some(SignedValue(sign == "-", digits))
  {
    var s := sign + digits;
    var unsigned := if s[0] == '+' || s[0] == '-' then s[1..] else s;
    if sign == "" {
      assert s == digits;
      assert IsDigit(s[0]);
      assert unsigned == digits && s[0] != '-';
    } else {
      assert s[0] == sign[0] && s[1..] == digits;
      assert unsigned == digits && (s[0] == '-' <==> sign == "-");
    }
  }

  /** A string that does not end in a digit is not an integer. */
  lemma TrailingNonDigit(s: string)
    requires s != [] && !IsDigit(s[|s| - 1])
    ensures Atoi(s) == None
  {
  }

  /** The decimal digits of a natural number, without leading zeros. */
  function NatDigits(n: nat): (s: string)
    ensures s != [] && AllDigits(s) && DigitsValue(s) == n
    ensures s[0] == '0' ==> s == "0"
  {
    if n < 10 then
      [DigitChar(n)]
    else
      var prefix := NatDigits(n / 10);
      var s := prefix + [DigitChar(n % 10)];
      assert s[..|s| - 1] == prefix;
      s
  }

  /** `s` is the canonical decimal text of `n`: a minus sign exactly when
      `n` is negative, then the digits of its magnitude, with no leading zero
      unless the number is 0. */
  predicate Decimal(s: string, n: int) {
    s != [] && (n < 0 <==> s[0] == '-') &&
    var digits := if n < 0 then s[1..] else s;
    digits != [] && AllDigits(digits) && DigitsValue(digits) == Abs(n) &&
    (digits[0] == '0' ==> digits == "0")
  }

  /** `strconv.Itoa`: a minus sign for negative values, then the digits. */
  function Itoa(n: int): (s: string)
    ensures s != [] && (n < 0 <==> s[0] == '-')
  {
    if n < 0 then "-" + NatDigits(-n) else NatDigits(n)
  }

  /** `Itoa` writes the canonical decimal text of every integer. */
  lemma ItoaCanonical(n: int)
    ensures Decimal(Itoa(n), n)
  {
    if n < 0 {
      assert Itoa(n)[1..] == NatDigits(-n);
    }
  }

  /** The canonical text is unique: it is what `Itoa` writes, so with
      `ItoaCanonical` it determines `Itoa`. */
  lemma DecimalIsItoa(s: string, n: int)
    requires Decimal(s, n)
    ensures s == Itoa(n)
  {
    if n < 0 {
      NatDigitsUnique(s[1..], -n);
      assert s == [s[0]] + s[1..];
    } else {
      NatDigitsUnique(s, n);
    }
  }

  /** Digits without a leading zero are the digits `NatDigits` writes. */
  lemma {:induction false} NatDigitsUnique(d: string, n: nat)
    requires d != [] && AllDigits(d) && DigitsValue(d) == n
    requires d[0] == '0' ==> d == "0"
    ensures d == NatDigits(n)
  {
    var last := d[|d| - 1];
    if |d| == 1 {
      assert d == [last];
      assert DigitChar(DigitValue(last)) == last;
    } else {
      var init := d[..|d| - 1];
      assert init[0] == d[0] && init != "0";
      PositiveValue(init);
      assert n == DigitsValue(init) * 10 + DigitValue(last);
      assert n / 10 == DigitsValue(init) && n % 10 == DigitValue(last);
      NatDigitsUnique(init, n / 10);
      assert DigitChar(DigitValue(last)) == last;
      assert d == init + [last];
    }
  }

  /** Digits that do not start with `0` have a positive value. */
  lemma {:induction false} PositiveValue(d: string)
    requires d != [] && AllDigits(d) && d[0] != '0'
    ensures DigitsValue(d) >= 1
  {
    if |d| > 1 {
      var init := d[..|d| - 1];
      assert init[0] == d[0];
      PositiveValue(init);
    }
  }

  /** Reading back what `Itoa` writes gives the same `int`. */
  lemma AtoiItoa(n: Int64)
    ensures Atoi(Itoa(n)) == Some(n)
  {
    var s := Itoa(n);
    if n < 0 {
      var m: nat := -(n as int);
      assert s[1..] == NatDigits(m);
    } else {
      assert !(s[0] == '+' || s[0] == '-') by {
        assert IsDigit(NatDigits(n)[0]);
      }
    }
  }
}
