/**
 * Java's fixed-width integers as the monitor uses them: the `int` row counter
 * (two's-complement, wraps on overflow) and `Long.parseLong` / `Long.toString`
 * in radix 10.
 */
module JavaNumbers {

  import opened Wrappers

  const MIN_INT: int := -0x8000_0000
  const MAX_INT: int := 0x7fff_ffff
  const MIN_LONG: int := -0x8000_0000_0000_0000
  const MAX_LONG: int := 0x7fff_ffff_ffff_ffff

  /** Java `int`. */
  type Int32 = x: int | MIN_INT <= x <= MAX_INT

  /** Java `long`. */
  type Int64 = x: int | MIN_LONG <= x <= MAX_LONG

  /** Reduction of a mathematical integer into Java's 32-bit two's-complement range. */
  function WrapInt(x: int): (r: Int32)
    ensures (r - x) % 0x1_0000_0000 == 0
    ensures MIN_INT <= x <= MAX_INT ==> r == x
  {
    (x - MIN_INT) % 0x1_0000_0000 + MIN_INT
  }

  /** Adding to a wrapped value and wrapping again is the same as wrapping once:
      so `k` successive `++` on an `int` add `k` modulo 2^32. */
  lemma WrapIntAdd(a: int, b: int)
    ensures WrapInt(WrapInt(a) + b) == WrapInt(a + b)
  {
    var m := 0x1_0000_0000;
    var k := (WrapInt(a) - a) / m;
    assert WrapInt(a) == a + k * m;
  }

  /** Java `x++` on an `int` field: it overflows from `MAX_INT` to `MIN_INT`. */
  function IncInt(x: Int32): Int32 {
    if x == MAX_INT then MIN_INT else x + 1
  }

  /** `x++` is addition of one modulo 2^32. */
  lemma IncIntWraps(x: Int32)
    ensures IncInt(x) == WrapInt(x + 1)
    ensures IncInt(MAX_INT) == MIN_INT
  {
  }

  /** `n` successive `x++` on an `int`. */
  function IncIntTimes(x: Int32, n: nat): Int32 {
    if n == 0 then x else IncInt(IncIntTimes(x, n - 1))
  }

  /** `n` increments add `n` modulo 2^32. */
  lemma {:induction false} IncIntTimesWraps(x: Int32, n: nat)
    ensures IncIntTimes(x, n) == WrapInt(x + n)
  {
    if n > 0 {
      IncIntTimesWraps(x, n - 1);
      IncIntWraps(IncIntTimes(x, n - 1));
      WrapIntAdd(x + (n - 1), 1);
    }
  }

  predicate IsDigit(c: char) {
    '0' <= c <= '9'
  }

  predicate AllDigits(s: string) {
    forall i | 0 <= i < |s| :: IsDigit(s[i])
  }

  function DigitValue(c: char): nat
    requires IsDigit(c)
  {
    (c - '0') as nat
  }

  /** The value of a string of decimal digits, most significant first. */
  function DigitsValue(s: string): nat
    requires AllDigits(s)
  {
    if s == [] then 0 else 10 * DigitsValue(s[..|s| - 1]) + DigitValue(s[|s| - 1])
  }

  /** The value of the digits `d` under the sign `sign` ("-" negates, anything else does not). */
  function SignedValue(sign: string, d: string): int
    requires AllDigits(d)
  {
    var magnitude: int := DigitsValue(d);
    if sign == "-" then -magnitude else magnitude
  }

  /**
   * `Long.parseLong(s)`: an optional '+' or '-', then at least one decimal
   * digit, and a value in the `long` range; `None` stands for the
   * `NumberFormatException`.  Only ASCII digits are accepted here.
   */
  function ParseLong(s: string): (r: Option<int>)
    ensures r.Some? ==> MIN_LONG <= r.value <= MAX_LONG
    ensures r.Some? ==> s != [] && AllDigits(if s[0] == '-' || s[0] == '+' then s[1..] else s)
    ensures r.Some? ==> r.value == SignedValue(s[..1], if s[0] == '-' || s[0] == '+' then s[1..] else s)
    ensures s == [] || s == "-" || s == "+" ==> r == None
  {
    if s == [] then None
    else
      var negative := s[0] == '-';
      var digits := if s[0] == '-' || s[0] == '+' then s[1..] else s;
      if digits == [] || !AllDigits(digits) then None
      else
        var magnitude: int := DigitsValue(digits);
        var v := if negative then -magnitude else magnitude;
        if MIN_LONG <= v <= MAX_LONG then Some(v) else None
  }

  /** The converse: every optional sign followed by at least one digit, whose
      value lies in the `long` range, is accepted with that value, leading
      zeros and a '+' included. */
  lemma ParseLongAccepts(sign: string, d: string)
    requires sign == "" || sign == "+" || sign == "-"
    requires d != [] && AllDigits(d)
    requires MIN_LONG <= SignedValue(sign, d) <= MAX_LONG
    ensures ParseLong(sign + d) == Some(SignedValue(sign, d))
  {
    var s := sign + d;
    if sign == "" {
      assert s == d && IsDigit(s[0]);
    } else {
      assert s[0] == sign[0] && s[1..] == d;
    }
  }

  /** Leading zeros are accepted. */
  lemma ParseLongLeadingZeros()
    ensures ParseLong("007") == Some(7)
  {
    assert DigitsValue("007") == 7 by {
      assert "007"[..2] == "00" && "00"[..1] == "0" && "0"[..0] == "";
    }
    ParseLongAccepts("", "007");
    assert "" + "007" == "007";
  }

  /** An explicit '+' and "-0" are accepted; a leading blank is not. */
  lemma ParseLongSigns()
    ensures ParseLong("+5") == Some(5)
    ensures ParseLong("-0") == Some(0)
    ensures ParseLong(" 5") == None
  {
    assert "5"[..0] == "" && "0"[..0] == "";
    ParseLongAccepts("+", "5");
    ParseLongAccepts("-", "0");
    assert "+" + "5" == "+5" && "-" + "0" == "-0";
    assert !IsDigit(" 5"[0]);
  }

  /** The decimal digits of `n`, without leading zeros. */
  function NatToString(n: nat): (s: string)
    ensures s != [] && AllDigits(s)
    ensures n >= 10 ==> s[0] != '0'
  {
    var d := ['0' + (n % 10) as char];
    if n < 10 then d else NatToString(n / 10) + d
  }

  /** `Long.toString(v)`. */
  function LongToString(v: int): (s: string)
    ensures s != []
  {
    if v < 0 then "-" + NatToString(-v) else NatToString(v)
  }

  lemma {:induction false} NatToStringValue(n: nat)
    ensures DigitsValue(NatToString(n)) == n
  {
    var s := NatToString(n);
    if n >= 10 {
      NatToStringValue(n / 10);
      assert s[..|s| - 1] == NatToString(n / 10);
    }
  }

  /** Round trip: `Long.parseLong(Long.toString(v)) == v` for every `long`. */
  lemma ParseLongToString(v: Int64)
    ensures ParseLong(LongToString(v)) == Some(v)
  {
    var s := LongToString(v);
    if v < 0 {
      var n: nat := -(v as int);
      var digits := NatToString(n);
      NatToStringValue(n);
      assert s[0] == '-' && s[1..] == digits;
    } else {
      var digits := NatToString(v);
      NatToStringValue(v);
      assert IsDigit(digits[0]);
      assert s[0] != '-' && s[0] != '+';
    }
  }

  /** `Long.toString` never produces a '.', a blank or a control character. */
  lemma LongToStringShape(v: int)
    ensures '.' !in LongToString(v)
    ensures forall i | 0 <= i < |LongToString(v)| :: LongToString(v)[i] > ' '
  {
    var s := LongToString(v);
    var digits := if v < 0 then NatToString(-v) else NatToString(v);
    assert forall i | 0 <= i < |digits| :: IsDigit(digits[i]);
    if v < 0 {
      assert forall i | 1 <= i < |s| :: s[i] == digits[i - 1];
    }
  }
}
