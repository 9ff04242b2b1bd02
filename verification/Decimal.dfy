/**
 Decimal numerals: `%d` and `itoa` on one side, `strtol` and `atoi` on the other.
 `int` and `long` are 32 bits wide and `strtol` saturates.
 */
module Decimal {

  const INT32_MAX: int := 0x7fff_ffff
  const INT32_MIN: int := -0x8000_0000
  const TWO32: int := 0x1_0000_0000

  predicate IsInt32(n: int) {
    INT32_MIN <= n <= INT32_MAX
  }

  /** The value that a `uint32_t` keeps of an integer. */
  function Wrap32(n: int): (r: nat)
    ensures r < TWO32
    ensures 0 <= n < TWO32 ==> r == n
  {
    n % 0x1_0000_0000
  }

  /** The conversion from a wider integer to `int32_t`. */
  function ToInt32(n: int): (r: int)
    ensures IsInt32(r)
    ensures Wrap32(r) == Wrap32(n)
    ensures IsInt32(n) ==> r == n
  {
    var m := Wrap32(n);
    if m > INT32_MAX then m - TWO32 else m
  }

  /** The value of a `uint32_t` counter `n` increments after `start`. */
  function CountedOn(start: nat, n: nat): nat {
    Wrap32(start + n)
  }

  lemma CountOneMore(start: nat, n: nat)
    ensures Wrap32(CountedOn(start, n) + 1) == CountedOn(start, n + 1)
  {
  }

  function Saturate(n: int): (r: int)
    ensures IsInt32(r)
    ensures IsInt32(n) ==> r == n
  {
    if n > INT32_MAX then INT32_MAX else if n < INT32_MIN then INT32_MIN else n
  }

  // ---- digits ----

  predicate IsDigit(c: char) {
    '0' <= c <= '9'
  }

  predicate AllDigits(s: string) {
    forall i | 0 <= i < |s| :: IsDigit(s[i])
  }

  function DigitValue(c: char): nat
    requires IsDigit(c)
  {
    c as int - '0' as int
  }

  function Digit(d: nat): char
    requires d < 10
  {
    ('0' as int + d) as char
  }

  function NatText(n: nat): string {
    if n < 10 then [Digit(n)] else NatText(n / 10) + [Digit(n % 10)]
  }

  function NatValue(s: string): nat
    requires AllDigits(s)
  {
    if s == [] then 0 else 10 * NatValue(s[..|s| - 1]) + DigitValue(s[|s| - 1])
  }

  /** `%d` of an `int`, and `itoa` in base 10. */
  function IntText(n: int): string {
    if n < 0 then "-" + NatText(-n) else NatText(n)
  }

  /** A nonempty digit string without a superfluous leading zero. */
  predicate IsPlainNumeral(s: string) {
    s != [] && AllDigits(s) && (s[0] == '0' ==> |s| == 1)
  }

  lemma {:induction false} NatTextValue(n: nat)
    ensures IsPlainNumeral(NatText(n))
    ensures NatText(n)[0] == '0' <==> n == 0
    ensures NatValue(NatText(n)) == n
  {
    if n >= 10 {
      NatTextValue(n / 10);
      assert NatText(n)[..|NatText(n)| - 1] == NatText(n / 10);
    }
  }

  lemma {:induction false} NatValueText(s: string)
    requires IsPlainNumeral(s)
    ensures NatText(NatValue(s)) == s
    ensures s[0] != '0' ==> NatValue(s) > 0
  {
    var front := s[..|s| - 1];
    if front != [] {
      NatValueText(front);
      assert s == front + [s[|s| - 1]];
    } else {
      assert s == [s[0]];
      assert NatValue(front) == 0;
    }
  }

  /** A bound on the digits of a number below a power of ten. */
  lemma {:induction false} NatTextLength(n: nat, digits: nat)
    requires digits > 0 && n < Power10(digits)
    ensures |NatText(n)| <= digits
    decreases digits
  {
    if n >= 10 {
      assert digits > 1 by {
        assert Power10(1) == 10;
      }
      NatTextLength(n / 10, digits - 1);
    }
  }

  function Power10(k: nat): nat {
    if k == 0 then 1 else 10 * Power10(k - 1)
  }

  lemma IntTextLength(n: int)
    requires IsInt32(n)
    ensures |IntText(n)| <= 11
  {
    assert Power10(3) == 1000 && Power10(6) == 1000 * Power10(3) && Power10(9) == 1000 * Power10(6);
    NatTextLength(if n < 0 then -n else n, 10);
  }

  // ---- strtol ----

  predicate IsSpace(c: char) {
    c == ' ' || '\t' <= c <= '\r'
  }

  predicate AllSpace(s: string) {
    forall i | 0 <= i < |s| :: IsSpace(s[i])
  }

  /** Where the white space that starts at `i` ends. */
  function SpaceEnd(s: string, i: nat): (w: nat)
    requires i <= |s|
    ensures i <= w <= |s|
    ensures forall k | i <= k < w :: IsSpace(s[k])
    ensures w < |s| ==> !IsSpace(s[w])
    decreases |s| - i
  {
    if i < |s| && IsSpace(s[i]) then SpaceEnd(s, i + 1) else i
  }

  /** Where the digits that start at `i` end. */
  function DigitEnd(s: string, i: nat): (e: nat)
    requires i <= |s|
    ensures i <= e <= |s|
    ensures AllDigits(s[i..e])
    ensures e < |s| ==> !IsDigit(s[e])
    decreases |s| - i
  {
    if i < |s| && IsDigit(s[i]) then
      assert forall e | i < e <= |s| :: s[i..e] == [s[i]] + s[i + 1..e];
      DigitEnd(s, i + 1)
    else i
  }

  lemma SpaceEndIs(s: string, w: nat)
    requires w < |s| && !IsSpace(s[w])
    requires forall i | 0 <= i < w :: IsSpace(s[i])
    ensures SpaceEnd(s, 0) == w
  {
  }

  lemma DigitEndIs(s: string, d: nat, e: nat)
    requires d <= e <= |s| && AllDigits(s[d..e])
    requires e < |s| ==> !IsDigit(s[e])
    ensures DigitEnd(s, d) == e
  {
    var f := DigitEnd(s, d);
    assert forall i | d <= i < e :: s[d..e][i - d] == s[i];
    assert forall i | d <= i < f :: s[d..f][i - d] == s[i];
  }

  predicate IsSign(c: char) {
    c == '+' || c == '-'
  }

  /** What `strtol` returns, and how far from the start of the text it leaves `*endptr`. */
  datatype Conversion = Conversion(value: int, end: nat)

  /** `strtol(s, &endptr, 10)`. Without a digit nothing is consumed, not even white space. */
  function Strtol(s: string): (r: Conversion)
    ensures r.end <= |s| && IsInt32(r.value)
  {
    var w := SpaceEnd(s, 0);
    var d := if w < |s| && IsSign(s[w]) then w + 1 else w;
    var e := DigitEnd(s, d);
    if e == d then
      Conversion(0, 0)
    else
      var m: int := NatValue(s[d..e]);
      Conversion(Saturate(if s[w] == '-' then -m else m), e)
  }

  function Atoi(s: string): int {
    Strtol(s).value
  }

  /** The number that a sign and digits denote, before any saturation. */
  function SignedValue(sign: string, digits: string): int
    requires AllDigits(digits)
  {
    var m: int := NatValue(digits);
    if sign == "-" then -m else m
  }

  predicate IsOptionalSign(sign: string) {
    sign == "" || sign == "+" || sign == "-"
  }

  /** The pieces that `strtol` finds, given by their positions. */
  lemma StrtolAt(s: string, w: nat, d: nat, e: nat)
    requires w <= d < e <= |s|
    requires forall i | 0 <= i < w :: IsSpace(s[i])
    requires !IsSpace(s[w]) && d == (if IsSign(s[w]) then w + 1 else w)
    requires AllDigits(s[d..e])
    requires e < |s| ==> !IsDigit(s[e])
    ensures Strtol(s) ==
            var m: int := NatValue(s[d..e]);
            Conversion(Saturate(if s[w] == '-' then -m else m), e)
  {
    SpaceEndIs(s, w);
    DigitEndIs(s, d, e);
  }

  /** The language of `strtol`: white space, a sign, digits, then anything but a digit. */
  lemma StrtolReads(space: string, sign: string, digits: string, rest: string)
    requires AllSpace(space) && IsOptionalSign(sign)
    requires digits != [] && AllDigits(digits)
    requires rest == [] || !IsDigit(rest[0])
    ensures Strtol(space + sign + digits + rest) ==
            Conversion(Saturate(SignedValue(sign, digits)), |space + sign + digits|)
  {
    var s := space + sign + digits + rest;
    var w, d, e := |space|, |space + sign|, |space + sign + digits|;
    assert s[d..e] == digits;
    assert s[w] == if sign == "" then digits[0] else sign[0];
    StrtolAt(s, w, d, e);
  }

  /** Printing an integer and reading it back saturates it; on int32 it is the identity. */
  lemma StrtolReadsIntText(n: int, rest: string)
    requires rest == [] || !IsDigit(rest[0])
    ensures Strtol(IntText(n) + rest) == Conversion(Saturate(n), |IntText(n)|)
  {
    if n < 0 {
      NatTextValue(-n);
      StrtolReadsSigned("-", NatText(-n), rest);
    } else {
      NatTextValue(n);
      StrtolReadsSigned("", NatText(n), rest);
      assert "" + NatText(n) == NatText(n);
    }
  }

  lemma StrtolReadsSigned(sign: string, digits: string, rest: string)
    requires IsOptionalSign(sign) && digits != [] && AllDigits(digits)
    requires rest == [] || !IsDigit(rest[0])
    ensures Strtol(sign + digits + rest) == Conversion(Saturate(SignedValue(sign, digits)), |sign + digits|)
  {
    StrtolReads("", sign, digits, rest);
    assert "" + sign + digits == sign + digits;
  }

  lemma IntTextInjective(m: int, n: int)
    requires IntText(m) == IntText(n)
    ensures m == n
  {
    NatTextValue(if m < 0 then -m else m);
    NatTextValue(if n < 0 then -n else n);
    assert IntText(m)[0] == '-' <==> m < 0;
    assert IntText(n)[0] == '-' <==> n < 0;
    if m < 0 {
      assert NatText(-m) == IntText(m)[1..] == NatText(-n);
    }
  }
}
