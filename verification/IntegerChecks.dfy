/**
 The two integer checks of the PUT handlers. One converts, prints the result back and compares;
 the other asks `strtol` whether it reached the terminator. They accept different languages.
 */
module IntegerChecks {
  import opened CText
  import opened Decimal

  /** `atoi`, `itoa`, `strcmp`: the check of CoverCalibrator's Brightness. */
  function StrictInteger(s: string): Option<int> {
    var n := Atoi(s);
    if IntText(n) == s then Some(n) else None
  }

  /** `strtol` and `*endptr != '\0'`: the check of Position and Id. The text holds no NUL. */
  function LenientInteger(s: string): Option<int> {
    var r := Strtol(s);
    if r.end == |s| then Some(r.value) else None
  }

  // ---- the strict language ----

  function SignOf(s: string): string {
    if s != [] && s[0] == '-' then "-" else ""
  }

  function DigitsOf(s: string): string {
    s[|SignOf(s)|..]
  }

  /** The canonical decimal of an int32: no '+', no leading zero, no "-0", and in range. */
  predicate IsCanonicalInt32(s: string) {
    && IsPlainNumeral(DigitsOf(s))
    && s != "-0"
    && IsInt32(SignedValue(SignOf(s), DigitsOf(s)))
  }

  lemma CanonicalText(s: string)
    requires IsCanonicalInt32(s)
    ensures IntText(SignedValue(SignOf(s), DigitsOf(s))) == s
  {
    var digits := DigitsOf(s);
    NatValueText(digits);
    assert s == SignOf(s) + digits;
    assert digits[0] == '0' ==> digits == "0";
    assert SignOf(s) == "-" && digits == "0" ==> s == "-0";
  }

  lemma IntTextCanonical(n: int)
    requires IsInt32(n)
    ensures IsCanonicalInt32(IntText(n))
    ensures SignedValue(SignOf(IntText(n)), DigitsOf(IntText(n))) == n
  {
    var m: nat := if n < 0 then -n else n;
    NatTextValue(m);
    assert DigitsOf(IntText(n)) == NatText(m);
    assert n < 0 ==> IntText(n)[1] != '0';
  }

  /**
   The strict check accepts exactly the canonical decimals of int32 values and hands on
   exactly the value that was written.
   */
  lemma StrictAcceptsCanonical(s: string)
    ensures StrictInteger(s).Some? <==> IsCanonicalInt32(s)
    ensures StrictInteger(s).Some? ==> StrictInteger(s).value == SignedValue(SignOf(s), DigitsOf(s))
  {
    if IsCanonicalInt32(s) {
      CanonicalText(s);
      StrtolReadsIntText(SignedValue(SignOf(s), DigitsOf(s)), "");
      assert s + "" == s;
    }
    if StrictInteger(s).Some? {
      IntTextCanonical(Atoi(s));
    }
  }

  /** Printing and strict reading are inverse to each other on the whole of int32. */
  lemma StrictInvertsPrinting(s: string, n: int)
    ensures StrictInteger(s) == Some(n) <==> IsInt32(n) && s == IntText(n)
  {
    if IsInt32(n) && s == IntText(n) {
      StrtolReadsIntText(n, "");
      assert s + "" == s;
    }
  }

  // ---- the lenient language ----

  /** White space, an optional sign and at least one digit, as three given pieces. */
  predicate IsIntegerPieces(s: string, space: string, sign: string, digits: string) {
    && s == space + sign + digits
    && AllSpace(space) && IsOptionalSign(sign)
    && digits != [] && AllDigits(digits)
  }

  /** The lenient check accepts every such text with its saturated value. */
  lemma LenientAcceptsPieces(s: string, space: string, sign: string, digits: string)
    requires IsIntegerPieces(s, space, sign, digits)
    ensures LenientInteger(s) == Some(Saturate(SignedValue(sign, digits)))
  {
    StrtolReads(space, sign, digits, "");
    assert s + "" == s;
  }

  /** The pieces of any text that the lenient check accepts, the empty text aside. */
  lemma LenientPieces(s: string) returns (space: string, sign: string, digits: string)
    requires LenientInteger(s).Some? && s != []
    ensures IsIntegerPieces(s, space, sign, digits)
  {
    var w := SpaceEnd(s, 0);
    space := s[..w];
    if w < |s| && IsSign(s[w]) {
      sign, digits := [s[w]], s[w + 1..];
      assert DigitEnd(s, w + 1) == |s|;
      assert s[w + 1..|s|] == digits;
      assert s == space + [s[w]] + digits;
    } else {
      sign, digits := "", s[w..];
      assert DigitEnd(s, w) == |s|;
      assert s[w..|s|] == digits;
      assert s == space + "" + digits;
    }
  }

  /**
   The lenient check accepts the empty text, as 0, and exactly the texts made of white space,
   a sign and digits.
   */
  lemma LenientLanguage(s: string)
    ensures LenientInteger(s).Some? <==>
            s == [] || exists space, sign, digits :: IsIntegerPieces(s, space, sign, digits)
    ensures s == [] ==> LenientInteger(s) == Some(0)
    ensures forall space, sign, digits | IsIntegerPieces(s, space, sign, digits) ::
              LenientInteger(s) == Some(Saturate(SignedValue(sign, digits)))
  {
    if s != [] && LenientInteger(s).Some? {
      var space, sign, digits := LenientPieces(s);
    }
    forall space, sign, digits | IsIntegerPieces(s, space, sign, digits)
      ensures LenientInteger(s) == Some(Saturate(SignedValue(sign, digits)))
    {
      LenientAcceptsPieces(s, space, sign, digits);
    }
  }

  /** The strict language is part of the lenient one, value for value. */
  lemma StrictWithinLenient(s: string)
    requires StrictInteger(s).Some?
    ensures LenientInteger(s) == StrictInteger(s)
  {
    StrtolReadsIntText(Atoi(s), "");
    assert s + "" == s;
  }

  /** The checks agree on a text exactly when it is canonical or both refuse it. */
  lemma ChecksDiffer(s: string)
    ensures StrictInteger(s) == LenientInteger(s) <==> IsCanonicalInt32(s) || LenientInteger(s).None?
  {
    StrictAcceptsCanonical(s);
    if StrictInteger(s).Some? {
      StrictWithinLenient(s);
    }
  }

  /** The inclusion is proper: one leading '+', zero or blank is enough, for every number. */
  lemma LenientAcceptsPadding(n: nat, c: char)
    requires c == '+' || c == '0' || c == ' '
    ensures StrictInteger([c] + IntText(n)).None?
    ensures LenientInteger([c] + IntText(n)) == Some(Saturate(n))
  {
    NatTextValue(n);
    PaddingIsNotCanonical(IntText(n), c);
    PaddingIsLenient(IntText(n), c);
  }

  lemma PaddingIsNotCanonical(t: string, c: char)
    requires c == '+' || c == '0' || c == ' '
    requires t != []
    ensures StrictInteger([c] + t).None?
  {
    assert ([c] + t)[0] == c;
    NotPlain([c] + t);
  }

  lemma PaddingIsLenient(t: string, c: char)
    requires c == '+' || c == '0' || c == ' '
    requires t != [] && AllDigits(t)
    ensures LenientInteger([c] + t) == Some(Saturate(NatValue(t)))
  {
    if c == '+' {
      LenientAcceptsPieces([c] + t, "", "+", t);
    } else if c == '0' {
      LeadingZero(t);
      LenientAcceptsPieces([c] + t, "", "", "0" + t);
    } else {
      LenientAcceptsPieces([c] + t, " ", "", t);
    }
  }

  /** Out of range, the strict check refuses and the lenient check saturates. */
  lemma OutOfRange(n: int)
    requires !IsInt32(n)
    ensures StrictInteger(IntText(n)).None?
    ensures LenientInteger(IntText(n)) == Some(if n > 0 then INT32_MAX else INT32_MIN)
  {
    StrtolReadsIntText(n, "");
    assert IntText(n) + "" == IntText(n);
    if IntText(Saturate(n)) == IntText(n) {
      IntTextInjective(Saturate(n), n);
    }
  }

  lemma NotPlain(s: string)
    requires s != [] && s[0] != '-' && !IsPlainNumeral(s)
    ensures StrictInteger(s).None?
  {
    StrictAcceptsCanonical(s);
    assert DigitsOf(s) == s;
  }

  lemma {:induction false} LeadingZero(t: string)
    requires AllDigits(t)
    ensures AllDigits("0" + t) && NatValue("0" + t) == NatValue(t)
  {
    if t == [] {
      assert "0"[..0] == "";
    } else {
      LeadingZero(t[..|t| - 1]);
      assert ("0" + t)[..|t|] == "0" + t[..|t| - 1];
    }
  }
}
