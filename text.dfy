/**
 * Decimal text for whole numbers (the `{n}` of a formatted message) and the
 * reading of a text cell as a number (a numeric coercion that turns text which
 * is not a plain decimal literal into a missing value).
 */
module Text {
  import opened Wrappers

  predicate IsDigit(c: char)
  {
    '0' <= c <= '9'
  }

  predicate AllDigits(s: string)
  {
    forall i :: 0 <= i < |s| ==> IsDigit(s[i])
  }

  function DigitChar(d: nat): (c: char)
    requires d < 10
    ensures IsDigit(c) && c as int - '0' as int == d
  {
    (d + '0' as int) as char
  }

  /** The value of a string of decimal digits (0 for the empty string). */
  function DigitsValue(s: string): nat
    requires AllDigits(s)
  {
    if s == [] then 0
    else DigitsValue(s[..|s| - 1]) * 10 + (s[|s| - 1] as int - '0' as int)
  }

  /** The decimal text of `n`: digits only, no leading zero. */
  function NatText(n: nat): (s: string)
    ensures |s| >= 1 && AllDigits(s)
    ensures |s| > 1 ==> s[0] != '0'
  {
    if n < 10 then [DigitChar(n)]
    else NatText(n / 10) + [DigitChar(n % 10)]
  }

  lemma {:induction false} NatTextRoundTrip(n: nat)
    ensures DigitsValue(NatText(n)) == n
  {
    if n >= 10 {
      NatTextRoundTrip(n / 10);
      var s := NatText(n);
      assert s[..|s| - 1] == NatText(n / 10);
    }
  }

  function Pow10(k: nat): (p: nat)
    ensures p >= 1
  {
    if k == 0 then 1 else 10 * Pow10(k - 1)
  }

  /** The position of the first `c` in `s`, if any. */
  function IndexOf(s: string, c: char): (r: Option<nat>)
    ensures r.Some? ==> r.value < |s| && s[r.value] == c
    ensures r.Some? ==> forall i :: 0 <= i < r.value ==> s[i] != c
    ensures r.None? ==> forall i :: 0 <= i < |s| ==> s[i] != c
  {
    if s == [] then None
    else if s[0] == c then Some(0)
    else match IndexOf(s[1..], c)
      case None => None
      case Some(k) => Some(k + 1)
  }

  /** Digits and at most one decimal point, with at least one digit. */
  predicate UnsignedLiteral(s: string)
  {
    && (forall i :: 0 <= i < |s| ==> IsDigit(s[i]) || s[i] == '.')
    && (forall i, j :: 0 <= i < j < |s| && s[i] == '.' ==> s[j] != '.')
    && (exists i :: 0 <= i < |s| && IsDigit(s[i]))
  }

  lemma {:induction false} DigitsValueBound(s: string)
    requires AllDigits(s)
    ensures DigitsValue(s) < Pow10(|s|)
  {
    if s != [] {
      DigitsValueBound(s[..|s| - 1]);
    }
  }

  lemma FractionBelowOne(d: real, p: real)
    requires 0.0 <= d < p
    ensures 0.0 <= d / p < 1.0
  {
    var q := d / p;
    assert q * p == d;
  }

  /** The value of the literal `whole.frac`: the whole part plus a fraction below one. */
  function DecimalValue(whole: string, frac: string): (v: real)
    requires AllDigits(whole) && AllDigits(frac)
    ensures DigitsValue(whole) as real <= v < DigitsValue(whole) as real + 1.0
  {
    DigitsValueBound(frac);
    FractionBelowOne(DigitsValue(frac) as real, Pow10(|frac|) as real);
    DigitsValue(whole) as real + DigitsValue(frac) as real / Pow10(|frac|) as real
  }

  /** An unsigned literal: digits, optionally a point and more digits; at least one digit. */
  function ParseUnsigned(s: string): (r: Option<real>)
    ensures r.Some? ==> r.value >= 0.0
  {
    match IndexOf(s, '.')
    case None =>
      if s != [] && AllDigits(s) then Some(DigitsValue(s) as real) else None
    case Some(k) =>
      var whole, frac := s[..k], s[k + 1..];
      if |s| > 1 && AllDigits(whole) && AllDigits(frac) then Some(DecimalValue(whole, frac)) else None
  }

  /** Exactly the unsigned literals are accepted. */
  lemma ParseUnsignedAccepts(s: string)
    ensures ParseUnsigned(s).Some? <==> UnsignedLiteral(s)
  {
    match IndexOf(s, '.')
    case None =>
      if UnsignedLiteral(s) {
        assert AllDigits(s) by {
          forall i | 0 <= i < |s| ensures IsDigit(s[i]) {
            assert s[i] != '.';
          }
        }
      }
      if ParseUnsigned(s).Some? {
        assert IsDigit(s[0]);
      }
    case Some(k) =>
      var whole, frac := s[..k], s[k + 1..];
      if ParseUnsigned(s).Some? {
        forall i | 0 <= i < |s| ensures (IsDigit(s[i]) || s[i] == '.') && (s[i] == '.' ==> i == k) {
          if i < k {
            assert s[i] == whole[i];
          } else if i > k {
            assert s[i] == frac[i - k - 1];
          }
        }
        if k > 0 {
          assert IsDigit(s[0]);
        } else {
          assert IsDigit(s[k + 1]);
        }
      }
      if UnsignedLiteral(s) {
        var d :| 0 <= d < |s| && IsDigit(s[d]);
        assert d != k;
        forall i | 0 <= i < |whole| ensures IsDigit(whole[i]) {
          assert whole[i] == s[i] && s[i] != '.';
        }
        forall i | 0 <= i < |frac| ensures IsDigit(frac[i]) {
          assert frac[i] == s[k + 1 + i] && s[k + 1 + i] != '.';
        }
      }
  }

  /** A literal with a point reads as its whole part plus its fraction. */
  lemma ParseUnsignedDecimal(whole: string, frac: string)
    requires AllDigits(whole) && AllDigits(frac) && |whole| + |frac| > 0
    ensures ParseUnsigned(whole + "." + frac) == Some(DecimalValue(whole, frac))
  {
    var s := whole + "." + frac;
    assert s[|whole|] == '.';
    assert forall i :: 0 <= i < |whole| ==> s[i] == whole[i];
    assert IndexOf(s, '.') == Some(|whole|);
    assert s[..|whole|] == whole;
    assert s[|whole| + 1..] == frac;
  }

  /** A literal without a point reads as its digits. */
  lemma ParseUnsignedWhole(whole: string)
    requires AllDigits(whole) && whole != []
    ensures ParseUnsigned(whole) == Some(DigitsValue(whole) as real)
  {
    assert forall i :: 0 <= i < |whole| ==> whole[i] != '.' by {
      forall i | 0 <= i < |whole| ensures whole[i] != '.' {
        assert IsDigit(whole[i]);
      }
    }
  }

  /**
   * The numeric value of a text cell: an optional sign followed by an
   * unsigned literal; anything else reads as missing.
   */
  function ParseNumber(s: string): (r: Option<real>)
    ensures r.Some? ==> |s| > 0 && (IsDigit(s[0]) || s[0] in "+-.")
  {
    if |s| > 0 && s[0] == '-' then
      match ParseUnsigned(s[1..])
      case None => None
      case Some(v) => Some(-v)
    else if |s| > 0 && s[0] == '+' then ParseUnsigned(s[1..])
    else ParseUnsigned(s)
  }

  /** Accepted text is an unsigned literal, optionally preceded by one sign. */
  lemma ParseNumberAccepts(s: string)
    ensures ParseNumber(s).Some? <==>
      UnsignedLiteral(s) || (|s| > 0 && (s[0] == '-' || s[0] == '+') && UnsignedLiteral(s[1..]))
  {
    if |s| > 0 && (s[0] == '-' || s[0] == '+') {
      ParseUnsignedAccepts(s[1..]);
      assert !UnsignedLiteral(s) by {
        assert !(IsDigit(s[0]) || s[0] == '.');
      }
    } else {
      ParseUnsignedAccepts(s);
    }
  }

  /** Text starting with neither sign is read as an unsigned literal. */
  lemma ParseNumberNoSign(t: string)
    requires |t| > 0 && t[0] != '-' && t[0] != '+'
    ensures ParseNumber(t) == ParseUnsigned(t)
  {
  }

  /** After a plus sign, the rest is read as an unsigned literal. */
  lemma ParseNumberPlus(t: string)
    ensures ParseNumber("+" + t) == ParseUnsigned(t)
  {
    var p := "+" + t;
    assert p[0] == '+' && p[1..] == t;
  }

  /** After a minus sign, the rest is read as an unsigned literal and negated. */
  lemma ParseNumberMinus(t: string)
    ensures ParseUnsigned(t).None? ==> ParseNumber("-" + t).None?
    ensures ParseUnsigned(t).Some? ==> ParseNumber("-" + t) == Some(-ParseUnsigned(t).value)
  {
    var p := "-" + t;
    assert p[0] == '-' && p[1..] == t;
  }

  /** A literal `whole.frac` reads as its value, unchanged after a plus sign. */
  lemma ParseNumberDecimal(whole: string, frac: string)
    requires AllDigits(whole) && AllDigits(frac) && |whole| + |frac| > 0
    ensures ParseNumber(whole + "." + frac) == Some(DecimalValue(whole, frac))
    ensures ParseNumber("+" + whole + "." + frac) == Some(DecimalValue(whole, frac))
  {
    var t := whole + "." + frac;
    ParseUnsignedDecimal(whole, frac);
    assert t[0] != '-' && t[0] != '+' by {
      if whole != [] {
        assert t[0] == whole[0] && IsDigit(t[0]);
      } else {
        assert t[0] == '.';
      }
    }
    ParseNumberNoSign(t);
    ParseNumberPlus(t);
    assert "+" + whole + "." + frac == "+" + t;
  }

  /** A literal `whole.frac` after a minus sign reads as its value negated. */
  lemma ParseNumberNegativeDecimal(whole: string, frac: string)
    requires AllDigits(whole) && AllDigits(frac) && |whole| + |frac| > 0
    ensures ParseNumber("-" + whole + "." + frac) == Some(-DecimalValue(whole, frac))
  {
    var t := whole + "." + frac;
    ParseUnsignedDecimal(whole, frac);
    ParseNumberMinus(t);
    assert "-" + whole + "." + frac == "-" + t;
  }

  /** Digits without a point read as the number they spell, unchanged after `+` and negated after `-`. */
  lemma ParseNumberWhole(whole: string)
    requires AllDigits(whole) && whole != []
    ensures ParseNumber(whole) == Some(DigitsValue(whole) as real)
    ensures ParseNumber("+" + whole) == Some(DigitsValue(whole) as real)
    ensures ParseNumber("-" + whole) == Some(-(DigitsValue(whole) as real))
  {
    ParseUnsignedWhole(whole);
    assert IsDigit(whole[0]);
    ParseNumberNoSign(whole);
    ParseNumberPlus(whole);
    ParseNumberMinus(whole);
  }

  /** The value of a one-digit string. */
  lemma OneDigitValue(d: string)
    requires |d| == 1 && IsDigit(d[0])
    ensures DigitsValue(d) == d[0] as int - '0' as int
  {
    assert d[..0] == [];
  }

  /** `"2.5"` reads as 2.5. */
  lemma DecimalExample()
    ensures ParseNumber("2.5") == Some(2.5)
  {
    var two, five: string := "2", "5";
    OneDigitValue(two);
    OneDigitValue(five);
    assert Pow10(1) == 10;
    assert DecimalValue(two, five) == 2.5;
    ParseNumberDecimal(two, five);
    assert two + "." + five == "2.5";
  }

  /** `"-.5"` reads as -0.5: the whole part may be empty. */
  lemma NegativeFractionExample()
    ensures ParseNumber("-.5") == Some(-0.5)
  {
    var five: string := "5";
    OneDigitValue(five);
    assert Pow10(1) == 10;
    assert DecimalValue([], five) == 0.5;
    ParseNumberNegativeDecimal([], five);
    assert "-" + [] + "." + five == "-.5";
  }

  /** `"7."` reads as 7: the fraction may be empty. */
  lemma TrailingPointExample()
    ensures ParseNumber("7.") == Some(7.0)
  {
    var seven: string := "7";
    OneDigitValue(seven);
    assert DecimalValue(seven, []) == 7.0;
    ParseNumberDecimal(seven, []);
    assert seven + "." + [] == "7.";
  }

  /** `"+12"` reads as 12 and `"-007"` as -7: a sign and leading zeros are accepted. */
  lemma SignedWholeExamples()
    ensures ParseNumber("+12") == Some(12.0)
    ensures ParseNumber("-007") == Some(-7.0)
  {
    var twelve, zeros: string := "12", "007";
    assert twelve[..1] == "1" && zeros[..2] == "00" && zeros[..2][..1] == "0";
    OneDigitValue("1");
    OneDigitValue("0");
    assert DigitsValue(twelve) == 12;
    assert DigitsValue(zeros) == 7;
    ParseNumberWhole(twelve);
    ParseNumberWhole(zeros);
    assert "+" + twelve == "+12";
    assert "-" + zeros == "-007";
  }

  /** Sample malformed text, which reads as missing. */
  lemma MalformedExamples()
    ensures ParseNumber("1a") == None
    ensures ParseNumber("1.2.3") == None
    ensures ParseNumber(".") == None && ParseNumber("-") == None && ParseNumber("") == None
  {
    ParseNumberAccepts("1a");
    assert !IsDigit("1a"[1]);
    ParseNumberAccepts("1.2.3");
    assert "1.2.3"[1] == '.' && "1.2.3"[3] == '.';
    ParseNumberAccepts(".");
    ParseNumberAccepts("-");
  }

  lemma NatTextParses(n: nat)
    ensures ParseNumber(NatText(n)) == Some(n as real)
    ensures ParseNumber("-" + NatText(n)) == Some(-(n as real))
  {
    var s := NatText(n);
    NatTextRoundTrip(n);
    assert IndexOf(s, '.') == None by {
      forall i | 0 <= i < |s| ensures s[i] != '.' {
        assert IsDigit(s[i]);
      }
    }
    assert ("-" + s)[1..] == s;
  }
}
