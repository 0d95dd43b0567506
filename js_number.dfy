/**
 * JavaScript numbers as the booking tool meets them: `Number(text)` applied to
 * form text and to the pieces of a date, the addition its totals loop performs,
 * and `String(km)` applied to a distance in hundredths of a kilometre.
 *
 * `Number(text)` is modelled for decimal literals (optional sign, digits, an
 * optional point and fraction) surrounded by optional white space; the empty
 * or all-blank string gives 0, and any other text gives a non-finite value.
 */
module JsNumber {
  import opened JsString

  /** A JavaScript number: a finite value, or one of NaN, +Infinity and
      -Infinity, which the model does not tell apart. */
  datatype Number = Finite(value: real) | NonFinite

  /** `a + b`: finite when both operands are; NaN and the infinities absorb. */
  function Add(a: Number, b: Number): (r: Number)
    ensures r.Finite? <==> a.Finite? && b.Finite?
    ensures r.Finite? ==> r.value == a.value + b.value
  {
    if a.Finite? && b.Finite? then Finite(a.value + b.value) else NonFinite
  }

  predicate IsDigit(c: char) {
    '0' <= c <= '9'
  }

  predicate AllDigits(s: string) {
    forall i :: 0 <= i < |s| ==> IsDigit(s[i])
  }

  function DigitChar(d: nat): (c: char)
    requires d < 10
    ensures IsDigit(c) && DigitValue(c) == d
  {
    ('0' as int + d) as char
  }

  function DigitValue(c: char): (d: nat)
    requires IsDigit(c)
    ensures d < 10
  {
    c as int - '0' as int
  }

  /** The value of a string of decimal digits, read left to right. */
  function DigitsValue(s: string): nat
    requires AllDigits(s)
  {
    if s == [] then 0 else DigitsValue(s[..|s| - 1]) * 10 + DigitValue(s[|s| - 1])
  }

  function Pow10(n: nat): (p: nat)
    ensures p >= 1
  {
    if n == 0 then 1 else 10 * Pow10(n - 1)
  }

  /** The first position of `c` in `s`. */
  function IndexOf(s: string, c: char): (i: nat)
    requires c in s
    ensures i < |s| && s[i] == c && c !in s[..i]
  {
    if s[0] == c then 0 else 1 + IndexOf(s[1..], c)
  }

  /** The value of the digits after a decimal point. */
  function FractionValue(frac: string): (v: real)
    requires AllDigits(frac)
    ensures 0.0 <= v
  {
    DigitsValue(frac) as real / Pow10(|frac|) as real
  }

  /** An unsigned decimal literal: digits, or digits around one point with at
      least one digit in all; anything else is NaN. */
  function UnsignedDecimal(t: string): Number {
    if '.' in t then
      var i := IndexOf(t, '.');
      var whole, frac := t[..i], t[i + 1..];
      if |whole| + |frac| > 0 && AllDigits(whole) && AllDigits(frac)
      then Finite(DigitsValue(whole) as real + FractionValue(frac))
      else NonFinite
    else if t != [] && AllDigits(t) then Finite(DigitsValue(t) as real)
    else NonFinite
  }

  function Negate(n: Number): Number {
    if n.Finite? then Finite(-n.value) else NonFinite
  }

  /** A decimal literal with an optional sign. */
  function SignedDecimal(t: string): Number
    requires t != []
  {
    if t[0] == '-' then Negate(UnsignedDecimal(t[1..]))
    else if t[0] == '+' then UnsignedDecimal(t[1..])
    else UnsignedDecimal(t)
  }

  /** `Number(s)` for a string `s`. */
  function ToNumber(s: string): Number {
    var t := Trim(s);
    if t == [] then Finite(0.0) else SignedDecimal(t)
  }

  /** `Number` trims its argument itself: trimming first changes nothing. */
  lemma ToNumberTrim(s: string)
    ensures ToNumber(Trim(s)) == ToNumber(s)
  {
    TrimIdempotent(s);
  }

  /** Blank text converts to 0, not to NaN. */
  lemma ToNumberBlank(s: string)
    requires forall i :: 0 <= i < |s| ==> IsWhitespace(s[i])
    ensures ToNumber(s) == Finite(0.0)
  {
    TrimEmptyIffBlank(s);
  }

  /** A character that is not a digit does not occur in a string of digits. */
  lemma NotInDigits(s: string, c: char)
    requires AllDigits(s) && !IsDigit(c)
    ensures c !in s
  {
  }

  /** An unsigned literal never denotes a negative number. */
  lemma UnsignedDecimalNonNegative(t: string)
    ensures UnsignedDecimal(t).Finite? ==> UnsignedDecimal(t).value >= 0.0
  {
    if '.' in t {
      var i := IndexOf(t, '.');
      var whole, frac := t[..i], t[i + 1..];
    }
  }

  /** Without a minus sign the text cannot convert to a negative number. */
  lemma ToNumberNoMinus(s: string)
    requires '-' !in s
    ensures ToNumber(s).Finite? ==> ToNumber(s).value >= 0.0
  {
    var t := Trim(s);
    if t != [] {
      assert t[0] in s;
      UnsignedDecimalNonNegative(t);
      UnsignedDecimalNonNegative(t[1..]);
    }
  }

  /** A non-empty string of digits converts to the number it spells. */
  lemma ToNumberDigits(s: string)
    requires s != [] && AllDigits(s)
    ensures ToNumber(s) == Finite(DigitsValue(s) as real)
  {
    TrimUntouched(s);
    NotInDigits(s, '.');
  }

  /** Digits, a point and digits convert to the whole part plus the fraction. */
  lemma UnsignedDecimalWithPoint(w: string, frac: string)
    requires w != [] && AllDigits(w) && AllDigits(frac)
    ensures UnsignedDecimal(w + "." + frac)
         == Finite(DigitsValue(w) as real + FractionValue(frac))
  {
    var t := w + "." + frac;
    NotInDigits(w, '.');
    assert t == w + ("." + frac);
    IndexOfPrefix(w, '.', "." + frac);
    var i := IndexOf(t, '.');
    assert t[..i] == w;
    assert t[i + 1..] == frac;
  }

  /** The first position of a character that the prefix lacks lies past the
      prefix. */
  lemma {:induction false} IndexOfPrefix(w: string, c: char, rest: string)
    requires c !in w && rest != [] && rest[0] == c
    ensures c in w + rest && IndexOf(w + rest, c) == |w|
  {
    assert (w + rest)[|w|] == c;
    if w != [] {
      IndexOfPrefix(w[1..], c, rest);
      assert (w + rest)[1..] == w[1..] + rest;
    }
  }

  /** `String(n)` for a natural number: its decimal digits without leading
      zeros; reading them back gives `n`. */
  function NatText(n: nat): (s: string)
    ensures s != [] && AllDigits(s)
    ensures DigitsValue(s) == n
    ensures n > 0 ==> s[0] != '0'
  {
    if n < 10 then [DigitChar(n)]
    else
      var prefix := NatText(n / 10);
      var s := prefix + [DigitChar(n % 10)];
      assert s[..|s| - 1] == prefix;
      s
  }

  /** `String(h / 100)` for a non-negative number of hundredths `h`, in the
      fixed notation JavaScript uses below 10^21: the whole part, then a point
      and the hundredths with trailing zeros dropped. */
  function HundredthsText(h: nat): string {
    var whole, cents := h / 100, h % 100;
    if cents == 0 then NatText(whole)
    else if cents % 10 == 0 then NatText(whole) + "." + [DigitChar(cents / 10)]
    else NatText(whole) + "." + [DigitChar(cents / 10), DigitChar(cents % 10)]
  }

  /** `String(h / 100)` for any whole number of hundredths `h`. */
  function KmText(h: int): string {
    if h < 0 then "-" + HundredthsText(-h) else HundredthsText(h)
  }

  /** One digit after the point is tenths. */
  lemma OneDigitFraction(d: nat)
    requires d < 10
    ensures FractionValue([DigitChar(d)]) == d as real / 10.0
  {
    assert [DigitChar(d)][..0] == [];
    assert DigitsValue([DigitChar(d)]) == d;
    assert Pow10(1) == 10;
  }

  /** Two digits after the point are hundredths. */
  lemma TwoDigitFraction(d1: nat, d2: nat)
    requires d1 < 10 && d2 < 10
    ensures FractionValue([DigitChar(d1), DigitChar(d2)]) == (10 * d1 + d2) as real / 100.0
  {
    var frac := [DigitChar(d1), DigitChar(d2)];
    assert frac[..1] == [DigitChar(d1)];
    assert frac[..1][..0] == [];
    assert DigitsValue(frac[..1]) == d1;
    assert DigitsValue(frac) == 10 * d1 + d2;
    assert Pow10(2) == 100 by {
      assert Pow10(1) == 10;
    }
  }

  /** The text of a number of hundredths, read back unsigned, is that number. */
  lemma HundredthsTextValue(h: nat, v: real)
    requires v == h as real / 100.0
    ensures UnsignedDecimal(HundredthsText(h)) == Finite(v)
  {
    var whole, cents := h / 100, h % 100;
    var w := NatText(whole);
    assert h == 100 * whole + cents;
    assert v == whole as real + cents as real / 100.0;
    if cents == 0 {
      NotInDigits(w, '.');
    } else if cents % 10 == 0 {
      OneDigitFraction(cents / 10);
      UnsignedDecimalWithPoint(w, [DigitChar(cents / 10)]);
    } else {
      TwoDigitFraction(cents / 10, cents % 10);
      UnsignedDecimalWithPoint(w, [DigitChar(cents / 10), DigitChar(cents % 10)]);
    }
  }

  /** The text of a number of hundredths starts and ends with a digit. */
  lemma HundredthsTextEnds(h: nat)
    ensures HundredthsText(h) != []
    ensures IsDigit(HundredthsText(h)[0]) && IsDigit(HundredthsText(h)[|HundredthsText(h)| - 1])
  {
    var w := NatText(h / 100);
    var t := HundredthsText(h);
    assert t[..|w|] == w;
  }

  /** Text that starts and ends with a digit converts as an unsigned literal. */
  lemma ToNumberDigitEnds(t: string)
    requires t != [] && IsDigit(t[0]) && IsDigit(t[|t| - 1])
    ensures ToNumber(t) == UnsignedDecimal(t)
  {
    assert Trim(t) == t by {
      TrimUntouched(t);
    }
    UnsignedLiteral(t);
  }

  /** A literal without a sign is read as unsigned. */
  lemma UnsignedLiteral(t: string)
    requires t != [] && t[0] != '-' && t[0] != '+'
    ensures SignedDecimal(t) == UnsignedDecimal(t)
  {
  }

  /** Such text with a minus sign in front converts as the negated literal. */
  lemma ToNumberMinusDigitEnds(t: string)
    requires t != [] && IsDigit(t[0]) && IsDigit(t[|t| - 1])
    ensures ToNumber("-" + t) == Negate(UnsignedDecimal(t))
  {
    TrimDigitEnds(t);
    NegativeLiteral(t);
  }

  /** Text that starts and ends with a digit has nothing to trim, with or
      without a minus sign in front. */
  lemma TrimDigitEnds(t: string)
    requires t != [] && IsDigit(t[0]) && IsDigit(t[|t| - 1])
    ensures Trim(t) == t && Trim("-" + t) == "-" + t
  {
    TrimUntouched(t);
    var s := "-" + t;
    assert s[0] == '-' && s[|s| - 1] == t[|t| - 1];
    TrimUntouched(s);
  }

  /** A minus sign in front of a literal negates it. */
  lemma NegativeLiteral(t: string)
    ensures SignedDecimal("-" + t) == Negate(UnsignedDecimal(t))
  {
    assert ("-" + t)[1..] == t;
  }

  /** `Number(String(v))` gives back `v` for every `v` that is a whole number
      `h` of hundredths: the text written into the form for a distance
      converts to the same distance. */
  lemma KmTextRoundTrip(h: int, v: real)
    requires v == h as real / 100.0
    ensures ToNumber(KmText(h)) == Finite(v)
  {
    if h < 0 {
      NegativeKmText(-h, v);
    } else {
      HundredthsTextEnds(h);
      HundredthsTextValue(h, v);
      ToNumberDigitEnds(HundredthsText(h));
    }
  }

  /** A negative distance is written with a minus sign and reads back
      negated. */
  lemma NegativeKmText(u: nat, v: real)
    requires u > 0 && -v == u as real / 100.0
    ensures ToNumber(KmText(-(u as int))) == Finite(v)
  {
    var t := HundredthsText(u);
    assert KmText(-(u as int)) == "-" + t;
    HundredthsTextEnds(u);
    HundredthsTextValue(u, -v);
    ToNumberMinusDigitEnds(t);
  }

  /** Converting the text of a number of hundredths never meets a comma. */
  lemma KmTextHasNoComma(h: int)
    ensures ',' !in KmText(h)
  {
    var u: nat := if h < 0 then -h else h;
    NotInDigits(NatText(u / 100), ',');
  }
}
