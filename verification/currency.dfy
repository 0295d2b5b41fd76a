/** Money rounding and formatting (app/core/currency.py): `round_money`
    quantizes to hundredths with round-half-to-even, `fmt_money` prints the
    rounded amount with exactly two decimals and optionally right-aligns it. */
module Currency {
  import opened Wrappers
  import opened Digits
  import opened ExactDecimal

  /** `round_money(x)`: the nearest multiple of 0.01, ties to the even hundredth.
      The result is a whole number of cents. */
  function RoundMoney(x: Dec): (r: Dec)
    ensures r.scale == 2
    ensures forall k :: Gap(x, 2, r.mantissa) <= Gap(x, 2, k)
    ensures 2 * Gap(x, 2, r.mantissa) == Step(x, 2) ==> r.mantissa % 2 == 0
  {
    Dec(RoundAt(x, 2), 2)
  }

  /** Rounding an amount that is already whole cents changes nothing. */
  lemma RoundMoneyIdempotent(x: Dec)
    ensures RoundMoney(RoundMoney(x)) == RoundMoney(x)
  {
    var c := RoundAt(x, 2);
    assert SameValue(Dec(c, 2), Dec(c, 2));
    RoundExact(Dec(c, 2), 2, c);
  }

  /** The rounded amount is within half a cent of the input. */
  lemma RoundMoneyWithinHalfCent(x: Dec)
    ensures -0.005 <= Value(RoundMoney(x)) - Value(x) <= 0.005
  {
    RoundWithinHalfUnit(x, 2);
    assert Pow10R(2) == 100.0;
  }

  /** Exact ties go to the even hundredth; other inputs to the nearest one. */
  lemma RoundMoneyTies()
    ensures RoundMoney(Dec(125, 3)) == Dec(12, 2)
    ensures RoundMoney(Dec(135, 3)) == Dec(14, 2)
    ensures RoundMoney(Dec(2675, 3)) == Dec(268, 2)
    ensures RoundMoney(Dec(-125, 3)) == Dec(-12, 2)
    ensures RoundMoney(Dec(49999, 3)) == Dec(5000, 2)
  {
    assert Pow10(1) == 10;
  }

  /** The two digits of a number below 100, with a leading zero when needed. */
  function TwoDigits(n: nat): (s: string)
    requires n < 100
    ensures |s| == 2 && AllDigits(s) && DigitsToNat(s) == n
  {
    var s := [DigitChar(n / 10), DigitChar(n % 10)];
    assert s[..1] == [DigitChar(n / 10)];
    assert s[..0] == [];
    assert DigitsToNat(s[..1]) == n / 10;
    s
  }

  /** The text `f"{v:.2f}"` prints for the float holding `cents / 100`; `neg`
      says whether that float is negative, which includes -0.0. */
  function CentsText(neg: bool, cents: int): (s: string)
  {
    (if neg then "-" else "") + Unsigned(Abs(cents))
  }

  /** Whole part, point, two decimals of a number of cents. */
  function Unsigned(a: nat): string
  {
    NatToDigits(a / 100) + "." + TwoDigits(a % 100)
  }

  /** `f"{round_money(x):.2f}"`. The rounded float is negative when the
      rounded amount is, and is -0.0 when a negative input rounds to zero
      (the quantized `Decimal` keeps the sign). */
  function MoneyString(x: Dec): (s: string)
    ensures |s| >= 4 && s[|s| - 3] == '.'
    ensures AllDigits(s[|s| - 2..])
  {
    var c := RoundMoney(x).mantissa;
    CentsText(c < 0 || (c == 0 && x.mantissa < 0), c)
  }

  /** Reads text of the shape `[-]digits.dd` as a signed number of cents. */
  function ParseCents(s: string): Option<int>
  {
    var neg := |s| > 0 && s[0] == '-';
    var body := if neg then s[1..] else s;
    if |body| >= 4 && body[|body| - 3] == '.' && AllDigits(body[..|body| - 3])
      && AllDigits(body[|body| - 2..])
    then
      var v := DigitsToNat(body[..|body| - 3]) * 100 + DigitsToNat(body[|body| - 2..]);
      Some(if neg then -v else v)
    else None
  }

  /** The printed amount reads back as the rounded amount: `fmt_money(x)` has
      exactly two decimals and denotes `round_money(x)`. */
  lemma MoneyStringDenotesRounded(x: Dec)
    ensures ParseCents(MoneyString(x)) == Some(RoundMoney(x).mantissa)
  {
    var c := RoundMoney(x).mantissa;
    CentsRoundTrip(c < 0 || (c == 0 && x.mantissa < 0), c);
  }

  /** Cents text reads back as the signed number of cents it was made from. */
  lemma CentsRoundTrip(neg: bool, c: int)
    requires neg ==> c <= 0
    requires !neg ==> c >= 0
    ensures ParseCents(CentsText(neg, c)) == Some(c)
  {
    var body := Unsigned(Abs(c));
    UnsignedParts(Abs(c));
    if neg {
      assert CentsText(neg, c)[1..] == body;
    } else {
      assert CentsText(neg, c) == body;
    }
  }

  /** Where the whole part and the decimals sit in the unsigned text, and
      what they denote. */
  lemma UnsignedParts(a: nat)
    ensures var b := Unsigned(a);
      |b| >= 4 && b[0] != '-' && b[|b| - 3] == '.'
      && AllDigits(b[..|b| - 3]) && AllDigits(b[|b| - 2..])
      && DigitsToNat(b[..|b| - 3]) * 100 + DigitsToNat(b[|b| - 2..]) == a
  {
    var digits := NatToDigits(a / 100);
    var frac := TwoDigits(a % 100);
    DigitsRoundTrip(a / 100);
    BodyParts(digits, frac);
    assert IsDigit(digits[0]);
  }

  lemma BodyParts(digits: string, frac: string)
    requires |frac| == 2
    ensures var body := digits + "." + frac;
      |body| == |digits| + 3 && body[..|body| - 3] == digits && body[|body| - 2..] == frac
      && body[|body| - 3] == '.' && (|digits| > 0 ==> body[0] == digits[0])
  {
  }

  /** `fmt_money(x, width)`: the two-decimal text, right-aligned with spaces to
      `width` when an int width above zero is given. */
  function FmtMoney(x: Dec, width: Option<int>): (r: string)
    ensures |r| >= |MoneyString(x)|
    ensures width.Some? && width.value > 0 ==>
      |r| == (if width.value > |MoneyString(x)| then width.value else |MoneyString(x)|)
    ensures r[|r| - |MoneyString(x)|..] == MoneyString(x)
    ensures forall i :: 0 <= i < |r| - |MoneyString(x)| ==> r[i] == ' '
    ensures (width.None? || width.value <= 0) ==> r == MoneyString(x)
  {
    var s := MoneyString(x);
    if width.Some? && width.value > 0 then PadLeft(s, width.value, ' ') else s
  }
}
