/** Quantity text for the drawn invoice rows (`_fmt_qty`, app/pdf/pdf_draw.py):
    three decimals, then trailing zeros and a trailing point stripped. */
module Quantity {
  import opened Wrappers
  import opened Digits
  import opened ExactDecimal
  import opened Text
  import opened Arith

  /** The three digits of a number below 1000, zero-padded. */
  function ThreeDigits(n: nat): (s: string)
    requires n < 1000
    ensures |s| == 3 && AllDigits(s) && DigitsToNat(s) == n
  {
    var s := [DigitChar(n / 100), DigitChar(n / 10 % 10), DigitChar(n % 10)];
    assert s[..2][..1] == [DigitChar(n / 100)];
    assert s[..1][..0] == [];
    assert DigitsToNat(s[..1]) == n / 100;
    assert DigitsToNat(s[..2]) == 10 * (n / 100) + n / 10 % 10;
    s
  }

  /** `f"{qty:.3f}"`: sign, whole part, point, three decimals, from the quantity
      rounded to thousandths with ties to even. A negative quantity that rounds
      to zero keeps its sign ("-0.000"). */
  function FixedText3(x: Dec): string
  {
    var q := RoundAt(x, 3);
    var a := Abs(q);
    Sign(q, x) + NatToDigits(a / 1000) + "." + ThreeDigits(a % 1000)
  }

  function Sign(q: int, x: Dec): string
  {
    if q < 0 || (q == 0 && x.mantissa < 0) then "-" else ""
  }

  /** `_fmt_qty(qty)`: `f"{qty:.3f}".rstrip('0').rstrip('.')`, or "0" if that is empty. */
  function QtyText(x: Dec): string
  {
    var s := RStrip(RStrip(FixedText3(x), '0'), '.');
    if s == [] then "0" else s
  }

  /** Reads `[-]digits[.d{1,3}]` as a signed number of thousandths. */
  function ParseQty(s: string): Option<int>
  {
    if |s| > 0 && s[0] == '-' then
      match ParseUnsigned(s[1..])
      case Some(v) => Some(Signed(true, v))
      case None => None
    else ParseUnsigned(s)
  }

  function Signed(neg: bool, v: nat): int
  {
    if neg then -(v as int) else v
  }

  /** Reads `digits[.d{1,3}]` as a number of thousandths. */
  function ParseUnsigned(body: string): Option<nat>
  {
    var i := IndexOf(body, '.');
    var whole := body[..i];
    if |whole| == 0 || !AllDigits(whole) then None
    else if i == |body| then Some(DigitsToNat(whole) * 1000)
    else
      var frac := body[i + 1..];
      if 1 <= |frac| <= 3 && AllDigits(frac) then
        Some(Thousandths(DigitsToNat(whole), DigitsToNat(frac), |frac|))
      else None
  }

  /** `w.f` in thousandths, for a decimal part `f` written with `k` digits. */
  function Thousandths(w: nat, f: nat, k: nat): nat
    requires k <= 3
  {
    w * 1000 + f * Pow10(3 - k)
  }

  /** The decimals `_fmt_qty` keeps: the three decimals without trailing zeros. */
  function Decimals(x: Dec): (g: string)
    ensures |g| <= 3 && AllDigits(g)
    ensures g == [] || g[|g| - 1] != '0'
  {
    var f := ThreeDigits(Abs(RoundAt(x, 3)) % 1000);
    var g := RStrip(f, '0');
    assert forall i :: 0 <= i < |g| ==> g[i] == f[i];
    g
  }

  /** The text `_fmt_qty` produces is the sign and whole part, followed by a
      point and the kept decimals only when some decimal is not zero. */
  lemma {:induction false} QtyTextShape(x: Dec)
    ensures var head := Sign(RoundAt(x, 3), x) + NatToDigits(Abs(RoundAt(x, 3)) / 1000);
      QtyText(x) == if Decimals(x) == [] then head else head + "." + Decimals(x)
  {
    var q := RoundAt(x, 3);
    var a := Abs(q);
    var head := Sign(q, x) + NatToDigits(a / 1000);
    var f := ThreeDigits(a % 1000);
    var g := Decimals(x);
    var raw := FixedText3(x);
    assert raw == (head + ".") + f;
    RStripAppend(head + ".", f, '0');
    var t := RStrip(raw, '0');
    assert t == head + "." + g;
    var d := NatToDigits(a / 1000);
    assert head[|head| - 1] == d[|d| - 1];
    if g == [] {
      assert t == head + ".";
      assert RStrip(t, '.') == RStrip(head, '.');
    } else {
      assert t[|t| - 1] == g[|g| - 1];
    }
  }

  /** `_fmt_qty` output never ends in a point, has at most three digits after
      the point, and none of them trailing zeros. */
  lemma QtyTextForm(x: Dec)
    ensures var s := QtyText(x);
      s != [] && s[|s| - 1] != '.'
      && (IndexOf(s, '.') < |s| ==> |s| - IndexOf(s, '.') - 1 <= 3 && s[|s| - 1] != '0')
  {
    QtyTextShape(x);
    var q := RoundAt(x, 3);
    var head := Sign(q, x) + NatToDigits(Abs(q) / 1000);
    var g := Decimals(x);
    var d := NatToDigits(Abs(q) / 1000);
    assert AllDigits(d);
    assert Excludes(head, '.') by {
      forall i | 0 <= i < |head| ensures head[i] != '.' {
        if i >= |Sign(q, x)| {
          assert head[i] == d[i - |Sign(q, x)|];
        }
      }
    }
    if g == [] {
      IndexOfAbsent(head, '.');
      assert head[|head| - 1] == d[|d| - 1];
    } else {
      IndexOfFirst(head, '.', g);
    }
  }

  /** The text reads back as the quantity rounded to thousandths. */
  lemma QtyTextRoundTrip(x: Dec)
    ensures ParseQty(QtyText(x)) == Some(RoundAt(x, 3))
  {
    QtyTextShape(x);
    var q := RoundAt(x, 3);
    var a := Abs(q);
    var d := NatToDigits(a / 1000);
    var g := Decimals(x);
    var body := if g == [] then d else d + "." + g;
    var sign := Sign(q, x);
    assert QtyText(x) == sign + body;
    BodyDenotes(x);
    assert IsDigit(d[0]) && body[0] == d[0];
    ParseSigned(sign, body, a);
    assert Signed(sign == "-", a) == q;
  }

  /** The unsigned part of `_fmt_qty`'s text denotes the magnitude of the rounded quantity. */
  lemma BodyDenotes(x: Dec)
    ensures var a := Abs(RoundAt(x, 3));
      var d := NatToDigits(a / 1000);
      var g := Decimals(x);
      ParseUnsigned(if g == [] then d else d + "." + g) == Some(a)
  {
    var a := Abs(RoundAt(x, 3));
    var d := NatToDigits(a / 1000);
    var f := ThreeDigits(a % 1000);
    var g := Decimals(x);
    TrailingZeros(f, g);
    DigitsRoundTrip(a / 1000);
    if g == [] {
      ParseWhole(d);
      assert DigitsToNat(f) == 0;
    } else {
      ParseWithDecimals(d, g);
      assert Thousandths(DigitsToNat(d), DigitsToNat(g), |g|) == a;
    }
  }

  lemma ParseSigned(sign: string, body: string, a: nat)
    requires sign == "" || sign == "-"
    requires |body| >= 1 && body[0] != '-' && ParseUnsigned(body) == Some(a)
    ensures ParseQty(sign + body) == Some(Signed(sign == "-", a))
  {
    if sign == "" {
      assert sign + body == body;
    } else {
      assert (sign + body)[1..] == body;
    }
  }

  lemma ParseWhole(d: string)
    requires |d| >= 1 && AllDigits(d)
    ensures ParseUnsigned(d) == Some(DigitsToNat(d) * 1000)
  {
    assert Excludes(d, '.');
    IndexOfAbsent(d, '.');
    assert d[..IndexOf(d, '.')] == d;
  }

  lemma ParseWithDecimals(d: string, g: string)
    requires |d| >= 1 && AllDigits(d) && 1 <= |g| <= 3 && AllDigits(g)
    ensures ParseUnsigned(d + "." + g) == Some(Thousandths(DigitsToNat(d), DigitsToNat(g), |g|))
  {
    var body := d + "." + g;
    var i := IndexOf(body, '.');
    assert i == |d| by {
      assert Excludes(d, '.');
      assert body == d + ['.'] + g;
      IndexOfFirst(d, '.', g);
    }
    assert body[..i] == d && body[i + 1..] == g by {
      assert body == d + ['.'] + g;
    }
  }

  /** Dropping trailing zeros from three decimals keeps their value once scaled. */
  lemma TrailingZeros(f: string, g: string)
    requires |f| == 3 && AllDigits(f) && g == RStrip(f, '0')
    ensures AllDigits(g) && DigitsToNat(f) == DigitsToNat(g) * Pow10(3 - |g|)
  {
    ZeroTail(f, g);
    AppendZeros(g, 3 - |g|);
  }

  lemma ZeroTail(f: string, g: string)
    requires AllDigits(f) && |g| <= |f| && g == f[..|g|]
    requires forall i :: |g| <= i < |f| ==> f[i] == '0'
    ensures AllDigits(g) && f == g + Repeat('0', |f| - |g|)
  {
    var z := f[|g|..];
    assert z == Repeat('0', |z|) by {
      forall i | 0 <= i < |z| ensures z[i] == '0' {
        assert z[i] == f[|g| + i];
      }
    }
    assert f == g + z by {
      assert g == f[..|g|];
      assert f == f[..|g|] + f[|g|..];
    }
    assert AllDigits(g) by {
      forall i | 0 <= i < |g| ensures IsDigit(g[i]) {
        assert g[i] == f[i];
      }
    }
  }

  /** Appending k zeros multiplies the number by 10^k. */
  lemma AppendZeros(g: string, k: nat)
    requires AllDigits(g)
    ensures AllDigits(g + Repeat('0', k))
    ensures DigitsToNat(g + Repeat('0', k)) == DigitsToNat(g) * Pow10(k)
  {
    ZerosDenoteZero(k);
    DigitsToNatAppend(g, Repeat('0', k));
  }

  /** Whole quantities print without a point: 2 gives "2", 100 gives "100". */
  lemma QtyTextWhole(n: nat)
    ensures QtyText(Dec(n, 0)) == NatToDigits(n)
  {
    var x := Dec(n, 0);
    var m := n * Pow10(3);
    assert RoundAt(x, 3) == m;
    assert Pow10(3) == 1000;
    DivUnique(m, 1000, n, 0);
    assert Abs(m) == m;
    QtyTextShape(x);
    assert ThreeDigits(0) == "000";
  }
}
