/** Exact decimal numbers, as Python's `Decimal(str(x))` holds them, and
    rounding to a fixed number of places with round-half-to-even
    (`Decimal.quantize(..., rounding=ROUND_HALF_EVEN)`). */
module ExactDecimal {
  import opened Digits
  import opened Arith

  /** The number mantissa * 10^-scale: `Dec(2675, 3)` is 2.675. */
  datatype Dec = Dec(mantissa: int, scale: nat)

  /** The real number a decimal denotes. */
  ghost function Value(x: Dec): real
  {
    x.mantissa as real / Pow10R(x.scale)
  }

  /** 10^k computed in the reals. */
  function Pow10R(k: nat): (p: real)
    ensures p >= 1.0
  {
    if k == 0 then 1.0 else 10.0 * Pow10R(k - 1)
  }

  lemma {:induction false} Pow10Real(k: nat)
    ensures Pow10(k) as real == Pow10R(k)
  {
    if k > 0 {
      Pow10Real(k - 1);
    }
  }

  lemma {:induction false} Pow10RAdd(a: nat, b: nat, c: nat)
    requires c == a + b
    ensures Pow10R(c) == Pow10R(a) * Pow10R(b)
  {
    if a > 0 {
      Pow10RAdd(a - 1, b, c - 1);
      assert Pow10R(c) == 10.0 * Pow10R(c - 1);
    }
  }

  function Abs(n: int): nat
  {
    if n < 0 then -n else n
  }

  function Max(a: nat, b: nat): nat
  {
    if a >= b then a else b
  }

  /** Two decimals denote the same number (possibly written with different scales,
      as "300.0" and "300.00" are). */
  predicate SameValue(a: Dec, b: Dec)
  {
    a.mantissa * Pow10(b.scale) == b.mantissa * Pow10(a.scale)
  }

  /** The distance between k * 10^-places and x, counted in units of
      10^-Max(x.scale, places). */
  function Gap(x: Dec, places: nat, k: int): nat
  {
    var s := Max(x.scale, places);
    Abs(k * Pow10(s - places) - x.mantissa * Pow10(s - x.scale))
  }

  /** One step 10^-places, counted in the same units as `Gap`. */
  function Step(x: Dec, places: nat): nat
  {
    Pow10(Max(x.scale, places) - places)
  }

  /** The number of 10^-places units nearest to x; on an exact tie, the even one.
      This is `x.quantize(Decimal(10) ** -places, rounding=ROUND_HALF_EVEN)`
      expressed as a count of units. */
  function RoundAt(x: Dec, places: nat): (q: int)
    ensures forall k :: Gap(x, places, q) <= Gap(x, places, k)
    ensures 2 * Gap(x, places, q) <= Step(x, places)
    ensures 2 * Gap(x, places, q) == Step(x, places) ==> q % 2 == 0
  {
    if x.scale <= places then
      var q := x.mantissa * Pow10(places - x.scale);
      ExactRounding(x, places, q);
      q
    else
      var d := Pow10(x.scale - places);
      var q0 := x.mantissa / d;
      var r := x.mantissa % d;
      var q := if 2 * r < d then q0
        else if 2 * r > d then q0 + 1
        else if q0 % 2 == 0 then q0
        else q0 + 1;
      InexactRounding(x, places, d, q0, r, q);
      q
  }

  /** When x has no more places than asked for, x itself is a whole number of units. */
  lemma ExactRounding(x: Dec, places: nat, q: int)
    requires x.scale <= places && q == x.mantissa * Pow10(places - x.scale)
    ensures forall k :: Gap(x, places, q) <= Gap(x, places, k)
    ensures 2 * Gap(x, places, q) <= Step(x, places)
    ensures 2 * Gap(x, places, q) == Step(x, places) ==> q % 2 == 0
  {
    assert Max(x.scale, places) == places;
    assert Pow10(0) == 1;
    assert Gap(x, places, q) == 0;
  }

  /** When x has more places than asked for, the floor quotient q0 and remainder r
      decide: below half a unit round down, above it round up, on the tie go to
      the even neighbour. */
  lemma InexactRounding(x: Dec, places: nat, d: nat, q0: int, r: int, q: int)
    requires x.scale > places && d == Pow10(x.scale - places)
    requires x.mantissa == q0 * d + r && 0 <= r < d
    requires q == if 2 * r < d then q0
        else if 2 * r > d then q0 + 1
        else if q0 % 2 == 0 then q0
        else q0 + 1
    ensures forall k :: Gap(x, places, q) <= Gap(x, places, k)
    ensures 2 * Gap(x, places, q) <= Step(x, places)
    ensures 2 * Gap(x, places, q) == Step(x, places) ==> q % 2 == 0
  {
    NeighbourGaps(x, places, d, q0, r);
    InexactNearest(x, places, d, q0, r, Gap(x, places, q));
  }

  /** The multiples just below and just above x are r and d - r away. */
  lemma NeighbourGaps(x: Dec, places: nat, d: nat, q0: int, r: int)
    requires x.scale > places && d == Pow10(x.scale - places)
    requires x.mantissa == q0 * d + r && 0 <= r < d
    ensures Step(x, places) == d
    ensures Gap(x, places, q0) == r && Gap(x, places, q0 + 1) == d - r
  {
    GapInexact(x, places, q0);
    GapInexact(x, places, q0 + 1);
    MulSucc(q0, d);
  }

  /** No multiple of 10^-places is closer to x than both neighbours. */
  lemma InexactNearest(x: Dec, places: nat, d: nat, q0: int, r: int, g: int)
    requires x.scale > places && d == Pow10(x.scale - places)
    requires x.mantissa == q0 * d + r && 0 <= r < d
    requires g <= r && g <= d - r
    ensures forall k :: g <= Gap(x, places, k)
  {
    forall k ensures g <= Gap(x, places, k) {
      GapInexact(x, places, k);
      NearestMultiple(x.mantissa, d, q0, r, k);
    }
  }

  lemma GapInexact(x: Dec, places: nat, k: int)
    requires x.scale > places
    ensures Step(x, places) == Pow10(x.scale - places)
    ensures Gap(x, places, k) == Abs(k * Pow10(x.scale - places) - x.mantissa)
  {
    assert Max(x.scale, places) == x.scale;
    assert Pow10(0) == 1;
  }

  /** Every multiple k * d is at least as far from m as the multiple just below
      (distance r) or the one just above (distance d - r). */
  lemma NearestMultiple(m: int, d: nat, q0: int, r: int, k: int)
    requires d >= 1 && m == q0 * d + r && 0 <= r < d
    ensures k <= q0 ==> Abs(k * d - m) >= r
    ensures k > q0 ==> Abs(k * d - m) >= d - r
  {
    if k <= q0 {
      MulNonneg(q0 - k, d);
      assert k * d - m == -((q0 - k) * d) - r;
    } else {
      MulNonneg(k - q0 - 1, d);
      assert k * d - m == (k - q0 - 1) * d + (d - r);
    }
  }

  /** Rounding a decimal whose value is already a whole number of units returns
      that number; in particular, rounding is idempotent. */
  lemma RoundExact(x: Dec, places: nat, q: int)
    requires SameValue(x, Dec(q, places))
    ensures RoundAt(x, places) == q
  {
    if x.scale <= places {
      RoundExactWiden(x, places, q);
    } else {
      RoundExactNarrow(x, places, q);
    }
  }

  lemma RoundExactWiden(x: Dec, places: nat, q: int)
    requires x.scale <= places
    requires x.mantissa * Pow10(places) == q * Pow10(x.scale)
    ensures RoundAt(x, places) == q
  {
    var m := x.mantissa;
    var ps := Pow10(x.scale);
    var f := Pow10(places - x.scale);
    assert (m * f) * ps == q * ps by {
      Pow10Add(x.scale, places - x.scale);
      MulRotate(m, ps, f, Pow10(places));
    }
    CancelFactor(m * f, q, ps);
  }

  lemma RoundExactNarrow(x: Dec, places: nat, q: int)
    requires x.scale > places
    requires x.mantissa * Pow10(places) == q * Pow10(x.scale)
    ensures RoundAt(x, places) == q
  {
    var m := x.mantissa;
    var pp := Pow10(places);
    var d := Pow10(x.scale - places);
    assert m * pp == (q * d) * pp by {
      Pow10Add(places, x.scale - places);
      MulRotate(q, pp, d, Pow10(x.scale));
    }
    CancelFactor(m, q * d, pp);
    DivUnique(m, d, q, 0);
  }

  /** An integer that is nearest to x, with ties going to the even one, is the
      one `RoundAt` returns: the rounding is uniquely determined. */
  lemma RoundingIsUnique(x: Dec, places: nat, k: int)
    requires forall j :: Gap(x, places, k) <= Gap(x, places, j)
    requires 2 * Gap(x, places, k) == Step(x, places) ==> k % 2 == 0
    ensures k == RoundAt(x, places)
  {
    var q := RoundAt(x, places);
    assert Gap(x, places, k) <= Gap(x, places, q);
    GapForm(x, places, k);
    GapForm(x, places, q);
    EquidistantEven(k, q, Step(x, places), Target(x, places), Gap(x, places, q));
  }

  /** Two counts equally far from `t`, at most half a step away, and both
      even when exactly half a step away, are the same count. */
  lemma EquidistantEven(k: int, q: int, u: int, t: int, g: int)
    requires u >= 1 && Abs(k * u - t) == g && Abs(q * u - t) == g && 2 * g <= u
    requires 2 * g == u ==> k % 2 == 0 && q % 2 == 0
    ensures k == q
  {
    DifferenceOfEquidistant(k, q, u, t, g);
    var w := k - q;
    MultipleInRange(w, u);
    if 2 * g < u {
      SmallMultiple(w, u);
    }
  }

  /** The multiple x is compared against in `Gap`: x in units of 10^-Max(scale, places). */
  function Target(x: Dec, places: nat): int
  {
    x.mantissa * Pow10(Max(x.scale, places) - x.scale)
  }

  lemma GapForm(x: Dec, places: nat, k: int)
    ensures Gap(x, places, k) == Abs(k * Step(x, places) - Target(x, places))
  {
  }

  lemma DifferenceOfEquidistant(k: int, q: int, u: int, t: int, g: int)
    requires Abs(k * u - t) == g && Abs(q * u - t) == g && 2 * g <= u
    ensures -u <= (k - q) * u <= u
    ensures 2 * g < u ==> -u < (k - q) * u < u
  {
    assert (k - q) * u == (k * u - t) - (q * u - t);
  }

  /** The sum of two decimals, at the larger of the two scales. */
  function Add(a: Dec, b: Dec): (c: Dec)
    ensures c.scale == Max(a.scale, b.scale)
    ensures Value(c) == Value(a) + Value(b)
  {
    var s := Max(a.scale, b.scale);
    var c := Dec(a.mantissa * Pow10(s - a.scale) + b.mantissa * Pow10(s - b.scale), s);
    RescaleValue(a.mantissa, a.scale, s - a.scale, a.mantissa * Pow10(s - a.scale), s);
    RescaleValue(b.mantissa, b.scale, s - b.scale, b.mantissa * Pow10(s - b.scale), s);
    SplitValue(a.mantissa * Pow10(s - a.scale), b.mantissa * Pow10(s - b.scale), s);
    c
  }

  /** Multiplying the mantissa by 10^k and raising the scale by k keeps the value. */
  lemma RescaleValue(m: int, scale: nat, k: nat, n: int, s: nat)
    requires n == m * Pow10(k) && s == scale + k
    ensures Value(Dec(n, s)) == Value(Dec(m, scale))
  {
    var f := Pow10R(k);
    assert n as real == m as real * f by {
      Pow10Real(k);
      CastMul(m, Pow10(k), f, n);
    }
    assert Pow10R(s) == Pow10R(scale) * f by {
      Pow10RAdd(scale, k, s);
    }
    DivCancel(m as real, Pow10R(scale), f, n as real, Pow10R(s));
  }

  lemma SplitValue(a: int, b: int, s: nat)
    ensures Value(Dec(a + b, s)) == Value(Dec(a, s)) + Value(Dec(b, s))
  {
    SplitDiv(a as real, b as real, Pow10R(s));
  }

  lemma SubValue(a: int, b: int, s: nat)
    ensures Value(Dec(a - b, s)) == Value(Dec(a, s)) - Value(Dec(b, s))
  {
    SubDiv(a as real, b as real, Pow10R(s));
  }

  /** Half of one unit 10^-places. */
  ghost function HalfUnit(places: nat): real
  {
    1.0 / (2.0 * Pow10R(places))
  }

  /** The value of a rounded result lies within half a unit of the input:
      |q * 10^-places - x| <= 10^-places / 2. */
  lemma RoundWithinHalfUnit(x: Dec, places: nat)
    ensures -HalfUnit(places) <= Value(Dec(RoundAt(x, places), places)) - Value(x) <= HalfUnit(places)
  {
    var q := RoundAt(x, places);
    var s := Max(x.scale, places);
    var u := s - places;
    var v := s - x.scale;
    var a := q * Pow10(u);
    var b := x.mantissa * Pow10(v);
    RescaleValue(q, places, u, a, s);
    RescaleValue(x.mantissa, x.scale, v, b, s);
    SubValue(a, b, s);
    assert 2 * Abs(a - b) <= Pow10(u);
    HalfUnitBound(a - b, places, u, s);
  }

  lemma HalfUnitBound(n: int, places: nat, u: nat, s: nat)
    requires s == places + u && 2 * Abs(n) <= Pow10(u)
    ensures -HalfUnit(places) <= Value(Dec(n, s)) <= HalfUnit(places)
  {
    Pow10Real(u);
    HalfInReals(n, Pow10(u));
    Pow10RAdd(places, u, s);
    RealHalfBound(n as real, Pow10R(places), Pow10R(u), Pow10R(s));
  }

  lemma HalfInReals(n: int, p: int)
    requires 2 * Abs(n) <= p
    ensures 2.0 * (n as real) <= p as real && -(p as real) <= 2.0 * (n as real)
  {
  }

  lemma RealHalfBound(g: real, pp: real, pu: real, t: real)
    requires pp > 0.0 && pu > 0.0 && t == pp * pu
    requires 2.0 * g <= pu && -pu <= 2.0 * g
    ensures -(1.0 / (2.0 * pp)) <= g / t <= 1.0 / (2.0 * pp)
  {
    assert -(pu / 2.0) <= g <= pu / 2.0;
    DivMono(g, pu / 2.0, t);
    DivMono(-(pu / 2.0), g, t);
    HalfOverProduct(pp, pu);
    NegDiv(pu / 2.0, t);
  }
}
