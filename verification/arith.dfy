/** Small facts of integer and real arithmetic, stated once so that the
    proofs that use them see products of plain variables only. */
module Arith {

  lemma MulNonneg(a: int, b: int)
    requires a >= 0 && b >= 0
    ensures a * b >= 0
  {
  }

  /** m * (p * f) regrouped as (m * f) * p, given the product p * f by name. */
  lemma MulRotate(m: int, p: int, f: int, pf: int)
    requires pf == p * f
    ensures m * pf == (m * f) * p
  {
  }

  lemma MulSucc(q: int, d: int)
    ensures (q + 1) * d == q * d + d
  {
  }

  lemma CancelFactor(a: int, b: int, c: int)
    requires c > 0 && a * c == b * c
    ensures a == b
  {
  }

  /** The only multiple of d strictly between -d and d is 0. */
  lemma SmallMultiple(a: int, d: int)
    requires d >= 1 && -d < a * d < d
    ensures a == 0
  {
  }

  lemma MultipleInRange(w: int, u: int)
    requires u >= 1 && -u <= w * u <= u
    ensures -1 <= w <= 1
  {
  }

  /** Euclidean division is determined by quotient and remainder. */
  lemma DivUnique(m: int, d: int, q: int, r: int)
    requires d >= 1 && m == q * d + r && 0 <= r < d
    ensures m / d == q && m % d == r
  {
    var q' := m / d;
    var r' := m % d;
    assert (q - q') * d == r' - r;
    SmallMultiple(q - q', d);
  }

  /** Casting a product to the reals, with the second factor's cast given by name. */
  lemma CastMul(a: int, b: int, br: real, c: int)
    requires b as real == br && c == a * b
    ensures c as real == a as real * br
  {
  }

  lemma DivCancel(x: real, p: real, f: real, num: real, den: real)
    requires p > 0.0 && f > 0.0 && num == x * f && den == p * f
    ensures num / den == x / p
  {
  }

  lemma SplitDiv(a: real, b: real, p: real)
    requires p > 0.0
    ensures (a + b) / p == a / p + b / p
  {
  }

  lemma DivMono(g: real, h: real, t: real)
    requires t > 0.0 && g <= h
    ensures g / t <= h / t
  {
  }

  lemma HalfOverProduct(pp: real, pu: real)
    requires pp > 0.0 && pu > 0.0
    ensures (pu / 2.0) / (pp * pu) == 1.0 / (2.0 * pp)
  {
  }

  lemma NegDiv(a: real, t: real)
    requires t > 0.0
    ensures (-a) / t == -(a / t)
  {
  }

  lemma SubDiv(a: real, b: real, p: real)
    requires p > 0.0
    ensures (a - b) / p == a / p - b / p
  {
  }
}
