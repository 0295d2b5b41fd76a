/** Decimal digit strings: the text `str(n)` and `f"{n:d}"` produce for a
    non-negative integer, zero padding, and parsing such text back. */
module Digits {

  /** 10^k. */
  function Pow10(k: nat): (p: nat)
    ensures p >= 1
  {
    if k == 0 then 1 else 10 * Pow10(k - 1)
  }

  lemma {:induction false} Pow10Add(a: nat, b: nat)
    ensures Pow10(a + b) == Pow10(a) * Pow10(b)
  {
    if a > 0 {
      Pow10Add(a - 1, b);
      assert Pow10(a + b) == 10 * Pow10(a - 1 + b);
    }
  }

  predicate IsDigit(c: char)
  {
    '0' <= c <= '9'
  }

  predicate AllDigits(s: string)
  {
    forall i :: 0 <= i < |s| ==> IsDigit(s[i])
  }

  function DigitValue(c: char): (d: nat)
    requires IsDigit(c)
    ensures d < 10
  {
    (c as int) - ('0' as int)
  }

  function DigitChar(d: nat): (c: char)
    requires d < 10
    ensures IsDigit(c) && DigitValue(c) == d
  {
    (('0' as int) + d) as char
  }

  /** The decimal digits of `n`, most significant first, without leading zeros
      ("0" for zero). */
  function NatToDigits(n: nat): (s: string)
    ensures 1 <= |s| && AllDigits(s)
    ensures |s| > 1 ==> s[0] != '0'
    decreases n
  {
    if n < 10 then [DigitChar(n)] else NatToDigits(n / 10) + [DigitChar(n % 10)]
  }

  /** The number a string of decimal digits denotes; leading zeros are allowed. */
  function DigitsToNat(s: string): nat
    requires AllDigits(s)
  {
    if s == [] then 0 else 10 * DigitsToNat(s[..|s| - 1]) + DigitValue(s[|s| - 1])
  }

  /** Reading back the digits of `n` gives `n`. */
  lemma {:induction false} DigitsRoundTrip(n: nat)
    ensures DigitsToNat(NatToDigits(n)) == n
  {
    if n >= 10 {
      var s := NatToDigits(n);
      assert s[..|s| - 1] == NatToDigits(n / 10);
      DigitsRoundTrip(n / 10);
    }
  }

  /** `k` copies of `c`. */
  function Repeat(c: char, k: nat): (s: string)
    ensures |s| == k
    ensures forall i :: 0 <= i < k ==> s[i] == c
  {
    if k == 0 then [] else Repeat(c, k - 1) + [c]
  }

  /** Python's `s.rjust(width, c)`: `s` preceded by enough copies of `c` to
      reach `width` characters; `s` itself when it is already that long. */
  function PadLeft(s: string, width: int, c: char): (r: string)
    ensures |r| == if width > |s| then width else |s|
    ensures r[|r| - |s|..] == s
    ensures forall i :: 0 <= i < |r| - |s| ==> r[i] == c
  {
    if width > |s| then Repeat(c, width - |s|) + s else s
  }

  /** Leading zeros do not change the number a digit string denotes. */
  lemma {:induction false} LeadingZeros(k: nat, s: string)
    requires AllDigits(s)
    ensures AllDigits(Repeat('0', k) + s)
    ensures DigitsToNat(Repeat('0', k) + s) == DigitsToNat(s)
    decreases |s|
  {
    var z := Repeat('0', k);
    assert AllDigits(z + s) by {
      forall i | 0 <= i < |z + s| ensures IsDigit((z + s)[i]) {
        if i < k { assert (z + s)[i] == '0'; } else { assert (z + s)[i] == s[i - k]; }
      }
    }
    if s == [] {
      assert z + s == z;
      ZerosDenoteZero(k);
    } else {
      var t := s[..|s| - 1];
      assert (z + s)[..|z + s| - 1] == z + t;
      LeadingZeros(k, t);
    }
  }

  lemma {:induction false} ZerosDenoteZero(k: nat)
    ensures AllDigits(Repeat('0', k))
    ensures DigitsToNat(Repeat('0', k)) == 0
  {
    if k > 0 {
      ZerosDenoteZero(k - 1);
      var z := Repeat('0', k);
      assert z[..k - 1] == Repeat('0', k - 1);
      assert DigitValue(z[k - 1]) == 0;
      assert DigitsToNat(z) == 10 * DigitsToNat(z[..k - 1]) + DigitValue(z[k - 1]);
    }
  }

  /** A string of k digits denotes a number below 10^k. */
  lemma {:induction false} DigitsToNatBound(s: string)
    requires AllDigits(s)
    ensures DigitsToNat(s) < Pow10(|s|)
  {
    if s != [] {
      DigitsToNatBound(s[..|s| - 1]);
    }
  }

  lemma ShiftDigit(x: int, p: int, y: int, d: int)
    ensures 10 * (x * p + y) + d == x * (10 * p) + (10 * y + d)
  {
  }

  /** Splitting a digit string: the high part scaled by the length of the low part. */
  lemma {:induction false} DigitsToNatAppend(a: string, b: string)
    requires AllDigits(a) && AllDigits(b)
    ensures AllDigits(a + b)
    ensures DigitsToNat(a + b) == DigitsToNat(a) * Pow10(|b|) + DigitsToNat(b)
    decreases |b|
  {
    assert AllDigits(a + b) by {
      forall i | 0 <= i < |a + b| ensures IsDigit((a + b)[i]) {
        if i < |a| { assert (a + b)[i] == a[i]; } else { assert (a + b)[i] == b[i - |a|]; }
      }
    }
    if b == [] {
      assert a + b == a;
    } else {
      var b' := b[..|b| - 1];
      assert (a + b)[..|a + b| - 1] == a + b';
      DigitsToNatAppend(a, b');
      ShiftDigit(DigitsToNat(a), Pow10(|b'|), DigitsToNat(b'), DigitValue(b[|b| - 1]));
      assert DigitsToNat(a + b) == 10 * DigitsToNat(a + b') + DigitValue(b[|b| - 1]);
      assert DigitsToNat(b) == 10 * DigitsToNat(b') + DigitValue(b[|b| - 1]);
    }
  }

  /** `n` has at most `w` digits exactly when it is below 10^w. */
  lemma {:induction false} DigitCount(n: nat, w: nat)
    requires w >= 1
    ensures |NatToDigits(n)| <= w <==> n < Pow10(w)
    decreases n
  {
    if n >= 10 {
      if w == 1 {
        assert Pow10(1) == 10;
      } else {
        DigitCount(n / 10, w - 1);
        assert Pow10(w) == 10 * Pow10(w - 1);
      }
    } else {
      assert Pow10(w) >= 10 by {
        assert Pow10(w) == 10 * Pow10(w - 1);
      }
    }
  }

  /** `f"{n:0{w}d}"` for `n >= 0`: the digits of `n`, zero-padded on the left
      to `w` characters and never cut. */
  function ZeroPad(n: nat, w: int): (s: string)
    ensures AllDigits(s) && DigitsToNat(s) == n
    ensures |s| == if w > |NatToDigits(n)| then w else |NatToDigits(n)|
    ensures s[|s| - |NatToDigits(n)|..] == NatToDigits(n)
  {
    var d := NatToDigits(n);
    var s := PadLeft(d, w, '0');
    assert s == Repeat('0', |s| - |d|) + d by {
      if w > |d| {
        assert s == Repeat('0', w - |d|) + d;
      } else {
        assert Repeat('0', 0) == [];
      }
    }
    LeadingZeros(|s| - |d|, d);
    DigitsRoundTrip(n);
    s
  }
}
