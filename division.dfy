/** The part of `operator/` that the model covers: the normalization of the
    operands (step D1 of Algorithm D in section 4.3.1 of Knuth's "The Art of
    Computer Programming", volume 2), the quotient-digit estimate the loop body
    starts with, and the correction step applied to that estimate. */
module Division {
  import opened Digits
  import opened Errors
  import Scalar

  /** The state normalization leaves: the scaled dividend u and divisor v, the
      scale factor d, and the sizes m and n of the quotient loop. */
  datatype Normalized = Normalized(u: seq<int>, v: seq<int>, d: int, m: int, n: int)

  /** Normalization: copy the operands, let n be the divisor's length and m the
      difference of the lengths, allocate the quotient `vector<int> q(m)` (a
      negative m makes that allocation throw a length error), scale both
      operands in place by d = 10 / (t + 1) for the divisor's top digit t, and
      pad the scaled dividend with a zero unless the scaling already lengthened
      it. */
  method NormalizePrefix(dividend: seq<int>, divisor: seq<int>) returns (r: Result<Normalized>)
    requires Canonical(dividend) && Canonical(divisor)
    ensures r.Err? <==> |dividend| < |divisor|
    ensures r.Err? ==> r.error == LengthError
    ensures r.Ok? ==> r.value.n == |divisor| && r.value.m == |dividend| - |divisor|
    ensures r.Ok? ==> r.value.d == 10 / (divisor[|divisor| - 1] + 1) && 1 <= r.value.d <= 10
    ensures r.Ok? ==> AllDigits(r.value.u) && |r.value.u| == r.value.m + r.value.n + 1
    ensures r.Ok? ==> Value(r.value.u) == Value(dividend) * r.value.d
    ensures r.Ok? ==> Canonical(r.value.v) && Value(r.value.v) == Value(divisor) * r.value.d
    ensures r.Ok? && divisor[|divisor| - 1] >= 1 ==>
      r.value.d <= 5 && |r.value.v| == |divisor| && r.value.v[|divisor| - 1] >= 5
    ensures r.Ok? && divisor == [0] ==> r.value.d == 10 && r.value.v == [0]
  {
    var u := new Scalar.DigitVector(dividend);
    var v := new Scalar.DigitVector(divisor);
    var n := |v.elems|;
    var m := |u.elems| - n;
    if m < 0 {
      return Err(LengthError);
    }
    var top := v.elems[n - 1];
    var d := 10 / (top + 1);
    ScaleFactorBounds(top);
    Scalar.Multiply(u, d);
    Scalar.Multiply(v, d);
    ScaledLength(dividend, d, u.elems);
    if top >= 1 {
      ScaledDivisor(divisor, d, v.elems);
    } else {
      assert divisor == [0];
      CanonicalZero(v.elems);
    }
    if |u.elems| == m + n {
      ValuePush(u.elems, 0);
      ShiftZero(|u.elems|);
      u.elems := u.elems + [0];
    }
    r := Ok(Normalized(u.elems, v.elems, d, m, n));
  }

  /** The scale factor 10 / (t + 1): 10 for a zero top digit; otherwise at most
      5, large enough to lift t to at least 5 and small enough to keep t + 1
      within one digit position. */
  lemma ScaleFactorBounds(t: int)
    requires IsDigit(t)
    ensures 1 <= 10 / (t + 1) <= 10
    ensures t == 0 ==> 10 / (t + 1) == 10
    ensures t >= 1 ==> 10 / (t + 1) <= 5 && t * (10 / (t + 1)) >= 5 && (t + 1) * (10 / (t + 1)) <= 10
  {
    if t == 0 {
    } else if t == 1 {
    } else if t == 2 {
    } else if t == 3 {
    } else if t == 4 {
    } else {
      assert 10 / (t + 1) == 1;
    }
  }

  /** Scaling a canonical number by 1..10 adds at most one digit and never
      removes one. */
  lemma ScaledLength(s: seq<int>, d: int, t: seq<int>)
    requires Canonical(s) && Canonical(t) && 1 <= d <= 10
    requires Value(t) == Value(s) * d
    ensures |s| <= |t| <= |s| + 1
  {
    ValueBounds(s);
    MulLe(d, 10, Value(s));
    MulLe(Value(s), Pow10(|s|) - 1, 10);
    assert Value(t) < Pow10(|s| + 1);
    LengthFromValue(t, |s| + 1);
    if |s| >= 2 {
      ValueLower(s);
      MulLe(1, d, Value(s));
      LengthAtLeast(t, |s|);
    }
  }

  /** Scaling a divisor whose top digit t is non-zero by 10 / (t + 1) keeps its
      length and lifts its top digit to at least 5. */
  lemma ScaledDivisor(s: seq<int>, d: int, t: seq<int>)
    requires Canonical(s) && Canonical(t) && s[|s| - 1] >= 1
    requires d == 10 / (s[|s| - 1] + 1)
    requires Value(t) == Value(s) * d
    ensures |t| == |s| && t[|t| - 1] >= 5
  {
    var top, k := s[|s| - 1], |s| - 1;
    ScaleFactorBounds(top);
    TopDigitBounds(s);
    ShiftPow(top, k);
    ScaleWindow(top, Pow10(k), Value(s), d);
    assert Pow10(k + 1) == 10 * Pow10(k);
    LengthFromValue(t, k + 1);
    LengthAtLeast(t, k + 1);
    ShiftPow(5, k);
    TopDigitFromValue(t, 5);
  }

  /** A number between t * p and (t + 1) * p, scaled by a factor d with
      t * d >= 5 and (t + 1) * d <= 10, lies between 5 * p and 10 * p. */
  lemma ScaleWindow(t: int, p: int, x: int, d: int)
    requires p >= 1 && 1 <= d && t * p <= x < t * p + p
    requires t * d >= 5 && (t + 1) * d <= 10
    ensures 5 * p <= x * d < 10 * p
  {
    MulLe(t * p, x, d);
    assert t * p * d == (t * d) * p;
    MulLe(5, t * d, p);
    MulLe(x, t * p + p - 1, d);
    assert (t * p + p) * d == ((t + 1) * d) * p;
    MulLe((t + 1) * d, 10, p);
  }

  /** The first estimate of a quotient digit: the two top digits of the current
      window read as a number, then divided by the base. The divisor does not
      take part, so the estimate is just the window's top digit. */
  function InitialEstimate(hi: int, lo: int): (r: (int, int))
    requires IsDigit(hi) && IsDigit(lo)
    ensures r.0 == hi && r.1 == lo
    ensures r.0 * 10 + r.1 == hi * 10 + lo && 0 <= r.1 < 10
  {
    var numerator := hi * 10 + lo;
    (numerator / 10, numerator % 10)
  }

  /** The test that fires a decrement of the estimate: it reaches the base, or
      it overshoots on the next digit of the divisor. */
  predicate TooLarge(qHat: int, rHat: int, vNext: int, uNext: int) {
    qHat == 10 || qHat * vNext > 10 * rHat + uNext
  }

  /** The correction step: lower the estimate and raise the remainder by the
      divisor's top digit while the test fires, at most twice, and the second
      time only while the remainder is still below the base. */
  method CorrectEstimate(qHat: int, rHat: int, vTop: int, vNext: int, uNext: int)
    returns (q: int, r: int)
    ensures qHat - 2 <= q <= qHat
    ensures q * vTop + r == qHat * vTop + rHat
    ensures q < qHat <==> TooLarge(qHat, rHat, vNext, uNext)
    ensures q == qHat - 2 <==>
      TooLarge(qHat, rHat, vNext, uNext) && rHat + vTop < 10
      && TooLarge(qHat - 1, rHat + vTop, vNext, uNext)
    ensures q == qHat - 2 || r >= 10 || !TooLarge(q, r, vNext, uNext)
    ensures qHat >= 0 && rHat >= 0 && vTop >= 0 && vNext >= 0 && uNext >= 0 ==> q >= 0
  {
    q, r := qHat, rHat;
    if TooLarge(q, r, vNext, uNext) {
      TestNeedsPositiveEstimate(q, r, vNext, uNext);
      q := q - 1;
      r := r + vTop;
      if r < 10 && TooLarge(q, r, vNext, uNext) {
        TestNeedsPositiveEstimate(q, r, vNext, uNext);
        q := q - 1;
        r := r + vTop;
      }
    }
  }

  /** The test only fires on an estimate of at least 1 when the remainder and
      the digits it compares are non-negative, so a decrement never takes the
      estimate below 0. */
  lemma TestNeedsPositiveEstimate(qHat: int, rHat: int, vNext: int, uNext: int)
    requires TooLarge(qHat, rHat, vNext, uNext)
    ensures qHat >= 0 && rHat >= 0 && vNext >= 0 && uNext >= 0 ==> qHat >= 1
  {
    if qHat == 0 {
      assert qHat * vNext == 0;
    }
  }
}
