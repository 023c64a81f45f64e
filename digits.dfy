/** The digit-sequence representation shared by the whole kernel.
    A number is a sequence of base-10 digits, least significant first; its value
    is the sum of s[i] * 10^i. */
module Digits {

  /** 10^k. */
  function Pow10(k: nat): (p: nat)
    ensures p >= 1
  {
    if k == 0 then 1 else 10 * Pow10(k - 1)
  }

  /** x * 10^n, written with multiplications by the constant 10 only, so that
      the carry equations of the loops stay linear for the solver. */
  function Shift(x: int, n: nat): int {
    if n == 0 then x else 10 * Shift(x, n - 1)
  }

  predicate IsDigit(x: int) {
    0 <= x <= 9
  }

  predicate AllDigits(s: seq<int>) {
    forall i :: 0 <= i < |s| ==> IsDigit(s[i])
  }

  /** The number a little-endian digit sequence stands for. */
  function Value(s: seq<int>): int
  {
    if |s| == 0 then 0 else s[0] + 10 * Value(s[1..])
  }

  /** The class invariant of a BigInteger: at least one digit, every element a
      digit, and no zero at the most significant end except the number zero,
      which is the single digit [0]. */
  predicate Canonical(s: seq<int>) {
    |s| >= 1 && AllDigits(s) && (|s| == 1 || s[|s| - 1] != 0)
  }

  /** The digit at position i, or 0 past the end (the `i < size ? d[i] : 0`
      of the schoolbook loops). */
  function At(s: seq<int>, i: nat): int {
    if i < |s| then s[i] else 0
  }

  /** The low i digits of s, or all of s when it is shorter. */
  function Take(s: seq<int>, i: nat): seq<int> {
    if i <= |s| then s[..i] else s
  }

  /** Drops zeros from the most significant end, keeping at least one element. */
  function Trim(s: seq<int>): (r: seq<int>)
    ensures |r| <= |s| && r == s[..|r|]
    ensures |s| >= 1 ==> |r| >= 1 && (|r| == 1 || r[|r| - 1] != 0)
    ensures forall i :: |r| <= i < |s| ==> s[i] == 0
  {
    if |s| > 1 && s[|s| - 1] == 0 then Trim(s[..|s| - 1]) else s
  }

  /** The canonical digits of a natural number x (the contract speaks of
      x >= 0 only): the reference representation that every arithmetic result
      is compared with. */
  function NatToDigits(x: int): (r: seq<int>)
    ensures x >= 0 ==> Canonical(r) && Value(r) == x
  {
    if x < 10 then [x] else [x % 10] + NatToDigits(x / 10)
  }

  // ---------------------------------------------------------------------
  // Powers of ten

  lemma {:induction false} Pow10Monotone(i: nat, j: nat)
    requires i <= j
    ensures Pow10(i) <= Pow10(j)
  {
    if i < j {
      Pow10Monotone(i, j - 1);
    }
  }

  // ---------------------------------------------------------------------
  // Small arithmetic facts used by the carry loops

  lemma MulLe(x: int, y: int, p: int)
    requires x <= y && 0 <= p
    ensures x * p <= y * p
  {
    assert y * p - x * p == (y - x) * p;
  }

  // ---------------------------------------------------------------------
  // Shift

  lemma {:induction false} ShiftPow(x: int, n: nat)
    ensures Shift(x, n) == x * Pow10(n)
  {
    if n > 0 {
      ShiftPow(x, n - 1);
    }
  }

  lemma {:induction false} ShiftAdd(x: int, y: int, n: nat)
    ensures Shift(x + y, n) == Shift(x, n) + Shift(y, n)
    ensures Shift(x - y, n) == Shift(x, n) - Shift(y, n)
  {
    if n > 0 {
      ShiftAdd(x, y, n - 1);
    }
  }

  lemma {:induction false} ShiftTen(x: int, n: nat)
    ensures Shift(10 * x, n) == Shift(x, n + 1)
  {
    if n > 0 {
      ShiftTen(x, n - 1);
    }
  }

  lemma {:induction false} ShiftOne(n: nat)
    ensures Shift(1, n) == Pow10(n)
  {
    if n > 0 {
      ShiftOne(n - 1);
    }
  }

  lemma {:induction false} ShiftMonotone(x: int, y: int, n: nat)
    requires x <= y
    ensures Shift(x, n) <= Shift(y, n)
  {
    if n > 0 {
      ShiftMonotone(x, y, n - 1);
    }
  }

  lemma {:induction false} ShiftZero(n: nat)
    ensures Shift(0, n) == 0
  {
    if n > 0 {
      ShiftZero(n - 1);
    }
  }

  lemma {:induction false} ShiftMul(x: int, m: int, n: nat)
    ensures Shift(x, n) * m == Shift(x * m, n)
    ensures m * Shift(x, n) == Shift(m * x, n)
  {
    if n > 0 {
      ShiftMul(x, m, n - 1);
      assert (10 * Shift(x, n - 1)) * m == 10 * (Shift(x, n - 1) * m);
    }
  }

  /** Adding x at place i to a factor adds x * m at place i to its product with m. */
  lemma ScaleShift(va: int, va': int, x: int, m: int, i: nat)
    requires va' == va + Shift(x, i)
    ensures va' * m == va * m + Shift(x * m, i)
  {
    ShiftMul(x, m, i);
    Distribute(va, Shift(x, i), m, va', Shift(x * m, i));
  }

  lemma Distribute(va: int, s: int, m: int, va': int, s': int)
    requires va' == va + s && s * m == s'
    ensures va' * m == va * m + s'
  {
  }

  lemma {:induction false} ShiftShift(z: int, i: nat, j: nat)
    ensures Shift(Shift(z, j), i) == Shift(z, i + j)
  {
    if i > 0 {
      ShiftShift(z, i - 1, j);
    }
  }

  /** Splitting t into its low digit and its carry keeps its weight. */
  lemma SplitCarry(t: int, lo: int, hi: int, n: nat)
    requires lo == t % 10 && hi == t / 10
    ensures Shift(lo, n) + Shift(hi, n + 1) == Shift(t, n)
  {
    ShiftAdd(t % 10, 10 * (t / 10), n);
    ShiftTen(t / 10, n);
  }

  lemma DigitProduct(x: int, y: int)
    requires IsDigit(x) && IsDigit(y)
    ensures 0 <= x * y <= 81
  {
    MulLe(x, 9, y);
    MulLe(y, 9, 9);
    MulLe(0, x, y);
  }

  // ---------------------------------------------------------------------
  // Value

  /** Appending a most significant digit x adds x * 10^|s|. */
  lemma {:induction false} ValuePush(s: seq<int>, x: int)
    ensures Value(s + [x]) == Value(s) + Shift(x, |s|)
  {
    if |s| == 0 {
      ValueSingle(x);
    } else {
      assert (s + [x])[1..] == s[1..] + [x];
      ValuePush(s[1..], x);
    }
  }

  lemma ValueSingle(x: int)
    ensures Value([x]) == x
  {
    assert [x][1..] == [];
  }

  /** One more low digit: the prefix of length i + 1 adds s[i] at place i. */
  lemma ValuePrefix(s: seq<int>, i: nat)
    requires i < |s|
    ensures Value(s[..i + 1]) == Value(s[..i]) + Shift(s[i], i)
  {
    assert s[..i + 1] == s[..i] + [s[i]];
    ValuePush(s[..i], s[i]);
  }

  lemma ValueTakeStep(s: seq<int>, i: nat)
    ensures Value(Take(s, i + 1)) == Value(Take(s, i)) + Shift(At(s, i), i)
  {
    if i < |s| {
      ValuePrefix(s, i);
    } else {
      assert Take(s, i) == s by {
        assert s[..|s|] == s;
      }
      ShiftZero(i);
    }
  }

  /** Overwriting digit p with x trades s[p] * 10^p for x * 10^p. */
  lemma {:induction false} ValueUpdate(s: seq<int>, p: nat, x: int)
    requires p < |s|
    ensures Value(s[p := x]) + Shift(s[p], p) == Value(s) + Shift(x, p)
  {
    var t := s[p := x];
    if p == 0 {
      assert t[1..] == s[1..];
    } else {
      assert t[1..] == s[1..][p - 1 := x];
      assert s[1..][p - 1] == s[p];
      ValueUpdate(s[1..], p - 1, x);
    }
  }

  /** Adding k to digit p adds k * 10^p. */
  lemma ValueAddAt(s: seq<int>, p: nat, k: int)
    requires p < |s|
    ensures Value(s[p := s[p] + k]) == Value(s) + Shift(k, p)
  {
    ValueUpdate(s, p, s[p] + k);
    ShiftAdd(s[p], k, p);
  }

  lemma {:induction false} ValueZeros(s: seq<int>)
    requires forall i :: 0 <= i < |s| ==> s[i] == 0
    ensures Value(s) == 0
  {
    if |s| > 0 {
      ValueZeros(s[1..]);
    }
  }

  lemma {:induction false} ValueBounds(s: seq<int>)
    requires AllDigits(s)
    ensures 0 <= Value(s) < Pow10(|s|)
  {
    if |s| > 0 {
      ValueBounds(s[1..]);
    }
  }

  /** Digit s[i] brackets the prefix of length i + 1:
      s[i] * 10^i <= Value(s[..i + 1]) < s[i] * 10^i + 10^i. */
  lemma PrefixBounds(s: seq<int>, i: nat)
    requires AllDigits(s) && i < |s|
    ensures Shift(s[i], i) <= Value(s[..i + 1]) < Shift(s[i], i) + Pow10(i)
  {
    ValuePrefix(s, i);
    ValueBounds(s[..i]);
  }

  /** The top digit t of an n-digit s brackets its value:
      t * 10^(n-1) <= Value(s) < t * 10^(n-1) + 10^(n-1). */
  lemma TopDigitBounds(s: seq<int>)
    requires AllDigits(s) && |s| >= 1
    ensures Shift(s[|s| - 1], |s| - 1) <= Value(s) < Shift(s[|s| - 1], |s| - 1) + Pow10(|s| - 1)
  {
    PrefixBounds(s, |s| - 1);
    assert s[..|s|] == s;
  }

  /** A canonical number of n >= 2 digits is at least 10^(n-1). */
  lemma ValueLower(s: seq<int>)
    requires Canonical(s) && |s| >= 2
    ensures Value(s) >= Pow10(|s| - 1)
  {
    TopDigitBounds(s);
    ShiftMonotone(1, s[|s| - 1], |s| - 1);
    ShiftOne(|s| - 1);
  }

  /** A value that reaches k * 10^(n-1) forces the top digit to be at least k. */
  lemma TopDigitFromValue(s: seq<int>, k: int)
    requires AllDigits(s) && |s| >= 1
    requires Value(s) >= Shift(k, |s| - 1)
    ensures s[|s| - 1] >= k
  {
    var top, n := s[|s| - 1], |s| - 1;
    TopDigitBounds(s);
    if top + 1 <= k {
      ShiftMonotone(top + 1, k, n);
      ShiftAdd(top, 1, n);
      ShiftOne(n);
    }
  }

  /** A digit sequence whose value needs all of its digits is canonical. */
  lemma CanonicalFromValue(s: seq<int>)
    requires AllDigits(s) && |s| >= 1
    requires |s| == 1 || Value(s) >= Pow10(|s| - 1)
    ensures Canonical(s)
  {
    if |s| > 1 && s[|s| - 1] == 0 {
      TopDigitBounds(s);
      ShiftZero(|s| - 1);
    }
  }

  lemma LengthFromValue(s: seq<int>, k: nat)
    requires Canonical(s) && k >= 1 && Value(s) < Pow10(k)
    ensures |s| <= k
  {
    if |s| > k {
      var top: nat := |s| - 1;
      Pow10Monotone(k, top);
      ValueLower(s);
    }
  }

  lemma LengthAtLeast(s: seq<int>, k: nat)
    requires AllDigits(s) && k >= 1 && Value(s) >= Pow10(k - 1)
    ensures |s| >= k
  {
    if |s| < k {
      ValueBounds(s);
      Pow10Monotone(|s|, k - 1);
    }
  }

  // ---------------------------------------------------------------------
  // Trimming and the canonical representation

  lemma {:induction false} TrimValue(s: seq<int>)
    ensures Value(Trim(s)) == Value(s)
    ensures AllDigits(s) ==> AllDigits(Trim(s))
    ensures AllDigits(s) && |s| >= 1 ==> Canonical(Trim(s))
  {
    if |s| > 1 && s[|s| - 1] == 0 {
      var p := s[..|s| - 1];
      assert s == p + [0];
      ValuePush(p, 0);
      ShiftZero(|p|);
      TrimValue(p);
    }
  }

  /** Every canonical sequence is the canonical digits of its own value, so two
      canonical sequences with equal values are equal. */
  lemma {:induction false} CanonicalUnique(s: seq<int>)
    requires Canonical(s)
    ensures NatToDigits(Value(s)) == s
  {
    if |s| == 1 {
      assert Value(s) == s[0] + 10 * Value(s[1..]);
    } else {
      var t := s[1..];
      assert Canonical(t);
      CanonicalUnique(t);
      if |t| == 1 {
        assert Value(t) == t[0] + 10 * Value(t[1..]);
      } else {
        ValueLower(t);
      }
      assert Value(s) == s[0] + 10 * Value(t);
      assert Value(s) % 10 == s[0];
      assert Value(s) / 10 == Value(t);
      assert s == [s[0]] + t;
    }
  }

  lemma CanonicalZero(s: seq<int>)
    requires Canonical(s) && Value(s) == 0
    ensures s == [0]
  {
    CanonicalUnique(s);
  }
}
