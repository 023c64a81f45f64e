/** The schoolbook operators of BigInteger: `operator+`, `operator-` and
    `operator*`. Each builds a new digit vector in a carry (or borrow) loop
    and returns it; the operands are not changed. */
module Arithmetic {
  import opened Digits
  import opened Errors
  import opened Ordering

  function Max(x: nat, y: nat): nat {
    if x < y then y else x
  }

  /** The `erase` loop of `operator-` and `operator*`: from the top index down
      to index 1, a zero digit is erased and the first non-zero one stops it. */
  method EraseTrailingZeros(s: seq<int>) returns (r: seq<int>)
    ensures r == Trim(s)
  {
    r := s;
    var i := |s| - 1;
    while i >= 1
      invariant -1 <= i == |r| - 1
      invariant Trim(r) == Trim(s)
    {
      if r[i] == 0 {
        r := r[..i];
      } else {
        break;
      }
      i := i - 1;
    }
  }

  // ---------------------------------------------------------------------
  // operator+

  /** Position-wise sum with a running carry over the longer length; a non-zero
      final carry becomes one more digit. */
  method Add(a: seq<int>, b: seq<int>) returns (r: seq<int>)
    requires AllDigits(a) && AllDigits(b)
    ensures AllDigits(r)
    ensures Value(r) == Value(a) + Value(b)
    ensures |r| == Max(|a|, |b|) || |r| == Max(|a|, |b|) + 1
    ensures |r| == Max(|a|, |b|) + 1 ==> r[|r| - 1] == 1
    ensures Canonical(a) && Canonical(b) ==> Canonical(r)
    ensures Canonical(a) && Canonical(b) ==> r == NatToDigits(Value(a) + Value(b))
  {
    var maxLength := Max(|a|, |b|);
    var newDigits := seq(maxLength, _ => 0);
    var k := 0;
    var i := 0;
    while i < maxLength
      invariant 0 <= i <= maxLength == |newDigits|
      invariant 0 <= k <= 1
      invariant AddInvariant(newDigits, a, b, i, k)
    {
      var digitsSum := At(a, i) + At(b, i) + k;
      AddStep(newDigits, a, b, i, k, newDigits[i := digitsSum % 10], digitsSum / 10);
      newDigits := newDigits[i := digitsSum % 10];
      k := digitsSum / 10;
      i := i + 1;
    }
    AddFinish(a, b, newDigits, k);
    if k > 0 {
      newDigits := newDigits + [k];
    }
    r := newDigits;
  }

  /** What the loop leaves, with the final carry appended, is the sum. */
  lemma AddFinish(a: seq<int>, b: seq<int>, digits: seq<int>, k: int)
    requires AllDigits(a) && AllDigits(b) && AllDigits(digits)
    requires |digits| == Max(|a|, |b|)
    requires AddInvariant(digits, a, b, |digits|, k)
    ensures var r := if k > 0 then digits + [k] else digits;
      && AllDigits(r)
      && Value(r) == Value(a) + Value(b)
      && (|r| == Max(|a|, |b|) + 1 ==> r[|r| - 1] == 1)
      && (Canonical(a) && Canonical(b) ==> Canonical(r))
      && (Canonical(a) && Canonical(b) ==> r == NatToDigits(Value(a) + Value(b)))
  {
    var r := if k > 0 then digits + [k] else digits;
    AddTotal(a, b, digits, k, r);
    if Canonical(a) && Canonical(b) {
      AddCanonical(a, b, r);
      CanonicalUnique(r);
    }
  }

  lemma AddTotal(a: seq<int>, b: seq<int>, digits: seq<int>, k: int, r: seq<int>)
    requires |digits| == Max(|a|, |b|)
    requires AddInvariant(digits, a, b, |digits|, k)
    requires r == if k > 0 then digits + [k] else digits
    ensures AllDigits(r) && Value(r) == Value(a) + Value(b)
  {
    AddInvariantEnd(a, b, digits, k);
    PushCarry(digits, k, Value(a) + Value(b), r);
  }

  lemma AddInvariantEnd(a: seq<int>, b: seq<int>, digits: seq<int>, k: int)
    requires |digits| == Max(|a|, |b|)
    requires AddInvariant(digits, a, b, |digits|, k)
    ensures AllDigits(digits) && 0 <= k <= 1
    ensures Value(digits) + Shift(k, |digits|) == Value(a) + Value(b)
  {
    var n := |digits|;
    assert Value(digits[..n]) == Value(digits) by {
      assert digits[..n] == digits;
    }
    assert Value(Take(a, n)) == Value(a) by {
      assert a[..|a|] == a;
    }
    assert Value(Take(b, n)) == Value(b) by {
      assert b[..|b|] == b;
    }
  }

  /** Appending a pending carry of 0 or 1 as the top digit keeps the weight. */
  lemma PushCarry(digits: seq<int>, k: int, total: int, r: seq<int>)
    requires AllDigits(digits) && 0 <= k <= 1
    requires Value(digits) + Shift(k, |digits|) == total
    requires r == if k > 0 then digits + [k] else digits
    ensures AllDigits(r) && Value(r) == total
  {
    if k > 0 {
      ValuePush(digits, k);
    } else {
      ShiftZero(|digits|);
    }
  }

  /** The carry loop's invariant: the low i result digits plus the pending carry
      weigh as much as the low i digits of both operands. */
  predicate AddInvariant(digits: seq<int>, a: seq<int>, b: seq<int>, i: nat, k: int) {
    && i <= |digits| && 0 <= k <= 1 && AllDigits(digits)
    && Value(digits[..i]) + Shift(k, i) == Value(Take(a, i)) + Value(Take(b, i))
  }

  lemma AddStep(digits: seq<int>, a: seq<int>, b: seq<int>, i: nat, k: int, next: seq<int>, k': int)
    requires i < |digits| && AllDigits(a) && AllDigits(b)
    requires AddInvariant(digits, a, b, i, k)
    requires next == digits[i := (At(a, i) + At(b, i) + k) % 10]
    requires k' == (At(a, i) + At(b, i) + k) / 10
    ensures AddInvariant(next, a, b, i + 1, k')
  {
    var x, y := At(a, i), At(b, i);
    var lo := (x + y + k) % 10;
    assert next[..i + 1] == digits[..i] + [lo];
    ValuePush(digits[..i], lo);
    ValueTakeStep(a, i);
    ValueTakeStep(b, i);
    CarryShift(x, y, k, lo, k', i);
  }

  /** The digit and carry of x + y + k weigh as much as x, y and k at place i. */
  lemma CarryShift(x: int, y: int, k: int, lo: int, hi: int, i: nat)
    requires lo == (x + y + k) % 10 && hi == (x + y + k) / 10
    ensures Shift(lo, i) + Shift(hi, i + 1) == Shift(x, i) + Shift(y, i) + Shift(k, i)
  {
    SplitCarry(x + y + k, lo, hi, i);
    ShiftAdd(x + y, k, i);
    ShiftAdd(x, y, i);
  }

  /** The sum of two canonical numbers comes out canonical: either a final
      carry of 1 is the top digit, or the value needs every position of the
      longer operand. */
  lemma AddCanonical(a: seq<int>, b: seq<int>, r: seq<int>)
    requires Canonical(a) && Canonical(b) && AllDigits(r)
    requires Value(r) == Value(a) + Value(b)
    requires |r| == Max(|a|, |b|) || (|r| == Max(|a|, |b|) + 1 && r[|r| - 1] == 1)
    ensures Canonical(r)
  {
    if |r| > 1 && r[|r| - 1] == 0 {
      assert |r| == Max(|a|, |b|);
      ValueBounds(a);
      ValueBounds(b);
      if |a| >= |b| {
        NeedsAllDigits(a, Value(b), r);
      } else {
        NeedsAllDigits(b, Value(a), r);
      }
    }
  }

  /** A sum whose length is that of a canonical summand of two or more digits
      has a non-zero top digit. */
  lemma NeedsAllDigits(longer: seq<int>, other: int, r: seq<int>)
    requires Canonical(longer) && AllDigits(r) && |r| == |longer| >= 2
    requires other >= 0 && Value(r) == Value(longer) + other
    ensures r[|r| - 1] != 0
  {
    ValueLower(longer);
    CanonicalFromValue(r);
  }

  // ---------------------------------------------------------------------
  // operator-

  /** Refuses when `is_less(a, b)`; otherwise subtracts position by position
      with a borrow over a's length and erases zeros from the top. */
  method Subtract(a: seq<int>, b: seq<int>) returns (r: Result<seq<int>>)
    requires AllDigits(a) && AllDigits(b)
    ensures r.Err? <==> IsLess(a, b)
    ensures r.Err? ==> r.error == NegativeDifference
    ensures r.Ok? ==> AllDigits(r.value) && |r.value| <= |a|
    ensures r.Ok? && |a| >= 1 ==> Canonical(r.value)
    ensures r.Ok? ==> Value(r.value) == Value(a) - Value(b)
                      || Value(r.value) == Value(a) - Value(b) + Pow10(|a|)
    ensures r.Ok? && Value(a) >= Value(b) ==> Value(r.value) == Value(a) - Value(b)
    ensures Canonical(a) && Canonical(b) ==> (r.Ok? <==> Value(a) >= Value(b))
    ensures Canonical(a) && Canonical(b) && r.Ok? ==> r.value == NatToDigits(Value(a) - Value(b))
  {
    if Canonical(a) && Canonical(b) {
      IsLessValue(a, b);
    }
    if IsLess(a, b) {
      return Err(NegativeDifference);
    }
    var k := 0;
    var newDigits := seq(|a|, _ => 0);
    var i := 0;
    while i < |a|
      invariant i <= |a| == |newDigits|
      invariant SubtractInvariant(newDigits, a, b, i, k)
    {
      var x := a[i] - At(b, i) - k;
      var borrow := if x < 0 then 1 else 0;
      if borrow == 1 {
        x := x + 10;
      }
      SubtractStep(newDigits, a, b, i, k, x, borrow);
      newDigits := newDigits[i := x];
      k := borrow;
      i := i + 1;
    }
    SubtractInvariantEnd(a, b, newDigits, k);
    var trimmed := EraseTrailingZeros(newDigits);
    SubtractFinish(a, b, newDigits, k, trimmed);
    r := Ok(trimmed);
  }

  /** The borrow loop's invariant: the low i result digits are the low i digits
      of a minus those of b, plus the pending borrow at place i. */
  predicate SubtractInvariant(digits: seq<int>, a: seq<int>, b: seq<int>, i: nat, k: int) {
    && i <= |digits| && i <= |a| && 0 <= k <= 1 && AllDigits(digits)
    && Value(digits[..i]) + Value(Take(b, i)) == Value(a[..i]) + Shift(k, i)
  }

  lemma SubtractStep(digits: seq<int>, a: seq<int>, b: seq<int>, i: nat, k: int,
                     digit: int, k': int)
    requires i < |digits| == |a| && AllDigits(a) && AllDigits(b)
    requires SubtractInvariant(digits, a, b, i, k)
    requires k' == if a[i] - At(b, i) - k < 0 then 1 else 0
    requires digit == a[i] - At(b, i) - k + 10 * k'
    ensures SubtractInvariant(digits[i := digit], a, b, i + 1, k')
  {
    var next := digits[i := digit];
    var x, y := a[i], At(b, i);
    assert next[..i + 1] == digits[..i] + [digit];
    ValuePush(digits[..i], digit);
    ValuePrefix(a, i);
    ValueTakeStep(b, i);
    BorrowShift(x, y, k, k', digit, i);
    BorrowSum(Value(digits[..i]), Value(next[..i + 1]), Value(Take(b, i)), Value(Take(b, i + 1)),
              Value(a[..i]), Value(a[..i + 1]), Shift(digit, i), Shift(x, i), Shift(y, i),
              Shift(k, i), Shift(k', i + 1));
  }

  /** The bookkeeping of one borrow step, on plain numbers. */
  lemma BorrowSum(d: int, d': int, tb: int, tb': int, va: int, va': int,
                  sd: int, sx: int, sy: int, sk: int, sk': int)
    requires d + tb == va + sk
    requires d' == d + sd && tb' == tb + sy && va' == va + sx
    requires sd + sy == sx - sk + sk'
    ensures d' + tb' == va' + sk'
  {
  }

  /** The digit x - y - k + 10 * k' and the new borrow k' weigh as much as
      x - y - k at place i. */
  lemma BorrowShift(x: int, y: int, k: int, k': int, digit: int, i: nat)
    requires digit == x - y - k + 10 * k'
    ensures Shift(digit, i) + Shift(y, i) == Shift(x, i) - Shift(k, i) + Shift(k', i + 1)
  {
    ShiftAdd(x - y - k, 10 * k', i);
    ShiftAdd(x - y, k, i);
    ShiftAdd(x, y, i);
    ShiftTen(k', i);
  }

  /** At the end of the loop the whole of a and b is covered. */
  lemma SubtractInvariantEnd(a: seq<int>, b: seq<int>, digits: seq<int>, k: int)
    requires |digits| == |a|
    requires SubtractInvariant(digits, a, b, |a|, k)
    requires !IsLess(a, b)
    ensures AllDigits(digits) && 0 <= k <= 1
    ensures Value(digits) + Value(b) == Value(a) + Shift(k, |a|)
  {
    assert digits[..|a|] == digits && a[..|a|] == a;
    assert |b| <= |a|;
    assert Take(b, |a|) == b by {
      assert b[..|b|] == b;
    }
  }

  /** Once the top zeros are erased, the result is the difference, or the
      difference wrapped by 10^|a| when the inputs are not canonical. */
  lemma SubtractFinish(a: seq<int>, b: seq<int>, digits: seq<int>, k: int, trimmed: seq<int>)
    requires AllDigits(a) && AllDigits(b) && AllDigits(digits) && |digits| == |a|
    requires 0 <= k <= 1 && Value(digits) + Value(b) == Value(a) + Shift(k, |a|)
    requires trimmed == Trim(digits)
    requires !IsLess(a, b)
    ensures AllDigits(trimmed) && |trimmed| <= |a|
    ensures |a| >= 1 ==> Canonical(trimmed)
    ensures Value(trimmed) == Value(a) - Value(b)
            || Value(trimmed) == Value(a) - Value(b) + Pow10(|a|)
    ensures Value(a) >= Value(b) ==> Value(trimmed) == Value(a) - Value(b)
    ensures Canonical(a) && Canonical(b) ==> Value(a) >= Value(b)
    ensures Canonical(a) && Canonical(b) ==> trimmed == NatToDigits(Value(a) - Value(b))
  {
    TrimValue(digits);
    ValueBounds(digits);
    if k == 0 {
      ShiftZero(|a|);
    } else {
      ShiftPow(1, |a|);
    }
    if Canonical(a) && Canonical(b) {
      IsLessValue(a, b);
      CanonicalUnique(trimmed);
    }
  }

  // ---------------------------------------------------------------------
  // operator*

  /** Convolution into a vector of |a| + |b| zeros: each digit of a scales b
      into the accumulator with a carry, the residual carry goes to slot
      i + |b|, and zeros are erased from the top. */
  method Multiply(a: seq<int>, b: seq<int>) returns (r: seq<int>)
    requires AllDigits(a) && AllDigits(b)
    ensures AllDigits(r)
    ensures Value(r) == Value(a) * Value(b)
    ensures |r| <= |a| + |b|
    ensures |a| + |b| >= 1 ==> Canonical(r)
    ensures Canonical(a) && Canonical(b) ==> r == NatToDigits(Value(a) * Value(b))
  {
    var newSize := |a| + |b|;
    var newDigits := seq(newSize, _ => 0);
    MultiplyStart(a, b, newDigits);
    var i := 0;
    while i < |a|
      invariant i <= |a|
      invariant MultiplyOuter(newDigits, a, b, i)
    {
      ghost var partial := Value(a[..i]) * Value(b);
      MultiplyInnerStart(newDigits, a, b, i, partial);
      var k := 0;
      var j := 0;
      while j < |b|
        invariant j <= |b|
        invariant MultiplyInner(newDigits, a, b, i, j, k, partial)
      {
        var t := a[i] * b[j] + newDigits[i + j] + k;
        MultiplyStep(newDigits, a, b, i, j, k, partial, t % 10, t / 10);
        newDigits := newDigits[i + j := t % 10];
        k := t / 10;
        j := j + 1;
      }
      ghost var before := newDigits;
      if k > 0 {
        newDigits := newDigits[i + |b| := newDigits[i + |b|] + k];
      }
      MultiplyCarry(before, a, b, i, k, partial, newDigits);
      i := i + 1;
    }
    r := EraseTrailingZeros(newDigits);
    MultiplyFinish(a, b, newDigits, r);
  }

  /** Between rows: the accumulator holds a's low i digits times b, and the
      slots from i + |b| up are still zero. */
  predicate MultiplyOuter(digits: seq<int>, a: seq<int>, b: seq<int>, i: nat) {
    && |digits| == |a| + |b| && i <= |a| && AllDigits(digits)
    && (forall p :: i + |b| <= p < |digits| ==> digits[p] == 0)
    && Value(digits) == Value(a[..i]) * Value(b)
  }

  /** Within row i: the accumulator plus the pending carry at place i + j hold
      the previous rows plus a[i] times the low j digits of b, at place i. */
  predicate MultiplyInner(digits: seq<int>, a: seq<int>, b: seq<int>, i: nat, j: nat, k: int,
                          partial: int)
  {
    && |digits| == |a| + |b| && i < |a| && j <= |b| && 0 <= k <= 9 && AllDigits(digits)
    && (forall p :: i + |b| <= p < |digits| ==> digits[p] == 0)
    && Value(digits) + Shift(k, i + j) == partial + Shift(a[i] * Value(b[..j]), i)
  }

  lemma MultiplyStart(a: seq<int>, b: seq<int>, digits: seq<int>)
    requires digits == seq(|a| + |b|, _ => 0)
    ensures MultiplyOuter(digits, a, b, 0)
  {
    ValueZeros(digits);
    assert a[..0] == [];
  }

  lemma MultiplyInnerStart(digits: seq<int>, a: seq<int>, b: seq<int>, i: nat, partial: int)
    requires i < |a| && MultiplyOuter(digits, a, b, i)
    requires partial == Value(a[..i]) * Value(b)
    ensures MultiplyInner(digits, a, b, i, 0, 0, partial)
  {
    assert b[..0] == [];
    ShiftZero(i);
  }

  lemma MultiplyStep(digits: seq<int>, a: seq<int>, b: seq<int>, i: nat, j: nat, k: int,
                     partial: int, lo: int, k': int)
    requires j < |b| && AllDigits(a) && AllDigits(b)
    requires MultiplyInner(digits, a, b, i, j, k, partial)
    requires lo == (a[i] * b[j] + digits[i + j] + k) % 10
    requires k' == (a[i] * b[j] + digits[i + j] + k) / 10
    ensures MultiplyInner(digits[i + j := lo], a, b, i, j + 1, k', partial)
  {
    var x, y, c := a[i], b[j], digits[i + j];
    var next := digits[i + j := lo];
    DigitProduct(x, y);
    ValueUpdate(digits, i + j, lo);
    ValuePrefix(b, j);
    RowShift(x, Value(b[..j]), Value(b[..j + 1]), y, i, j);
    CarryShift(x * y, c, k, lo, k', i + j);
    RowSum(Value(digits), Value(next), partial, Shift(k, i + j), Shift(k', i + j + 1),
           Shift(c, i + j), Shift(lo, i + j), Shift(x * y, i + j),
           Shift(x * Value(b[..j]), i), Shift(x * Value(b[..j + 1]), i));
  }

  /** One more digit y of b at place j adds x * y at place i + j to row i. */
  lemma RowShift(x: int, w: int, w': int, y: int, i: nat, j: nat)
    requires w' == w + Shift(y, j)
    ensures Shift(x * w', i) == Shift(x * w, i) + Shift(x * y, i + j)
  {
    ShiftMul(y, x, j);
    assert x * w' == x * w + Shift(x * y, j);
    ShiftAdd(x * w, Shift(x * y, j), i);
    ShiftShift(x * y, i, j);
  }

  /** The bookkeeping of one step of the row loop, on plain numbers. */
  lemma RowSum(d: int, d': int, partial: int, sk: int, sk': int, sc: int, slo: int,
               sxy: int, row: int, row': int)
    requires d + sk == partial + row
    requires d' + sc == d + slo
    requires slo + sk' == sxy + sc + sk
    requires row' == row + sxy
    ensures d' + sk' == partial + row'
  {
  }

  /** After row i the residual carry lands in slot i + |b|, which is still
      zero, and the accumulator holds a's low i + 1 digits times b. */
  lemma MultiplyCarry(digits: seq<int>, a: seq<int>, b: seq<int>, i: nat, k: int,
                      partial: int, next: seq<int>)
    requires MultiplyInner(digits, a, b, i, |b|, k, partial)
    requires partial == Value(a[..i]) * Value(b)
    requires next == if k > 0 then digits[i + |b| := digits[i + |b|] + k] else digits
    ensures MultiplyOuter(next, a, b, i + 1)
  {
    RowEnd(digits, a, b, i, k, partial);
    CarryValue(digits, a, b, i, k, partial);
    CarryStore(digits, i + |b|, k, next, Value(a[..i + 1]) * Value(b));
  }

  /** At the end of row i the whole of b has been scaled by a[i]. */
  lemma RowEnd(digits: seq<int>, a: seq<int>, b: seq<int>, i: nat, k: int, partial: int)
    requires MultiplyInner(digits, a, b, i, |b|, k, partial)
    ensures Value(digits) + Shift(k, i + |b|) == partial + Shift(a[i] * Value(b), i)
  {
    assert b[..|b|] == b;
  }

  /** Storing the residual carry in slot p adds it at place p. */
  lemma CarryStore(digits: seq<int>, p: nat, k: int, next: seq<int>, target: int)
    requires p < |digits| && 0 <= k
    requires next == if k > 0 then digits[p := digits[p] + k] else digits
    requires Value(digits) + Shift(k, p) == target
    ensures Value(next) == target
  {
    if k > 0 {
      ValueAddAt(digits, p, k);
    } else {
      ShiftZero(p);
    }
  }

  lemma CarryValue(digits: seq<int>, a: seq<int>, b: seq<int>, i: nat, k: int, partial: int)
    requires i < |a|
    requires Value(digits) + Shift(k, i + |b|) == partial + Shift(a[i] * Value(b), i)
    requires partial == Value(a[..i]) * Value(b)
    ensures Value(digits) + Shift(k, i + |b|) == Value(a[..i + 1]) * Value(b)
  {
    ValuePrefix(a, i);
    ScaleShift(Value(a[..i]), Value(a[..i + 1]), a[i], Value(b), i);
  }

  lemma MultiplyFinish(a: seq<int>, b: seq<int>, digits: seq<int>, r: seq<int>)
    requires AllDigits(a) && AllDigits(b)
    requires MultiplyOuter(digits, a, b, |a|)
    requires r == Trim(digits)
    ensures AllDigits(r)
    ensures Value(r) == Value(a) * Value(b)
    ensures |r| <= |a| + |b|
    ensures |a| + |b| >= 1 ==> Canonical(r)
    ensures Canonical(a) && Canonical(b) ==> r == NatToDigits(Value(a) * Value(b))
  {
    assert a[..|a|] == a;
    TrimValue(digits);
    if Canonical(a) && Canonical(b) {
      CanonicalUnique(r);
    }
  }
}
