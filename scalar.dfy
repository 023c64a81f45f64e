/** `multiply(vector<int>&, int)`: scaling a digit vector in place by a small
    integer. The vector is an object whose contents the call replaces. */
module Scalar {
  import opened Digits

  /** A `vector<int>` of digits that callers share by reference. */
  class DigitVector {
    var elems: seq<int>

    constructor (s: seq<int>)
      ensures elems == s
    {
      elems := s;
    }
  }

  /** Multiplies u by v digit by digit with a running carry, appends a non-zero
      final carry, then pops zeros from the top while more than one digit is
      left. The callers pass v = d <= 10 and v = q_hat <= 9. */
  method Multiply(u: DigitVector, v: int)
    requires AllDigits(u.elems)
    requires 0 <= v <= 10
    modifies u
    ensures AllDigits(u.elems)
    ensures Value(u.elems) == Value(old(u.elems)) * v
    ensures |old(u.elems)| >= 1 ==> Canonical(u.elems)
    ensures |old(u.elems)| >= 1 && v == 0 ==> u.elems == [0]
    ensures |old(u.elems)| == 0 ==> u.elems == []
  {
    ghost var original := u.elems;
    var carry := 0;
    var i := 0;
    ScaleStart(u.elems, v);
    while i < |u.elems|
      invariant ScaleInvariant(u.elems, original, i, v, carry)
    {
      var temp := u.elems[i] * v + carry;
      ScaleStep(u.elems, original, i, v, carry, temp % 10, temp / 10);
      u.elems := u.elems[i := temp % 10];
      carry := temp / 10;
      i := i + 1;
    }
    ghost var target := Value(original) * v;
    ghost var scaled := u.elems;
    ScaleEnd(u.elems, original, v, carry);
    if carry > 0 {
      u.elems := u.elems + [carry];
    }
    ScalePush(scaled, carry, target, u.elems);
    while |u.elems| > 1 && u.elems[|u.elems| - 1] == 0
      invariant AllDigits(u.elems)
      invariant Value(u.elems) == target
      invariant |original| >= 1 ==> |u.elems| >= 1
      invariant |original| == 0 ==> u.elems == []
    {
      PopZero(u.elems);
      u.elems := u.elems[..|u.elems| - 1];
    }
    if |original| >= 1 && v == 0 {
      assert Canonical(u.elems);
      assert Value(u.elems) == 0 by {
        assert target == Value(original) * 0;
      }
      CanonicalZero(u.elems);
    }
  }

  /** The carry loop's invariant: the digits below i are rewritten, those from i
      on are untouched, and the low i digits plus the pending carry at place i
      are the old low i digits times v. */
  predicate ScaleInvariant(elems: seq<int>, original: seq<int>, i: nat, v: int, carry: int) {
    && i <= |elems| == |original| && 0 <= carry <= 9 && AllDigits(elems)
    && elems[i..] == original[i..]
    && Value(elems[..i]) + Shift(carry, i) == Value(original[..i]) * v
  }

  lemma ScaleStart(elems: seq<int>, v: int)
    requires AllDigits(elems)
    ensures ScaleInvariant(elems, elems, 0, v, 0)
  {
    assert elems[..0] == [];
  }

  lemma ScaleStep(elems: seq<int>, original: seq<int>, i: nat, v: int, carry: int, lo: int, hi: int)
    requires i < |elems| && 0 <= v <= 10
    requires ScaleInvariant(elems, original, i, v, carry)
    requires lo == (elems[i] * v + carry) % 10 && hi == (elems[i] * v + carry) / 10
    ensures ScaleInvariant(elems[i := lo], original, i + 1, v, hi)
  {
    var x := elems[i];
    assert x == original[i] by {
      assert elems[i..][0] == original[i..][0];
    }
    var next := elems[i := lo];
    CarryBound(x, v, carry);
    assert next[i + 1..] == original[i + 1..] by {
      assert next[i + 1..] == elems[i..][1..];
    }
    assert next[..i + 1] == elems[..i] + [lo];
    ValuePush(elems[..i], lo);
    ValuePrefix(original, i);
    ScaleShift(Value(original[..i]), Value(original[..i + 1]), x, v, i);
    SplitCarry(x * v + carry, lo, hi, i);
    ShiftAdd(x * v, carry, i);
    ScaleSum(Value(elems[..i]), Value(next[..i + 1]), Value(original[..i]) * v,
             Value(original[..i + 1]) * v, Shift(carry, i), Shift(hi, i + 1),
             Shift(lo, i), Shift(x * v, i));
  }

  /** The bookkeeping of one carry step, on plain numbers. */
  lemma ScaleSum(d: int, d': int, t: int, t': int, sc: int, sc': int, slo: int, sxv: int)
    requires d + sc == t
    requires d' == d + slo && t' == t + sxv
    requires slo + sc' == sxv + sc
    ensures d' + sc' == t'
  {
  }

  lemma CarryBound(x: int, v: int, c: int)
    requires IsDigit(x) && 0 <= v <= 10 && 0 <= c <= 9
    ensures 0 <= x * v + c <= 99
    ensures IsDigit((x * v + c) % 10) && 0 <= (x * v + c) / 10 <= 9
  {
    MulLe(x, 9, v);
    MulLe(v, 10, 9);
    MulLe(0, x, v);
  }

  lemma ScaleEnd(elems: seq<int>, original: seq<int>, v: int, carry: int)
    requires ScaleInvariant(elems, original, |elems|, v, carry)
    ensures AllDigits(elems) && 0 <= carry <= 9 && |elems| == |original|
    ensures Value(elems) + Shift(carry, |elems|) == Value(original) * v
    ensures |elems| == 0 ==> carry == 0
  {
    assert elems[..|elems|] == elems;
    assert original[..|original|] == original;
  }

  /** Appending a non-zero final carry as the top digit keeps the value. */
  lemma ScalePush(elems: seq<int>, carry: int, target: int, result: seq<int>)
    requires AllDigits(elems) && 0 <= carry <= 9
    requires Value(elems) + Shift(carry, |elems|) == target
    requires |elems| == 0 ==> carry == 0
    requires result == if carry > 0 then elems + [carry] else elems
    ensures AllDigits(result) && Value(result) == target
    ensures |result| >= |elems|
    ensures |elems| == 0 ==> result == []
  {
    if carry > 0 {
      ValuePush(elems, carry);
    } else {
      ShiftZero(|elems|);
    }
  }

  /** Popping a zero top digit keeps the value. */
  lemma PopZero(s: seq<int>)
    requires |s| >= 1 && s[|s| - 1] == 0
    ensures Value(s[..|s| - 1]) == Value(s)
  {
    assert s == s[..|s| - 1] + [0];
    ValuePush(s[..|s| - 1], 0);
    ShiftZero(|s| - 1);
  }
}
