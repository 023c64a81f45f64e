/** `is_less`: the comparison of two digit sequences. */
module Ordering {
  import opened Digits

  /** first < second as the source decides it: a shorter sequence is less, a
      longer one is not, and equal lengths are decided by the first differing
      digit from the top. */
  function IsLess(first: seq<int>, second: seq<int>): bool {
    if |second| > |first| then true
    else if |first| > |second| then false
    else LessFrom(first, second, |first|)
  }

  /** The comparison loop over positions i-1 down to 0. */
  function LessFrom(first: seq<int>, second: seq<int>, i: nat): bool
    requires i <= |first| == |second|
  {
    if i == 0 then false
    else if first[i - 1] == second[i - 1] then LessFrom(first, second, i - 1)
    else first[i - 1] < second[i - 1]
  }

  /** On equal-length digit sequences the loop compares the values of the low i digits. */
  lemma {:induction false} LessFromValue(a: seq<int>, b: seq<int>, i: nat)
    requires AllDigits(a) && AllDigits(b)
    requires i <= |a| == |b|
    ensures LessFrom(a, b, i) <==> Value(a[..i]) < Value(b[..i])
  {
    if i > 0 {
      var j := i - 1;
      if a[j] == b[j] {
        ValuePrefix(a, j);
        ValuePrefix(b, j);
        LessFromValue(a, b, j);
      } else {
        PrefixBounds(a, j);
        PrefixBounds(b, j);
        ShiftOne(j);
        if a[j] < b[j] {
          ShiftMonotone(a[j] + 1, b[j], j);
          ShiftAdd(a[j], 1, j);
        } else {
          ShiftMonotone(b[j] + 1, a[j], j);
          ShiftAdd(b[j], 1, j);
        }
      }
    }
  }

  /** For canonical numbers `is_less` is exactly the order of their values. */
  lemma IsLessValue(a: seq<int>, b: seq<int>)
    requires Canonical(a) && Canonical(b)
    ensures IsLess(a, b) <==> Value(a) < Value(b)
  {
    if |a| < |b| {
      ShorterIsSmaller(a, b);
    } else if |a| > |b| {
      ShorterIsSmaller(b, a);
    } else {
      LessFromValue(a, b, |a|);
      assert a[..|a|] == a && b[..|b|] == b;
    }
  }

  /** A canonical number with fewer digits has a smaller value. */
  lemma ShorterIsSmaller(a: seq<int>, b: seq<int>)
    requires Canonical(a) && Canonical(b) && |a| < |b|
    ensures Value(a) < Value(b)
  {
    var n: nat := |b| - 1;
    ValueBounds(a);
    Pow10Monotone(|a|, n);
    ValueLower(b);
  }

  lemma {:induction false} LessFromTrichotomy(a: seq<int>, b: seq<int>, i: nat)
    requires i <= |a| == |b|
    ensures a[..i] == b[..i] ==> !LessFrom(a, b, i) && !LessFrom(b, a, i)
    ensures a[..i] != b[..i] ==> LessFrom(a, b, i) != LessFrom(b, a, i)
  {
    if i > 0 {
      var j := i - 1;
      assert a[..i] == a[..j] + [a[j]];
      assert b[..i] == b[..j] + [b[j]];
      if a[j] == b[j] {
        LessFromTrichotomy(a, b, j);
        assert a[..j] == b[..j] <==> a[..i] == b[..i];
      }
    }
  }

  /** `is_less` is irreflexive and trichotomous on sequences, whatever their
      digits: equal sequences are not less than each other, and of two
      different sequences exactly one is less than the other. */
  lemma IsLessTrichotomy(a: seq<int>, b: seq<int>)
    ensures a == b ==> !IsLess(a, b)
    ensures a != b ==> IsLess(a, b) != IsLess(b, a)
  {
    if |a| == |b| {
      LessFromTrichotomy(a, b, |a|);
      assert a[..|a|] == a && b[..|b|] == b;
    }
  }

  /** The comparison loop is transitive on the low i positions. */
  lemma {:induction false} LessFromTransitive(a: seq<int>, b: seq<int>, c: seq<int>, i: nat)
    requires i <= |a| == |b| == |c|
    ensures LessFrom(a, b, i) && LessFrom(b, c, i) ==> LessFrom(a, c, i)
  {
    if i > 0 {
      LessFromTransitive(a, b, c, i - 1);
    }
  }

  /** `is_less` is transitive, whatever the digits; with IsLessTrichotomy it is
      a strict total order. */
  lemma IsLessTransitive(a: seq<int>, b: seq<int>, c: seq<int>)
    ensures IsLess(a, b) && IsLess(b, c) ==> IsLess(a, c)
  {
    if |a| == |b| == |c| {
      LessFromTransitive(a, b, c, |a|);
    }
  }
}
