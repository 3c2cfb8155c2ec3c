/** The statistics the pipeline borrows from Python and numpy, over exact reals:
    the built-ins `sum`, `min` and `max`, `statistics.mean` and
    `statistics.median` (for three values), and numpy's population standard
    deviation `numpy.std`.
 */
module Stats {

  type NonNegReal = r: real | 0.0 <= r

  /** The square root numpy applies to the population variance. It is a
      parameter of the model rather than a definition: it is non-negative by
      its type, and the lemmas that need it also ask that it maps 0 to 0. */
  type SquareRoot = real -> NonNegReal

  predicate RootOfZero(root: SquareRoot)
  {
    root(0.0) == 0.0
  }

  /** `sum`, peeling elements from the left. */
  function Sum(s: seq<real>): real
    decreases |s|
  {
    if s == [] then 0.0 else s[0] + Sum(s[1..])
  }

  /** Python's `sum` accumulates from the left: the sum of a non-empty list
      is the sum of all but its last element plus that element. */
  lemma {:induction false} SumLeftFold(s: seq<real>)
    requires s != []
    ensures Sum(s) == Sum(s[..|s| - 1]) + s[|s| - 1]
    decreases |s|
  {
    if |s| > 1 {
      assert s[1..][..|s[1..]| - 1] == s[..|s| - 1][1..];
      SumLeftFold(s[1..]);
    }
  }

  lemma {:induction false} SumAppend(a: seq<real>, b: seq<real>)
    ensures Sum(a + b) == Sum(a) + Sum(b)
    decreases |a|
  {
    if a == [] {
      assert a + b == b;
    } else {
      assert (a + b)[1..] == a[1..] + b;
      SumAppend(a[1..], b);
    }
  }

  /** A sum of non-negative terms is positive as soon as one term is. */
  lemma {:induction false} SumNonNegative(s: seq<real>)
    requires forall i :: 0 <= i < |s| ==> 0.0 <= s[i]
    ensures 0.0 <= Sum(s)
    ensures (exists i :: 0 <= i < |s| && 0.0 < s[i]) <==> 0.0 < Sum(s)
    decreases |s|
  {
    if s != [] {
      SumNonNegative(s[1..]);
      if exists i :: 0 <= i < |s| && 0.0 < s[i] {
        var i :| 0 <= i < |s| && 0.0 < s[i];
        if i > 0 {
          assert s[1..][i - 1] == s[i];
        }
      }
      if 0.0 < Sum(s[1..]) {
        var k :| 0 <= k < |s[1..]| && 0.0 < s[1..][k];
        assert s[k + 1] == s[1..][k];
      }
    }
  }

  /** The list `s[:i] + s[i+1:]`: everything but the element at index i. */
  function RemoveAt<T>(s: seq<T>, i: nat): (r: seq<T>)
    requires i < |s|
    ensures |r| == |s| - 1
    ensures forall j :: 0 <= j < i ==> r[j] == s[j]
    ensures forall j :: i <= j < |r| ==> r[j] == s[j + 1]
  {
    s[..i] + s[i + 1..]
  }

  lemma {:induction false} SumRemoveAt(s: seq<real>, i: nat)
    requires i < |s|
    ensures Sum(RemoveAt(s, i)) == Sum(s) - s[i]
    decreases i
  {
    var r := RemoveAt(s, i);
    if i == 0 {
      assert r == s[1..];
    } else {
      var t := s[1..];
      SumRemoveAt(t, i - 1);
      assert r[1..] == RemoveAt(t, i - 1);
      assert r[0] == s[0] && t[i - 1] == s[i];
    }
  }

  /** `statistics.mean`: it raises on an empty list, hence the precondition. */
  function Mean(s: seq<real>): (m: real)
    requires |s| > 0
    ensures m * (|s| as real) == Sum(s)
  {
    Sum(s) / (|s| as real)
  }

  /** The mean of every element except the one at index i. */
  function MeanOfOthers(s: seq<real>, i: nat): (m: real)
    requires i < |s| && 2 <= |s|
    ensures m * ((|s| - 1) as real) == Sum(s) - s[i]
  {
    SumRemoveAt(s, i);
    Mean(RemoveAt(s, i))
  }

  function Min(s: seq<real>): (m: real)
    requires |s| > 0
    ensures m in s
    ensures forall i :: 0 <= i < |s| ==> m <= s[i]
    decreases |s|
  {
    if |s| == 1 then s[0]
    else
      var rest := Min(s[1..]);
      if s[0] <= rest then s[0] else rest
  }

  function Max(s: seq<real>): (m: real)
    requires |s| > 0
    ensures m in s
    ensures forall i :: 0 <= i < |s| ==> s[i] <= m
    decreases |s|
  {
    if |s| == 1 then s[0]
    else
      var rest := Max(s[1..]);
      if s[0] >= rest then s[0] else rest
  }

  /** Sum of squared distances to c; zero when every element is c. */
  function SumSquaredDeviations(s: seq<real>, c: real): (r: real)
    ensures 0.0 <= r
    ensures (forall i :: 0 <= i < |s| ==> s[i] == c) ==> r == 0.0
    decreases |s|
  {
    if s == [] then 0.0
    else
      assert forall i :: 0 <= i < |s[1..]| ==> s[1..][i] == s[i + 1];
      var d := s[0] - c;
      assert 0.0 <= d * d by {
        if d < 0.0 {
          assert d * d == (-d) * (-d);
        }
      }
      d * d + SumSquaredDeviations(s[1..], c)
  }

  /** Population variance (numpy's default `ddof=0`). */
  function PopVariance(s: seq<real>): (v: real)
    requires |s| > 0
    ensures 0.0 <= v
  {
    SumSquaredDeviations(s, Mean(s)) / (|s| as real)
  }

  /** `numpy.std`: the square root of the population variance. */
  function Std(s: seq<real>, root: SquareRoot): (r: NonNegReal)
    requires |s| > 0
  {
    root(PopVariance(s))
  }

  lemma {:induction false} SumOfConstant(s: seq<real>, c: real)
    requires forall i :: 0 <= i < |s| ==> s[i] == c
    ensures Sum(s) == (|s| as real) * c
    decreases |s|
  {
    if s != [] {
      assert forall i :: 0 <= i < |s[1..]| ==> s[1..][i] == s[i + 1];
      SumOfConstant(s[1..], c);
    }
  }

  lemma MeanOfConstant(s: seq<real>)
    requires |s| > 0
    requires forall i :: 0 <= i < |s| ==> s[i] == s[0]
    ensures Mean(s) == s[0]
  {
    var n := |s| as real;
    SumOfConstant(s, s[0]);
    assert Sum(s) == n * s[0];
  }

  /** A window whose maximum equals its minimum is constant, has zero
      population variance and, for a root with root(0) = 0, zero standard
      deviation. */
  lemma FlatHasZeroStd(s: seq<real>, root: SquareRoot)
    requires |s| > 0
    requires Max(s) == Min(s)
    requires RootOfZero(root)
    ensures forall i :: 0 <= i < |s| ==> s[i] == s[0]
    ensures PopVariance(s) == 0.0
    ensures Std(s, root) == 0.0
  {
    assert forall i :: 0 <= i < |s| ==> s[i] == s[0] by {
      assert s[0] in s;
      forall i | 0 <= i < |s|
        ensures s[i] == s[0]
      {
        assert Min(s) <= s[i] <= Max(s);
        assert Min(s) <= s[0] <= Max(s);
      }
    }
    MeanOfConstant(s);
    var m := Mean(s);
    assert SumSquaredDeviations(s, m) == 0.0;
  }

  /** The flat-window fact in the form callers without the premises can use. */
  lemma FlatStd(s: seq<real>, root: SquareRoot)
    requires |s| > 0
    ensures RootOfZero(root) && Max(s) == Min(s) ==> Std(s, root) == 0.0
  {
    if RootOfZero(root) && Max(s) == Min(s) {
      FlatHasZeroStd(s, root);
    }
  }

  lemma MulNonNegative(x: real, y: real)
    requires 0.0 <= x && 0.0 <= y
    ensures 0.0 <= x * y
  {
  }

  predicate Between(x: real, a: real, b: real)
  {
    (a <= x <= b) || (b <= x <= a)
  }

  /** The exponential smoothing update `alpha * newest + (1 - alpha) * last`:
      the result moves a fraction alpha of the way from last towards newest,
      so for alpha in [0, 1] it lies between the two. */
  function Blend(alpha: real, newest: real, last: real): (r: real)
    ensures r - last == alpha * (newest - last)
    ensures 0.0 <= alpha <= 1.0 ==> Between(r, last, newest)
    ensures alpha == 0.0 ==> r == last
  {
    var d := newest - last;
    var r := alpha * newest + (1.0 - alpha) * last;
    assert r - last == alpha * d;
    assert 0.0 <= alpha <= 1.0 ==> Between(r, last, newest) by {
      if 0.0 <= alpha <= 1.0 {
        if 0.0 <= d {
          MulNonNegative(alpha, d);
          MulNonNegative(1.0 - alpha, d);
        } else {
          MulNonNegative(alpha, -d);
          MulNonNegative(1.0 - alpha, -d);
        }
      }
    }
    r
  }

  /** `statistics.median` of three values: the middle one once sorted. */
  function Median3(a: real, b: real, c: real): (m: real)
    ensures m == a || m == b || m == c
    ensures (if a <= m then 1 else 0) + (if b <= m then 1 else 0) + (if c <= m then 1 else 0) >= 2
    ensures (if m <= a then 1 else 0) + (if m <= b then 1 else 0) + (if m <= c then 1 else 0) >= 2
  {
    if a <= b then
      if b <= c then b else if a <= c then c else a
    else
      if a <= c then a else if b <= c then c else b
  }

  /** The median is a property of the multiset: the order of the three
      arguments does not matter. */
  lemma Median3Symmetric(a: real, b: real, c: real)
    ensures Median3(a, b, c) == Median3(b, a, c)
    ensures Median3(a, b, c) == Median3(a, c, b)
  {
  }
}
