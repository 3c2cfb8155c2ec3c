/** The fault detectors of src/err_detections.py.

    - The constant-value detector: a two-state machine over the externally
      held `last_changed` pair (value, timestamp). It resets on any change of
      the newest value and fires once the value has been held longer than the
      sensor's allowed time.
    - The adaptive CUSUM drift detector: an adaptively smoothed (AES) target,
      a slack and a control limit derived from the window's standard
      deviation, clipped deviations pushed into two synchronised windows, and
      a comparison of the windows' sums against the limit.

    `CUSUM` is modelled as err_detections.py writes it: it takes the three
    windows and the last smoothed target and yields the in-control flag and
    the control limit. The CSV written as a side effect is not modelled. A
    last smoothed target of None stands for NaN: NaN propagates through the
    smoothing, and Python's `max(0, nan)` is 0, so both deviations are 0.
 */
module ErrDetections {
  import opened Wrappers
  import opened Stats
  import opened DataPoints
  import opened SlidingWindow

  /** The `last_changed` list: the newest value seen to change, and when. */
  datatype LastChanged = LastChanged(value: real, time: int)

  /** `time_difference`: the time elapsed from t1 to t2, in seconds. */
  function TimeDifference(t1: int, t2: int): (d: int)
    ensures t1 + d == t2
  {
    t2 - t1
  }

  /** `is_const_err`: a fault exactly when the newest value equals the held
      value and more than maxTime has passed since it was recorded. A changed
      value is recorded with its timestamp and is never a fault; an unchanged
      one leaves the held pair as it was. */
  function IsConstErr(w: Window<Reading>, lc: LastChanged, maxTime: int): (r: (bool, LastChanged))
    requires |w.entries| > 0
    ensures var newest := Newest(w);
      && (r.0 <==> newest.value == lc.value && TimeDifference(lc.time, newest.time) > maxTime)
      && (newest.value == lc.value ==> r.1 == lc)
      && (newest.value != lc.value ==> r.1 == LastChanged(newest.value, newest.time))
  {
    var times := GetWinTimes(w);
    var vals := GetWinVals(w);
    if vals[|vals| - 1] == lc.value then
      (TimeDifference(lc.time, times[|times| - 1]) > maxTime, lc)
    else
      (false, LastChanged(vals[|vals| - 1], times[|times| - 1]))
  }

  /** Right after a change the detector is quiet, and asking again about the
      same window changes nothing: the recorded pair is a fixed point. */
  lemma ConstErrQuietAfterChange(w: Window<Reading>, lc: LastChanged, maxTime: int)
    requires |w.entries| > 0 && 0 <= maxTime
    requires Newest(w).value != lc.value
    ensures !IsConstErr(w, lc, maxTime).0
    ensures var lc' := IsConstErr(w, lc, maxTime).1; IsConstErr(w, lc', maxTime) == (false, lc')
  {
  }

  /** A value held since the newest timestamp itself has zero elapsed time,
      which is never a fault. */
  lemma ConstErrSameInstantNeverFires(w: Window<Reading>, lc: LastChanged, maxTime: int)
    requires |w.entries| > 0 && 0 <= maxTime
    requires Newest(w).time == lc.time
    ensures !IsConstErr(w, lc, maxTime).0
  {
  }

  /** Once the held value has been stuck too long, it stays a fault for every
      later window whose newest value is still the same. */
  lemma ConstErrPersists(w: Window<Reading>, w': Window<Reading>, lc: LastChanged, maxTime: int)
    requires |w.entries| > 0 && |w'.entries| > 0
    requires IsConstErr(w, lc, maxTime).0
    requires Newest(w').value == Newest(w).value && Newest(w).time <= Newest(w').time
    ensures IsConstErr(w', lc, maxTime) == (true, lc)
  {
  }

  function Max2(a: real, b: real): real
  {
    if a >= b then a else b
  }

  function Min2(a: real, b: real): real
  {
    if a <= b then a else b
  }

  /** Half the range of the window: the largest standard deviation a window
      with that minimum and maximum can have. */
  function HalfRange(vals: seq<real>): (h: real)
    requires |vals| > 0
    ensures 0.0 <= h
    ensures h == 0.0 <==> Max(vals) == Min(vals)
  {
    (Max(vals) - Min(vals)) / 2.0
  }

  /** `get_alpha`: the standard deviation over half the range, clipped to
      [0, 1]; 0 for a window with no spread. */
  function GetAlpha(vals: seq<real>, root: SquareRoot): (a: real)
    requires |vals| > 0
    ensures 0.0 <= a <= 1.0
    ensures Max(vals) == Min(vals) ==> a == 0.0
    ensures Max(vals) > Min(vals) && a < 1.0 ==> a * HalfRange(vals) == Std(vals, root)
    ensures Max(vals) > Min(vals) && a == 1.0 ==> HalfRange(vals) <= Std(vals, root)
  {
    var stdNorm := Std(vals, root);
    var stdMax := HalfRange(vals);
    if stdMax == 0.0 then 0.0 else ClippedRatioOf(stdNorm, stdMax)
  }

  /** `max(0, min(1, x / y))` for a non-negative x and a positive y. */
  function ClippedRatioOf(x: real, y: real): (a: real)
    requires 0.0 <= x && 0.0 < y
    ensures 0.0 <= a <= 1.0
    ensures a < 1.0 ==> a * y == x
    ensures a == 1.0 ==> y <= x
  {
    ClippedRatio(x, y);
    Max2(0.0, Min2(1.0, x / y))
  }

  /** The ratio x / y of a non-negative x and a positive y, clipped to
      [0, 1], is the ratio itself below 1 and means y <= x at 1. */
  lemma ClippedRatio(x: real, y: real)
    requires 0.0 <= x && 0.0 < y
    ensures var a := Max2(0.0, Min2(1.0, x / y));
      && 0.0 <= a <= 1.0
      && (a < 1.0 ==> a * y == x)
      && (a == 1.0 ==> y <= x)
  {
    assert (x / y) * y == x;
    if 1.0 <= x / y {
      MulNonNegative(x / y - 1.0, y);
    }
  }

  /** `get_AES_target`: the newest value blended into the last smoothed
      target with the adaptive alpha: the target moves the fraction
      `get_alpha` of the way from the last target towards the newest value.
      The result lies between the two, equals the last target for a window
      with no spread, and stays NaN once NaN. */
  function GetAesTarget(vals: seq<real>, lastSmoothed: Option<real>, root: SquareRoot): (t: Option<real>)
    requires |vals| > 0
    ensures t.Some? <==> lastSmoothed.Some?
    ensures lastSmoothed.Some? ==> t.value == Blend(GetAlpha(vals, root), vals[|vals| - 1], lastSmoothed.value)
    ensures lastSmoothed.Some? ==> Between(t.value, lastSmoothed.value, vals[|vals| - 1])
    ensures Max(vals) == Min(vals) ==> t == lastSmoothed
  {
    match lastSmoothed
    case None => None
    case Some(last) => Some(Blend(GetAlpha(vals, root), vals[|vals| - 1], last))
  }

  /** `get_slack` with its default k = 0.5: half the standard deviation. */
  function GetSlack(vals: seq<real>, root: SquareRoot): (s: real)
    requires |vals| > 0
    ensures s == 0.5 * Std(vals, root)
    ensures 0.0 <= s
    ensures RootOfZero(root) && Max(vals) == Min(vals) ==> s == 0.0
  {
    FlatStd(vals, root);
    0.5 * Std(vals, root)
  }

  /** `get_control_lim` with its default k = 5: five standard deviations,
      which is ten times the slack. */
  function GetControlLim(vals: seq<real>, root: SquareRoot): (h: real)
    requires |vals| > 0
    ensures h == 5.0 * Std(vals, root)
    ensures 0.0 <= h
    ensures h == 10.0 * GetSlack(vals, root)
    ensures RootOfZero(root) && Max(vals) == Min(vals) ==> h == 0.0
  {
    FlatStd(vals, root);
    5.0 * Std(vals, root)
  }

  /** The clipped deviations `max(0, dev - slack)` and `max(0, -dev - slack)`
      of the newest value from the AES target. Both are non-negative, at most
      one is positive, and a deviation within the slack gives two zeros. */
  function Deviations(vals: seq<real>, lastSmoothed: Option<real>, root: SquareRoot): (d: (real, real))
    requires |vals| > 0
    ensures 0.0 <= d.0 && 0.0 <= d.1
    ensures d.0 == 0.0 || d.1 == 0.0
    ensures lastSmoothed.None? ==> d == (0.0, 0.0)
    ensures lastSmoothed.Some? ==>
      var dev := vals[|vals| - 1] - GetAesTarget(vals, lastSmoothed, root).value;
      var slack := GetSlack(vals, root);
      && (0.0 < d.0 <==> dev > slack)
      && (0.0 < d.0 ==> d.0 == dev - slack)
      && (0.0 < d.1 <==> -dev > slack)
      && (0.0 < d.1 ==> d.1 == -dev - slack)
  {
    match GetAesTarget(vals, lastSmoothed, root)
    case None => (0.0, 0.0)
    case Some(target) =>
      var slack := GetSlack(vals, root);
      var dev := vals[|vals| - 1] - target;
      (Max2(0.0, dev - slack), Max2(0.0, -dev - slack))
  }

  /** The two deviation windows have one size and one length, within it. */
  predicate Synced(plus: Window<real>, minus: Window<real>)
  {
    && plus.Valid() && minus.Valid()
    && plus.size == minus.size
    && |plus.entries| == |minus.entries|
    && |plus.entries| <= plus.size
  }

  predicate NonNegative(s: seq<real>)
  {
    forall i :: 0 <= i < |s| ==> 0.0 <= s[i]
  }

  datatype CusumOutcome = CusumOutcome(plus: Window<real>, minus: Window<real>, inControl: bool, controlLim: real)

  /** `CUSUM`: pushes the two deviations together (add while the positive
      window is not full, slide both once it is) and reports in control
      exactly when neither window's sum exceeds the control limit. */
  function Cusum(plus: Window<real>, minus: Window<real>, w: Window<Reading>,
                 lastSmoothed: Option<real>, root: SquareRoot): (r: CusumOutcome)
    requires plus.Valid() && minus.Valid() && |w.entries| > 0
    ensures r.plus.Valid() && r.minus.Valid()
    ensures r.plus.size == plus.size && r.minus.size == minus.size
    ensures r.controlLim == GetControlLim(GetWinVals(w), root)
    ensures r.inControl <==> Sum(r.plus.entries) <= r.controlLim && Sum(r.minus.entries) <= r.controlLim
    ensures Synced(plus, minus) ==> Synced(r.plus, r.minus)
    ensures Synced(plus, minus) && plus.size < MaxLen ==>
      var d := Deviations(GetWinVals(w), lastSmoothed, root);
      r.plus == Push(plus, d.0) && r.minus == Push(minus, d.1)
    ensures NonNegative(plus.entries) ==> NonNegative(r.plus.entries)
    ensures NonNegative(minus.entries) ==> NonNegative(r.minus.entries)
  {
    var vals := GetWinVals(w);
    var d := Deviations(vals, lastSmoothed, root);
    var controlLim := GetControlLim(vals, root);
    var pushed := PushBoth(plus, minus, d.0, d.1);
    var ctPlus := Sum(pushed.0.entries);
    var ctMinus := Sum(pushed.1.entries);
    CusumOutcome(pushed.0, pushed.1, !(ctPlus > controlLim || ctMinus > controlLim), controlLim)
  }

  /** Lines 92-97 of the detector: whether to add or slide is decided by the
      positive window alone, and both windows get the same operation. */
  function PushBoth(plus: Window<real>, minus: Window<real>, dPlus: real, dMinus: real): (r: (Window<real>, Window<real>))
    requires plus.Valid() && minus.Valid()
    ensures r.0.Valid() && r.1.Valid()
    ensures r.0.size == plus.size && r.1.size == minus.size
    ensures Synced(plus, minus) ==> Synced(r.0, r.1)
    ensures Synced(plus, minus) && plus.size < MaxLen ==> r == (Push(plus, dPlus), Push(minus, dMinus))
    ensures NonNegative(plus.entries) && 0.0 <= dPlus ==> NonNegative(r.0.entries)
    ensures NonNegative(minus.entries) && 0.0 <= dMinus ==> NonNegative(r.1.entries)
  {
    var full := plus.IsFull();
    var plus' := if full then SlideNext(plus, dPlus).0 else AddReading(plus, dPlus);
    var minus' := if full then SlideNext(minus, dMinus).0 else AddReading(minus, dMinus);
    AppendKeepsNonNegative(plus.entries, dPlus);
    AppendKeepsNonNegative(minus.entries, dMinus);
    (plus', minus')
  }

  lemma AppendKeepsNonNegative(s: seq<real>, x: real)
    requires |s| <= MaxLen
    ensures NonNegative(s) && 0.0 <= x ==> NonNegative(Append(s, x)) && NonNegative(Append(s, x)[1..])
  {
    if NonNegative(s) && 0.0 <= x {
      var a := Append(s, x);
      var k := |s| - (|a| - 1);
      forall i | 0 <= i < |a|
        ensures 0.0 <= a[i]
      {
        if i < |a| - 1 {
          assert a[i] == a[..|a| - 1][i] == s[k + i];
        }
      }
    }
  }

  /** A window with no spread has limit 0, so the process is in control
      exactly when every deviation held in both windows is zero. */
  lemma CusumFlatWindow(plus: Window<real>, minus: Window<real>, w: Window<Reading>,
                        lastSmoothed: Option<real>, root: SquareRoot)
    requires plus.Valid() && minus.Valid() && |w.entries| > 0
    requires NonNegative(plus.entries) && NonNegative(minus.entries)
    requires RootOfZero(root) && Max(GetWinVals(w)) == Min(GetWinVals(w))
    ensures var r := Cusum(plus, minus, w, lastSmoothed, root);
      && r.controlLim == 0.0
      && (r.inControl <==>
            (forall i :: 0 <= i < |r.plus.entries| ==> r.plus.entries[i] == 0.0) &&
            (forall i :: 0 <= i < |r.minus.entries| ==> r.minus.entries[i] == 0.0))
  {
    var r := Cusum(plus, minus, w, lastSmoothed, root);
    SumNonNegative(r.plus.entries);
    SumNonNegative(r.minus.entries);
  }

  /** On a window with no spread the target stays the last one, the slack is
      0, and so a newest value off that target is drift at once. */
  lemma CusumFlatWindowOffTargetIsDrift(plus: Window<real>, minus: Window<real>, w: Window<Reading>,
                                        last: real, root: SquareRoot)
    requires Synced(plus, minus) && 0 < plus.size < MaxLen && |w.entries| > 0
    requires NonNegative(plus.entries) && NonNegative(minus.entries)
    requires RootOfZero(root) && Max(GetWinVals(w)) == Min(GetWinVals(w))
    requires Newest(w).value != last
    ensures !Cusum(plus, minus, w, Some(last), root).inControl
  {
    var vals := GetWinVals(w);
    assert vals[|vals| - 1] == Newest(w).value;
    assert GetAesTarget(vals, Some(last), root) == Some(last);
    assert GetSlack(vals, root) == 0.0;
    var d := Deviations(vals, Some(last), root);
    assert 0.0 < d.0 || 0.0 < d.1;
    var r := Cusum(plus, minus, w, Some(last), root);
    assert r.plus == Push(plus, d.0) && r.minus == Push(minus, d.1);
    var n := |r.plus.entries|;
    assert 0 < n && r.plus.entries[n - 1] == d.0;
    assert r.minus.entries[n - 1] == d.1;
    CusumFlatWindow(plus, minus, w, Some(last), root);
  }
}
