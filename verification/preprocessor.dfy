/** The preprocessing stage of src/preprocessor.py: the null test, the
    exponential moving average written over the newest entry, the median
    filter over the oldest three entries, and range clamping. Each stage is a
    pure rewrite of a window that may change values only; the contracts say
    which values, and that everything else stays.
 */
module Preprocessor {
  import opened Wrappers
  import opened Stats
  import opened DataPoints
  import opened SlidingWindow

  /** The only sub-window size `med_filter` is ever called with. */
  const MedWindow: nat := 3

  /** `is_null`: the value is missing or NaN, or the timestamp is missing, NaN
      or the text "0". A point passes exactly when it is what some reading
      writes out. */
  predicate IsNull(d: DataPoint)
    ensures !IsNull(d) <==> exists r :: Emit(r) == d
  {
    var missing := d.value.None? || d.time.None? || d.time.value.ZeroText?;
    assert !missing ==> Emit(Reading(d.value.value, d.time.value.seconds, d.sensorType, d.unit)) == d;
    missing
  }

  /** A data point that passed the null test, as it enters a window. */
  function Admit(d: DataPoint): Reading
    requires !IsNull(d)
  {
    Reading(d.value.value, d.time.value.seconds, d.sensorType, d.unit)
  }

  /** A reading written back out as a raw data point. */
  function Emit(r: Reading): DataPoint
  {
    DataPoint(Some(r.value), Some(At(r.time)), r.sensorType, r.unit)
  }

  /** The null test accepts exactly the data points that carry a reading:
      admission loses nothing from a non-null point, and every reading written
      out passes the test again and reads back unchanged. */
  lemma NullTestAcceptsExactlyReadings(d: DataPoint, r: Reading)
    ensures !IsNull(d) ==> Emit(Admit(d)) == d
    ensures !IsNull(Emit(r)) && Admit(Emit(r)) == r
    ensures IsNull(d) ==> forall x :: Emit(x) != d
  {
  }

  /** `do_EMA`: the new average moves a fraction alpha of the way from
      last_EMA to the newest value, is written over the newest value, and is
      returned as the next last_EMA. */
  function DoEma(w: Window<Reading>, lastEma: real, alpha: real): (r: (Window<Reading>, real))
    requires w.Valid() && |w.entries| > 0
    ensures r.0.Valid() && r.0.size == w.size
    ensures OnlyValueAt(w.entries, r.0.entries, |w.entries| - 1, r.1)
    ensures r.1 - lastEma == alpha * (Newest(w).value - lastEma)
    ensures 0.0 <= alpha <= 1.0 ==> Between(r.1, lastEma, Newest(w).value)
  {
    var latest := GetWinVals(w)[|w.entries| - 1];
    var newEma := Blend(alpha, latest, lastEma);
    (ChangeVal(w, -1, newEma), newEma)
  }

  /** `med_filter(window, 3)`: the middle of the oldest three entries becomes
      the median of those three; no other entry changes. */
  function MedFilter(w: Window<Reading>): (r: Window<Reading>)
    requires w.Valid() && |w.entries| >= MedWindow
    ensures r.Valid() && r.size == w.size
    ensures var v := GetWinVals(w);
      OnlyValueAt(w.entries, r.entries, MedWindow / 2, Median3(v[0], v[1], v[2]))
  {
    var medArr := GetWinVals(w)[..MedWindow];
    var mid := MedWindow / 2;
    var m := Median3(medArr[0], medArr[1], medArr[2]);
    if medArr[mid] != m then ChangeVal(w, mid, m) else w
  }

  /** Filtering an already filtered window changes nothing. */
  lemma MedFilterIdempotent(w: Window<Reading>)
    requires w.Valid() && |w.entries| >= MedWindow
    ensures MedFilter(MedFilter(w)) == MedFilter(w)
  {
    var once := MedFilter(w);
    var v := GetWinVals(w);
    var u := GetWinVals(once);
    var m := Median3(v[0], v[1], v[2]);
    assert u[0] == v[0] && u[1] == m && u[2] == v[2];
    assert Median3(u[0], u[1], u[2]) == m;
    var twice := MedFilter(once);
    assert twice.entries == once.entries;
  }

  predicate OutOfRange(x: real, ul: real, ll: real)
  {
    x > ul || x < ll
  }

  /** The indices `range_check` examines: the first `size` ones when all_vals
      is set, otherwise only the newest. */
  predicate Checked(w: Window<Reading>, allVals: bool, j: int)
  {
    if allVals then 0 <= j < w.size else j == |w.entries| - 1
  }

  /** When `range_check` runs without raising: with all_vals it indexes the
      first `size` values, without it the newest one, and `statistics.mean`
      of the other values raises when there are none. */
  predicate RangeCheckDefined(w: Window<Reading>, ul: real, ll: real, allVals: bool)
  {
    var v := GetWinVals(w);
    if allVals then
      && w.size <= |w.entries|
      && (|w.entries| < 2 ==> forall j :: 0 <= j < w.size ==> !OutOfRange(v[j], ul, ll))
    else
      && 0 < |w.entries|
      && (|w.entries| < 2 ==> !OutOfRange(v[|v| - 1], ul, ll))
  }

  /** The value `range_check` leaves at index j: the mean of the other
      values when j is examined and out of range, else the value itself. */
  function CheckedValue(w: Window<Reading>, ul: real, ll: real, allVals: bool, j: nat): real
    requires RangeCheckDefined(w, ul, ll, allVals) && j < |w.entries|
  {
    var v := GetWinVals(w);
    if Checked(w, allVals, j) && OutOfRange(v[j], ul, ll) then MeanOfOthers(v, j) else v[j]
  }

  /** The `for i in range(window.size)` loop from index i on, against the
      snapshot of values taken before the loop. */
  function RangeFrom(w: Window<Reading>, snap: seq<real>, ul: real, ll: real, i: nat): (r: Window<Reading>)
    requires w.Valid() && |snap| == |w.entries| && i <= w.size <= |w.entries|
    requires forall j :: i <= j < w.size && OutOfRange(snap[j], ul, ll) ==> 2 <= |snap|
    ensures r.Valid() && r.size == w.size && |r.entries| == |w.entries|
    ensures forall j :: 0 <= j < |w.entries| ==>
              r.entries[j] == w.entries[j].(value :=
                if i <= j < w.size && OutOfRange(snap[j], ul, ll) then MeanOfOthers(snap, j)
                else w.entries[j].value)
    decreases w.size - i
  {
    if i == w.size then w
    else
      var next := if OutOfRange(snap[i], ul, ll) then ChangeVal(w, i, MeanOfOthers(snap, i)) else w;
      RangeFrom(next, snap, ul, ll, i + 1)
  }

  /** `range_check`: every examined value strictly outside [ll, ul] becomes
      the mean of all the other values of the window as it was before the
      check; values on a bound, unexamined values, timestamps and sensor
      types stay. */
  function RangeCheck(w: Window<Reading>, ul: real, ll: real, allVals: bool): (r: Window<Reading>)
    requires w.Valid() && RangeCheckDefined(w, ul, ll, allVals)
    ensures r.Valid() && r.size == w.size && |r.entries| == |w.entries|
    ensures Labels(r.entries) == Labels(w.entries)
    ensures forall j :: 0 <= j < |w.entries| ==> r.entries[j].value == CheckedValue(w, ul, ll, allVals, j)
  {
    var v := GetWinVals(w);
    var r :=
      if allVals then RangeFrom(w, v, ul, ll, 0)
      else if OutOfRange(v[|v| - 1], ul, ll) then
        assert RemoveAt(v, |v| - 1) == v[..|v| - 1];
        ChangeVal(w, -1, Mean(v[..|v| - 1]))
      else w;
    assert forall j :: 0 <= j < |w.entries| ==> Labels(r.entries)[j] == Labels(w.entries)[j];
    r
  }

  /** The values of the worked example, with 100 out of the range [-12, 75]. */
  const ExampleValues: seq<real> := [10.0, 9.0, 10.0, 100.0, 13.0, 14.0, 10.0]

  /** The arithmetic of the worked example: the six values other than 100
      average to 11. */
  lemma ExampleMean()
    ensures MeanOfOthers(ExampleValues, 3) == 11.0
  {
    var v := ExampleValues;
    assert Sum(v[6..]) == 10.0;
    assert Sum(v[5..]) == 24.0;
    assert Sum(v[4..]) == 37.0;
    assert Sum(v[3..]) == 137.0;
    assert Sum(v[2..]) == 147.0;
    assert Sum(v[1..]) == 156.0;
    assert Sum(v) == 166.0;
  }

  /** The worked example: a window of size 7 holding [10, 9, 10, 100, 13, 14,
      10], checked in full against the limits 75 and -12, has only 100 out of
      range, and it becomes (10+9+10+13+14+10)/6 = 11. */
  lemma RangeCheckExample(w: Window<Reading>)
    requires w.Valid() && w.size == 7 && GetWinVals(w) == ExampleValues
    ensures GetWinVals(RangeCheck(w, 75.0, -12.0, true)) == [10.0, 9.0, 10.0, 11.0, 13.0, 14.0, 10.0]
  {
    var v := GetWinVals(w);
    var expected := [10.0, 9.0, 10.0, 11.0, 13.0, 14.0, 10.0];
    ExampleMean();
    var r := RangeCheck(w, 75.0, -12.0, true);
    var u := GetWinVals(r);
    forall j | 0 <= j < 7
      ensures u[j] == expected[j]
    {
      assert u[j] == CheckedValue(w, 75.0, -12.0, true, j);
      if j == 3 {
        assert Checked(w, true, 3);
      } else {
        assert v[j] == expected[j] && !OutOfRange(v[j], 75.0, -12.0);
      }
    }
  }
}
