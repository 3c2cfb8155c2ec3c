/** The bulk driver `run_csv` of src/main.py, as a state machine over a
    sequence of raw data points.

    - Fill: null points are dropped and the rest admitted until the window
      holds 10 readings or the input runs out.
    - Steady: while input remains, one step runs on the full window (constant
      check, range check, median filter, EMA, CUSUM), the following nulls are
      dropped, the next reading slides in and the evicted, now cleaned,
      reading is emitted.
    - Drain: what is left in the window is appended to the output.

    The state the source keeps in local variables and in the mutable
    `last_changed` list is threaded here as a `PipelineState` value. The
    messages the source prints become one `StepReport` per step.

    Three points differ from a literal reading of the source:
    - main.py:196 passes the window's value list to `CUSUM` and rebinds
      `target` to the control limit `CUSUM` returns; here `CUSUM` receives the
      window and the next target is the AES target `get_AES_target` computes
      from the current one.
    - The target-logging `write_csv` call (main.py:200-201) is I/O and is not
      modelled.
    - Where the source raises, the model returns an error: an empty input
      (main.py:163), an unknown sensor type (`get_UL`, `get_LL`), and input
      that ends in null points once the window is full (the `pop(0)` at
      main.py:207).
 */
module Pipeline {
  import opened Wrappers
  import opened Stats
  import opened DataPoints
  import opened SlidingWindow
  import opened Preprocessor
  import opened ErrDetections
  import opened SensorConfig

  /** The logical size of the main window and of both deviation windows. */
  const WindowSize: nat := 10

  /** The fixed smoothing factor `run_csv` passes to `do_EMA`. */
  const EmaAlpha: real := 0.4

  datatype PipelineState = PipelineState(
    window: Window<Reading>,
    plus: Window<real>,
    minus: Window<real>,
    lastChanged: LastChanged,
    lastEma: real,
    target: Option<real>,
    firstWindow: bool)

  /** What one steady step reports: the constant-value fault, the CUSUM
      verdict and the control limit it used. */
  datatype StepReport = StepReport(constFault: bool, inControl: bool, controlLim: real)

  /** The cleaned readings, in emission order, and one report per step. */
  datatype CsvOutput = CsvOutput(cleaned: seq<Reading>, reports: seq<StepReport>)

  datatype PipelineError = EmptyInput | Config(ConfigError) | TrailingNulls

  /** The invariant of the steady loop: the main window holds exactly 10
      readings and the two deviation windows, of logical size 10, move in
      step and hold non-negative deviations. */
  predicate Ready(st: PipelineState)
  {
    && st.window.Valid() && st.window.size == WindowSize && |st.window.entries| == WindowSize
    && Synced(st.plus, st.minus) && st.plus.size == WindowSize
    && NonNegative(st.plus.entries) && NonNegative(st.minus.entries)
  }

  /** Every reading carries one of the tabled sensor types. */
  predicate AllKnown(rs: seq<Reading>)
  {
    forall i :: 0 <= i < |rs| ==> rs[i].sensorType in KnownSensorTypes
  }

  predicate NoNulls(ds: seq<DataPoint>)
  {
    forall i :: 0 <= i < |ds| ==> !IsNull(ds[i])
  }

  /** The readings a sequence of data points contributes once the null ones
      are dropped, in order. */
  function CleanAll(ds: seq<DataPoint>): (r: seq<Reading>)
    ensures |r| <= |ds|
    decreases |ds|
  {
    if ds == [] then []
    else
      var tail := CleanAll(ds[1..]);
      if IsNull(ds[0]) then tail else [Admit(ds[0])] + tail
  }

  /** Every reading CleanAll yields is, written back as a data point, one of
      its inputs: nothing is invented. */
  lemma {:induction false} CleanAllEmitsInputs(ds: seq<DataPoint>)
    ensures forall j :: 0 <= j < |CleanAll(ds)| ==> Emit(CleanAll(ds)[j]) in ds
    decreases |ds|
  {
    if ds != [] {
      CleanAllEmitsInputs(ds[1..]);
      var tail := CleanAll(ds[1..]);
      forall j | 0 <= j < |tail|
        ensures Emit(tail[j]) in ds
      {
        assert Emit(tail[j]) in ds[1..];
      }
      if !IsNull(ds[0]) {
        NullTestAcceptsExactlyReadings(ds[0], Admit(ds[0]));
        assert CleanAll(ds) == [Admit(ds[0])] + tail;
      }
    }
  }

  /** Without null points CleanAll admits every point, in place. */
  lemma {:induction false} CleanAllOfNoNulls(ds: seq<DataPoint>)
    requires NoNulls(ds)
    ensures |CleanAll(ds)| == |ds|
    ensures forall i :: 0 <= i < |ds| ==> CleanAll(ds)[i] == Admit(ds[i])
    decreases |ds|
  {
    if ds != [] {
      assert NoNulls(ds[1..]) by {
        forall i | 0 <= i < |ds[1..]| ensures !IsNull(ds[1..][i]) {
          assert ds[1..][i] == ds[i + 1];
        }
      }
      CleanAllOfNoNulls(ds[1..]);
      assert !IsNull(ds[0]);
      assert CleanAll(ds) == [Admit(ds[0])] + CleanAll(ds[1..]);
    }
  }

  lemma {:induction false} CleanAllAppend(a: seq<DataPoint>, b: seq<DataPoint>)
    ensures CleanAll(a + b) == CleanAll(a) + CleanAll(b)
    decreases |a|
  {
    if a == [] {
      assert a + b == b;
    } else {
      assert (a + b)[0] == a[0];
      assert (a + b)[1..] == a[1..] + b;
      CleanAllAppend(a[1..], b);
      if IsNull(a[0]) {
        assert CleanAll(a + b) == CleanAll(a[1..] + b);
      } else {
        assert CleanAll(a + b) == [Admit(a[0])] + CleanAll(a[1..] + b);
        assert CleanAll(a) == [Admit(a[0])] + CleanAll(a[1..]);
      }
    }
  }

  /** The inner `while ... is_null(data_points[0])` loop: drops leading null
      points, and only those. */
  function DropNulls(ds: seq<DataPoint>): (r: seq<DataPoint>)
    ensures |r| <= |ds| && r == ds[|ds| - |r|..]
    ensures forall i :: 0 <= i < |ds| - |r| ==> IsNull(ds[i])
    ensures r != [] ==> !IsNull(r[0])
    ensures CleanAll(r) == CleanAll(ds)
    decreases |ds|
  {
    if ds != [] && IsNull(ds[0]) then DropNulls(ds[1..]) else ds
  }

  /** The readings one data point contributes: none if it is null. */
  function Single(d: DataPoint): seq<Reading>
  {
    if IsNull(d) then [] else [Admit(d)]
  }

  lemma CleanAllSingle(d: DataPoint)
    ensures CleanAll([d]) == Single(d)
  {
    assert [d][1..] == [];
  }

  /** The fill loop's count: how many points `while not window.is_full() and
      data_points` consumes from a window holding `have` readings, each null
      point being dropped and each other one admitted. */
  function FillCount(have: nat, rest: seq<DataPoint>): (n: nat)
    ensures n <= |rest|
    decreases |rest|
  {
    if have >= WindowSize || rest == [] then 0
    else 1 + FillCount(have + |Single(rest[0])|, rest[1..])
  }

  /** The readings of the first n + 1 points are those of the first point
      followed by those of the next n. */
  lemma ConsumedPrefix(rest: seq<DataPoint>, n: nat)
    requires n < |rest|
    ensures CleanAll(rest[..n + 1]) == Single(rest[0]) + CleanAll(rest[1..][..n])
  {
    assert rest[..n + 1] == [rest[0]] + rest[1..][..n];
    CleanAllAppend([rest[0]], rest[1..][..n]);
    CleanAllSingle(rest[0]);
  }

  /** The fill loop admits readings until the window holds 10 or the input
      runs out, and a window it completes was completed by the last point it
      consumed, which is therefore not null. */
  lemma {:induction false} FillCountStops(have: nat, rest: seq<DataPoint>)
    requires have <= WindowSize
    ensures var n := FillCount(have, rest);
      && have + |CleanAll(rest[..n])| <= WindowSize
      && (have + |CleanAll(rest[..n])| == WindowSize || n == |rest|)
      && (have < WindowSize == have + |CleanAll(rest[..n])| ==> 0 < n && !IsNull(rest[n - 1]))
    decreases |rest|
  {
    var n := FillCount(have, rest);
    if have >= WindowSize || rest == [] {
      assert rest[..n] == [];
    } else {
      var have' := have + |Single(rest[0])|;
      var m := FillCount(have', rest[1..]);
      assert n == m + 1;
      FillCountStops(have', rest[1..]);
      ConsumedPrefix(rest, m);
      if m > 0 {
        assert rest[n - 1] == rest[1..][m - 1];
      }
    }
  }

  /** The fill loop: the window with the readings of the consumed points
      appended, and how many points were consumed. The window never exceeds
      10 entries, so `add_reading` is a plain append here. */
  function Fill(w: Window<Reading>, rest: seq<DataPoint>): (r: (Window<Reading>, nat))
    requires w.Valid() && w.size == WindowSize && |w.entries| <= WindowSize
    ensures r.0.Valid() && r.0.size == WindowSize && |r.0.entries| <= WindowSize
    ensures r.1 <= |rest|
    ensures r.0.IsFull() || r.1 == |rest|
    ensures r.0.entries == w.entries + CleanAll(rest[..r.1])
    ensures !w.IsFull() && r.0.IsFull() ==> 0 < r.1 && !IsNull(rest[r.1 - 1])
  {
    var n := FillCount(|w.entries|, rest);
    FillCountStops(|w.entries|, rest);
    (Window(w.size, w.entries + CleanAll(rest[..n])), n)
  }

  /** The state right after the fill loop. `last_changed` and `last_EMA` are
      the caller's, the target is the first input point's value (None when
      that value is missing or NaN). */
  function InitialState(w: Window<Reading>, lastChanged: LastChanged, lastEma: real, target: Option<real>): (st: PipelineState)
    requires w.Valid() && w.size == WindowSize
    ensures st.window == w && st.firstWindow
    ensures st.plus.entries == [] && st.minus.entries == []
    ensures st.plus.size == WindowSize && st.minus.size == WindowSize
    ensures st.lastChanged == lastChanged && st.lastEma == lastEma && st.target == target
    ensures |w.entries| == WindowSize ==> Ready(st)
  {
    PipelineState(w, NewWindow(WindowSize), NewWindow(WindowSize), lastChanged, lastEma, target, true)
  }

  /** The three cleaning stages in `run_csv`'s order: range check, median
      filter over the oldest three, EMA over the newest. Only values change.
      With c the range-checked values, the oldest entry and entries 2 to 8
      hold c, entry 1 becomes the median of c's first three, and the newest
      becomes the new EMA, which moves 0.4 of the way from the last EMA
      towards c's newest value. */
  function Preprocess(w: Window<Reading>, ul: real, ll: real, allVals: bool, lastEma: real): (r: (Window<Reading>, real))
    requires w.Valid() && w.size == WindowSize && |w.entries| == WindowSize
    ensures r.0.Valid() && r.0.size == WindowSize && |r.0.entries| == WindowSize
    ensures Labels(r.0.entries) == Labels(w.entries)
    ensures var c := GetWinVals(RangeCheck(w, ul, ll, allVals));
      && (forall j :: 0 <= j < WindowSize && j != 1 && j != WindowSize - 1 ==> r.0.entries[j].value == c[j])
      && r.0.entries[1].value == Median3(c[0], c[1], c[2])
      && r.0.entries[WindowSize - 1].value == r.1
      && r.1 - lastEma == EmaAlpha * (c[WindowSize - 1] - lastEma)
      && Between(r.1, lastEma, c[WindowSize - 1])
  {
    var w1 := RangeCheck(w, ul, ll, allVals);
    var w2 := MedFilter(w1);
    var smoothed := DoEma(w2, lastEma, EmaAlpha);
    OnlyValueAtKeepsLabels(w1.entries, w2.entries, MedWindow / 2, Median3(GetWinVals(w1)[0], GetWinVals(w1)[1], GetWinVals(w1)[2]));
    OnlyValueAtKeepsLabels(w2.entries, smoothed.0.entries, |w2.entries| - 1, smoothed.1);
    smoothed
  }

  /** One pass of the steady loop body up to, not including, the slide. The
      first pass seeds `last_changed` and `last_EMA` from the newest reading
      and range-checks every entry; later passes check only the newest. */
  function Step(st: PipelineState, root: SquareRoot): (r: Result<(PipelineState, StepReport), PipelineError>)
    requires Ready(st)
    ensures r.Success? <==> SensorType(st.window) in KnownSensorTypes
    ensures r.Failure? ==> r.error == Config(UnknownSensorType(SensorType(st.window)))
    ensures r.Success? ==>
      var (st', rep) := r.value;
      && Ready(st')
      && !st'.firstWindow
      && Labels(st'.window.entries) == Labels(st.window.entries)
      && st'.lastEma == Newest(st'.window).value
      && (st'.target.Some? <==> st.target.Some?)
      && rep.controlLim == GetControlLim(GetWinVals(st'.window), root)
      && (rep.inControl <==> Sum(st'.plus.entries) <= rep.controlLim && Sum(st'.minus.entries) <= rep.controlLim)
  {
    var w := st.window;
    var newest := Newest(w);
    var lc := if st.firstWindow then LastChanged(newest.value, newest.time) else st.lastChanged;
    var lastEma := if st.firstWindow then newest.value else st.lastEma;
    var fault := IsConstErr(w, lc, GetMaxTime(w));
    var ul :- GetUL(w).MapFailure(e => Config(e));
    var ll := GetLL(w).value;
    var smoothed := Preprocess(w, ul, ll, st.firstWindow, lastEma);
    var w3 := smoothed.0;
    var c := Cusum(st.plus, st.minus, w3, st.target, root);
    var target := GetAesTarget(GetWinVals(w3), st.target, root);
    Success((PipelineState(w3, c.plus, c.minus, fault.1, smoothed.1, target, false),
             StepReport(fault.0, c.inControl, c.controlLim)))
  }

  /** What one steady pass computes, stage by stage. The constant check runs
      on the window as it arrives, with `last_changed` and `last_EMA` seeded
      from the newest reading on the first pass and carried over afterwards;
      the window is cleaned by range check, median filter and EMA; the
      cleaned window's values feed both deviation windows through `CUSUM`;
      and the next target is the AES target of the cleaned values. */
  lemma StepComputes(st: PipelineState, root: SquareRoot)
    requires Ready(st) && Step(st, root).Success?
    ensures var (st', rep) := Step(st, root).value;
      var w := st.window;
      var newest := Newest(w);
      var lc := if st.firstWindow then LastChanged(newest.value, newest.time) else st.lastChanged;
      var ema := if st.firstWindow then newest.value else st.lastEma;
      var cleaned := Preprocess(w, GetUL(w).value, GetLL(w).value, st.firstWindow, ema);
      var c := Cusum(st.plus, st.minus, cleaned.0, st.target, root);
      && st'.window == cleaned.0
      && st'.plus == c.plus && st'.minus == c.minus
      && st'.target == GetAesTarget(GetWinVals(st'.window), st.target, root)
      && (rep.constFault, st'.lastChanged) == IsConstErr(w, lc, ThirtyMinutes)
  {
  }

  /** The first steady step seeds `last_changed` from the newest reading, so
      the constant check cannot fire on it and leaves the seed in place. It
      range-checks every entry, and the EMA starts from the newest raw value:
      the new EMA moves 0.4 of the way from it towards the newest
      range-checked value. What the caller passed as `last_changed` and
      `last_EMA` does not matter. */
  lemma FirstStepSeeds(st: PipelineState, lastChanged: LastChanged, lastEma: real, root: SquareRoot)
    requires Ready(st) && st.firstWindow
    ensures Step(st, root).Success? ==>
      var (st', rep) := Step(st, root).value;
      var newest := Newest(st.window);
      var ul := GetUL(st.window).value;
      var ll := GetLL(st.window).value;
      var checked := GetWinVals(RangeCheck(st.window, ul, ll, true));
      && !rep.constFault
      && st'.lastChanged == LastChanged(newest.value, newest.time)
      && st'.window == Preprocess(st.window, ul, ll, true, newest.value).0
      && st'.lastEma - newest.value == EmaAlpha * (checked[WindowSize - 1] - newest.value)
    ensures Step(st.(lastChanged := lastChanged, lastEma := lastEma), root) == Step(st, root)
  {
    var newest := Newest(st.window);
    var lc := LastChanged(newest.value, newest.time);
    ConstErrSameInstantNeverFires(st.window, lc, GetMaxTime(st.window));
  }

  /** A later steady step range-checks only the newest value. So the oldest
      reading and readings 2 to 8 come out unchanged, reading 1 becomes the
      median of the first three values, and the newest value becomes the EMA
      of its range-checked value: the mean of the nine older values when it
      lies outside the sensor's limits, else itself. */
  lemma LaterStepTouchesTwoEntries(st: PipelineState, root: SquareRoot)
    requires Ready(st) && !st.firstWindow
    requires Step(st, root).Success?
    ensures var (st', rep) := Step(st, root).value;
      var e := st.window.entries;
      var v := GetWinVals(st.window);
      var ul := GetUL(st.window).value;
      var ll := GetLL(st.window).value;
      var checked := if OutOfRange(v[9], ul, ll) then Mean(v[..9]) else v[9];
      && (forall j :: 0 <= j < 9 && j != 1 ==> st'.window.entries[j] == e[j])
      && st'.window.entries[1] == e[1].(value := Median3(v[0], v[1], v[2]))
      && st'.lastEma - st.lastEma == EmaAlpha * (checked - st.lastEma)
      && rep.constFault == IsConstErr(st.window, st.lastChanged, ThirtyMinutes).0
      && st'.lastChanged == IsConstErr(st.window, st.lastChanged, ThirtyMinutes).1
  {
    var w := st.window;
    var v := GetWinVals(w);
    var ul := GetUL(w).value;
    var ll := GetLL(w).value;
    var st' := Step(st, root).value.0;
    var out := Preprocess(w, ul, ll, false, st.lastEma);
    assert st'.window == out.0;
    forall j | 0 <= j < 9
      ensures CheckedValue(w, ul, ll, false, j) == v[j]
    {
    }
    assert CheckedValue(w, ul, ll, false, 9) == if OutOfRange(v[9], ul, ll) then Mean(v[..9]) else v[9] by {
      assert RemoveAt(v, 9) == v[..9];
    }
    forall j | 0 <= j < 9
      ensures LabelOf(st'.window.entries[j]) == LabelOf(w.entries[j])
    {
      assert Labels(st'.window.entries)[j] == Labels(w.entries)[j];
    }
  }

  /** The steady loop and the final drain. It makes at most one report per
      remaining point, emits the window's readings plus one per report, and
      fails only on an unknown sensor type or on trailing null points. */
  function Drain(st: PipelineState, rest: seq<DataPoint>, root: SquareRoot): (r: Result<CsvOutput, PipelineError>)
    requires st.window.Valid() && (rest == [] || Ready(st))
    ensures r.Success? ==> |r.value.reports| <= |rest|
    ensures r.Success? ==> |r.value.cleaned| == |st.window.entries| + |r.value.reports|
    ensures r.Failure? ==> r.error == TrailingNulls || r.error.Config?
    decreases |rest|
  {
    if rest == [] then Success(CsvOutput(st.window.entries, []))
    else
      var s :- Step(st, root);
      var next := DropNulls(rest);
      if next == [] then Failure(TrailingNulls)
      else
        var slid := SlideNext(s.0.window, Admit(next[0]));
        var out :- Drain(s.0.(window := slid.0), next[1..], root);
        Success(CsvOutput([slid.1] + out.cleaned, [s.1] + out.reports))
  }

  lemma AllKnownAppend(a: seq<Reading>, b: seq<Reading>)
    ensures AllKnown(a + b) <==> AllKnown(a) && AllKnown(b)
  {
    if AllKnown(a) && AllKnown(b) {
      forall i | 0 <= i < |a + b|
        ensures (a + b)[i].sensorType in KnownSensorTypes
      {
        if i >= |a| {
          assert (a + b)[i] == b[i - |a|];
        }
      }
    }
    if AllKnown(a + b) {
      forall i | 0 <= i < |a|
        ensures a[i].sensorType in KnownSensorTypes
      {
        assert (a + b)[i] == a[i];
      }
      forall i | 0 <= i < |b|
        ensures b[i].sensorType in KnownSensorTypes
      {
        assert (a + b)[|a| + i] == b[i];
      }
    }
  }

  /** The readings that have not been processed yet: once the next non-null
      point is found, it is the head of what remains. */
  lemma NextReading(rest: seq<DataPoint>)
    requires DropNulls(rest) != []
    ensures var next := DropNulls(rest);
      CleanAll(rest) == [Admit(next[0])] + CleanAll(next[1..])
  {
  }

  /** One steady iteration, seen from the labels: the reading emitted and
      the window slid forward together hold the labels of the window before
      followed by the incoming reading. */
  lemma SlideKeepsLabels(e: seq<Reading>, x: Reading, tail: seq<Reading>)
    requires |e| > 0
    ensures Labels([e[0]] + (e[1..] + [x] + tail)) == Labels(e + ([x] + tail))
  {
    assert [e[0]] + (e[1..] + [x] + tail) == e + ([x] + tail);
  }

  /** Every reading of the input reaches the output exactly once and in
      order: the labels of what the steady loop and the drain emit are those
      of the window followed by those of the remaining non-null points, and
      there is one report per point slid in. */
  lemma {:induction false} DrainKeepsLabels(st: PipelineState, rest: seq<DataPoint>, root: SquareRoot)
    requires st.window.Valid() && (rest == [] || Ready(st))
    ensures var r := Drain(st, rest, root);
      r.Success? ==>
        && Labels(r.value.cleaned) == Labels(st.window.entries + CleanAll(rest))
        && |r.value.reports| == |CleanAll(rest)|
    decreases |rest|
  {
    var r := Drain(st, rest, root);
    if rest != [] && r.Success? {
      var s := Step(st, root).value;
      var next := DropNulls(rest);
      var x := Admit(next[0]);
      var slid := SlideNext(s.0.window, x);
      var st2 := s.0.(window := slid.0);
      DrainKeepsLabels(st2, next[1..], root);
      var out := Drain(st2, next[1..], root).value;
      assert r.value == CsvOutput([slid.1] + out.cleaned, [s.1] + out.reports);
      NextReading(rest);
      var tail := CleanAll(next[1..]);
      var e := s.0.window.entries;
      assert slid.1 == e[0] && slid.0.entries == e[1..] + [x];
      calc {
        Labels(r.value.cleaned);
        Labels([e[0]] + out.cleaned);
        { LabelsAppend([e[0]], out.cleaned); }
        Labels([e[0]]) + Labels(out.cleaned);
        Labels([e[0]]) + Labels(e[1..] + [x] + tail);
        { LabelsAppend([e[0]], e[1..] + [x] + tail); }
        Labels([e[0]] + (e[1..] + [x] + tail));
        { SlideKeepsLabels(e, x, tail); }
        Labels(e + ([x] + tail));
        { LabelsAppend(e, [x] + tail); }
        Labels(e) + Labels([x] + tail);
        { LabelsAppend(st.window.entries, CleanAll(rest)); }
        Labels(st.window.entries + CleanAll(rest));
      }
    }
  }

  /** Sliding keeps every sensor type tabled: the window after the slide,
      followed by the points still to come, holds a subset of the readings. */
  lemma SlideKeepsKnown(e0: seq<Reading>, e: seq<Reading>, x: Reading, tail: seq<Reading>)
    requires |e| > 0 && Labels(e) == Labels(e0)
    requires AllKnown(e0 + ([x] + tail))
    ensures AllKnown(e[1..] + [x] + tail)
  {
    AllKnownAppend(e0, [x] + tail);
    AllKnownAppend([x], tail);
    forall j | 0 <= j < |e|
      ensures e[j].sensorType in KnownSensorTypes
    {
      assert Labels(e)[j] == Labels(e0)[j];
      assert e0[j].sensorType in KnownSensorTypes;
    }
    AllKnownAppend(e[1..], [x]);
    AllKnownAppend(e[1..] + [x], tail);
  }

  /** The state the steady loop continues from after one iteration: the
      stepped state, with the next non-null reading slid into its window. */
  function Advance(st: PipelineState, rest: seq<DataPoint>, root: SquareRoot): (st2: PipelineState)
    requires Ready(st) && Step(st, root).Success? && DropNulls(rest) != []
    ensures Ready(st2)
    ensures st2.window.entries == Step(st, root).value.0.window.entries[1..] + [Admit(DropNulls(rest)[0])]
  {
    var s := Step(st, root).value;
    s.0.(window := SlideNext(s.0.window, Admit(DropNulls(rest)[0])).0)
  }

  /** Sliding the next reading in touches only the window: the deviation
      windows, `last_changed`, `last_EMA`, the target and the first-window
      flag carry over from the step unchanged. */
  lemma AdvanceCarriesOver(st: PipelineState, rest: seq<DataPoint>, root: SquareRoot)
    requires Ready(st) && Step(st, root).Success? && DropNulls(rest) != []
    ensures var st2 := Advance(st, rest, root);
      st2 == Step(st, root).value.0.(window := st2.window)
  {
  }

  /** The readings still to be processed keep tabled sensor types from one
      iteration to the next. */
  lemma AdvanceKeepsKnown(st: PipelineState, rest: seq<DataPoint>, root: SquareRoot)
    requires Ready(st) && Step(st, root).Success? && DropNulls(rest) != []
    requires AllKnown(st.window.entries + CleanAll(rest))
    ensures AllKnown(Advance(st, rest, root).window.entries + CleanAll(DropNulls(rest)[1..]))
  {
    var next := DropNulls(rest);
    NextReading(rest);
    SlideKeepsKnown(st.window.entries, Step(st, root).value.0.window.entries, Admit(next[0]), CleanAll(next[1..]));
  }

  /** One iteration of the steady loop: it fails where Step fails or the
      remaining points are all null, and otherwise fails exactly when the
      rest of the loop does. */
  lemma DrainUnfolds(st: PipelineState, rest: seq<DataPoint>, root: SquareRoot)
    requires Ready(st) && rest != [] && Step(st, root).Success?
    ensures DropNulls(rest) == [] ==> Drain(st, rest, root) == Failure(TrailingNulls)
    ensures DropNulls(rest) != [] ==>
      var r := Drain(st, rest, root);
      var r2 := Drain(Advance(st, rest, root), DropNulls(rest)[1..], root);
      && (r.Failure? <==> r2.Failure?)
      && (r.Failure? ==> r.error == r2.error)
  {
  }

  /** What one successful iteration of the steady loop emits: the oldest
      reading of the window as the step cleaned it, ahead of whatever the
      rest of the loop writes, and the step's report ahead of the rest. */
  lemma DrainEmits(st: PipelineState, rest: seq<DataPoint>, root: SquareRoot)
    requires Ready(st) && Step(st, root).Success? && DropNulls(rest) != []
    requires Drain(Advance(st, rest, root), DropNulls(rest)[1..], root).Success?
    ensures var s := Step(st, root).value;
      var out := Drain(Advance(st, rest, root), DropNulls(rest)[1..], root).value;
      Drain(st, rest, root) == Success(CsvOutput([s.0.window.entries[0]] + out.cleaned, [s.1] + out.reports))
  {
  }

  /** The first reading the steady loop writes out is the oldest reading of
      the window it was started on, with the value `range_check` gives it on
      that pass: on the first pass every entry is checked, so an oldest value
      outside the sensor's limits is replaced by the mean of the other nine;
      on later passes only the newest is checked, so the oldest is written
      as it is. The first report is the first step's. */
  lemma DrainEmitsCheckedOldest(st: PipelineState, rest: seq<DataPoint>, root: SquareRoot)
    requires Ready(st) && DropNulls(rest) != []
    requires Drain(st, rest, root).Success?
    ensures Step(st, root).Success?
    ensures var out := Drain(st, rest, root).value;
      var w := st.window;
      && out.cleaned != [] && out.reports != []
      && out.cleaned[0] == w.entries[0].(value := CheckedValue(w, GetUL(w).value, GetLL(w).value, st.firstWindow, 0))
      && out.reports[0] == Step(st, root).value.1
  {
    assert rest != [];
    var w := st.window;
    var ul := GetUL(w).value;
    var ll := GetLL(w).value;
    DrainUnfolds(st, rest, root);
    DrainEmits(st, rest, root);
    StepComputes(st, root);
    var st' := Step(st, root).value.0;
    var cleaned := Preprocess(w, ul, ll, st.firstWindow, if st.firstWindow then Newest(w).value else st.lastEma);
    assert st'.window == cleaned.0;
    assert st'.window.entries[0].value == CheckedValue(w, ul, ll, st.firstWindow, 0);
    assert LabelOf(st'.window.entries[0]) == LabelOf(w.entries[0]) by {
      assert Labels(st'.window.entries)[0] == Labels(w.entries)[0];
    }
  }

  /** Dropping leading nulls either consumes an all-null input or keeps its
      last point; after the next reading is taken, what remains still ends in
      that point, or nothing remains and the reading taken was the last. */
  lemma DropNullsKeepsLast(rest: seq<DataPoint>)
    requires rest != []
    ensures var next := DropNulls(rest);
      && (next == [] ==> IsNull(rest[|rest| - 1]))
      && (next != [] && next[1..] == [] ==> !IsNull(rest[|rest| - 1]))
      && (next != [] && next[1..] != [] ==> next[1..][|next[1..]| - 1] == rest[|rest| - 1])
  {
    var next := DropNulls(rest);
    if next != [] {
      assert next[|next| - 1] == rest[|rest| - 1];
    }
  }

  /** When every reading has a tabled sensor type, the steady loop fails
      exactly when the input ends in a null point, and then with
      TrailingNulls. */
  lemma {:induction false} DrainFailsOnTrailingNulls(st: PipelineState, rest: seq<DataPoint>, root: SquareRoot)
    requires st.window.Valid() && (rest == [] || Ready(st))
    requires AllKnown(st.window.entries + CleanAll(rest))
    ensures var r := Drain(st, rest, root);
      && (r.Failure? <==> rest != [] && IsNull(rest[|rest| - 1]))
      && (r.Failure? ==> r.error == TrailingNulls)
    decreases |rest|
  {
    if rest != [] {
      assert (st.window.entries + CleanAll(rest))[0] == st.window.entries[0];
      assert Step(st, root).Success?;
      DrainUnfolds(st, rest, root);
      DropNullsKeepsLast(rest);
      var next := DropNulls(rest);
      if next != [] {
        AdvanceKeepsKnown(st, rest, root);
        DrainFailsOnTrailingNulls(Advance(st, rest, root), next[1..], root);
      }
    }
  }

  /** `run_csv` on the points the CSV file holds. */
  function RunCsv(input: seq<DataPoint>, lastChanged: LastChanged, lastEma: real, root: SquareRoot): (r: Result<CsvOutput, PipelineError>)
    ensures input == [] ==> r == Failure(EmptyInput)
  {
    if input == [] then Failure(EmptyInput)
    else
      var filled := Fill(NewWindow(WindowSize), input);
      Drain(InitialState(filled.0, lastChanged, lastEma, input[0].value), input[filled.1..], root)
  }

  /** The fill of `run_csv` summarised: n points are consumed, the window
      holds the readings of exactly those, the readings of the whole input are
      the window's followed by those of the rest, the rest is empty unless
      the window is full, and a full window was completed by the last
      consumed point. */
  lemma FilledInput(input: seq<DataPoint>)
    requires input != []
    ensures var f := Fill(NewWindow(WindowSize), input);
      && f.1 <= |input|
      && f.0.entries == CleanAll(input[..f.1])
      && CleanAll(input) == f.0.entries + CleanAll(input[f.1..])
      && (f.1 < |input| ==> |f.0.entries| == WindowSize)
      && (|f.0.entries| == WindowSize ==> 0 < f.1 && !IsNull(input[f.1 - 1]))
  {
    var w0 := NewWindow(WindowSize);
    var f := Fill(w0, input);
    var n := f.1;
    assert w0.entries + CleanAll(input[..n]) == CleanAll(input[..n]);
    assert CleanAll(input) == f.0.entries + CleanAll(input[n..]) by {
      assert input == input[..n] + input[n..];
      CleanAllAppend(input[..n], input[n..]);
    }
  }

  /** `run_csv` on a non-empty input is the steady loop started on the filled
      window with the remaining points. */
  lemma RunCsvUnfolds(input: seq<DataPoint>, lastChanged: LastChanged, lastEma: real, root: SquareRoot)
    requires input != []
    ensures var f := Fill(NewWindow(WindowSize), input);
      RunCsv(input, lastChanged, lastEma, root) == Drain(InitialState(f.0, lastChanged, lastEma, input[0].value), input[f.1..], root)
  {
  }

  /** Null points never reach the output and every other point does, once,
      in input order, with its timestamp, sensor type and unit; one report
      is made per reading that slides into a full window. */
  lemma RunCsvKeepsLabels(input: seq<DataPoint>, lastChanged: LastChanged, lastEma: real, root: SquareRoot)
    ensures var r := RunCsv(input, lastChanged, lastEma, root);
      r.Success? ==>
        && Labels(r.value.cleaned) == Labels(CleanAll(input))
        && |r.value.reports| == if |CleanAll(input)| < WindowSize then 0 else |CleanAll(input)| - WindowSize
  {
    if input != [] {
      var f := Fill(NewWindow(WindowSize), input);
      FilledInput(input);
      RunCsvUnfolds(input, lastChanged, lastEma, root);
      DrainKeepsLabels(InitialState(f.0, lastChanged, lastEma, input[0].value), input[f.1..], root);
    }
  }

  /** Fewer than 10 non-null points never fill the window: no step runs and
      the output is exactly those readings, unmodified. */
  lemma ShortInputPassesThrough(input: seq<DataPoint>, lastChanged: LastChanged, lastEma: real, root: SquareRoot)
    requires input != [] && |CleanAll(input)| < WindowSize
    ensures RunCsv(input, lastChanged, lastEma, root) == Success(CsvOutput(CleanAll(input), []))
  {
    var f := Fill(NewWindow(WindowSize), input);
    FilledInput(input);
    RunCsvUnfolds(input, lastChanged, lastEma, root);
    var st := InitialState(f.0, lastChanged, lastEma, input[0].value);
    assert f.1 == |input|;
    var rest := input[f.1..];
    assert rest == [];
    assert CleanAll(rest) == [];
    assert f.0.entries == CleanAll(input);
    assert Drain(st, rest, root) == Success(CsvOutput(f.0.entries, []));
  }

  /** With more than 10 non-null points, the first reading `run_csv` writes
      out is the first non-null point of the input with the value the first
      pass's `range_check` over all ten gives it: the mean of the next nine
      readings when it lies outside the sensor's limits, else its own. A run
      that gets this far has a tabled sensor type. */
  lemma RunCsvEmitsCheckedFirst(input: seq<DataPoint>, lastChanged: LastChanged, lastEma: real, root: SquareRoot)
    requires WindowSize < |CleanAll(input)|
    requires RunCsv(input, lastChanged, lastEma, root).Success?
    ensures var out := RunCsv(input, lastChanged, lastEma, root).value;
      var w := Window(WindowSize, CleanAll(input)[..WindowSize]);
      && out.cleaned != []
      && SensorType(w) in KnownSensorTypes
      && out.cleaned[0] == CleanAll(input)[0].(value := CheckedValue(w, GetUL(w).value, GetLL(w).value, true, 0))
  {
    assert input != [];
    var f := Fill(NewWindow(WindowSize), input);
    FilledInput(input);
    RunCsvUnfolds(input, lastChanged, lastEma, root);
    var rest := input[f.1..];
    assert |f.0.entries| == WindowSize;
    assert f.0 == Window(WindowSize, CleanAll(input)[..WindowSize]);
    assert DropNulls(rest) != [] by {
      assert CleanAll(rest) != [];
    }
    var st := InitialState(f.0, lastChanged, lastEma, input[0].value);
    DrainEmitsCheckedOldest(st, rest, root);
  }

  /** What the fill leaves for the steady loop ends in a null point exactly
      when the input does and holds at least 10 readings. */
  lemma RestEndsInNull(input: seq<DataPoint>)
    requires input != []
    ensures var f := Fill(NewWindow(WindowSize), input);
      var rest := input[f.1..];
      (rest != [] && IsNull(rest[|rest| - 1])) <==> (WindowSize <= |CleanAll(input)| && IsNull(input[|input| - 1]))
  {
    var f := Fill(NewWindow(WindowSize), input);
    var n := f.1;
    FilledInput(input);
    if n < |input| {
      assert |f.0.entries| == WindowSize;
      assert input[n..][|input[n..]| - 1] == input[|input| - 1];
    } else {
      assert input[n..] == [];
      assert CleanAll(input[n..]) == [];
      assert CleanAll(input) == f.0.entries;
      if |f.0.entries| == WindowSize {
        assert !IsNull(input[|input| - 1]);
      }
    }
  }

  /** With every sensor type tabled, `run_csv` fails exactly on an empty
      input, or on an input that fills the window and ends in a null point. */
  lemma RunCsvFailsExactly(input: seq<DataPoint>, lastChanged: LastChanged, lastEma: real, root: SquareRoot)
    requires AllKnown(CleanAll(input))
    ensures var r := RunCsv(input, lastChanged, lastEma, root);
      && (r.Failure? <==> input == [] || (WindowSize <= |CleanAll(input)| && IsNull(input[|input| - 1])))
      && (r.Failure? ==> r.error == EmptyInput || r.error == TrailingNulls)
  {
    if input != [] {
      var f := Fill(NewWindow(WindowSize), input);
      FilledInput(input);
      RunCsvUnfolds(input, lastChanged, lastEma, root);
      RestEndsInNull(input);
      var st := InitialState(f.0, lastChanged, lastEma, input[0].value);
      DrainFailsOnTrailingNulls(st, input[f.1..], root);
    }
  }

  /** For an input without null points and with tabled sensor types, the
      output has one reading per input point, with the same timestamps,
      sensor types and units in the same order; only values may differ. */
  lemma NoNullsKeepsShape(input: seq<DataPoint>, lastChanged: LastChanged, lastEma: real, root: SquareRoot)
    requires input != [] && NoNulls(input)
    requires forall i :: 0 <= i < |input| ==> input[i].sensorType in KnownSensorTypes
    ensures var r := RunCsv(input, lastChanged, lastEma, root);
      && r.Success?
      && |r.value.cleaned| == |input|
      && forall i :: 0 <= i < |input| ==>
           && r.value.cleaned[i].time == input[i].time.value.seconds
           && r.value.cleaned[i].sensorType == input[i].sensorType
           && r.value.cleaned[i].unit == input[i].unit
  {
    var c := CleanAll(input);
    CleanAllOfNoNulls(input);
    assert AllKnown(c);
    RunCsvFailsExactly(input, lastChanged, lastEma, root);
    RunCsvKeepsLabels(input, lastChanged, lastEma, root);
    var out := RunCsv(input, lastChanged, lastEma, root).value.cleaned;
    forall i | 0 <= i < |input|
      ensures out[i].time == input[i].time.value.seconds
      ensures out[i].sensorType == input[i].sensorType && out[i].unit == input[i].unit
    {
      assert Labels(out)[i] == Labels(c)[i];
    }
  }

  /** Before the first step the steady loop does not read `last_changed` or
      `last_EMA`. */
  lemma DrainIgnoresSeeds(st: PipelineState, rest: seq<DataPoint>, lastChanged: LastChanged, lastEma: real, root: SquareRoot)
    requires st.window.Valid() && (rest == [] || Ready(st)) && st.firstWindow
    ensures Drain(st.(lastChanged := lastChanged, lastEma := lastEma), rest, root) == Drain(st, rest, root)
  {
    var st2 := st.(lastChanged := lastChanged, lastEma := lastEma);
    if rest != [] {
      assert Step(st2, root) == Step(st, root) by {
        FirstStepSeeds(st, lastChanged, lastEma, root);
      }
      var s := Step(st, root);
      if s.Success? {
        var next := DropNulls(rest);
        if next != [] {
          var slid := SlideNext(s.value.0.window, Admit(next[0]));
          var d := Drain(s.value.0.(window := slid.0), next[1..], root);
          assert Drain(st, rest, root) == if d.Failure? then Failure(d.error) else Success(CsvOutput([slid.1] + d.value.cleaned, [s.value.1] + d.value.reports));
        }
      }
    }
  }

  /** The `last_changed` and `last_EMA` the caller passes in are overwritten
      before they are read, so they do not affect the result. */
  lemma RunCsvIgnoresInitialSeeds(input: seq<DataPoint>, lc1: LastChanged, ema1: real, lc2: LastChanged, ema2: real, root: SquareRoot)
    ensures RunCsv(input, lc1, ema1, root) == RunCsv(input, lc2, ema2, root)
  {
    if input != [] {
      var f := Fill(NewWindow(WindowSize), input);
      RunCsvUnfolds(input, lc1, ema1, root);
      RunCsvUnfolds(input, lc2, ema2, root);
      var st1 := InitialState(f.0, lc1, ema1, input[0].value);
      assert st1.(lastChanged := lc2, lastEma := ema2) == InitialState(f.0, lc2, ema2, input[0].value);
      DrainIgnoresSeeds(st1, input[f.1..], lc2, ema2, root);
    }
  }
}
