# Windowed cleaning and fault detection for aquaponics sensor streams

This project models the core of an aquaponics monitoring system. Sensor readings arrive one at a time. They are buffered in a sliding window of ten readings, cleaned, and checked for two faults:

- a value stuck for too long (the constant-value detector);
- a gradual drift away from an adaptively smoothed target (an adaptive CUSUM chart).

The model is written in Dafny and proves properties of the cleaning and detection logic. It has eight modules, one per concern:

| module | file | models |
|---|---|---|
| `Wrappers` | wrappers.dfy | `Option` and `Result`, for Python's `None`/NaN and for the places where the code raises |
| `Stats` | stats.dfy | `sum`, `min`, `max`, `statistics.mean`, `statistics.median` of three values, and `numpy.std`, over exact reals |
| `DataPoints` | data_point.dfy | the `DataPoint` record: a raw point (value and timestamp possibly missing), and the admitted `Reading` |
| `SlidingWindow` | sliding_window.dfy | the `SlidingWindow` class over a deque bounded at 40 entries |
| `Preprocessor` | preprocessor.dfy | `is_null`, `do_EMA`, `med_filter`, `range_check` |
| `ErrDetections` | err_detections.dfy | `is_const_err`, `time_difference`, `CUSUM`, `get_slack`, `get_control_lim`, `get_AES_target`, `get_alpha` |
| `SensorConfig` | sensor_config.dfy | the per-sensor tables `get_UL`, `get_LL`, `get_max_time` of src/main.py |
| `Pipeline` | pipeline.dfy | the bulk driver `run_csv` of src/main.py, as a state machine over a sequence of points |

## Modelling choices

- **Values, not objects.** Windows and readings are immutable values. Every operation that mutates in the source returns the new window instead. `change_val` returns the window with one value replaced, and the mutable `last_changed` list becomes a `LastChanged` value that `is_const_err` returns.
- **Missing data.** A raw `DataPoint` holds `Option` fields: `None` stands for a missing or NaN value or timestamp. A timestamp is either the sentinel text "0" or a date-time, kept as its number of seconds, so `time_difference` is a subtraction.
- **Square root.** `numpy.std` needs a square root, which exact reals do not have. The model takes it as a parameter `root` with non-negative results. Lemmas that need `std` of a constant window to be 0 also require `root(0) = 0`.
- **NaN target.** `run_csv` seeds the CUSUM target with the first point's value, which may be NaN. The target is an `Option<real>`, and a NaN target stays NaN. Python's `max(0, nan)` is 0, so both deviations are then 0, and that is what the model computes.
- **Errors, not exceptions.** Where the source raises, the model returns a `Failure`:
  - an empty input (`data_points[0]` at main.py:163);
  - an unknown sensor type (`get_UL` and `get_LL` return an unassigned local);
  - input that ends in null points once the window is full (the `pop(0)` at main.py:207 on an empty list).

  `statistics.mean` of an empty list raises too; that case is a precondition of `range_check` (`RangeCheckDefined`), because its callers never reach it.
- **The CUSUM call site.** main.py:196 passes the window's value list to `CUSUM`. `CUSUM` calls `get_win_vals` on that argument, so the call as written raises on the first steady step. The line also rebinds `target` to the control limit that `CUSUM` returns. The model passes the window and threads the target `get_AES_target` computes from the current one, the reading the detector's own signature implies.
- **Stage order.** The two drivers in src/main.py clean in different orders. `run_sensors` runs the EMA before the median filter (main.py:126-129). `run_csv` runs the range check, then the median filter, then the EMA (main.py:185-193). The model follows `run_csv`.

## Model

| member | source | states |
|---|---|---|
| Stats.SumLeftFold | src/err_detections.py:101-102 | `sum` accumulates from the left: a non-empty list sums to the sum of all but its last element plus that element |
| Stats.SumAppend | src/err_detections.py:101-102 | the sum of a concatenation is the sum of the parts |
| Stats.SumNonNegative | src/err_detections.py:101-108 | a sum of non-negative deviations is non-negative, and positive exactly when one term is |
| Stats.RemoveAt | src/preprocessor.py:92 | `s[:i] + s[i+1:]` is one shorter and keeps every other element in order |
| Stats.SumRemoveAt | src/preprocessor.py:92-93 | dropping element i lowers the sum by exactly that element |
| Stats.Mean | src/preprocessor.py:93 | `statistics.mean` of a non-empty list, times the list's length, is its sum |
| Stats.MeanOfOthers | src/preprocessor.py:92-93 | the mean of the other values, times their count, is the total minus the dropped value |
| Stats.Min | src/err_detections.py:189 | `min` is an element of the list and below every element |
| Stats.Max | src/err_detections.py:190 | `max` is an element of the list and above every element |
| Stats.SumSquaredDeviations | src/err_detections.py:188 | the sum of squared deviations is non-negative and 0 for a constant list |
| Stats.PopVariance | src/err_detections.py:188 | the population variance is non-negative |
| Stats.SumOfConstant | src/err_detections.py:188 | a list of n copies of c sums to n * c |
| Stats.MeanOfConstant | src/err_detections.py:188 | a constant list has that constant as its mean |
| Stats.FlatHasZeroStd | src/err_detections.py:188-198 | a list whose max equals its min is constant, with zero variance and zero std |
| Stats.FlatStd | src/err_detections.py:188-198 | the same fact, stated for any list |
| Stats.Blend | src/preprocessor.py:45 | the update `alpha * x + (1 - alpha) * last` moves a fraction alpha from last towards x, lies between the two for alpha in [0, 1], and stays at last for alpha 0 |
| Stats.Median3 | src/preprocessor.py:70-71 | the median of three is one of them, with at least two values on each side of it |
| Stats.Median3Symmetric | src/preprocessor.py:70 | the median does not depend on the order of its arguments |
| DataPoints.Labels | src/data_point.py:22-25 | the label list has one entry per reading: its timestamp, sensor type and unit |
| DataPoints.LabelsAppend | src/main.py:208-210 | labels of a concatenation are the labels of the parts |
| DataPoints.Values | src/sliding_window.py:67-80 | `get_win_vals` has one value per reading, in window order |
| DataPoints.Times | src/sliding_window.py:83-96 | `get_win_times` has one timestamp per reading, in window order |
| DataPoints.OnlyValueAtKeepsLabels | src/sliding_window.py:110-122 | changing one value keeps every label and changes exactly that entry of the value list |
| SlidingWindow.NewWindow | src/sliding_window.py:13-22 | a new window is empty, within the bound, and full only for size 0 |
| SlidingWindow.Append | src/sliding_window.py:21-22 | a bounded append keeps the newest entries in order, adds x as the newest, and drops one entry only at 40 |
| SlidingWindow.AddReading | src/sliding_window.py:24-34 | `add_reading` keeps the size and bound, and below the bound is a plain append |
| SlidingWindow.SlideNext | src/sliding_window.py:37-48 | `slide_next` returns the oldest entry and appends x below the bound; an empty window returns x itself; at 40 it returns the second oldest and shrinks to 39 |
| SlidingWindow.Push | src/err_detections.py:92-97 | add while not full, slide once full: the length grows to the size and then stays, and the oldest entry goes once full |
| SlidingWindow.PyIndex | src/sliding_window.py:122 | Python's negative index -k is position n - k |
| SlidingWindow.RemoveIdx | src/sliding_window.py:51-64 | `remove_idx` returns the entry at the index and the window without it, one shorter |
| SlidingWindow.ChangeVal | src/sliding_window.py:110-122 | `change_val` replaces one value and keeps every label and every other entry |
| SlidingWindow.SensorTypeUnderAddAndSlide | src/sliding_window.py:99-107 | the window's sensor type is that of the oldest reading: an add keeps it, a slide hands it on to the next oldest |
| SlidingWindow.PushesReachSize | src/sliding_window.py:134-141 | under add-then-slide a window grows one entry per push up to its size and then stays at its size |
| Preprocessor.IsNull | src/preprocessor.py:11-37 | a point passes the null test exactly when it is what some reading, with a value and a date-time, writes out |
| Preprocessor.NullTestAcceptsExactlyReadings | src/preprocessor.py:11-37 | the null test accepts exactly the points that carry a value and a real timestamp: admitting and writing back is the identity both ways |
| Preprocessor.DoEma | src/preprocessor.py:40-52 | `do_EMA` overwrites only the newest value, with a result alpha of the way from last_EMA to it, between the two for alpha in [0, 1] |
| Preprocessor.MedFilter | src/preprocessor.py:55-71 | `med_filter(window, 3)` sets entry 1 to the median of the first three and changes nothing else |
| Preprocessor.MedFilterIdempotent | src/preprocessor.py:55-71 | filtering twice is filtering once |
| Preprocessor.RangeFrom | src/preprocessor.py:89-93 | the loop from index i replaces each out-of-range value at i or beyond by the mean of the snapshot's other values and keeps the rest |
| Preprocessor.RangeCheck | src/preprocessor.py:75-97 | `range_check` replaces each examined value outside [LL, UL] by the mean of the other values before the check, keeps all others, and keeps every label |
| Preprocessor.ExampleMean | src/preprocessor.py:102 | the other values of [10, 9, 10, 100, 13, 14, 10] average to 11 |
| Preprocessor.RangeCheckExample | src/preprocessor.py:100-103 | the module's example: with limits 75 and -12 only 100 is replaced, by 11 |
| ErrDetections.TimeDifference | src/err_detections.py:39-58 | the elapsed time added to the first timestamp gives the second |
| ErrDetections.IsConstErr | src/err_detections.py:6-36 | a fault iff the newest value equals the held one and more than max_time has passed; a change is recorded with its time, no change keeps the held pair |
| ErrDetections.ConstErrQuietAfterChange | src/err_detections.py:25-36 | after a change the detector is quiet, and the recorded pair is a fixed point |
| ErrDetections.ConstErrSameInstantNeverFires | src/err_detections.py:25-29 | zero elapsed time never raises the fault |
| ErrDetections.ConstErrPersists | src/err_detections.py:25-29 | once raised, the fault stays for every later window with the same newest value |
| ErrDetections.HalfRange | src/err_detections.py:189-194 | `std_max` is non-negative and zero exactly for a constant window |
| ErrDetections.GetAlpha | src/err_detections.py:166-204 | alpha lies in [0, 1], is 0 without spread, is std over half the range below 1, and at 1 means half the range is at most std |
| ErrDetections.ClippedRatioOf | src/err_detections.py:197-202 | a ratio clipped to [0, 1] stays in [0, 1], is the ratio itself below 1, and at 1 the numerator is at least the denominator |
| ErrDetections.GetAesTarget | src/err_detections.py:143-164 | the AES target is the blend of the newest value into the last target with `get_alpha`'s alpha, so it moves that fraction of the way; it lies between the two, stays put without spread, and stays NaN once NaN |
| ErrDetections.GetSlack | src/err_detections.py:115-127 | the slack is half the population standard deviation, non-negative, and 0 for a constant window |
| ErrDetections.GetControlLim | src/err_detections.py:129-141 | the control limit is five population standard deviations, so ten times the slack; non-negative, and 0 for a constant window |
| ErrDetections.Deviations | src/err_detections.py:78-89 | both clipped deviations are non-negative, at most one is positive, and each is positive exactly when the deviation passes the slack on its side |
| ErrDetections.Cusum | src/err_detections.py:61-111 | `CUSUM` pushes both deviations together and is in control iff neither window's sum exceeds the limit; it keeps the windows in step and non-negative |
| ErrDetections.PushBoth | src/err_detections.py:92-97 | the positive window alone decides add or slide, both windows get the same operation, and they stay in step |
| ErrDetections.AppendKeepsNonNegative | src/err_detections.py:88-97 | appending a non-negative deviation keeps a window non-negative, also after the slide's pop |
| ErrDetections.CusumFlatWindow | src/err_detections.py:101-111 | for a constant window the limit is 0 and the process is in control iff every held deviation is 0 |
| ErrDetections.CusumFlatWindowOffTargetIsDrift | src/err_detections.py:73-111 | for a constant window whose newest value differs from the target, drift is reported at once |
| SensorConfig.GetUL | src/main.py:216-248 | the upper limit exists exactly for the eight tabled sensor names and is the table's value; otherwise an error naming the type |
| SensorConfig.GetLL | src/main.py:251-283 | the lower limit exists exactly for the tabled names and is the table's value; otherwise an error naming the type |
| SensorConfig.GetMaxTime | src/main.py:286-320 | every sensor type, tabled or not, gets 30 minutes |
| SensorConfig.LimitsAreOrdered | src/main.py:216-283 | for every tabled type the lower limit is below the upper one; both temperature names give 45 and -10 |
| Pipeline.CleanAll | src/main.py:165-169 | dropping the null points never yields more readings than there were points |
| Pipeline.CleanAllEmitsInputs | src/main.py:165-169 | every reading the pipeline admits is, written back, one of the input points |
| Pipeline.CleanAllOfNoNulls | src/main.py:165-169 | without null points every point is admitted, in place |
| Pipeline.CleanAllAppend | src/main.py:204-208 | admitting the points of a concatenation admits those of each part, in order |
| Pipeline.DropNulls | src/main.py:204-205 | the inner loop drops exactly the leading null points: the result is a suffix that starts with a non-null point, and the same readings remain |
| Pipeline.FillCount | src/main.py:165-169 | the fill loop consumes at most the points there are |
| Pipeline.FillCountStops | src/main.py:165-169 | the fill loop stops on a full window or an exhausted input, never overfills, and a window it fills was completed by a non-null last point |
| Pipeline.Fill | src/main.py:165-170 | the filled window holds the earlier readings followed by those of the consumed points, at most 10, and is full unless the input ran out |
| Pipeline.FilledInput | src/main.py:160-170 | after the fill, the input's readings are the window's followed by those of the rest, and a non-empty rest means a full window |
| Pipeline.InitialState | src/main.py:159-170 | the state after the fill has the filled window, empty deviation windows of size 10, the caller's `last_changed` and `last_EMA`, the first point's value as target, and the first-window flag set |
| Pipeline.Preprocess | src/main.py:182-193 | range check, median filter, EMA in that order: entry 1 becomes the median, the newest the new EMA, the others keep their range-checked values, labels stay |
| Pipeline.Step | src/main.py:172-201 | one steady pass succeeds iff the sensor type is tabled, keeps the loop invariant and the labels, and reports in control iff both CUSUM sums are within the limit |
| Pipeline.StepComputes | src/main.py:172-201 | one pass: the constant check on the incoming window with the seeded or carried `last_changed`, the window cleaned by range check, median and EMA from the seeded or carried `last_EMA`, both deviation windows pushed by `CUSUM` on the cleaned values, and the next target the AES target of those values |
| Pipeline.FirstStepSeeds | src/main.py:173-193 | the first pass seeds last_changed from the newest reading, so no constant fault then; it range-checks every entry, and the EMA starts from the newest raw value; the caller's last_changed and last_EMA do not matter |
| Pipeline.Drain | src/main.py:172-211 | the steady loop and drain make at most one report per remaining point, emit the window's readings plus one per report, and fail only on an unknown sensor type or trailing null points |
| Pipeline.LaterStepTouchesTwoEntries | src/main.py:183-193 | a later pass checks only the newest value, so only entries 1 and 9 change: the median and the EMA of the range-checked newest value |
| Pipeline.Advance | src/main.py:204-208 | the next iteration's window is the current one without its oldest entry plus the next non-null point |
| Pipeline.AdvanceCarriesOver | src/main.py:172-208 | between iterations only the window changes: the deviation windows, `last_changed`, `last_EMA`, the target and the cleared first-window flag are the step's |
| Pipeline.DrainUnfolds | src/main.py:172-208 | one iteration fails where the step fails or only null points remain, and otherwise fails exactly when, and as, the rest of the loop does |
| Pipeline.DrainEmits | src/main.py:172-211 | a successful iteration writes out the oldest reading of the window as the step cleaned it, ahead of what the rest of the loop writes, and its report ahead of the rest's |
| Pipeline.DrainEmitsCheckedOldest | src/main.py:182-208 | the first reading the loop writes out is the oldest of its starting window with the value `range_check` gives it: on the first pass the mean of the other nine when out of the sensor's limits, on later passes unchanged; the first report is the first step's |
| Pipeline.DropNullsKeepsLast | src/main.py:204-207 | skipping nulls either empties an all-null input or keeps its last point |
| Pipeline.DrainKeepsLabels | src/main.py:172-211 | the steady loop emits every reading once, in order, with labels intact, and makes one report per slide |
| Pipeline.DrainFailsOnTrailingNulls | src/main.py:204-207 | with tabled types the steady loop fails exactly when the remaining input ends in a null point |
| Pipeline.RunCsv | src/main.py:148-163 | an empty input is an error; what a non-empty input yields is stated by the rows below |
| Pipeline.RunCsvEmitsCheckedFirst | src/main.py:160-208 | with more than ten readings, a successful run has a tabled sensor type and writes out the first reading first, with the value the first pass's all-entries range check gives it |
| Pipeline.RunCsvKeepsLabels | src/main.py:148-211 | `run_csv` outputs every non-null point once, in order, with its timestamp, type and unit, and makes one report per reading beyond the first ten |
| Pipeline.ShortInputPassesThrough | src/main.py:165-172 | with fewer than ten readings nothing is cleaned: the output is the readings themselves |
| Pipeline.RestEndsInNull | src/main.py:165-207 | the rest left by the fill ends in a null point iff the input does and has at least ten readings |
| Pipeline.RunCsvFailsExactly | src/main.py:163-207 | with tabled types `run_csv` fails exactly on an empty input or a filled window followed by a null last point |
| Pipeline.NoNullsKeepsShape | src/main.py:148-211 | without null points and with tabled types the output has one reading per input point, with the same labels in the same order |
| Pipeline.DrainIgnoresSeeds | src/main.py:173-176 | before the first pass the loop does not read last_changed or last_EMA |
| Pipeline.RunCsvIgnoresInitialSeeds | src/main.py:148-176 | the last_changed and last_EMA arguments of `run_csv` do not affect its result |

## Left out

- `run_sensors`, the MQTT client and the telegram bot (src/main.py, src/mqtt_client.py, src/telebot.py): network I/O around the same pipeline.
- `csv_to_datapoints` and every `write_csv`: file I/O. `run_csv` takes the parsed points as a sequence. The target log written at err_detections.py:105 and main.py:200-201 is not modelled.
- The printed messages "CONSTANT ERROR DETECTED" and "Drift detected ...": they become one `StepReport` per step, with the constant fault, the in-control flag and the control limit.
- src/prediction.py and src/format_time.py: outside the cleaning and detection core.
- `datetime.strptime`: timestamps are modelled as seconds, already parsed.
- `is_full`, `as_list` and `get_sensor_type` (src/sliding_window.py:99-141): plain accessors with no contract of their own. `is_full` is the predicate `SlidingWindow.Window.IsFull`, `|entries| >= size` as at src/sliding_window.py:141, used in the contracts of `NewWindow`, `Push` and `Fill`. `as_list` is the field `entries` itself. `get_sensor_type` is `SlidingWindow.SensorType`, the sensor type of the oldest reading, described by the `SensorTypeUnderAddAndSlide` row. `get_win_vals` and `get_win_times` are `DataPoints.Values` and `DataPoints.Times` over the entries, with the contracts in their rows.
- Aliasing: the source mutates shared `DataPoint` objects in place and mutates the caller's `last_changed` list. The model is value-based, so neither effect is visible to a caller.
- Stats.Std: the square root is a parameter, so `numpy.std` is proved non-negative and zero on constant windows, but not equal to any numeric value.
- Preprocessor.MedFilter: modelled only for a sub-window of 3, the one size `run_csv` uses.
- SlidingWindow.PushesReachSize: stated for logical sizes 1 to 39. At 40 the deque's own bound takes over.
- ErrDetections.Cusum: the deviation windows are described by `Push` only for sizes below 40. The pipeline's are 10.
- Pipeline.Step: the main.py:196 call site is modelled as described under "The CUSUM call site", not as written.
