/** Sensor readings, after the `DataPoint` class of src/data_point.py.

    A raw `DataPoint` is what ingestion hands the pipeline: its value may be
    missing or NaN and its timestamp may be missing, NaN or the literal text
    "0". A `Reading` is a data point that passed the null test: it has a real
    value and a timestamp. Timestamps are kept as the number of seconds their
    "%Y-%m-%d %H:%M:%S" text denotes, so the elapsed time between two of them
    is a subtraction. Readings are values: preprocessing returns a new reading
    with another value instead of mutating a shared object.
 */
module DataPoints {
  import opened Wrappers

  /** A timestamp that is present: either the "0" sentinel text or a
      well-formed date-time, given by its seconds. */
  datatype Stamp = ZeroText | At(seconds: int)

  /** A raw reading; None stands for a missing or NaN field. */
  datatype DataPoint = DataPoint(value: Option<real>, time: Option<Stamp>, sensorType: string, unit: string)

  /** A reading admitted into a window. */
  datatype Reading = Reading(value: real, time: int, sensorType: string, unit: string)

  /** The part of a reading preprocessing never changes: timestamp, sensor
      type and unit. */
  type Label = (int, string, string)

  function LabelOf(r: Reading): Label
  {
    (r.time, r.sensorType, r.unit)
  }

  /** The labels of a sequence of readings, in order. */
  function Labels(rs: seq<Reading>): (ls: seq<Label>)
    ensures |ls| == |rs|
    ensures forall i :: 0 <= i < |rs| ==> ls[i] == LabelOf(rs[i])
    decreases |rs|
  {
    if rs == [] then [] else [LabelOf(rs[0])] + Labels(rs[1..])
  }

  lemma LabelsAppend(a: seq<Reading>, b: seq<Reading>)
    ensures Labels(a + b) == Labels(a) + Labels(b)
  {
    assert forall i :: 0 <= i < |a + b| ==> Labels(a + b)[i] == (Labels(a) + Labels(b))[i];
  }

  /** The values of a sequence of readings, in order (`get_win_vals`). */
  function Values(rs: seq<Reading>): (vs: seq<real>)
    ensures |vs| == |rs|
    ensures forall i :: 0 <= i < |rs| ==> vs[i] == rs[i].value
    decreases |rs|
  {
    if rs == [] then [] else [rs[0].value] + Values(rs[1..])
  }

  /** The timestamps of a sequence of readings, in order (`get_win_times`). */
  function Times(rs: seq<Reading>): (ts: seq<int>)
    ensures |ts| == |rs|
    ensures forall i :: 0 <= i < |rs| ==> ts[i] == rs[i].time
    decreases |rs|
  {
    if rs == [] then [] else [rs[0].time] + Times(rs[1..])
  }

  /** Two sequences of readings that agree everywhere but, possibly, in the
      value at index k, which is v in the second. */
  predicate OnlyValueAt(a: seq<Reading>, b: seq<Reading>, k: nat, v: real)
  {
    && |a| == |b|
    && k < |a|
    && b[k] == a[k].(value := v)
    && forall j :: 0 <= j < |a| && j != k ==> b[j] == a[j]
  }

  /** Changing one value keeps every label. */
  lemma OnlyValueAtKeepsLabels(a: seq<Reading>, b: seq<Reading>, k: nat, v: real)
    requires OnlyValueAt(a, b, k, v)
    ensures Labels(b) == Labels(a)
    ensures Values(b) == Values(a)[k := v]
  {
    assert forall j :: 0 <= j < |a| ==> Labels(b)[j] == Labels(a)[j];
    assert forall j :: 0 <= j < |a| ==> Values(b)[j] == Values(a)[k := v][j];
  }
}
