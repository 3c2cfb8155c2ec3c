/** The `SlidingWindow` class of src/sliding_window.py: a FIFO buffer with a
    logical `size` over a deque whose hard bound is 40 entries.

    The deque is created with `maxlen=40`, so an append to a deque that
    already holds 40 entries silently drops the oldest one; nothing ever
    fails on capacity. The window is generic: the main window holds
    readings, the two CUSUM windows hold reals. Index 0 is the oldest entry,
    the last index the newest.
 */
module SlidingWindow {
  import opened DataPoints

  /** The deque's `maxlen`. */
  const MaxLen: nat := 40

  datatype Window<T> = Window(size: nat, entries: seq<T>) {

    /** The deque never holds more than MaxLen entries. */
    predicate Valid()
    {
      |entries| <= MaxLen
    }

    /** `is_full`: the logical size has been reached. */
    predicate IsFull()
    {
      |entries| >= size
    }
  }

  function NewWindow<T>(size: nat): (w: Window<T>)
    ensures w.Valid() && |w.entries| == 0 && (w.IsFull() <==> size == 0)
  {
    Window(size, [])
  }

  /** `deque.append` under `maxlen`: the newest |r| - 1 entries of s are kept
      in order and x becomes the newest entry. */
  function Append<T>(s: seq<T>, x: T): (r: seq<T>)
    requires |s| <= MaxLen
    ensures |r| == if |s| < MaxLen then |s| + 1 else MaxLen
    ensures r[|r| - 1] == x
    ensures r[..|r| - 1] == s[|s| - (|r| - 1)..]
  {
    if |s| < MaxLen then s + [x] else s[1..] + [x]
  }

  /** `add_reading`. */
  function AddReading<T>(w: Window<T>, x: T): (r: Window<T>)
    requires w.Valid()
    ensures r.Valid() && r.size == w.size
    ensures r.entries == Append(w.entries, x)
    ensures |w.entries| < MaxLen ==> r.entries == w.entries + [x]
  {
    Window(w.size, Append(w.entries, x))
  }

  /** `slide_next`: append x, then pop and return the oldest entry. Below the
      bound this evicts the entry that was oldest before the call and keeps
      the length; on an empty window x goes in and comes straight back out;
      at the bound the append has already dropped the oldest entry, so the
      second oldest is returned and the length drops to 39. */
  function SlideNext<T>(w: Window<T>, x: T): (r: (Window<T>, T))
    requires w.Valid()
    ensures r.0.Valid() && r.0.size == w.size
    ensures 0 < |w.entries| < MaxLen ==> r.1 == w.entries[0] && r.0.entries == w.entries[1..] + [x]
    ensures |w.entries| == 0 ==> r.1 == x && r.0.entries == []
    ensures |w.entries| == MaxLen ==> r.1 == w.entries[1] && r.0.entries == w.entries[2..] + [x]
    ensures [r.1] + r.0.entries == Append(w.entries, x)
  {
    var a := Append(w.entries, x);
    assert |w.entries| == MaxLen ==> a[..|a| - 1] == w.entries[1..];
    (Window(w.size, a[1..]), a[0])
  }

  /** The fill-then-slide discipline the callers use: add while the window is
      not full, slide once it is. */
  function Push<T>(w: Window<T>, x: T): (r: Window<T>)
    requires w.Valid()
    ensures r.Valid() && r.size == w.size
    ensures |w.entries| <= w.size < MaxLen ==>
              |r.entries| == (if |w.entries| < w.size then |w.entries| + 1 else w.size)
    ensures |w.entries| <= w.size < MaxLen && 0 < w.size ==>
              r.entries == (if w.IsFull() then w.entries[1..] else w.entries) + [x]
  {
    if w.IsFull() then SlideNext(w, x).0 else AddReading(w, x)
  }

  /** Python's reading of a possibly negative list index. */
  function PyIndex(n: nat, i: int): (k: nat)
    requires -(n as int) <= i < n
    ensures k < n
    ensures i < 0 ==> k + (-i) == n
    ensures 0 <= i ==> k == i
  {
    if i < 0 then n + i else i
  }

  /** `remove_idx`: `list.pop(idx)` on the window's contents. */
  function RemoveIdx<T>(w: Window<T>, i: int): (r: (Window<T>, T))
    requires w.Valid()
    requires -|w.entries| <= i < |w.entries|
    ensures r.0.Valid() && r.0.size == w.size
    ensures |r.0.entries| == |w.entries| - 1
    ensures var k := PyIndex(|w.entries|, i);
      && r.1 == w.entries[k]
      && r.0.entries[..k] + [r.1] + r.0.entries[k..] == w.entries
  {
    var k := PyIndex(|w.entries|, i);
    assert w.entries == w.entries[..k] + [w.entries[k]] + w.entries[k + 1..];
    (Window(w.size, w.entries[..k] + w.entries[k + 1..]), w.entries[k])
  }

  /** `get_win_vals`. */
  function GetWinVals(w: Window<Reading>): seq<real>
  {
    Values(w.entries)
  }

  /** `get_win_times`. */
  function GetWinTimes(w: Window<Reading>): seq<int>
  {
    Times(w.entries)
  }

  /** The newest entry, `window_vals[-1]` and `window_times[-1]` in the source. */
  function Newest<T>(w: Window<T>): T
    requires |w.entries| > 0
  {
    w.entries[|w.entries| - 1]
  }

  /** `get_sensor_type`: the sensor type of the oldest reading. */
  function SensorType(w: Window<Reading>): string
    requires |w.entries| > 0
  {
    w.entries[0].sensorType
  }

  /** `change_val`: replace the value of the reading at (possibly negative)
      index i; timestamps, sensor types, units and every other entry stay. */
  function ChangeVal(w: Window<Reading>, i: int, v: real): (r: Window<Reading>)
    requires w.Valid()
    requires -|w.entries| <= i < |w.entries|
    ensures r.Valid() && r.size == w.size
    ensures OnlyValueAt(w.entries, r.entries, PyIndex(|w.entries|, i), v)
    ensures Labels(r.entries) == Labels(w.entries)
    ensures GetWinVals(r)[PyIndex(|w.entries|, i)] == v
  {
    var k := PyIndex(|w.entries|, i);
    var r := Window(w.size, w.entries[k := w.entries[k].(value := v)]);
    OnlyValueAtKeepsLabels(w.entries, r.entries, k, v);
    r
  }

  /** While a window fills below the bound, its sensor type (that of the
      oldest entry) does not change; a slide hands it to the second oldest. */
  lemma SensorTypeUnderAddAndSlide(w: Window<Reading>, x: Reading)
    requires w.Valid() && 0 < |w.entries| < MaxLen
    ensures SensorType(AddReading(w, x)) == SensorType(w)
    ensures |w.entries| > 1 ==> SensorType(SlideNext(w, x).0) == w.entries[1].sensorType
    ensures |w.entries| == 1 ==> SensorType(SlideNext(w, x).0) == x.sensorType
  {
  }

  /** Under the add-while-not-full / slide-when-full discipline a window of
      logical size n in 1..39 grows one entry per push until it holds n
      entries and then keeps exactly n. */
  lemma {:induction false} PushesReachSize<T>(w: Window<T>, xs: seq<T>)
    requires w.Valid() && 0 < w.size < MaxLen && |w.entries| <= w.size
    ensures |PushAll(w, xs).entries| == if |w.entries| + |xs| < w.size then |w.entries| + |xs| else w.size
    decreases |xs|
  {
    if xs != [] {
      PushesReachSize(Push(w, xs[0]), xs[1..]);
    }
  }

  function PushAll<T>(w: Window<T>, xs: seq<T>): (r: Window<T>)
    requires w.Valid()
    ensures r.Valid() && r.size == w.size
    decreases |xs|
  {
    if xs == [] then w else PushAll(Push(w, xs[0]), xs[1..])
  }
}
