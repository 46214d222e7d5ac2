/** The plot buffers that the client loops append to and the egui panels
    draw, and the panels' sliding-window eviction: each frame computes the
    largest time in the buffer and removes at most ONE point, the first one
    older than `max_time - window`. */
module SeriesBuffer {
  import opened Wrappers
  import opened Rounding

  /** One row of a plot buffer. The source stores rows as `[f64; N]`
      arrays whose first column is the elapsed time in seconds; the other
      columns are the payload `data`. */
  datatype Timed<+T> = Timed(time: real, data: T)

  /** The payload of a `[time, loop pressure drop, mass flowrate]` row. */
  datatype LoopReading = LoopReading(pressureDropPa: real, massFlowKgPerS: real)

  /** The payload of a `[time, input, output]` row of a transfer-function
      plot. */
  datatype InputOutput = InputOutput(input: real, output: real)

  /** `f64` extended with negative infinity, the seed of the `max_time`
      fold; `NaN` and positive infinity do not arise in the model. */
  datatype ExtReal = NegInf | Finite(value: real) {

    /** `self > bound` on `f64`: negative infinity exceeds nothing. */
    predicate Exceeds(bound: real)
    {
      Finite? && value > bound
    }
  }

  /** `times.fold(f64::NEG_INFINITY, f64::max)` over the time column. */
  function MaxTime<T>(buf: seq<Timed<T>>): (m: ExtReal)
    ensures m.NegInf? <==> buf == []
    ensures m.Finite? ==> forall i :: 0 <= i < |buf| ==> buf[i].time <= m.value
  {
    if buf == [] then NegInf
    else
      var t := buf[|buf| - 1].time;
      match MaxTime(buf[..|buf| - 1])
      case NegInf => Finite(t)
      case Finite(x) => Finite(if x < t then t else x)
  }

  /** The largest time of a nonempty buffer is the time of one of its
      points. */
  lemma {:induction false} MaxTimeAttained<T>(buf: seq<Timed<T>>)
    requires buf != []
    ensures exists i :: 0 <= i < |buf| && buf[i].time == MaxTime(buf).value
    decreases |buf|
  {
    var init, last := buf[..|buf| - 1], |buf| - 1;
    if init == [] || MaxTime(init).value < buf[last].time {
      assert buf[last].time == MaxTime(buf).value;
    } else {
      MaxTimeAttained(init);
      var k :| 0 <= k < |init| && init[k].time == MaxTime(init).value;
      assert buf[k] == init[k];
      assert buf[k].time == MaxTime(buf).value;
    }
  }

  /** `time_vec.iter().position(|&time| time < cutoff)`. */
  function FirstOlder<T>(buf: seq<Timed<T>>, cutoff: real): (r: Option<nat>)
    ensures r.Some? ==> r.value < |buf| && buf[r.value].time < cutoff
    ensures r.Some? ==> forall j :: 0 <= j < r.value ==> buf[j].time >= cutoff
    ensures r.None? <==> forall j :: 0 <= j < |buf| ==> buf[j].time >= cutoff
  {
    if buf == [] then None
    else if buf[0].time < cutoff then Some(0)
    else
      match FirstOlder(buf[1..], cutoff)
      case None => None
      case Some(k) => Some(k + 1)
  }

  /** True when the point at `i` is the one a prune with this window would
      remove: some point is older than the window measured back from the
      largest time, and `i` is the first of them. */
  ghost predicate IsEvictionIndex<T>(buf: seq<Timed<T>>, window: real, i: nat)
  {
    && MaxTime(buf).Exceeds(window)
    && i < |buf|
    && buf[i].time < MaxTime(buf).value - window
    && forall j :: 0 <= j < i ==> buf[j].time >= MaxTime(buf).value - window
  }

  /** The index the panel removes, if any: a search is made only when
      `max_time > window`. */
  function PruneIndex<T>(buf: seq<Timed<T>>, window: real): (r: Option<nat>)
    ensures r.Some? ==> IsEvictionIndex(buf, window, r.value)
    ensures r.None? ==> forall i: nat :: !IsEvictionIndex(buf, window, i)
  {
    match MaxTime(buf)
    case NegInf => None
    case Finite(m) => if m > window then FirstOlder(buf, m - window) else None
  }

  /** `Vec::remove(i)`: the elements after `i` shift down by one. */
  function RemoveAt<T>(s: seq<T>, i: nat): (r: seq<T>)
    requires i < |s|
    ensures |r| == |s| - 1
    ensures forall j :: 0 <= j < i ==> r[j] == s[j]
    ensures forall j :: i <= j < |r| ==> r[j] == s[j + 1]
  {
    s[..i] + s[i + 1..]
  }

  /** The match on the found index: remove it, or leave the buffer as it is. */
  function PruneAt<T>(buf: seq<T>, index: Option<nat>): (r: seq<T>)
    requires index.Some? ==> index.value < |buf|
    ensures index.None? ==> r == buf
    ensures index.Some? ==> |r| == |buf| - 1 && r == buf[..index.value] + buf[index.value + 1..]
  {
    match index
    case None => buf
    case Some(i) => RemoveAt(buf, i)
  }

  /** One frame's eviction on a buffer whose own time column chose the index. */
  function Prune<T>(buf: seq<Timed<T>>, window: real): (r: seq<Timed<T>>)
    ensures |buf| - 1 <= |r| <= |buf|
    ensures |r| == |buf| <==> PruneIndex(buf, window).None?
  {
    PruneAt(buf, PruneIndex(buf, window))
  }

  /** The row the panel reads the current values from: the last one, or the
      all-zero row when the buffer is empty (`.last()` matched to `0.0`). */
  function LatestOr<T>(buf: seq<Timed<T>>, zero: T): (d: T)
    ensures buf == [] ==> d == zero
    ensures buf != [] ==> d == buf[|buf| - 1].data
  {
    if buf == [] then zero else buf[|buf| - 1].data
  }

  /** How many points are older than `cutoff`. */
  function CountOlder<T>(buf: seq<Timed<T>>, cutoff: real): nat
  {
    if buf == [] then 0
    else (if buf[0].time < cutoff then 1 else 0) + CountOlder(buf[1..], cutoff)
  }

  /** The points not older than `cutoff`, in buffer order: what a batch
      purge of the window would keep. */
  function KeepRecent<T>(buf: seq<Timed<T>>, cutoff: real): seq<Timed<T>>
  {
    if buf == [] then []
    else (if buf[0].time < cutoff then [] else [buf[0]]) + KeepRecent(buf[1..], cutoff)
  }

  /** `n` consecutive frames of eviction with no append in between. */
  function PruneFrames<T>(buf: seq<Timed<T>>, window: real, n: nat): seq<Timed<T>>
  {
    if n == 0 then buf else PruneFrames(Prune(buf, window), window, n - 1)
  }

  // ---------------------------------------------------------------------
  // Properties of one eviction
  // ---------------------------------------------------------------------

  /** Nothing is removed unless the largest time exceeds the window; in
      particular an empty buffer, whose fold is negative infinity, is never
      pruned. */
  lemma PruneOnlyPastWindow<T>(buf: seq<Timed<T>>, window: real)
    requires !MaxTime(buf).Exceeds(window)
    ensures Prune(buf, window) == buf
  {
  }

  /** At most one point goes, it is the first one older than the window,
      and every other point keeps its relative order. */
  lemma PruneRemovesFirstOlder<T>(buf: seq<Timed<T>>, window: real)
    ensures Prune(buf, window) == buf
         || exists i: nat :: IsEvictionIndex(buf, window, i) && Prune(buf, window) == buf[..i] + buf[i + 1..]
    ensures |Prune(buf, window)| == |buf| - 1 <==> exists i: nat :: IsEvictionIndex(buf, window, i)
  {
    match PruneIndex(buf, window)
    case None =>
    case Some(i) =>
      assert IsEvictionIndex(buf, window, i);
  }

  /** Once no point is older than the window the buffer is left as it is,
      so further frames change nothing until new data arrives. */
  lemma PruneIdempotentWhenCaughtUp<T>(buf: seq<Timed<T>>, window: real)
    requires MaxTime(buf).Finite?
    requires forall j :: 0 <= j < |buf| ==> buf[j].time >= MaxTime(buf).value - window
    ensures Prune(buf, window) == buf
    ensures Prune(Prune(buf, window), window) == buf
  {
  }

  /** Removing a point that is older than the window never removes the
      maximum, so the window's reference time stays where it was. */
  lemma {:induction false} PruneKeepsMaxTime<T>(buf: seq<Timed<T>>, window: real)
    requires window >= 0.0
    ensures MaxTime(Prune(buf, window)) == MaxTime(buf)
  {
    match PruneIndex(buf, window)
    case None =>
    case Some(i) =>
      var m := MaxTime(buf).value;
      var r := RemoveAt(buf, i);
      MaxTimeAttained(buf);
      var k :| 0 <= k < |buf| && buf[k].time == m;
      assert k != i;
      var k' := if k < i then k else k - 1;
      assert r[k'].time == m;
      assert MaxTime(r).Finite?;
      MaxTimeAttained(r);
      var w :| 0 <= w < |r| && r[w].time == MaxTime(r).value;
      assert w < i ==> r[w] == buf[w];
      assert w >= i ==> r[w] == buf[w + 1];
  }

  /** The source computes the index on a snapshot and removes it from the
      live buffer later; a concurrent append in between adds points at the
      end only, so the same point is removed and the appended ones stay. */
  lemma PruneAtStableUnderAppend<T>(buf: seq<T>, extra: seq<T>, index: Option<nat>)
    requires index.Some? ==> index.value < |buf|
    ensures PruneAt(buf + extra, index) == PruneAt(buf, index) + extra
  {
    match index
    case None =>
    case Some(i) =>
      assert (buf + extra)[..i] == buf[..i];
      assert (buf + extra)[i + 1..] == buf[i + 1..] + extra;
  }

  // ---------------------------------------------------------------------
  // Repeated eviction converges to the batch purge
  // ---------------------------------------------------------------------

  /** Removing one point older than `cutoff` leaves the recent points as
      they were and one old point fewer. */
  lemma {:induction false} RemoveOlderKeepsRecent<T>(buf: seq<Timed<T>>, i: nat, cutoff: real)
    requires i < |buf| && buf[i].time < cutoff
    ensures KeepRecent(RemoveAt(buf, i), cutoff) == KeepRecent(buf, cutoff)
    ensures CountOlder(RemoveAt(buf, i), cutoff) + 1 == CountOlder(buf, cutoff)
  {
    if i == 0 {
      assert RemoveAt(buf, 0) == buf[1..];
    } else {
      var tail := RemoveAt(buf[1..], i - 1);
      assert RemoveAt(buf, i) == [buf[0]] + tail;
      assert ([buf[0]] + tail)[1..] == tail;
      RemoveOlderKeepsRecent(buf[1..], i - 1, cutoff);
    }
  }

  /** With no point older than `cutoff`, the batch purge keeps everything. */
  lemma {:induction false} KeepRecentAll<T>(buf: seq<Timed<T>>, cutoff: real)
    requires forall j :: 0 <= j < |buf| ==> buf[j].time >= cutoff
    ensures KeepRecent(buf, cutoff) == buf
    ensures CountOlder(buf, cutoff) == 0
  {
    if buf != [] {
      KeepRecentAll(buf[1..], cutoff);
      assert [buf[0]] + buf[1..] == buf;
    }
  }

  /** One frame of eviction past the window: either nothing is older and
      the buffer stays, or one old point goes and the recent ones stay. */
  lemma {:induction false} PruneStep<T>(buf: seq<Timed<T>>, window: real)
    requires window >= 0.0 && MaxTime(buf).Exceeds(window)
    ensures MaxTime(Prune(buf, window)) == MaxTime(buf)
    ensures KeepRecent(Prune(buf, window), MaxTime(buf).value - window)
         == KeepRecent(buf, MaxTime(buf).value - window)
    ensures var c := CountOlder(buf, MaxTime(buf).value - window);
            if c == 0 then Prune(buf, window) == buf
            else CountOlder(Prune(buf, window), MaxTime(buf).value - window) + 1 == c
  {
    var cutoff := MaxTime(buf).value - window;
    PruneKeepsMaxTime(buf, window);
    var index := FirstOlder(buf, cutoff);
    assert PruneIndex(buf, window) == index;
    if index.None? {
      assert Prune(buf, window) == buf;
      KeepRecentAll(buf, cutoff);
    } else {
      assert Prune(buf, window) == RemoveAt(buf, index.value);
      RemoveOlderKeepsRecent(buf, index.value, cutoff);
    }
  }

  /** Incremental eviction catches up: once the panel has drawn at least as
      many frames as there are points older than the window (and no point
      was appended meanwhile), the buffer holds exactly the points a batch
      purge would keep, in their original order. */
  lemma {:induction false} PruneFramesCatchUp<T>(buf: seq<Timed<T>>, window: real, n: nat)
    requires window >= 0.0 && MaxTime(buf).Exceeds(window)
    requires n >= CountOlder(buf, MaxTime(buf).value - window)
    ensures PruneFrames(buf, window, n) == KeepRecent(buf, MaxTime(buf).value - window)
    decreases n
  {
    var cutoff := MaxTime(buf).value - window;
    if CountOlder(buf, cutoff) == 0 {
      PruneFramesCaughtUp(buf, window, n);
    } else {
      var next := Prune(buf, window);
      PruneStep(buf, window);
      assert MaxTime(next) == MaxTime(buf);
      assert CountOlder(next, cutoff) + 1 == CountOlder(buf, cutoff);
      PruneFramesCatchUp(next, window, n - 1);
      assert PruneFrames(buf, window, n) == PruneFrames(next, window, n - 1);
    }
  }

  /** With no point older than the window, any number of frames leaves the
      buffer as the batch purge would. */
  lemma PruneFramesCaughtUp<T>(buf: seq<Timed<T>>, window: real, n: nat)
    requires MaxTime(buf).Finite?
    requires CountOlder(buf, MaxTime(buf).value - window) == 0
    ensures PruneFrames(buf, window, n) == KeepRecent(buf, MaxTime(buf).value - window)
  {
    var cutoff := MaxTime(buf).value - window;
    CountZeroMeansNoneOlder(buf, cutoff);
    KeepRecentAll(buf, cutoff);
    PruneIdempotentWhenCaughtUp(buf, window);
    PruneFramesFixed(buf, window, n);
  }

  /** No point counted as older means no point is older. */
  lemma {:induction false} CountZeroMeansNoneOlder<T>(buf: seq<Timed<T>>, cutoff: real)
    requires CountOlder(buf, cutoff) == 0
    ensures forall j :: 0 <= j < |buf| ==> buf[j].time >= cutoff
  {
    if buf != [] {
      CountZeroMeansNoneOlder(buf[1..], cutoff);
      assert forall j :: 1 <= j < |buf| ==> buf[j] == buf[1..][j - 1];
    }
  }

  /** A buffer that a frame leaves unchanged stays unchanged for any number
      of frames. */
  lemma {:induction false} PruneFramesFixed<T>(buf: seq<Timed<T>>, window: real, n: nat)
    requires Prune(buf, window) == buf
    ensures PruneFrames(buf, window, n) == buf
    decreases n
  {
    if n > 0 {
      PruneFramesFixed(buf, window, n - 1);
    }
  }

  /** The value the panel shows is the one appended last. */
  lemma LatestIsLastAppended<T>(buf: seq<Timed<T>>, p: Timed<T>, zero: T)
    ensures LatestOr(buf + [p], zero) == p.data
    ensures LatestOr([], zero) == zero
  {
  }

  // ---------------------------------------------------------------------
  // What the loop panels display
  // ---------------------------------------------------------------------

  /** The values a loop panel puts in its axis labels. */
  datatype LoopDisplay = LoopDisplay(currentTime: ExtReal, pressurePa: real, massFlowKgPerS: real)

  /** The labels of a loop panel: the current time, the last pressure drop,
      and the last mass flowrate to four decimals; zeros for an empty plot. */
  function LoopPanelDisplay(plots: seq<Timed<LoopReading>>): (d: LoopDisplay)
    ensures d.currentTime == MaxTime(plots)
    ensures plots == [] ==> d.pressurePa == 0.0 && d.massFlowKgPerS == 0.0
    ensures plots != [] ==> d.pressurePa == plots[|plots| - 1].data.pressureDropPa
    ensures var flow := LatestOr(plots, LoopReading(0.0, 0.0)).massFlowKgPerS;
      && d.massFlowKgPerS == RoundTo(flow, 10000.0)
      && flow - 0.00005 <= d.massFlowKgPerS <= flow + 0.00005
  {
    var latest := LatestOr(plots, LoopReading(0.0, 0.0));
    RoundToError(latest.massFlowKgPerS, 10000.0);
    LoopDisplay(MaxTime(plots), latest.pressureDropPa, RoundTo(latest.massFlowKgPerS, 10000.0))
  }
}
