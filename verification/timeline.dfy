/**
 * Time-range algebra of the timeline: range construction and membership,
 * expansion about the centre, clamping, overlap filtering of incidents,
 * sampling for rendering, zoom stepping, grid snapping and scrolling.
 * Times are real numbers of seconds (or milliseconds; the code is unit-free),
 * incident timestamps are integers.
 */
module TimelineMath {
  import opened Wrappers
  import opened JsText
  import Seqs
  import opened Arith

  datatype TimeRange = TimeRange(start: real, end: real)

  function Abs(x: real): real
  {
    if x < 0.0 then -x else x
  }

  function Min(a: real, b: real): real
  {
    if a <= b then a else b
  }

  function Max(a: real, b: real): real
  {
    if a <= b then b else a
  }

  /** `createTimeRange(a, b)`: the ordered range with endpoints a and b. */
  function CreateTimeRange(a: real, b: real): (r: TimeRange)
    ensures r.start <= r.end
    ensures multiset{r.start, r.end} == multiset{a, b}
  {
    TimeRange(Min(a, b), Max(a, b))
  }

  /** `isTimeInRange`: both ends included. */
  predicate IsTimeInRange(t: real, r: TimeRange)
  {
    t >= r.start && t <= r.end
  }

  function Duration(r: TimeRange): real
  {
    r.end - r.start
  }

  /** Both given points lie in the range built from them. */
  lemma CreatedRangeHoldsEndpoints(a: real, b: real)
    ensures IsTimeInRange(a, CreateTimeRange(a, b)) && IsTimeInRange(b, CreateTimeRange(a, b))
    ensures forall t :: IsTimeInRange(t, CreateTimeRange(a, b)) <==> Min(a, b) <= t <= Max(a, b)
  {
  }

  /** `expandTimeRange(range, factor)`: same centre, duration multiplied by `factor`. */
  function ExpandTimeRange(r: TimeRange, factor: real): (e: TimeRange)
    ensures e.start + e.end == r.start + r.end
    ensures Duration(e) == Duration(r) * factor
  {
    var center := (r.start + r.end) / 2.0;
    var half := Duration(r) / 2.0 * factor;
    TimeRange(center - half, center + half)
  }

  /** `clampTimeRange(range, bounds)`: each end pulled inside the bounds. */
  function ClampTimeRange(r: TimeRange, bounds: TimeRange): (c: TimeRange)
    ensures c.start >= bounds.start && c.end <= bounds.end
    ensures c.start >= r.start && c.end <= r.end
    ensures c.start == r.start || c.start == bounds.start
    ensures c.end == r.end || c.end == bounds.end
    ensures bounds.start <= r.start && r.end <= bounds.end ==> c == r
  {
    TimeRange(Max(r.start, bounds.start), Min(r.end, bounds.end))
  }

  lemma ClampIdempotent(r: TimeRange, bounds: TimeRange)
    ensures ClampTimeRange(ClampTimeRange(r, bounds), bounds) == ClampTimeRange(r, bounds)
  {
  }

  /** An incident on the timeline; `endTime` is optional and a zero `endTime` counts as absent. */
  datatype TimelineIncident = TimelineIncident(id: string, timestamp: int, endTime: Option<int>, severity: string)

  /** `incident.endTime || incident.timestamp`. */
  function IncidentEnd(x: TimelineIncident): int
  {
    if x.endTime.Some? && x.endTime.value != 0 then x.endTime.value else x.timestamp
  }

  function OverlapsRange(range: TimeRange): TimelineIncident -> bool
  {
    (x: TimelineIncident) => !((IncidentEnd(x) as real) < range.start || (x.timestamp as real) > range.end)
  }

  /** `getIncidentsInRange`: the incidents whose [timestamp, end] meets the range, in order. */
  function GetIncidentsInRange(xs: seq<TimelineIncident>, range: TimeRange): (r: seq<TimelineIncident>)
    ensures Seqs.IsSubseq(r, xs)
    ensures forall i :: 0 <= i < |r| ==>
      (IncidentEnd(r[i]) as real) >= range.start && (r[i].timestamp as real) <= range.end
    ensures forall i :: 0 <= i < |xs| ==>
      ((IncidentEnd(xs[i]) as real) >= range.start && (xs[i].timestamp as real) <= range.end ==> xs[i] in r)
    ensures |r| == Seqs.CountIf(xs, OverlapsRange(range))
  {
    Seqs.FilterIsSubseq(xs, OverlapsRange(range));
    Seqs.FilterLength(xs, OverlapsRange(range));
    Seqs.Filter(xs, OverlapsRange(range))
  }

  /** `Math.ceil(n / d)` for a positive integer divisor. */
  function CeilDiv(n: nat, d: nat): nat
    requires 0 < d
  {
    (n + d - 1) / d
  }

  lemma CeilDivShift(n: nat, d: nat)
    requires 0 < d < n
    ensures CeilDiv(n, d) == CeilDiv(n - d, d) + 1
  {
    var q := CeilDiv(n - d, d);
    DivMod(n - d + d - 1, d);
    assert q * d <= n - 1 < (q + 1) * d;
    assert (q + 1) * d == q * d + d;
    assert (q + 2) * d == q * d + 2 * d;
    DivBetween(n + d - 1, d, q + 1);
  }

  lemma CeilDivSmall(n: nat, d: nat)
    requires 0 < n <= d
    ensures CeilDiv(n, d) == 1
  {
    DivBetween(n + d - 1, d, 1);
  }

  /** `xs.filter((_, index) => index % step === 0)`. */
  function EveryNth<T>(xs: seq<T>, step: nat): (r: seq<T>)
    requires 0 < step
    ensures |r| == CeilDiv(|xs|, step)
    ensures Seqs.IsSubseq(r, xs)
    decreases |xs|
  {
    if xs == [] then []
    else if |xs| <= step then
      Seqs.SubseqOfHead(xs);
      CeilDivSmall(|xs|, step);
      [xs[0]]
    else
      var rest := EveryNth(xs[step..], step);
      SubseqSkip(rest, xs, step);
      CeilDivShift(|xs|, step);
      [xs[0]] + rest
  }

  /** The k-th kept element is the element at index k * step, the ones `index % step === 0` selects. */
  lemma {:induction false} EveryNthIndex<T>(xs: seq<T>, step: nat, k: nat)
    requires 0 < step && k < |EveryNth(xs, step)|
    ensures k * step < |xs| && EveryNth(xs, step)[k] == xs[k * step]
    decreases |xs|
  {
    if k > 0 {
      EveryNthIndex(xs[step..], step, k - 1);
      assert k * step == (k - 1) * step + step;
    }
  }

  lemma SubseqSkip<T>(rest: seq<T>, xs: seq<T>, step: nat)
    requires 0 < step < |xs| && Seqs.IsSubseq(rest, xs[step..])
    ensures Seqs.IsSubseq([xs[0]] + rest, xs)
  {
    assert xs[1..][step - 1..] == xs[step..];
    Seqs.SubseqDrop(rest, xs[1..], step - 1);
    assert ([xs[0]] + rest)[1..] == rest;
  }

  lemma CeilDivStep(n: nat, max: nat)
    requires 0 < max < n
    ensures 0 < CeilDiv(n, max)
    ensures CeilDiv(n, CeilDiv(n, max)) <= max
  {
    var step := CeilDiv(n, max);
    DivMod(n + max - 1, max);
    assert n <= step * max;
    assert 0 < step;
    var c := CeilDiv(n, step);
    DivMod(n + step - 1, step);
    assert c * step <= n + step - 1;
    if c > max {
      MulMono(max + 1, c, step);
      assert false;
    }
  }

  /** The sampling branch of `optimizeIncidentRendering`: every `ceil(n / maxIncidents)`-th visible incident. */
  function SampleVisible(visible: seq<TimelineIncident>, maxIncidents: int): (r: seq<TimelineIncident>)
    requires 1 <= maxIncidents < |visible|
    ensures |r| == CeilDiv(|visible|, CeilDiv(|visible|, maxIncidents)) <= maxIncidents
    ensures Seqs.IsSubseq(r, visible)
    ensures forall k :: 0 <= k < |r| ==>
      k * CeilDiv(|visible|, maxIncidents) < |visible| && r[k] == visible[k * CeilDiv(|visible|, maxIncidents)]
  {
    CeilDivStep(|visible|, maxIncidents);
    var step := CeilDiv(|visible|, maxIncidents);
    var sampled := EveryNth(visible, step);
    forall k | 0 <= k < |sampled|
      ensures k * step < |visible| && sampled[k] == visible[k * step]
    {
      EveryNthIndex(visible, step, k);
    }
    sampled
  }

  /**
   * `optimizeIncidentRendering`: the visible incidents when they are at most
   * `maxIncidents`, otherwise every `ceil(n / maxIncidents)`-th of them.
   */
  function OptimizeIncidentRendering(xs: seq<TimelineIncident>, range: TimeRange, maxIncidents: int): (r: seq<TimelineIncident>)
    requires 1 <= maxIncidents
    ensures |GetIncidentsInRange(xs, range)| <= maxIncidents ==> r == GetIncidentsInRange(xs, range)
    ensures |r| <= maxIncidents
    ensures maxIncidents < |GetIncidentsInRange(xs, range)| ==>
      |r| == CeilDiv(|GetIncidentsInRange(xs, range)|, CeilDiv(|GetIncidentsInRange(xs, range)|, maxIncidents))
    ensures Seqs.IsSubseq(r, GetIncidentsInRange(xs, range))
    ensures maxIncidents < |GetIncidentsInRange(xs, range)| ==>
      var step := CeilDiv(|GetIncidentsInRange(xs, range)|, maxIncidents);
      forall k :: 0 <= k < |r| ==>
        k * step < |GetIncidentsInRange(xs, range)| && r[k] == GetIncidentsInRange(xs, range)[k * step]
  {
    var visible := GetIncidentsInRange(xs, range);
    if |visible| <= maxIncidents then
      Seqs.SubseqRefl(visible);
      visible
    else
      SampleVisible(visible, maxIncidents)
  }

  /** `TIMELINE_CONFIG.ZOOM_LEVELS`. */
  const ZoomLevels: seq<real> := [0.5, 1.0, 2.0, 4.0, 8.0, 16.0]

  /** `levels.findIndex(level => level >= zoom)`: -1 when no level is that large. */
  function FindLevelIndex(levels: seq<real>, zoom: real): (i: int)
    ensures -1 <= i < |levels|
    ensures 0 <= i ==> levels[i] >= zoom && forall j :: 0 <= j < i ==> levels[j] < zoom
    ensures i == -1 ==> forall j :: 0 <= j < |levels| ==> levels[j] < zoom
  {
    if levels == [] then -1
    else if levels[0] >= zoom then 0
    else
      var j := FindLevelIndex(levels[1..], zoom);
      if j == -1 then -1 else j + 1
  }

  datatype ZoomDirection = ZoomIn | ZoomOut

  /** `getNextZoomLevel(currentZoom, direction)`. */
  function GetNextZoomLevel(z: real, dir: ZoomDirection): (r: real)
    ensures r in ZoomLevels
    ensures 16.0 < z ==> r == 0.5
    ensures dir == ZoomIn && z <= 16.0 ==> z < r || r == 16.0
    ensures dir == ZoomOut && z <= 16.0 ==> r < z || r == 0.5
  {
    var idx := FindLevelIndex(ZoomLevels, z);
    assert forall i, j :: 0 <= i < j < |ZoomLevels| ==> ZoomLevels[i] < ZoomLevels[j];
    assert z <= 16.0 ==> 0 <= idx by {
      assert ZoomLevels[5] == 16.0;
    }
    var next := if dir == ZoomIn then (if idx + 1 < 5 then idx + 1 else 5) else (if idx - 1 > 0 then idx - 1 else 0);
    // `levels[next] || currentZoom`: the level is never 0, so the fallback is unused
    ZoomLevels[next]
  }

  /** `clampZoom`: into [0.5, 16]. */
  function ClampZoom(z: real): (r: real)
    ensures 0.5 <= r <= 16.0
    ensures 0.5 <= z <= 16.0 ==> r == z
    ensures r == z || r == 0.5 || r == 16.0
  {
    Max(ZoomLevels[0], Min(ZoomLevels[5], z))
  }

  /**
   * The point `snapToGrid` rounds to, `Math.round(time / grid) * grid`: a
   * whole number of intervals, within half an interval of `time`.
   */
  function GridPoint(time: real, grid: real): (g: real)
    requires grid != 0.0
    ensures (g / grid).Floor as real == g / grid
    ensures Abs(time / grid - g / grid) <= 0.5
  {
    var n := Round(time / grid);
    RoundIsNearest(time / grid, n);
    var g := (n as real) * grid;
    assert g / grid == n as real by { MulDivCancel(n as real, grid); }
    assert (n as real).Floor == n;
    g
  }

  lemma MulDivCancel(x: real, grid: real)
    requires grid != 0.0
    ensures (x * grid) / grid == x
  {
  }

  lemma RoundBounds(q: real)
    ensures (Round(q) as real) <= q + 0.5 < (Round(q) as real) + 1.0
  {
  }

  /** `Math.round` picks an integer nearest its argument: within one half, and no integer is closer. */
  lemma RoundIsNearest(q: real, k: int)
    ensures Abs(q - (Round(q) as real)) <= 0.5
    ensures Abs(q - (Round(q) as real)) <= Abs(q - (k as real))
  {
    var n := Round(q);
    RoundBounds(q);
    if k > n {
      assert (k as real) >= (n as real) + 1.0;
    } else if k < n {
      assert (k as real) <= (n as real) - 1.0;
    }
  }

  /**
   * Measured in grid intervals, the snapped grid point is the multiple of the
   * interval nearest to `time`: no multiple k is closer.
   */
  lemma GridPointIsNearest(time: real, grid: real, k: int)
    requires grid != 0.0
    ensures Abs(time / grid - GridPoint(time, grid) / grid) <= Abs(time / grid - (k as real))
  {
    GridPointQuotient(time, grid);
    RoundIsNearest(time / grid, k);
  }

  lemma GridPointQuotient(time: real, grid: real)
    requires grid != 0.0
    ensures GridPoint(time, grid) / grid == Round(time / grid) as real
  {
    MulDivCancel(Round(time / grid) as real, grid);
  }

  /** `snapToGrid(time, gridInterval, threshold)`; callers that omit `threshold` get the default 0.5. */
  function SnapToGrid(time: real, grid: real, threshold: real): (r: real)
    requires grid != 0.0
    ensures r == time || (r == GridPoint(time, grid) && Abs(time - r) <= threshold)
    ensures Abs(time - GridPoint(time, grid)) <= threshold ==> r == GridPoint(time, grid)
  {
    var g := GridPoint(time, grid);
    if Abs(time - g) <= threshold then g else time
  }

  /** `scrollTimelineToTime`: unchanged if the target is visible, else a range centred on it. */
  function ScrollTimelineToTime(target: real, current: TimeRange, viewWidth: real, pixelsPerSecond: real): (r: TimeRange)
    requires pixelsPerSecond != 0.0
    ensures IsTimeInRange(target, current) ==> r == current
    ensures !IsTimeInRange(target, current) ==>
      r.start + r.end == 2.0 * target && Duration(r) == viewWidth / pixelsPerSecond
    ensures 0.0 <= viewWidth / pixelsPerSecond ==> IsTimeInRange(target, r)
  {
    var viewDuration := viewWidth / pixelsPerSecond;
    if IsTimeInRange(target, current) then current
    else TimeRange(target - viewDuration / 2.0, target + viewDuration / 2.0)
  }
}
