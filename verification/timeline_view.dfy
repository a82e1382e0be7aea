/**
 * The timeline component: time markers, incident and current-time
 * positions as percentages of the bar, the scrubber that follows the video,
 * the skip buttons, and clicks and drags that seek.
 */
module TimelineView {
  import opened Wrappers
  import opened JsText
  import Store
  import opened TimelineMath
  import VideoUtils

  /** A tick on the bar: its index, its position in percent, and its label. */
  datatype Marker = Marker(time: int, position: real, text: string)

  const MsPerHour: int := 1000 * 60 * 60

  /** The i-th of eleven markers splitting a video of `duration` seconds into tenths, labelled `m:ss`. */
  function VideoMarker(i: int, duration: real): Marker
  {
    Marker(i, (i as real / 10.0) * 100.0, VideoUtils.MinutesSecondsLabel((i as real / 10.0) * duration))
  }

  /** The i-th of twenty-four hourly markers, labelled `HH:00`. */
  function HourMarker(i: int): Marker
  {
    Marker(i, (i as real / 24.0) * 100.0, VideoUtils.Pad2(i) + ":00")
  }

  /** Markers are in increasing position order and lie on the bar. */
  predicate OnBarInOrder(ms: seq<Marker>)
  {
    (forall i :: 0 <= i < |ms| ==> 0.0 <= ms[i].position <= 100.0) &&
    (forall i, j :: 0 <= i < j < |ms| ==> ms[i].position < ms[j].position)
  }

  /** The video marker's label reads back as the whole seconds of its tenth of the duration. */
  predicate VideoMarkerOk(m: Marker, i: int, duration: real)
  {
    m.position == (i as real) * 10.0 &&
    VideoUtils.ParseTimeToSeconds(m.text) == Some(((i as real / 10.0) * duration).Floor)
  }

  /** The hour marker's label is the two-digit hour then `00`. */
  predicate HourMarkerOk(m: Marker, i: int)
  {
    m.position == (i as real) * 100.0 / 24.0 &&
    Split(m.text, ':') == [VideoUtils.Pad2(i), "00"] && ToNumber(Split(m.text, ':')[0]) == Some(i)
  }

  /** `generateTimeMarkers()`: video tenths when the duration is positive, else the hours of a day. */
  function GenerateTimeMarkers(videoDuration: Option<real>): (r: seq<Marker>)
    ensures OnBarInOrder(r)
    ensures videoDuration.Some? && videoDuration.value > 0.0 ==>
      |r| == 11 && r[0].position == 0.0 && r[10].position == 100.0 &&
      forall i :: 0 <= i < 11 ==> VideoMarkerOk(r[i], i, videoDuration.value)
    ensures !(videoDuration.Some? && videoDuration.value > 0.0) ==>
      |r| == 24 && forall i :: 0 <= i < 24 ==> HourMarkerOk(r[i], i)
  {
    if videoDuration.Some? && videoDuration.value > 0.0 then
      var d := videoDuration.value;
      var r := seq(11, (i: int) => VideoMarker(i, d));
      forall i | 0 <= i < 11 ensures VideoMarkerOk(r[i], i, d) {
        VideoMarkerLabel(d, i);
      }
      r
    else
      var r := seq(24, (i: int) => HourMarker(i));
      forall i | 0 <= i < 24 ensures HourMarkerOk(r[i], i) {
        HourMarkerLabel(i);
      }
      r
  }

  lemma VideoMarkerLabel(duration: real, i: int)
    requires 0.0 < duration && 0 <= i
    ensures VideoMarkerOk(VideoMarker(i, duration), i, duration)
  {
    var m := VideoMarker(i, duration);
    var t := (i as real / 10.0) * duration;
    assert m.text == VideoUtils.MinutesSecondsLabel(t);
    assert 0.0 <= t by { VideoUtils.MulNonneg(i as real / 10.0, duration); }
    VideoUtils.MinutesSecondsRoundTrip(t);
    TenthPosition(i);
  }

  lemma TenthPosition(i: int)
    ensures (i as real / 10.0) * 100.0 == (i as real) * 10.0
  {
    var x := i as real;
    assert (x / 10.0) * 100.0 == (x / 10.0) * 10.0 * 10.0;
  }

  lemma HourMarkerLabel(i: int)
    requires 0 <= i
    ensures HourMarkerOk(HourMarker(i), i)
  {
    HourLabelSplit(i);
  }

  lemma HourLabelSplit(i: int)
    requires 0 <= i
    ensures Split(VideoUtils.Pad2(i) + ":00", ':') == [VideoUtils.Pad2(i), "00"]
    ensures ToNumber(VideoUtils.Pad2(i)) == Some(i)
  {
    var a := VideoUtils.Pad2(i);
    VideoUtils.Pad2Digits(i);
    VideoUtils.DigitsHaveNoColon(a);
    SplitOnTheHour(a);
  }

  lemma SplitOnTheHour(a: string)
    requires ':' !in a
    ensures Split(a + ":00", ':') == [a, "00"]
  {
    HourSuffix(a);
    SplitAtFirst(a, "00", ':');
    assert ':' !in "00";
  }

  lemma HourSuffix(a: string)
    ensures a + ":00" == a + [':'] + "00"
  {
  }

  /** `Math.max(0, Math.min(100, (hoursFromStart / 24) * 100))` for an incident at `timestamp` ms. */
  function IncidentPosition(timestamp: int, startOfDay: int): (p: real)
    ensures 0.0 <= p <= 100.0
    ensures startOfDay <= timestamp <= startOfDay + 24 * MsPerHour ==>
      p == ((timestamp - startOfDay) as real) / ((24 * MsPerHour) as real) * 100.0
    ensures timestamp <= startOfDay ==> p == 0.0
    ensures startOfDay + 24 * MsPerHour <= timestamp ==> p == 100.0
  {
    var hoursFromStart := ((timestamp - startOfDay) as real) / (MsPerHour as real);
    Max(0.0, Min(100.0, (hoursFromStart / 24.0) * 100.0))
  }

  /** An incident with its marker position on the bar. */
  datatype IncidentMarker = IncidentMarker(incident: Store.Incident, position: real)

  /** `getIncidentMarkers()`: one marker per incident, in order, each on the bar. */
  function GetIncidentMarkers(xs: seq<Store.Incident>, startOfDay: int): (r: seq<IncidentMarker>)
    ensures |r| == |xs|
    ensures forall i :: 0 <= i < |r| ==> r[i].incident == xs[i] && 0.0 <= r[i].position <= 100.0
  {
    seq(|xs|, (i: int) requires 0 <= i < |xs| => IncidentMarker(xs[i], IncidentPosition(xs[i].timestamp, startOfDay)))
  }

  /** `getCurrentTimePosition()`: 0 before the clock is set, else the elapsed share of the day, unclamped. */
  function CurrentTimePosition(now: Option<int>, startOfDay: int): (p: real)
    ensures now.None? ==> p == 0.0
    ensures now.Some? && startOfDay <= now.value <= startOfDay + 24 * MsPerHour ==> 0.0 <= p <= 100.0
    ensures now.Some? && now.value == startOfDay ==> p == 0.0
  {
    match now
    case None => 0.0
    case Some(t) =>
      var hoursFromStart := ((t - startOfDay) as real) / (MsPerHour as real);
      (hoursFromStart / 24.0) * 100.0
  }

  /** The component's own state: the scrubber position in percent and whether a drag is in progress. */
  datatype View = View(scrubber: real, dragging: bool)

  const InitialView := View(0.0, false)

  /**
   * The effect that follows the video: with a duration that is set and non-zero,
   * a known current time and no drag, the scrubber moves to `currentTime / duration * 100`.
   */
  function FollowVideo(v: View, videoDuration: Option<real>, videoCurrentTime: Option<real>): (r: View)
    ensures r.dragging == v.dragging
    ensures v.dragging || videoDuration.None? || videoCurrentTime.None? || (videoDuration.Some? && videoDuration.value == 0.0) ==> r == v
    ensures !v.dragging && videoDuration.Some? && videoDuration.value != 0.0 && videoCurrentTime.Some? ==>
      r.scrubber * videoDuration.value == videoCurrentTime.value * 100.0
  {
    if videoDuration.Some? && videoDuration.value != 0.0 && videoCurrentTime.Some? && !v.dragging then
      var d, t := videoDuration.value, videoCurrentTime.value;
      assert (t / d) * 100.0 * d == t * 100.0 by {
        assert (t / d) * d == t;
      }
      v.(scrubber := (t / d) * 100.0)
    else v
  }

  /** Inside the video the followed scrubber is on the bar; past its end it is not clamped. */
  lemma FollowVideoRange(v: View, d: real, t: real)
    requires !v.dragging && 0.0 < d
    ensures 0.0 <= t <= d ==> 0.0 <= FollowVideo(v, Some(d), Some(t)).scrubber <= 100.0
    ensures d < t ==> 100.0 < FollowVideo(v, Some(d), Some(t)).scrubber
  {
    var s := FollowVideo(v, Some(d), Some(t)).scrubber;
    assert s * d == t * 100.0;
    if s < 0.0 {
      assert s * d < 0.0 by {
        assert (-s) * d > 0.0;
      }
    }
    if 100.0 < s {
      assert s * d > 100.0 * d by {
        assert (s - 100.0) * d > 0.0;
      }
    }
    if s <= 100.0 {
      assert s * d <= 100.0 * d by {
        assert (100.0 - s) * d >= 0.0;
      }
    }
  }

  /** One hour of the 24-hour bar, in percent. */
  const SkipStep: real := 100.0 / 24.0

  /** The skip-back button: one hour earlier, not below 0. */
  function SkipBack(v: View): (r: View)
    ensures 0.0 <= r.scrubber || r.scrubber == v.scrubber
    ensures r.scrubber <= v.scrubber || r.scrubber == 0.0
    ensures SkipStep <= v.scrubber ==> r.scrubber == v.scrubber - SkipStep
    ensures v.scrubber < SkipStep ==> r.scrubber == 0.0
    ensures r.dragging == v.dragging
  {
    v.(scrubber := Max(0.0, v.scrubber - SkipStep))
  }

  /** The skip-forward button: one hour later, not above 100. */
  function SkipForward(v: View): (r: View)
    ensures r.scrubber <= 100.0
    ensures v.scrubber <= 100.0 - SkipStep ==> r.scrubber == v.scrubber + SkipStep
    ensures 100.0 - SkipStep < v.scrubber ==> r.scrubber == 100.0
    ensures r.dragging == v.dragging
  {
    v.(scrubber := Min(100.0, v.scrubber + SkipStep))
  }

  /** Pressing skip-forward `n` times. */
  function SkipForwardTimes(v: View, n: nat): View
  {
    if n == 0 then v else SkipForward(SkipForwardTimes(v, n - 1))
  }

  /** From the start of the bar, `n` forward skips reach hour `n`, and 24 of them reach the end. */
  lemma {:induction false} SkipForwardFromStart(n: nat)
    ensures SkipForwardTimes(InitialView, n).scrubber == Min(100.0, (n as real) * SkipStep)
  {
    if n > 0 {
      SkipForwardFromStart(n - 1);
    }
  }

  /** The effects of a click: the new view, the new store and the position reported to `onTimelineSeek`. */
  datatype ClickResult = ClickResult(view: View, store: Store.State, seek: Option<real>)

  /** `handleTimelineClick`: the click's share of the bar width, in percent, goes to the scrubber, the store and the callback. */
  function TimelineClick(v: View, s: Store.State, clickX: real, width: real): (r: ClickResult)
    requires 0.0 < width
    ensures r.view.scrubber == r.store.timelinePosition
    ensures r.seek == Some(r.view.scrubber)
    ensures r.view.scrubber * width == clickX * 100.0
    ensures r.view.dragging == v.dragging
    ensures r.store == Store.SetTimelinePosition(s, r.view.scrubber)
    ensures 0.0 <= clickX <= width ==> 0.0 <= r.view.scrubber <= 100.0
  {
    var percentage := (clickX / width) * 100.0;
    ClickShare(clickX, width);
    ClickResult(v.(scrubber := percentage), Store.SetTimelinePosition(s, percentage), Some(percentage))
  }

  lemma ClickShare(clickX: real, width: real)
    requires 0.0 < width
    ensures (clickX / width) * 100.0 * width == clickX * 100.0
    ensures 0.0 <= clickX <= width ==> 0.0 <= (clickX / width) * 100.0 <= 100.0
  {
    assert (clickX / width) * width == clickX;
    if 0.0 <= clickX <= width {
      assert clickX / width <= 1.0;
    }
  }

  /** `handleMouseDown`: start a drag, then act as a click. */
  function MouseDown(v: View, s: Store.State, clickX: real, width: real): (r: ClickResult)
    requires 0.0 < width
    ensures r.view.dragging
    ensures r == TimelineClick(v.(dragging := true), s, clickX, width)
  {
    TimelineClick(v.(dragging := true), s, clickX, width)
  }

  /** `handleMouseMove`: a click while dragging, nothing otherwise. */
  function MouseMove(v: View, s: Store.State, clickX: real, width: real): (r: ClickResult)
    requires 0.0 < width
    ensures !v.dragging ==> r == ClickResult(v, s, None)
    ensures v.dragging ==> r.view.dragging && r.store.timelinePosition == r.view.scrubber
  {
    if v.dragging then TimelineClick(v, s, clickX, width) else ClickResult(v, s, None)
  }

  /** `handleMouseUp` and mouse-leave: the drag ends, the scrubber stays. */
  function MouseUp(v: View): (r: View)
    ensures !r.dragging && r.scrubber == v.scrubber
  {
    v.(dragging := false)
  }

  /** During a drag the video's time updates do not move the scrubber away from the pointer. */
  lemma DragHoldsScrubber(v: View, s: Store.State, clickX: real, width: real, d: Option<real>, t: Option<real>)
    requires 0.0 < width
    ensures FollowVideo(MouseDown(v, s, clickX, width).view, d, t) == MouseDown(v, s, clickX, width).view
  {
  }

  /**
   * A click on an incident marker moves the scrubber and the store's position
   * to the marker. The handler calls no seek callback; the video follows the
   * new position through the player's sync.
   */
  function MarkerClick(v: View, s: Store.State, m: IncidentMarker): (r: ClickResult)
    ensures r.view.scrubber == r.store.timelinePosition == m.position
    ensures r.seek.None? && r.view.dragging == v.dragging
    ensures r.store == Store.SetTimelinePosition(s, m.position)
  {
    ClickResult(v.(scrubber := m.position), Store.SetTimelinePosition(s, m.position), None)
  }

  /**
   * A click on a marker is a whole gesture: the bar's mouse-down runs first
   * and calls the seek callback with the pointer's share of the bar, the
   * release ends the drag, and then the marker's own handler moves the
   * scrubber and the store onto the marker without a second seek callback.
   */
  lemma MarkerGesture(v: View, s: Store.State, m: IncidentMarker, clickX: real, width: real)
    requires 0.0 < width
    ensures var down := MouseDown(v, s, clickX, width);
      var r := MarkerClick(MouseUp(down.view), down.store, m);
      down.seek.Some? && down.seek.value * width == clickX * 100.0 &&
      r.seek.None? && !r.view.dragging && r.view.scrubber == m.position && r.store.timelinePosition == m.position
  {
  }

  /** Clicking any generated incident marker leaves the scrubber and the store on the bar. */
  lemma MarkerClickOnBar(v: View, s: Store.State, xs: seq<Store.Incident>, startOfDay: int, i: int)
    requires 0 <= i < |xs|
    ensures var r := MarkerClick(v, s, GetIncidentMarkers(xs, startOfDay)[i]);
      0.0 <= r.view.scrubber <= 100.0 && r.store.timelinePosition == r.view.scrubber
  {
  }
}
