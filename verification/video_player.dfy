/**
 * The video player component: following the store's timeline position with
 * a half-second tolerance, choosing the video source, the `m:ss` clock and
 * the progress-bar seek.
 */
module VideoPlayer {
  import opened Wrappers
  import Store
  import TimelineView
  import VideoUtils
  import opened JsText

  /** Seconds of drift the player tolerates before it seeks to the timeline. */
  const SyncThreshold: real := 0.5

  /** The one bundled clip every camera plays. */
  const StockFootage: string := "/videos/Stock_CCTV_footage_1.mp4"

  /**
   * What the player holds: whether the video element is mounted, the
   * element's time, the time the component shows, and the loaded duration
   * (0 until the metadata arrives).
   */
  datatype Player = Player(mounted: bool, videoTime: real, shownTime: real, duration: real)

  function Abs(x: real): real
  {
    if x < 0.0 then -x else x
  }

  /** The time the timeline position asks for: `timelinePosition / 100 * duration`. */
  function SyncTarget(timelinePosition: real, duration: real): real
  {
    (timelinePosition / 100.0) * duration
  }

  /** The effect run when the timeline position or the duration changes. */
  function SyncToTimeline(p: Player, timelinePosition: real): (r: Player)
    ensures r.mounted == p.mounted && r.duration == p.duration
    ensures !p.mounted || p.duration == 0.0 ==> r == p
    ensures p.mounted && p.duration != 0.0 && Abs(p.videoTime - SyncTarget(timelinePosition, p.duration)) > SyncThreshold ==>
      r.videoTime == r.shownTime == SyncTarget(timelinePosition, p.duration)
    ensures Abs(p.videoTime - SyncTarget(timelinePosition, p.duration)) <= SyncThreshold ==> r == p
    ensures p.mounted && p.duration != 0.0 ==> Abs(r.videoTime - SyncTarget(timelinePosition, p.duration)) <= SyncThreshold
  {
    if !p.mounted || p.duration == 0.0 then p
    else
      var target := SyncTarget(timelinePosition, p.duration);
      if Abs(p.videoTime - target) > SyncThreshold then p.(videoTime := target, shownTime := target)
      else p
  }

  /** A second sync to the same position changes nothing. */
  lemma SyncIdempotent(p: Player, timelinePosition: real)
    ensures SyncToTimeline(SyncToTimeline(p, timelinePosition), timelinePosition) == SyncToTimeline(p, timelinePosition)
  {
  }

  /** `getVideoSource()`: nothing without a selected camera, the stock clip for every camera. */
  function GetVideoSource(selected: Option<Store.Camera>): (r: Option<string>)
    ensures r.None? <==> selected.None?
    ensures r.Some? ==> r.value == StockFootage
  {
    if selected.None? then None else Some(StockFootage)
  }

  /** Which camera is selected does not change the source. */
  lemma SameSourceForEveryCamera(a: Store.Camera, b: Store.Camera)
    ensures GetVideoSource(Some(a)) == GetVideoSource(Some(b))
  {
  }

  /**
   * The player's `formatTime`: the shared `m:ss` label. For a non-negative
   * time it has two `:`-separated fields, the whole minutes and a two-digit
   * seconds field below 60, and it reads back as the whole seconds.
   */
  function FormatTime(t: real): (r: string)
    ensures 0.0 <= t ==>
      var p := Split(r, ':');
      |p| == 2 && |p[1]| == 2 && ToNumber(p[0]) == Some(t.Floor / 60) && ToNumber(p[1]) == Some(t.Floor % 60)
    ensures 0.0 <= t ==> VideoUtils.ParseTimeToSeconds(r) == Some(t.Floor)
  {
    if 0.0 <= t then
      VideoUtils.MinutesSecondsFields(t);
      VideoUtils.MinutesSecondsRoundTrip(t);
      VideoUtils.MinutesSecondsLabel(t)
    else VideoUtils.MinutesSecondsLabel(t)
  }

  /** A progress-bar click: the click's share of the bar width, applied to the duration. */
  function ProgressClick(p: Player, clickX: real, width: real): (r: Player)
    requires 0.0 < width
    ensures r.mounted == p.mounted && r.duration == p.duration
    ensures !p.mounted ==> r == p
    ensures p.mounted ==> r.videoTime == r.shownTime && r.videoTime * width == clickX * p.duration
  {
    var percentage := (clickX / width) * 100.0;
    var target := (percentage / 100.0) * p.duration;
    if p.mounted then
      assert target * width == clickX * p.duration by {
        assert (clickX / width) * width == clickX;
      }
      p.(videoTime := target, shownTime := target)
    else p
  }

  /**
   * A click on the timeline bar, once the player syncs to the stored
   * position, leaves the video within half a second of the same share of its duration.
   */
  /**
   * A click on an incident marker still moves the video: the player's sync
   * on the new timeline position brings it within half a second of the marker.
   */
  lemma MarkerClickThenSync(v: TimelineView.View, s: Store.State, m: TimelineView.IncidentMarker, p: Player)
    requires p.mounted && p.duration != 0.0
    ensures var c := TimelineView.MarkerClick(v, s, m);
      var q := SyncToTimeline(p, c.store.timelinePosition);
      c.seek.None? && Abs(q.videoTime - SyncTarget(m.position, p.duration)) <= SyncThreshold
  {
  }

  lemma ClickThenSync(v: TimelineView.View, s: Store.State, clickX: real, width: real, p: Player)
    requires 0.0 < width && p.mounted && p.duration != 0.0
    ensures var c := TimelineView.TimelineClick(v, s, clickX, width);
      var q := SyncToTimeline(p, c.store.timelinePosition);
      Abs(q.videoTime - SyncTarget(c.view.scrubber, p.duration)) <= SyncThreshold
  {
  }
}
