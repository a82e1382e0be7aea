# SecureSight core, modelled in Dafny

SecureSight is a security-camera monitoring dashboard. Operators log in and see:

- the cameras and the incidents the cameras raised;
- incidents that can be resolved;
- a 24-hour or video timeline with a scrubber;
- a video player;
- an incidents page with filters;
- an analytics page.

This project models the parts of the dashboard that are sequential logic rather than rendering, and proves properties of them:

- **Incident store.** Prepend, merge-by-id, remove-by-id, optimistic resolve with rollback, and the effect of the camera and incident fetches on the state.
- **Real-time dispatcher.** It turns database change events into store operations.
- **`GET /api/incidents` route.** Its `resolved` filter and its newest-first ordering.
- **Incidents page.** The search/status/severity filter, the summary counts and what the page loads.
- **Analytics page.** The key metrics, the type and severity breakdowns, the hourly distribution, the peak hour and the per-camera counts.
- **Timeline.** The time-range algebra of the timeline utilities, plus the component's markers, positions, scrubber rules, skips and clicks.
- **Video player.** The sync rule with its half-second threshold, the source choice, the time label and the progress-bar seek.
- **Video utilities.** The `formatTime`/`parseTimeToSeconds` pair, quality selection and aspect-ratio reduction.
- **Common utilities.** `unique`, `groupBy`, `chunk`, `pick`, `omit`, `truncate`, `clamp` and `capitalize`.
- **API client.** Its retry loop, error and response classification, and query-string building.
- **Camera service.** The query parameters it builds.
- **Gradient colours.** Hex decoding, the CSS-variable text and the two accessors.

Anything the code gets from outside is given to the model as an input:

- the network (a fetch or resolve call is given by its outcome);
- the change events;
- the clock (the current time and the start of the local day);
- the local hour and day of a timestamp;
- the database (a table of rows plus a failure flag).

Each source file is one Dafny module. Module `JsText` (`js_text.dfy`) holds the JavaScript string and number behaviour the code relies on:

- `String(n)` for integers;
- `Number(s)` for the integer forms the code can meet;
- `split` and `join`;
- `padStart`;
- ASCII case mapping;
- `includes`.

Module `Seqs` holds filter/count/subsequence facts, `Arith` some integer division facts, and `Wrappers` the `Option` type.

A few behaviours of the code are easy to misread, and the model keeps them as written:

- **Rollback.** A failed resolve is rolled back by writing `resolved: false`, not the value from before the call (`src/store/useSecureSightStore.ts:108-115`, called under the comment "Rollback optimistic update" at line 163).
- **Scrubber.** The percentage that follows the video is not clamped, so past the video's end it exceeds 100 (`src/components/Timeline.tsx:26-31`).
- **Change rows.** The real-time handler casts the incidents table's row to an incident without renaming its columns (`src/lib/realtime.ts:46`, `:49`). The row's `camera_id`, `thumbnail_url` and `created_at` (`src/lib/supabase.ts:45-55`) therefore never reach the incident's `cameraId`, `thumbnailUrl` and `createdAt`.

## Model

| member | source | states |
|---|---|---|
| Store.AddIncident | src/store/useSecureSightStore.ts:79-82 | The incident goes in front of the unchanged list. Its id is carried by exactly one more entry than before, and every other id's count is unchanged, so no deduplication happens. |
| Store.DuplicateInsertKeepsBoth | src/store/useSecureSightStore.ts:79-82 | Adding the same incident twice to a list without its id leaves two entries carrying that id. |
| Store.UpdateIncident | src/store/useSecureSightStore.ts:84-91 | Length and order are kept. Each entry with the id becomes the patch spread over it, every other entry is untouched, and an id not in the list leaves the list equal. |
| Store.MergeIdempotent | src/store/useSecureSightStore.ts:86-90 | Spreading the same partial incident twice equals spreading it once, and an empty partial changes nothing. |
| Store.RemoveIncident | src/store/useSecureSightStore.ts:93-96 | No entry with the id remains, and the length drops by the number of entries that had it. The result is an order-preserving subsequence that still holds every entry with another id. |
| Store.AddThenRemove | src/store/useSecureSightStore.ts:79-96 | Adding an incident whose id is not in the list, then removing that id, gives back the original list. |
| Store.RemoveIdempotent | src/store/useSecureSightStore.ts:93-96 | Removing an id twice equals removing it once. |
| Store.OptimisticallyResolveIncident | src/store/useSecureSightStore.ts:99-106 | Entries with the id become resolved with their other fields kept, and all other entries are unchanged. |
| Store.OptimisticIsResolvedPatch | src/store/useSecureSightStore.ts:84-106 | The optimistic step equals `updateIncident` with `{ resolved: true }`, and applying it twice equals applying it once. |
| Store.RollbackIncidentResolve | src/store/useSecureSightStore.ts:108-115 | Entries with the id become unresolved whatever they held before, and nothing else changes. |
| Store.RollbackIsUnresolvedPatch | src/store/useSecureSightStore.ts:84-115 | The rollback equals `updateIncident` with `{ resolved: false }`. |
| Store.ResolveIncident | src/store/useSecureSightStore.ts:144-166 | After the optimistic phase the matching entries are resolved. At the end each matching entry is resolved exactly when the call answered ok. Other entries are identical in both phases. |
| Store.FailedResolveUnresolvesResolved | src/store/useSecureSightStore.ts:144-166 | An incident that was already resolved ends unresolved when the resolve call throws or answers 500. |
| Store.ResolveIncidentRestoring | src/store/useSecureSightStore.ts:161-165 | Corrected resolve: a failure gives back exactly the list from before the call, and a success keeps the optimistic list. |
| Store.FailedResolveRestores | src/store/useSecureSightStore.ts:161-165 | With the restoring rollback, a failed resolve leaves every incident's `resolved` flag as it was before the call. |
| Store.FetchCameras | src/store/useSecureSightStore.ts:118-129 | Loading ends false. The cameras become the response body on an ok response that parsed, and are kept otherwise. No other field changes. |
| Store.FetchIncidents | src/store/useSecureSightStore.ts:131-142 | Loading ends false. The incidents become the response body on an ok response that parsed, and are kept otherwise. No other field changes. |
| Store.IncidentsRequestPath | src/store/useSecureSightStore.ts:131-134 | The request always carries an explicit `resolved=`, and it asks for `true` exactly when called with `true`, so an omitted argument means `false`. |
| Store.IncidentsResolvedParam | src/store/useSecureSightStore.ts:131-134 | The `resolved` parameter is always present, and it reads `true` exactly when the argument was `true`. |
| Store.SetTimelinePosition | src/store/useSecureSightStore.ts:75 | The timeline position becomes the given value and no other field changes. |
| Realtime.RowAsIncident | src/lib/realtime.ts:46 | The cast reads the keys the row shares with an incident (id, type, description, severity, resolved, timestamp). The incident has no `cameraId`, `thumbnailUrl`, `createdAt` or embedded camera. |
| Realtime.RowAsPatch | src/lib/realtime.ts:49 | The cast patch holds the shared keys. `cameraId`, `thumbnailUrl`, `createdAt` and `camera` are absent, so spreading it keeps them. |
| Realtime.DispatchIncidentChange | src/lib/realtime.ts:39-54 | Each event maps to one store operation, both directions: an INSERT with a new record is exactly an add of the cast row; an UPDATE with a new record is exactly an update of the row's id with the cast patch; a DELETE with an old record is exactly a remove of the old record's id. |
| Realtime.HandleIncidentChange | src/lib/realtime.ts:39-54 | Only the incident list can change. Any other event type, and a missing new or old record, leaves the store equal. |
| Realtime.UpdateKeepsUnmappedFields | src/lib/realtime.ts:47-49 | An UPDATE rewrites type, description, severity, resolved and timestamp of the matching incidents from the row. Their camera id, thumbnail, creation time and embedded camera stay as they were. |
| Realtime.InsertThenDelete | src/lib/realtime.ts:44-53 | An INSERT of a row with a new id, followed by a DELETE of that id, restores the store. |
| Realtime.RedeliveredInsertDuplicates | src/lib/realtime.ts:44-46 | The same INSERT delivered twice leaves two incidents with that id. |
| Realtime.HandleCameraChange | src/lib/realtime.ts:21-25 | A camera event never touches the incidents. The cameras change only by a successful full refetch; the event's records are not merged. |
| Realtime.SetupRealtimeSubscriptions | src/lib/realtime.ts:5-66 | Subscriptions exist exactly when a client is configured, and then there is one live channel on the cameras table and one on the incidents table. |
| Realtime.Cleanup | src/lib/realtime.ts:61-64 | Both channels end unsubscribed, and otherwise each is unchanged. |
| Realtime.InsertCountsForNoCamera | src/lib/realtime.ts:44-46 | After an INSERT event every camera card's incident count on the analytics page is what it was: the new incident carries no camera id. |
| Realtime.MappedIncident | src/lib/realtime.ts:46 | The corrected reading: `camera_id`, `thumbnail_url` and `created_at` fill `cameraId`, `thumbnailUrl` and `createdAt`, and it agrees with the cast on every other field. |
| Realtime.MappedPatch | src/lib/realtime.ts:49 | The corrected patch carries the three renamed columns and agrees with the cast patch on every other key. |
| Realtime.HandleIncidentChangeMapped | src/lib/realtime.ts:39-54 | The corrected handler: only incidents change. INSERT adds, UPDATE updates and DELETE removes with the mapped row, and other event types change nothing. |
| Realtime.MappedInsertCountsForItsCamera | src/lib/realtime.ts:44-46 | With the mapping, an INSERT raises the count of the row's camera by exactly one. |
| IncidentsRoute.InsertByTimestamp | src/app/api/incidents/route.ts:18-20 | Inserting into a newest-first list gives a newest-first list one entry longer. |
| IncidentsRoute.InsertAddsOne | src/app/api/incidents/route.ts:18-20 | The insertion adds exactly the inserted incident to the entries, as a multiset. |
| IncidentsRoute.SortByTimestampDesc | src/app/api/incidents/route.ts:18-20 | The result is ordered newest first and is a permutation of the input. |
| IncidentsRoute.GetIncidents | src/app/api/incidents/route.ts:5-31 | A query failure, and only that, gives status 500 with the error message. Otherwise the status is 200 and the body is a newest-first permutation of the rows the filter selects. `resolved=true` returns only resolved rows, and any other value returns only unresolved rows. |
| IncidentsRoute.NoParamReturnsAll | src/app/api/incidents/route.ts:12-14 | Without a `resolved` parameter every row of the table is returned. |
| IncidentsRoute.OtherValuesSelectUnresolved | src/app/api/incidents/route.ts:12-13 | Any value other than `true` (`false`, `1`, the empty string) selects the same rows as `false`. |
| IncidentsPage.FilteredIncidents | src/app/incidents/page.tsx:64-76 | The result is an order-preserving subsequence. Every kept incident passes the search, status and severity tests, every incident that passes all three is kept, and the length is the number that pass. |
| IncidentsPage.DefaultFiltersKeepAll | src/app/incidents/page.tsx:32-76 | With the initial controls (empty search, status and severity `all`) the page lists the incidents unchanged. |
| IncidentsPage.StatusSelects | src/app/incidents/page.tsx:68-70 | `active` keeps only unresolved incidents, `resolved` only resolved ones, and any value other than `all`, `active` or `resolved` keeps none. |
| IncidentsPage.SearchIgnoresCase | src/app/incidents/page.tsx:65-66 | For ASCII search text, searching for the upper-cased text finds exactly the same incidents, so the search is case-insensitive. |
| IncidentsPage.SummaryCounts | src/app/incidents/page.tsx:78-80 | The unresolved and resolved counts are the sizes of their filters and add up to the total. The critical count is the number with lower-cased severity `critical`. |
| IncidentsPage.AsFetchOutcome | src/store/useSecureSightStore.ts:134-137 | The route's reply counts as a successful fetch exactly when it is an incident list with an ok status, and then the list is its body. |
| IncidentsPage.RouteTrueSelectsResolved | src/app/api/incidents/route.ts:12-13 | The route's `resolved=true` filter selects the same rows as `incident.resolved`. |
| IncidentsPage.LoadIncidents | src/app/incidents/page.tsx:44-48 | The page as written: after a successful load the incidents are a permutation of the table's resolved rows, so all of them are resolved. A failed query keeps the old list. Loading ends false. |
| IncidentsPage.LoadHidesActiveIncidents | src/app/incidents/page.tsx:46 | A table holding one unresolved incident loads as an empty list. |
| IncidentsPage.LoadAllIncidents | src/app/incidents/page.tsx:46 | The intended load: after success the incidents are a newest-first permutation of the whole table. |
| Analytics.Tally | src/app/analytics/page.tsx:69-79 | The `acc[key] = (acc[key] \|\| 0) + 1` reduction yields one entry per distinct key. |
| Analytics.TallySum | src/app/analytics/page.tsx:69-79 | The counts of a tally add up to the number of items. |
| Analytics.TallyCounts | src/app/analytics/page.tsx:69-79 | The keys are the distinct keys of the items in order of first appearance, and each count is the number of items with that key. |
| Analytics.TallyOfCounts | src/app/analytics/page.tsx:71 | Looking up any key, present or not, gives the number of items with that key (0 when absent). |
| Analytics.TallyIsGroupSizes | src/utils/common.ts:24-36 | The tally agrees entry by entry with the group sizes of `groupBy` on the same key. |
| Analytics.SpaceUnderscores | src/app/analytics/page.tsx:70 | Every `_` becomes a space and every other character is kept. |
| Analytics.CapitalizeWords | src/app/analytics/page.tsx:70 | Upper-casing the starts of words keeps the length. |
| Analytics.TypeLabel | src/app/analytics/page.tsx:70 | The label has the type's length and no underscore. Each character that starts a word (`\b\w` after `_` became a space) is the type's character upper-cased; every other character is the type's character as it was, with `_` read as a space. |
| Analytics.TypeLabelIdempotent | src/app/analytics/page.tsx:70 | Labelling a label changes nothing. |
| Analytics.TypeBreakdown | src/app/analytics/page.tsx:69-73 | One entry per distinct label, each counting the incidents with that label; the counts add up to the total. |
| Analytics.SeverityBreakdown | src/app/analytics/page.tsx:76-79 | The keys are the exact severity strings in order of first appearance, each count is the number of incidents with that string, and the counts add up to the total. |
| Analytics.Percentage | src/app/analytics/page.tsx:66 | The percentage is the share of part in total. It lies in [0, 100] and is 100 exactly when part equals total. |
| Analytics.ResolutionRate | src/app/analytics/page.tsx:66 | The rate is `'0'` exactly when there are no incidents. Otherwise it is the resolved share in percent, in [0, 100], and 100 exactly when every incident is resolved. |
| Analytics.KeyMetrics | src/app/analytics/page.tsx:58-66 | Totals, today's count, the critical count and the resolved count are the sizes of their filters, each at most the total. The rate is `'0'` exactly when the total is 0, and otherwise the resolved share. |
| Analytics.HourlyData | src/app/analytics/page.tsx:82-88 | Exactly 24 entries, entry h holding hour h and the number of incidents in that hour. |
| Analytics.HourlySum | src/app/analytics/page.tsx:82-88 | The hourly counts add up to the number of incidents. |
| Analytics.HourlyAllZero | src/app/analytics/page.tsx:82-88 | Every hour's count is 0 exactly when there are no incidents. |
| Analytics.PeakHour | src/app/analytics/page.tsx:90 | The reduction's result is at least every count. It is `{0, 0}` when no count is positive, and otherwise the first entry holding the largest count. |
| Analytics.PeakOfHourly | src/app/analytics/page.tsx:82-90 | The peak is an hour in 0..23 with the most incidents, and no earlier hour has as many. It is `{0, 0}` exactly when there are no incidents. |
| Analytics.CameraIncidentCount | src/app/analytics/page.tsx:292 | A camera's count is the number of incidents carrying its id, via the tally by camera id. An incident without a camera id counts for no camera. |
| Analytics.CameraIncidentCounts | src/app/analytics/page.tsx:292 | One count per camera card, in camera order, each the number of incidents carrying that camera's id. |
| Analytics.LoadedRateIsFull | src/app/analytics/page.tsx:37-66 | Because the page loads with `fetchIncidents(true)`, the resolution rate after a successful load is `'0'` or 100, whatever the table holds. |
| Analytics.LoadedAllRate | src/app/analytics/page.tsx:37-66 | Loading every incident instead shows the resolution rate of the whole table. |
| Common.Unique | src/utils/common.ts:22 | No duplicates, the same elements as the input, and the elements ordered by their first occurrence in it. |
| Common.GroupBy | src/utils/common.ts:24-36 | The reduce produces one group per key, no key twice. |
| Common.GroupBySize | src/utils/common.ts:24-36 | The group sizes add up to the number of items. |
| Common.GroupByKeys | src/utils/common.ts:24-36 | The group keys are the distinct keys of the items, in order of first appearance. |
| Common.GroupByContents | src/utils/common.ts:24-36 | Every group holds exactly the items whose key is the group's key, in their original order. |
| Common.Chunk | src/utils/common.ts:38-44 | Concatenating the chunks gives the input. Every chunk is non-empty and at most `size` long, and every chunk but the last is exactly `size` long. |
| Common.Pick | src/utils/common.ts:58-69 | Exactly the requested keys that the object has, with their values. |
| Common.Omit | src/utils/common.ts:71-80 | None of the listed keys, every other key of the object, and the same values. |
| Common.SliceEnd | src/utils/common.ts:114 | The end index `slice(0, e)` uses never exceeds the length; a negative end counts from the back. |
| Common.Truncate | src/utils/common.ts:113-114 | The suffix is a parameter; the source's default is `...`. The string is unchanged when it fits. Otherwise the result ends with the suffix; when the suffix fits in `length`, the result is exactly `length` long and is the prefix plus the suffix. When it does not, the part before the suffix is still a prefix of the string, of the length `slice` gives for the negative end `length - suffix.length` (`truncate("abcdef", 2)` keeps `abcde`). |
| Common.Clamp | src/utils/common.ts:119-120 | The result is never above max, lies in [min, max] when min <= max, is the value itself when inside, and is max when max < min. |
| Common.ClampIdempotent | src/utils/common.ts:119-120 | Clamping twice equals clamping once. |
| Common.Capitalize | src/utils/common.ts:99-100 | The length is kept, the first character is upper-cased and every other character is lower-cased. |
| TimelineMath.CreateTimeRange | src/utils/timeline.ts:55-58 | The range is ordered and its two ends are the two given points. |
| TimelineMath.CreatedRangeHoldsEndpoints | src/utils/timeline.ts:55-62 | Both points lie in the range built from them, and `isTimeInRange` holds exactly between their minimum and maximum, both ends included. |
| TimelineMath.ExpandTimeRange | src/utils/timeline.ts:68-77 | The centre is kept and the duration is multiplied by the factor. |
| TimelineMath.ClampTimeRange | src/utils/timeline.ts:79-84 | The clamped range lies within both the bounds and the range, each end is the range's or the bound's, and a range inside the bounds is unchanged. |
| TimelineMath.ClampIdempotent | src/utils/timeline.ts:79-84 | Clamping twice equals clamping once. |
| TimelineMath.GetIncidentsInRange | src/utils/timeline.ts:105-113 | An order-preserving subsequence that keeps exactly the incidents whose span meets the range, a zero end time counting as absent. |
| TimelineMath.EveryNth | src/utils/timeline.ts:266-267 | `index % step === 0` keeps `ceil(n / step)` elements, as a subsequence. |
| TimelineMath.EveryNthIndex | src/utils/timeline.ts:267 | The k-th kept element is the input's element at index `k * step`. |
| TimelineMath.SampleVisible | src/utils/timeline.ts:265-267 | With more visible incidents than the maximum, the sample keeps exactly `ceil(n / step)` of them for `step = ceil(n / max)`, at most the maximum, the k-th being visible incident `k * step`. |
| TimelineMath.OptimizeIncidentRendering | src/utils/timeline.ts:254-268 | All visible incidents when they are at most the maximum. Otherwise exactly `ceil(n / step)` of them with `step = ceil(n / max)`, which is at most the maximum, the k-th being visible incident `k * step`; always a subsequence of the visible ones. |
| TimelineMath.FindLevelIndex | src/utils/timeline.ts:159 | The index of the first level at least the zoom, or -1 exactly when no level is that large. |
| TimelineMath.GetNextZoomLevel | src/utils/timeline.ts:157-166 | Always one of the zoom levels, and 0.5 from above 16. Zooming in goes strictly up unless at 16, and zooming out goes strictly down unless at 0.5. |
| TimelineMath.ClampZoom | src/utils/timeline.ts:168-172 | The result lies in [0.5, 16] and is the zoom itself when inside. |
| TimelineMath.GridPoint | src/utils/timeline.ts:226 | The grid point is a whole number of intervals, within half an interval of the time. |
| TimelineMath.GridPointIsNearest | src/utils/timeline.ts:221-230 | Measured in intervals, no multiple of the interval is nearer to the time than the grid point. |
| TimelineMath.SnapToGrid | src/utils/timeline.ts:221-230 | The threshold is a parameter; the source's default is 0.5. The result is the time itself, or the grid point lying within the threshold of it. The grid point is always taken when it lies within the threshold. |
| TimelineMath.ScrollTimelineToTime | src/utils/timeline.ts:189-206 | A visible target leaves the range unchanged. Otherwise the new range is centred on the target and spans `viewWidth / pixelsPerSecond`, and it holds the target whenever that span is non-negative. |
| TimelineView.GenerateTimeMarkers | src/components/Timeline.tsx:43-72 | With a positive video duration there are 11 markers at 0, 10, ..., 100, the i-th labelled `m:ss` reading back as the whole seconds of i tenths of the duration. Otherwise there are 24 markers labelled `HH:00` for hours 0..23. Markers are in increasing position and on the bar. |
| TimelineView.IncidentPosition | src/components/Timeline.tsx:79-82 | The position is always in [0, 100], is the elapsed share of the day within the day, and is 0 before and 100 after it. |
| TimelineView.GetIncidentMarkers | src/components/Timeline.tsx:75-93 | One marker per incident, in order, each at a position in [0, 100]. |
| TimelineView.CurrentTimePosition | src/components/Timeline.tsx:96-102 | The position is 0 before the clock is set and 0 at the start of the day, and lies in [0, 100] for a time within the day. |
| TimelineView.FollowVideo | src/components/Timeline.tsx:26-31 | While dragging, or without a non-zero duration or a current time, the view is unchanged. Otherwise the scrubber is `currentTime / duration * 100`. |
| TimelineView.FollowVideoRange | src/components/Timeline.tsx:26-31 | Within the video the followed scrubber lies on the bar, and past the video's end it exceeds 100 (no clamp). |
| TimelineView.SkipBack | src/components/Timeline.tsx:143 | The scrubber moves one hour (100/24) back, stopping at 0. |
| TimelineView.SkipForward | src/components/Timeline.tsx:162 | The scrubber moves one hour (100/24) forward, stopping at 100. |
| TimelineView.SkipForwardFromStart | src/components/Timeline.tsx:162 | From the start, n forward skips reach `min(100, n * 100/24)`. |
| TimelineView.TimelineClick | src/components/Timeline.tsx:104-114 | The click's share of the bar, in percent, goes to the scrubber, the store's timeline position and the seek callback alike. It lies in [0, 100] for a click on the bar. |
| TimelineView.MouseDown | src/components/Timeline.tsx:116-119 | A drag starts and the press acts as a click. |
| TimelineView.MouseMove | src/components/Timeline.tsx:121-124 | A move does nothing outside a drag. During a drag the scrubber and the store follow the pointer. |
| TimelineView.MouseUp | src/components/Timeline.tsx:126-128 | The drag ends and the scrubber stays. |
| TimelineView.DragHoldsScrubber | src/components/Timeline.tsx:26-31 | Once a drag has started, the video's time updates do not move the scrubber. |
| TimelineView.MarkerClick | src/components/Timeline.tsx:232-236 | The marker's own click handler moves the scrubber and the store's position onto the marker. That handler calls no seek callback (the bar's mouse-down before it does); the video still follows through the player's sync, see VideoPlayer.MarkerClickThenSync. |
| TimelineView.MarkerGesture | src/components/Timeline.tsx:104-128 | A click on a marker first seeks to the pointer's share of the bar (the bar's mouse-down), then ends the drag. It then leaves the scrubber and the store on the marker with no second seek callback. |
| TimelineView.MarkerClickOnBar | src/components/Timeline.tsx:232-236 | Clicking any generated incident marker leaves the scrubber and the store on the bar. |
| VideoPlayer.SyncToTimeline | src/components/VideoPlayer.tsx:67-76 | Without a mounted video or with duration 0 nothing changes, and within half a second of the target nothing changes. Otherwise the video and the shown time seek to `position / 100 * duration`, so afterwards the video is always within half a second of the target. |
| VideoPlayer.SyncIdempotent | src/components/VideoPlayer.tsx:67-76 | Syncing twice to the same position equals syncing once. |
| VideoPlayer.GetVideoSource | src/components/VideoPlayer.tsx:116-122 | No source exactly when no camera is selected, and otherwise the bundled clip. |
| VideoPlayer.SameSourceForEveryCamera | src/components/VideoPlayer.tsx:116-122 | Every camera plays the same source. |
| VideoPlayer.FormatTime | src/components/VideoPlayer.tsx:127-131 | For a non-negative time the label has the `m:ss` shape: two `:`-separated fields, the whole minutes and a two-digit seconds field holding the whole seconds modulo 60. It reads back as its whole seconds. |
| VideoPlayer.ProgressClick | src/components/VideoPlayer.tsx:208-217 | With a mounted video both times become the click's share of the bar times the duration, and without one nothing changes. |
| VideoPlayer.MarkerClickThenSync | src/components/VideoPlayer.tsx:67-76 | A marker click calls no seek callback, yet after the player's sync on the new timeline position the video is within half a second of the marker's share of its duration. |
| VideoPlayer.ClickThenSync | src/components/VideoPlayer.tsx:67-76 | After a timeline click and the player's sync, the video is within half a second of the clicked share of its duration. |
| VideoUtils.FormatTime | src/utils/video.ts:44-60 | NaN gives `00:00`. A non-negative time gives three fields exactly from one hour on and two below. |
| VideoUtils.FormatTimeShort | src/utils/video.ts:57-59 | Below one hour the label is `MM:SS`: two-digit fields holding the whole minutes and the seconds below 60. |
| VideoUtils.FormatTimeLong | src/utils/video.ts:47-55 | From one hour on the label is `HH:MM:SS`: hours of at least two digits, then minutes and seconds below 60 in two digits each. |
| VideoUtils.ClockFields | src/utils/video.ts:47-49 | The three computed fields are the hours, minutes-within-hour and seconds-within-minute of the time's whole seconds. |
| VideoUtils.ParseTimeToSeconds | src/utils/video.ts:62-74 | Anything but two or three colon-separated parts gives 0, and NaN arises only from a part `Number` cannot read. |
| VideoUtils.ShortRoundTrip | src/utils/video.ts:44-74 | Below one hour, parsing the formatted time gives its whole seconds. |
| VideoUtils.LongRoundTrip | src/utils/video.ts:44-74 | From one hour on, parsing the formatted time gives its whole seconds. |
| VideoUtils.FormatThenParse | src/utils/video.ts:44-74 | For every non-negative time, parsing the formatted time gives its whole seconds. |
| VideoUtils.MinutesSecondsFields | src/components/Timeline.tsx:50-57 | For a non-negative time the `m:ss` label splits at `:` into exactly two fields: the whole minutes, and a two-digit seconds field holding the whole seconds modulo 60. |
| VideoUtils.MinutesSecondsRoundTrip | src/components/Timeline.tsx:50-57 | The unpadded `m:ss` label of the markers and the player reads back through `parseTimeToSeconds` as the whole seconds it was written from. |
| VideoUtils.FirstAffordable | src/utils/video.ts:80-88 | The first option the bandwidth affords with the 20% buffer, or the last when none is affordable. On a table sorted by descending bitrate it has the highest affordable bitrate. |
| VideoUtils.GetOptimalQuality | src/utils/video.ts:79-89 | Always a listed quality: the affordable one with the highest bitrate, or `480p` when none is affordable (always below 3000). |
| VideoUtils.FindBitrate | src/utils/video.ts:92-93 | The bitrate of the first option with that value, or 0 when there is none. |
| VideoUtils.GetQualityBitrate | src/utils/video.ts:91-94 | The matching option's bitrate, or 0 for an unknown label. |
| VideoUtils.OptionBitrate | src/utils/video.ts:91-94 | Each listed option's value looks up its own bitrate. |
| VideoUtils.GcdDivides | src/utils/video.ts:245 | The recursive gcd divides both arguments. |
| VideoUtils.ReducedByGcd | src/utils/video.ts:245-246 | Dividing by the gcd is exact and leaves coprime numbers. |
| VideoUtils.ReducedRatio | src/utils/video.ts:244-248 | The two reduced numbers times the gcd give the width and the height back, they keep the same ratio (cross products equal), and they are coprime. |
| VideoUtils.CalculateAspectRatio | src/utils/video.ts:244-248 | The text splits at ':' into two parts that read back as the reduced width and height. |
| ApiClient.DefaultConfig | src/lib/api-client.ts:23-31 | Timeout 30000, 3 attempts and a 1000 ms delay. The base URL is the environment's API URL when set and non-empty, else `/api`. |
| ApiClient.HandleError | src/lib/api-client.ts:178-206 | An `AbortError` is exactly a timeout, and a `TypeError` mentioning `fetch` is exactly a network error. Everything else is unknown, with the error's message or the default text. |
| ApiClient.ReportedTransportErrorsAreRetryable | src/lib/api-client.ts:178-225 | Every error reported as a timeout or a network failure is one the retry loop retries. |
| ApiClient.MaxAttempts | src/lib/api-client.ts:107 | An override's attempts are used unless absent or 0, in which case the client's setting applies. |
| ApiClient.RetryDelay | src/lib/api-client.ts:108 | An override's delay is used unless absent or 0, in which case the client's setting applies. |
| ApiClient.RetryFrom | src/lib/api-client.ts:110-139 | The loop makes at most `maxAttempts` calls, waiting `delay * k` after failed attempt k. All earlier attempts were retryable. It returns only a response whose status is not a retry code, fails with "Request failed after N attempts" on a last retry-code response, and rethrows a last thrown error. |
| ApiClient.IsRetryableError | src/lib/api-client.ts:211-225 | An error object is retryable exactly when it is a timeout or a `TypeError` (so every network failure is). A response-like object is retryable exactly when its status is a retry code. Nothing else is retryable. |
| ApiClient.ExecuteWithRetry | src/lib/api-client.ts:103-140 | Between one and the effective maximum calls, or none and the loop-exit error when the maximum is below 1. Waits are linear in the attempt number, and every attempt before the last was retryable. The last call decides the outcome: a response without a retry code is returned, a retry-code response fails with "Request failed after N attempts", and a thrown value is rethrown. The loop stops early only on an outcome it does not retry. |
| ApiClient.ZeroOverrideIsNoOverride | src/lib/api-client.ts:107-108 | An override of zero attempts and zero delay behaves exactly like no override. |
| ApiClient.FirstGoodResponseReturned | src/lib/api-client.ts:110-123 | A first response whose status is not a retry code is returned after one call with no wait. |
| ApiClient.ReturnsFirstGoodResponse | src/lib/api-client.ts:110-123 | After retryable attempts, the first response within the limit whose status is not a retry code is the one returned, at that attempt. |
| ApiClient.DefaultPolicyOnPersistentOutage | src/lib/api-client.ts:103-140 | With the defaults, an operation that keeps answering 503 is called three times, waits 1000 then 2000 ms, and fails with "Request failed after 3 attempts". |
| ApiClient.NonRetryableThrownAtOnce | src/lib/api-client.ts:124-136 | A thrown value that is not retryable ends the loop at once, with no further call or wait. |
| ApiClient.HeaderOr | src/lib/api-client.ts:158-159 | A present non-empty header is used, and the result is never empty when the fallback is not. |
| ApiClient.HandleResponse | src/lib/api-client.ts:145-173 | Success exactly for 200, 201, 202 and 204, and data only on a success whose body parsed. Message and `errors` follow the parsed and unparsed branches, and the request id and version are never empty. |
| ApiClient.SuccessIsNeverRetried | src/lib/api-client.ts:36-41 | No status is both a success code and a retry code. |
| ApiClient.QueryString | src/lib/api-client.ts:235-242 | The query is empty exactly when no parameter has a non-null value. |
| ApiClient.BuildUrlWithParams | src/lib/api-client.ts:230-244 | The URL is unchanged when parameters are missing, empty or all null/undefined. Otherwise it is the URL, `?` and the query of the non-null parameters; it always starts with the URL. |
| ApiClient.QuerySplitsIntoPairs | src/lib/api-client.ts:235-242 | When no key or value holds `&`, the query splits back into one `key=value` piece per non-null parameter, in order. |
| CameraService.StatusParam | src/services/camera.service.ts:46-50 | A status list is joined with `,` and splits back into the list (empty list: empty text). A status string is passed through. |
| CameraService.FilterParams | src/services/camera.service.ts:39-50 | `location` and `searchTerm` appear exactly when set and non-empty, with their values. `status` appears exactly when it is a list or a non-empty string, with its joined text. No other key appears, and none twice. |
| CameraService.GetCamerasParams | src/services/camera.service.ts:29-50 | `page` and `limit` always come first, defaulting to 1 and 50, followed by the filter parameters. No key is repeated and all values are text. |
| CameraService.GetCamerasUrl | src/services/camera.service.ts:29-52 | The request goes to `<base>/cameras?page=<page>&limit=<limit>`, followed by any filters. |
| CameraService.DefaultCamerasUrl | src/services/camera.service.ts:29-52 | With no filters and default paging the URL is exactly `<base>/cameras?page=1&limit=50`. |
| GradientColors.ParseHex | src/utils/gradient-colors.ts:141-143 | `parseInt(s, 16)` is NaN exactly when no hex digit follows the optional sign and `0x` prefix. |
| GradientColors.RemoveFirstHash | src/utils/gradient-colors.ts:140 | A string without `#` is unchanged, and otherwise exactly one character (the first `#`) is removed. |
| GradientColors.PairValue | src/utils/gradient-colors.ts:141-143 | Two hex digits parse to their byte value, in 0..255. |
| GradientColors.DecodeHexColor | src/utils/gradient-colors.ts:140-143 | A `#rrggbb` colour decodes into its three hex pairs, each a byte in 0..255. |
| GradientColors.DecodeColorHex | src/utils/gradient-colors.ts:140-143 | Decoding the `#rrggbb` text of three bytes gives the three bytes back. |
| GradientColors.Line | src/utils/gradient-colors.ts:145 | Each line starts with its variable name `--gradient-<name>-<shade>` and a colon. |
| GradientColors.LineReadsBack | src/utils/gradient-colors.ts:140-145 | For a `#rrggbb` colour the line ends in `;`. The text between `: ` and `;` splits at spaces into three numbers, the colour's three hex pairs. |
| GradientColors.ShadeLines | src/utils/gradient-colors.ts:138-146 | One line per shade of a category, in shade order. |
| GradientColors.GenerateCssVariables | src/utils/gradient-colors.ts:134-150 | No shades give the empty text. |
| GradientColors.LinesLength | src/utils/gradient-colors.ts:137-147 | There is one line per shade over all categories. |
| GradientColors.LinesMembers | src/utils/gradient-colors.ts:137-147 | Every shade's line is among the lines. |
| GradientColors.GeneratedLines | src/utils/gradient-colors.ts:134-150 | When names hold no newline, splitting the text at newlines gives back exactly the lines, one per shade. |
| GradientColors.PaletteLines | src/utils/gradient-colors.ts:10-52 | The bundled palette (three categories of ten shades) yields 30 lines. |
| GradientColors.PaletteColorsAreHex | src/utils/gradient-colors.ts:10-52 | Every bundled colour is `#rrggbb`, so each channel decodes to a byte. |
| GradientColors.GetColor | src/utils/gradient-colors.ts:158-160 | The colour is the palette entry of that category and shade. |
| GradientColors.GetCssVar | src/utils/gradient-colors.ts:134-163 | The text is `hsl(var(--gradient-<category>-<shade>))`. The variable it names is declared by a line of the generated palette text, and that line holds `getColor`'s colour. |
| Navbar.FirstChars | src/components/Navbar.tsx:54 | At most one character per word, since an empty word adds nothing. |
| Navbar.InitialsAreWordStarts | src/components/Navbar.tsx:54 | The first characters of the `split(' ')` pieces are exactly the name's characters that start a word. |
| Navbar.GetInitials | src/components/Navbar.tsx:52-55 | A missing or empty name gives `U`. Otherwise the result is the first at most two upper-cased word starts. |
| Navbar.RepeatedSpaceAddsNothing | src/components/Navbar.tsx:54 | Doubling a space does not change the initials: empty words contribute nothing. |
| Navbar.ActiveIncidents | src/components/Navbar.tsx:38 | An order-preserving subsequence of only unresolved incidents, as many as there are unresolved ones. |
| Navbar.ActiveItems | src/components/Navbar.tsx:78-80 | An item is highlighted exactly when its path equals the pathname: one item for a known route, none otherwise. |
| Navbar.IncidentBadge | src/components/Navbar.tsx:96-101 | The badge shows exactly on the `Incidents` item when some incident is unresolved, with the positive count of active incidents. |
| Navbar.MobileBadge | src/components/Navbar.tsx:200-202 | The mobile badge shows exactly when some incident is unresolved, with the count of active incidents. |

## Left out

- **Rendering and layout.** JSX, CSS classes, icons, the auth redirect and session checks, the play/mute/fullscreen buttons and the 30 s polling are not modelled; they hold no logic stated here.
- **Network and transport.** `fetch`, `AbortController` timeouts, `sleep` and the Supabase channel calls are replaced by inputs: attempt outcomes, fetch outcomes, change events and a flag for a configured client. Console logging is dropped.
- **Concurrency.** Store operations are atomic steps. Push events racing the polling, and two resolves racing each other, are not modelled.
- **Time and locale.** The local hour, the local day and the start of the local day are given as inputs, because they depend on the time zone. `toLocaleTimeString`, `formatTimelineTime` and `toISOString` (the `meta.timestamp` of a response) are left out.
- **Floating point.** Percentages and durations are exact reals. IEEE-754 rounding, `Infinity` and NaN are not modelled, except the explicit NaN branch of `formatTime` and NaN from `Number`/`parseInt`, which appear as `None`.
- **Other utilities.** `shuffle`, `random`, `randomInt`, `delay`, `timeout`, `retry`, `debounce`, `throttle`, `storage`, `deepClone`, `camelCase`, `kebabCase`, `buildUrl`, `parseQueryString`, date helpers, `rgbToHsl`, `getGradientColorScheme`, `getOptimalDimensions` and the DOM/media helpers of the video utilities are left out: they are randomness, timers, browser APIs, regular-expression engines or floating-point rounding.
- **Error context.** The `context.originalError` of an API error is dropped. `errors: data.errors || []` is modelled as an empty map, not an array.
- **Store.FetchCameras and Store.FetchIncidents.** The JSON body is given already parsed. A body that fails to parse counts as a failure, and its value is not checked against the types.
- **IncidentsRoute.GetIncidents.** The database is a table whose rows already carry their camera (`include: { camera: true }`). Rows with equal timestamps are kept in table order, where the database's order for ties is unspecified.
- **Realtime.DispatchIncidentChange.** The row's `timestamp` is an ISO text in the table and the incident's is a text too; both are modelled as the same epoch-millisecond number, so the cast keeps it.
- **Realtime.RowAsIncident.** The extra snake_case keys the cast object keeps (`camera_id`, `thumbnail_url`, `created_at`) are dropped, since no code reads them from an incident.
- **Common.GroupByKeys.** Keys are listed in first-insertion order. A JavaScript object lists integer-like keys first, in ascending order. The model also does not show three collisions: keys `1` and `"1"` share one property; a key named after an `Object.prototype` member (`constructor`, `toString`) makes `groupBy` throw and the tally build a text; and `pick`'s `key in obj` accepts inherited keys.
- **Analytics.Tally.** Keys are kept in first-insertion order. JavaScript objects list integer-like keys first, so the display order of such keys may differ; the counts do not.
- **Analytics.ResolutionRate.** The rate is stated as an exact real share, not as the `toFixed(1)` text.
- **Analytics.CapitalizeWords.** Its own contract states only the length. What it does to each character (word starts upper-cased, all other characters kept) is stated through Analytics.TypeLabel.
- **Analytics.KeyMetrics.** "Today" is decided by a given day-of function of the timestamp, not by `toDateString`.
- **Common.Chunk.** It requires `size >= 1`. With a smaller size the source loops forever on a non-empty array.
- **Common.Truncate.** `length` is an integer; fractional lengths passed to `slice` are not modelled. Lengths and indices count Unicode scalar values, where `str.length` and `slice` count UTF-16 code units: for `"😀😀😀"` truncated to 4 the source's length is 6 and it gives a lone high surrogate followed by `...`, while the model's length is 3 and it returns the input unchanged.
- **Common.Capitalize.** Case mapping covers ASCII letters only. The first character is a Unicode scalar value, where `charAt(0)` takes one UTF-16 code unit; since case mapping leaves surrogates unchanged, the source's two halves join back and the results agree.
- **IncidentsPage.FilteredIncidents.** The search lower-cases ASCII letters only; JavaScript's `toLowerCase` also maps `É` to `é`, so a search for `É` finds `Café` in the source but not in the model.
- **IncidentsPage.SearchIgnoresCase.** It requires ASCII search text. For other text JavaScript's `toUpperCase` can change the length (`ß` becomes `SS`), and the search then finds different incidents.
- **Navbar.GetInitials.** Upper-casing covers ASCII letters only; for `élodie durand` the source gives `ÉD` and the model `éD`. Word starts and the two-character cut count Unicode scalar values, where `n[0]` and `slice(0, 2)` count UTF-16 code units: for `😀bc dd` the source's initials are a lone high surrogate plus `D`, and the model's are `😀D`.
- **Common.GroupBy.** Its own contract states only distinct keys. Contents, keys and sizes are stated by Common.GroupByContents, Common.GroupByKeys and Common.GroupBySize.
- **TimelineMath.GridPointIsNearest.** Nearness is stated in grid units (time divided by the interval) rather than in seconds.
- **TimelineMath.SnapToGrid.** It requires a non-zero interval. Division by zero gives NaN or Infinity in the source.
- **TimelineMath.ScrollTimelineToTime.** It requires a non-zero pixels-per-second, for the same reason.
- **TimelineMath.OptimizeIncidentRendering.** It requires `maxIncidents >= 1`.
- **TimelineView.TimelineClick, TimelineView.MouseDown and TimelineView.MouseMove.** They require a positive bar width. A zero-width bar divides by zero in the source.
- **TimelineView.CurrentTimePosition.** It states the range only for a time within the day, not the exact value.
- **VideoPlayer.ProgressClick.** It requires a positive bar width, for the same reason.
- **VideoUtils.FormatTime.** Its contract says nothing about negative times, which the source formats with negative fields.
- **VideoUtils.ParseTimeToSeconds.** `Number` is modelled for the empty string and optionally signed ASCII digit strings. Whitespace, decimals, exponents and hex forms read as NaN here.
- **VideoUtils.GetOptimalQuality.** The descending sort of the quality table is not performed, because the bundled table is already in that order (stated and checked as `SortedByBitrateDesc`).
- **VideoUtils.CalculateAspectRatio and VideoUtils.ReducedRatio.** They take natural numbers, not both zero. Fractional or negative sizes, and `0:0` (which gives NaN), are not modelled.
- **GradientColors.ParseHex.** Leading whitespace, which `parseInt` skips, is not modelled.
- **GradientColors.GetCssVar.** It wraps the variable in `hsl(...)` while the variable holds an `r g b` triple. The model states the text as written.
- **ApiClient.QueryString.** Keys and values are joined as `key=value` with `&`, without `URLSearchParams` percent-encoding. Object entries are taken in the given order.
- **ApiClient.HandleResponse.** The status text and headers are inputs, and the `meta.timestamp` is left out.
- **Realtime.SetupRealtimeSubscriptions.** A subscription is a record of channel, table and a subscribed flag. Delivery itself is the change-event input.

## Findings

| source | as written | input that shows it | evidently intended | confidence | as-written member | corrected member |
|---|---|---|---|---|---|---|
| src/app/incidents/page.tsx:46 | The page loads with `fetchIncidents(true)`, commented "Get all incidents". That call sends `resolved=true`, which the route turns into a resolved-only filter. | A table holding one unresolved incident: the page loads an empty list. | Load every incident (the route without a `resolved` parameter). | medium; not executed | IncidentsPage.LoadHidesActiveIncidents | IncidentsPage.LoadAllIncidents |
| src/app/analytics/page.tsx:39 | The analytics page loads the same way, so every incident it counts is resolved. | A table with one resolved and one unresolved incident: the resolution rate reads 100.0 instead of 50.0. | The rate over all incidents. | medium; not executed | Analytics.LoadedRateIsFull | Analytics.LoadedAllRate |
| src/store/useSecureSightStore.ts:108-115 | A failed resolve rolls back by writing `resolved: false`, not the value from before the call; line 163 calls this "Rollback optimistic update". | An incident already resolved, then a resolve whose call fails: it ends unresolved. The incident list disables its resolve button for resolved incidents (`src/components/IncidentList.tsx:212`), so only another caller reaches this. | Undo the optimistic update, that is, restore each incident's value from before the call. | low; not executed | Store.FailedResolveUnresolvesResolved | Store.ResolveIncidentRestoring |
| src/lib/realtime.ts:46 | An INSERT event adds `newRecord as Incident`. The row's columns are `camera_id`, `thumbnail_url` and `created_at` (`src/lib/supabase.ts:45-55`), so the added incident has no `cameraId`, `thumbnailUrl` or `createdAt`. | Any INSERT event for camera 1: camera 1's incident count on the analytics page does not change. | Map the columns onto the incident's keys. | medium; not executed | Realtime.InsertCountsForNoCamera | Realtime.MappedInsertCountsForItsCamera |
