/**
 * The client-side state container of the dashboard: the camera and incident
 * collections, the selection, the scrubber position and the loading flag, with
 * the incident list operations used by real-time updates, the optimistic
 * resolve with its rollback, and the effect of the two fetches on the state.
 * The network is an input: every remote call is given by its outcome.
 */
module Store {
  import opened Wrappers
  import opened JsText
  import Seqs

  datatype CameraStatus = Active | Inactive

  datatype Camera = Camera(
    id: int,
    name: string,
    location: string,
    status: CameraStatus,
    thumbnailUrl: string,
    streamUrl: string,
    createdAt: string)

  /**
   * An incident; `timestamp` is in epoch milliseconds, `camera` is the
   * optional embedded camera. `cameraId`, `thumbnailUrl` and `createdAt` are
   * `None` when the object lacks the key, as an incident cast from a raw
   * table row (whose columns are `camera_id`, `thumbnail_url`, `created_at`) does.
   */
  datatype Incident = Incident(
    id: int,
    cameraId: Option<int>,
    incidentType: string,
    description: string,
    severity: string,
    resolved: bool,
    thumbnailUrl: Option<string>,
    timestamp: int,
    createdAt: Option<string>,
    camera: Option<Camera>)

  /**
   * A partial incident (`Partial<Incident>`): `None` means the key is absent
   * from the object, so spreading it leaves the original field alone.
   */
  datatype Patch = Patch(
    id: Option<int>,
    cameraId: Option<int>,
    incidentType: Option<string>,
    description: Option<string>,
    severity: Option<string>,
    resolved: Option<bool>,
    thumbnailUrl: Option<string>,
    timestamp: Option<int>,
    createdAt: Option<string>,
    camera: Option<Option<Camera>>)

  const EmptyPatch := Patch(None, None, None, None, None, None, None, None, None, None)

  /** The patch `{ resolved: b }`. */
  function ResolvedPatch(b: bool): Patch
  {
    EmptyPatch.(resolved := Some(b))
  }

  /** `{ ...x, ...p }`: every key present in `p` overrides the field of `x`. */
  function Merge(x: Incident, p: Patch): Incident
  {
    Incident(
      p.id.GetOr(x.id),
      if p.cameraId.Some? then p.cameraId else x.cameraId,
      p.incidentType.GetOr(x.incidentType),
      p.description.GetOr(x.description),
      p.severity.GetOr(x.severity),
      p.resolved.GetOr(x.resolved),
      if p.thumbnailUrl.Some? then p.thumbnailUrl else x.thumbnailUrl,
      p.timestamp.GetOr(x.timestamp),
      if p.createdAt.Some? then p.createdAt else x.createdAt,
      p.camera.GetOr(x.camera))
  }

  datatype State = State(
    cameras: seq<Camera>,
    incidents: seq<Incident>,
    selectedCamera: Option<Camera>,
    loading: bool,
    timelinePosition: real,
    selectedIncident: Option<Incident>)

  const InitialState := State([], [], None, false, 0.0, None)

  function HasId(id: int): Incident -> bool
  {
    (x: Incident) => x.id == id
  }

  function LacksId(id: int): Incident -> bool
  {
    (x: Incident) => x.id != id
  }

  /** `incident.resolved` and `!incident.resolved`, as filters. */
  function IsResolved(): Incident -> bool
  {
    (x: Incident) => x.resolved
  }

  function IsUnresolved(): Incident -> bool
  {
    (x: Incident) => !x.resolved
  }

  /** How many entries of the list carry the id. */
  function IdCount(xs: seq<Incident>, id: int): nat
  {
    Seqs.CountIf(xs, HasId(id))
  }

  /** `addIncident`: the incident goes in front; an entry with the same id is not looked for. */
  function AddIncident(xs: seq<Incident>, inc: Incident): (r: seq<Incident>)
    ensures |r| == |xs| + 1 && r[0] == inc && r[1..] == xs
    ensures IdCount(r, inc.id) == IdCount(xs, inc.id) + 1
    ensures forall id :: id != inc.id ==> IdCount(r, id) == IdCount(xs, id)
  {
    var r := [inc] + xs;
    assert r[1..] == xs;
    r
  }

  /** Replaces each entry carrying `id` by `f` of it; all other entries stay where and as they are. */
  function MapMatching(xs: seq<Incident>, id: int, f: Incident -> Incident): (r: seq<Incident>)
    ensures |r| == |xs|
    ensures forall i :: 0 <= i < |xs| && xs[i].id != id ==> r[i] == xs[i]
    ensures forall i :: 0 <= i < |xs| && xs[i].id == id ==> r[i] == f(xs[i])
  {
    if xs == [] then []
    else [if xs[0].id == id then f(xs[0]) else xs[0]] + MapMatching(xs[1..], id, f)
  }

  function MergeWith(p: Patch): Incident -> Incident
  {
    (x: Incident) => Merge(x, p)
  }

  function SetResolved(b: bool): Incident -> Incident
  {
    (x: Incident) => x.(resolved := b)
  }

  /** `updateIncident`: merges the patch into every entry carrying the id. */
  function UpdateIncident(xs: seq<Incident>, id: int, p: Patch): (r: seq<Incident>)
    ensures |r| == |xs|
    ensures forall i :: 0 <= i < |xs| && xs[i].id != id ==> r[i] == xs[i]
    ensures forall i :: 0 <= i < |xs| && xs[i].id == id ==> r[i] == Merge(xs[i], p)
    ensures IdCount(xs, id) == 0 ==> r == xs
  {
    Seqs.CountZero(xs, HasId(id));
    MapMatching(xs, id, MergeWith(p))
  }

  /** `removeIncident`: drops every entry carrying the id and keeps the others in order. */
  function RemoveIncident(xs: seq<Incident>, id: int): (r: seq<Incident>)
    ensures IdCount(r, id) == 0
    ensures |r| == |xs| - IdCount(xs, id)
    ensures Seqs.IsSubseq(r, xs)
    ensures forall i :: 0 <= i < |xs| && xs[i].id != id ==> xs[i] in r
  {
    var r := Seqs.Filter(xs, LacksId(id));
    Seqs.FilterIsSubseq(xs, LacksId(id));
    Seqs.FilterLength(xs, LacksId(id));
    Seqs.CountSplit(xs, LacksId(id), HasId(id));
    Seqs.CountZero(r, HasId(id));
    r
  }

  /** `optimisticallyResolveIncident`: marks the entries carrying the id resolved. */
  function OptimisticallyResolveIncident(xs: seq<Incident>, id: int): (r: seq<Incident>)
    ensures |r| == |xs|
    ensures forall i :: 0 <= i < |xs| && xs[i].id != id ==> r[i] == xs[i]
    ensures forall i :: 0 <= i < |xs| && xs[i].id == id ==> r[i] == xs[i].(resolved := true)
  {
    MapMatching(xs, id, SetResolved(true))
  }

  /** `rollbackIncidentResolve`: marks the entries carrying the id unresolved, whatever they were. */
  function RollbackIncidentResolve(xs: seq<Incident>, id: int): (r: seq<Incident>)
    ensures |r| == |xs|
    ensures forall i :: 0 <= i < |xs| && xs[i].id != id ==> r[i] == xs[i]
    ensures forall i :: 0 <= i < |xs| && xs[i].id == id ==> r[i] == xs[i].(resolved := false)
  {
    MapMatching(xs, id, SetResolved(false))
  }

  /** The remote resolve call as seen by the store: a response status or a thrown network error. */
  datatype ResolveOutcome = ResolveResponse(status: int) | ResolveNetworkError

  /** `response.ok`. */
  predicate IsOk(status: int)
  {
    200 <= status <= 299
  }

  predicate ResolveSucceeded(o: ResolveOutcome)
  {
    o.ResolveResponse? && IsOk(o.status)
  }

  /** The list right after the optimistic step (before the network answers) and at the end. */
  datatype ResolveTrace = ResolveTrace(optimistic: seq<Incident>, final: seq<Incident>)

  /** `resolveIncident`: optimistic apply, then rollback when the call throws or is not ok. */
  function ResolveIncident(xs: seq<Incident>, id: int, o: ResolveOutcome): (t: ResolveTrace)
    ensures |t.optimistic| == |xs| && |t.final| == |xs|
    ensures forall i :: 0 <= i < |xs| && xs[i].id == id ==> t.optimistic[i].resolved
    ensures forall i :: 0 <= i < |xs| && xs[i].id == id ==>
      t.final[i] == xs[i].(resolved := ResolveSucceeded(o))
    ensures forall i :: 0 <= i < |xs| && xs[i].id != id ==>
      t.optimistic[i] == xs[i] && t.final[i] == xs[i]
  {
    var optimistic := OptimisticallyResolveIncident(xs, id);
    var final := if ResolveSucceeded(o) then optimistic else RollbackIncidentResolve(optimistic, id);
    ResolveTrace(optimistic, final)
  }

  /**
   * Resolve with a rollback that restores each entry's value from before the
   * call instead of writing `false`.
   */
  function ResolveIncidentRestoring(xs: seq<Incident>, id: int, o: ResolveOutcome): (t: ResolveTrace)
    ensures t.optimistic == OptimisticallyResolveIncident(xs, id)
    ensures ResolveSucceeded(o) ==> t.final == t.optimistic
    ensures !ResolveSucceeded(o) ==> t.final == xs
  {
    var optimistic := OptimisticallyResolveIncident(xs, id);
    ResolveTrace(optimistic, if ResolveSucceeded(o) then optimistic else xs)
  }

  /** A fetch as seen by the store: a response (status, parsed JSON body if it parsed) or a thrown error. */
  datatype FetchOutcome<T> = HttpResponse(status: int, body: Option<T>) | NetworkFailure

  predicate FetchSucceeded<T>(o: FetchOutcome<T>)
  {
    o.HttpResponse? && IsOk(o.status) && o.body.Some?
  }

  /** `fetchCameras`: replaces the cameras on success, keeps them on failure; loading ends false. */
  function FetchCameras(s: State, o: FetchOutcome<seq<Camera>>): (r: State)
    ensures !r.loading
    ensures FetchSucceeded(o) ==> r.cameras == o.body.value
    ensures !FetchSucceeded(o) ==> r.cameras == s.cameras
    ensures r.(cameras := s.cameras, loading := s.loading) == s
  {
    if FetchSucceeded(o) then s.(cameras := o.body.value, loading := false)
    else s.(loading := false)
  }

  /** The request path of `fetchIncidents(resolved)`; an omitted argument means `false`. */
  function IncidentsRequestPath(resolved: Option<bool>): (path: string)
    ensures StartsWith(path, "/api/incidents?resolved=")
    ensures path == "/api/incidents?resolved=true" <==> resolved == Some(true)
  {
    "/api/incidents?resolved=" + (if resolved.GetOr(false) then "true" else "false")
  }

  /** The value of the `resolved` query parameter that `fetchIncidents(resolved)` sends. */
  function IncidentsResolvedParam(resolved: Option<bool>): (v: Option<string>)
    ensures v.Some?
    ensures v == Some("true") <==> resolved == Some(true)
  {
    Some(if resolved.GetOr(false) then "true" else "false")
  }

  /** `fetchIncidents`: replaces the incidents on success, keeps them on failure; loading ends false. */
  function FetchIncidents(s: State, o: FetchOutcome<seq<Incident>>): (r: State)
    ensures !r.loading
    ensures FetchSucceeded(o) ==> r.incidents == o.body.value
    ensures !FetchSucceeded(o) ==> r.incidents == s.incidents
    ensures r.(incidents := s.incidents, loading := s.loading) == s
  {
    if FetchSucceeded(o) then s.(incidents := o.body.value, loading := false)
    else s.(loading := false)
  }

  /** `setTimelinePosition`. */
  function SetTimelinePosition(s: State, position: real): (r: State)
    ensures r.timelinePosition == position
    ensures r.(timelinePosition := s.timelinePosition) == s
  {
    s.(timelinePosition := position)
  }

  /** Two inserts of the same incident leave two entries carrying its id. */
  lemma DuplicateInsertKeepsBoth(xs: seq<Incident>, inc: Incident)
    requires IdCount(xs, inc.id) == 0
    ensures IdCount(AddIncident(AddIncident(xs, inc), inc), inc.id) == 2
  {
  }

  /** Removing the id of a freshly added incident gives back the list from before. */
  lemma {:induction false} AddThenRemove(xs: seq<Incident>, inc: Incident)
    requires IdCount(xs, inc.id) == 0
    ensures RemoveIncident(AddIncident(xs, inc), inc.id) == xs
  {
    Seqs.CountZero(xs, HasId(inc.id));
    Seqs.FilterAll(xs, LacksId(inc.id));
    Seqs.FilterConcat([inc], xs, LacksId(inc.id));
  }

  /** Removing twice is removing once. */
  lemma RemoveIdempotent(xs: seq<Incident>, id: int)
    ensures RemoveIncident(RemoveIncident(xs, id), id) == RemoveIncident(xs, id)
  {
    Seqs.FilterIdempotent(xs, LacksId(id));
  }

  /** The optimistic step is the update with the patch `{ resolved: true }`, and it is idempotent. */
  lemma OptimisticIsResolvedPatch(xs: seq<Incident>, id: int)
    ensures OptimisticallyResolveIncident(xs, id) == UpdateIncident(xs, id, ResolvedPatch(true))
    ensures OptimisticallyResolveIncident(OptimisticallyResolveIncident(xs, id), id)
            == OptimisticallyResolveIncident(xs, id)
  {
    var a := OptimisticallyResolveIncident(xs, id);
    var b := UpdateIncident(xs, id, ResolvedPatch(true));
    assert forall i :: 0 <= i < |xs| ==> a[i] == b[i];
    var c := OptimisticallyResolveIncident(a, id);
    assert forall i :: 0 <= i < |xs| ==> c[i] == a[i];
  }

  /** The rollback is the update with the patch `{ resolved: false }`. */
  lemma RollbackIsUnresolvedPatch(xs: seq<Incident>, id: int)
    ensures RollbackIncidentResolve(xs, id) == UpdateIncident(xs, id, ResolvedPatch(false))
  {
    var a := RollbackIncidentResolve(xs, id);
    var b := UpdateIncident(xs, id, ResolvedPatch(false));
    assert forall i :: 0 <= i < |xs| ==> a[i] == b[i];
  }

  /** Merging the same patch twice is merging it once; an empty patch changes nothing. */
  lemma MergeIdempotent(x: Incident, p: Patch)
    ensures Merge(Merge(x, p), p) == Merge(x, p)
    ensures Merge(x, EmptyPatch) == x
  {
  }

  /**
   * A failed resolve of an incident that was already resolved leaves it
   * unresolved: the rollback writes `false` instead of the earlier value.
   */
  lemma FailedResolveUnresolvesResolved(inc: Incident)
    requires inc.resolved
    ensures !ResolveIncident([inc], inc.id, ResolveNetworkError).final[0].resolved
    ensures !ResolveIncident([inc], inc.id, ResolveResponse(500)).final[0].resolved
  {
  }

  /** With the restoring rollback, a failed resolve leaves every incident as it was. */
  lemma FailedResolveRestores(xs: seq<Incident>, id: int, o: ResolveOutcome)
    requires !ResolveSucceeded(o)
    ensures forall i :: 0 <= i < |xs| ==>
      ResolveIncidentRestoring(xs, id, o).final[i].resolved == xs[i].resolved
  {
  }
}
