/**
 * The real-time synchronisation client: it subscribes to change events on the
 * cameras and incidents tables and turns each event into a store operation.
 * The transport (channels, subscribe/unsubscribe calls) is abstracted to a
 * subscription record; events and fetch results are inputs.
 */
module Realtime {
  import opened Wrappers
  import opened Store
  import Seqs
  import Common
  import Analytics

  /**
   * A row of the incidents table as the change channel delivers it, under the
   * table's own column names (`camera_id`, `thumbnail_url`, `created_at`);
   * it carries no embedded camera. `timestamp` is in epoch milliseconds, as on
   * an incident.
   */
  datatype Row = Row(
    id: int,
    camera_id: int,
    incidentType: string,
    description: string,
    severity: string,
    resolved: bool,
    thumbnail_url: string,
    timestamp: int,
    created_at: string)

  /** The old record of a change event; only its id is read. */
  datatype OldRecord = OldRecord(id: int)

  /** A change event: its type (`INSERT`, `UPDATE`, `DELETE`, ...) and the new/old records when present. */
  datatype ChangeEvent = ChangeEvent(eventType: string, newRecord: Option<Row>, oldRecord: Option<OldRecord>)

  /** The store operation an incident change event asks for. */
  datatype Action = AddAction(incident: Incident) | UpdateAction(id: int, patch: Patch) | RemoveAction(id: int) | NoAction

  /**
   * `newRecord as Incident`: a cast renames nothing, so the keys the row and
   * an incident share are read, while `cameraId`, `thumbnailUrl` and
   * `createdAt` are absent (the row holds them as snake_case columns).
   */
  function RowAsIncident(r: Row): (inc: Incident)
    ensures inc.id == r.id && inc.incidentType == r.incidentType && inc.description == r.description
    ensures inc.severity == r.severity && inc.resolved == r.resolved && inc.timestamp == r.timestamp
    ensures inc.cameraId.None? && inc.thumbnailUrl.None? && inc.createdAt.None? && inc.camera.None?
  {
    Incident(r.id, None, r.incidentType, r.description, r.severity, r.resolved,
             None, r.timestamp, None, None)
  }

  /**
   * `newRecord as Partial<Incident>`: the shared keys are present; the
   * snake_case columns match no incident key, and `camera` is absent.
   */
  function RowAsPatch(r: Row): (p: Patch)
    ensures p.id == Some(r.id) && p.incidentType == Some(r.incidentType) && p.description == Some(r.description)
    ensures p.severity == Some(r.severity) && p.resolved == Some(r.resolved) && p.timestamp == Some(r.timestamp)
    ensures p.cameraId.None? && p.thumbnailUrl.None? && p.createdAt.None? && p.camera.None?
  {
    Patch(Some(r.id), None, Some(r.incidentType), Some(r.description), Some(r.severity),
          Some(r.resolved), None, Some(r.timestamp), None, None)
  }

  /** The incident-channel handler's choice of store operation. */
  function DispatchIncidentChange(e: ChangeEvent): (a: Action)
    ensures e.eventType == "INSERT" && e.newRecord.Some? <==> a.AddAction?
    ensures a.AddAction? ==> a.incident == RowAsIncident(e.newRecord.value)
    ensures e.eventType == "UPDATE" && e.newRecord.Some? <==> a.UpdateAction?
    ensures a.UpdateAction? ==> a.id == e.newRecord.value.id && a.patch == RowAsPatch(e.newRecord.value)
    ensures e.eventType == "DELETE" && e.oldRecord.Some? <==> a.RemoveAction?
    ensures a.RemoveAction? ==> a.id == e.oldRecord.value.id
  {
    if e.eventType == "INSERT" && e.newRecord.Some? then AddAction(RowAsIncident(e.newRecord.value))
    else if e.eventType == "UPDATE" && e.newRecord.Some? then UpdateAction(e.newRecord.value.id, RowAsPatch(e.newRecord.value))
    else if e.eventType == "DELETE" && e.oldRecord.Some? then RemoveAction(e.oldRecord.value.id)
    else NoAction
  }

  function ApplyAction(s: State, a: Action): State
  {
    match a
    case AddAction(inc) => s.(incidents := AddIncident(s.incidents, inc))
    case UpdateAction(id, p) => s.(incidents := UpdateIncident(s.incidents, id, p))
    case RemoveAction(id) => s.(incidents := RemoveIncident(s.incidents, id))
    case NoAction => s
  }

  /** The effect of one incident change event on the store; only the incident list can change. */
  function HandleIncidentChange(s: State, e: ChangeEvent): (r: State)
    ensures r.(incidents := s.incidents) == s
    ensures e.eventType !in {"INSERT", "UPDATE", "DELETE"} ==> r == s
    ensures e.eventType == "DELETE" && e.oldRecord.None? ==> r == s
    ensures e.eventType in {"INSERT", "UPDATE"} && e.newRecord.None? ==> r == s
  {
    ApplyAction(s, DispatchIncidentChange(e))
  }

  /**
   * The camera-channel handler: whatever the event, the whole camera list is
   * fetched again (`fetchCameras`); the event's records are not merged.
   */
  function HandleCameraChange(s: State, e: ChangeEvent, fetched: FetchOutcome<seq<Camera>>): (r: State)
    ensures r.incidents == s.incidents
    ensures r.cameras == (if FetchSucceeded(fetched) then fetched.body.value else s.cameras)
    ensures !r.loading
  {
    FetchCameras(s, fetched)
  }

  /** One channel subscription. */
  datatype Subscription = Subscription(channel: string, table: string, subscribed: bool)

  datatype Subscriptions = Subscriptions(cameras: Subscription, incidents: Subscription)

  /** `setupRealtimeSubscriptions`: nothing (undefined) without a configured client. */
  function SetupRealtimeSubscriptions(clientConfigured: bool): (r: Option<Subscriptions>)
    ensures r.Some? <==> clientConfigured
    ensures r.Some? ==> r.value.cameras == Subscription("cameras", "cameras", true)
    ensures r.Some? ==> r.value.incidents == Subscription("incidents", "incidents", true)
  {
    if clientConfigured then
      Some(Subscriptions(Subscription("cameras", "cameras", true), Subscription("incidents", "incidents", true)))
    else None
  }

  /** `cleanup`: both channels are unsubscribed. */
  function Cleanup(subs: Subscriptions): (r: Subscriptions)
    ensures !r.cameras.subscribed && !r.incidents.subscribed
    ensures r.cameras.(subscribed := true) == subs.cameras.(subscribed := true)
    ensures r.incidents.(subscribed := true) == subs.incidents.(subscribed := true)
  {
    Subscriptions(subs.cameras.(subscribed := false), subs.incidents.(subscribed := false))
  }

  /**
   * An UPDATE event rewrites the shared fields of the matching incidents from
   * the row, but their camera id, thumbnail, creation time and embedded camera
   * stay as they were: the row names the first three differently and lacks the last.
   */
  lemma UpdateKeepsUnmappedFields(s: State, r: Row, oldRecord: Option<OldRecord>)
    ensures var s' := HandleIncidentChange(s, ChangeEvent("UPDATE", Some(r), oldRecord));
      forall i :: 0 <= i < |s.incidents| && s.incidents[i].id == r.id ==>
        s'.incidents[i] == s.incidents[i].(incidentType := r.incidentType, description := r.description,
          severity := r.severity, resolved := r.resolved, timestamp := r.timestamp)
  {
  }

  /** An INSERT followed by a DELETE of a new id restores the store. */
  lemma InsertThenDelete(s: State, r: Row, other: Option<Row>)
    requires IdCount(s.incidents, r.id) == 0
    ensures HandleIncidentChange(HandleIncidentChange(s, ChangeEvent("INSERT", Some(r), None)),
                                 ChangeEvent("DELETE", other, Some(OldRecord(r.id)))) == s
  {
    AddThenRemove(s.incidents, RowAsIncident(r));
  }

  /** A redelivered INSERT leaves two entries with the same id. */
  lemma RedeliveredInsertDuplicates(s: State, r: Row)
    requires IdCount(s.incidents, r.id) == 0
    ensures var e := ChangeEvent("INSERT", Some(r), None);
      IdCount(HandleIncidentChange(HandleIncidentChange(s, e), e).incidents, r.id) == 2
  {
  }

  // ---------------------------------------------------------------------------
  // The column mapping the cast stands in for
  // ---------------------------------------------------------------------------

  /** An INSERT of a new row leaves every camera card's incident count as it was. */
  lemma {:induction false} InsertCountsForNoCamera(s: State, r: Row, cameraId: int)
    ensures Analytics.CameraIncidentCount(HandleIncidentChange(s, ChangeEvent("INSERT", Some(r), None)).incidents, cameraId) ==
      Analytics.CameraIncidentCount(s.incidents, cameraId)
  {
    var xs := HandleIncidentChange(s, ChangeEvent("INSERT", Some(r), None)).incidents;
    var p := Common.KeyIs(Analytics.CameraIdOf(), Some(cameraId));
    assert xs == [RowAsIncident(r)] + s.incidents;
    Seqs.FilterLength(xs, p);
    Seqs.FilterLength(s.incidents, p);
    Seqs.CountCons(RowAsIncident(r), s.incidents, p);
  }

  /** The row read into an incident column by column: `camera_id` into `cameraId`, and so on. */
  function MappedIncident(r: Row): (inc: Incident)
    ensures inc.cameraId == Some(r.camera_id) && inc.thumbnailUrl == Some(r.thumbnail_url)
    ensures inc.createdAt == Some(r.created_at)
    ensures inc.(cameraId := None, thumbnailUrl := None, createdAt := None) == RowAsIncident(r)
  {
    Incident(r.id, Some(r.camera_id), r.incidentType, r.description, r.severity, r.resolved,
             Some(r.thumbnail_url), r.timestamp, Some(r.created_at), None)
  }

  /** The row read into a partial incident column by column. */
  function MappedPatch(r: Row): (p: Patch)
    ensures p.cameraId == Some(r.camera_id) && p.thumbnailUrl == Some(r.thumbnail_url)
    ensures p.createdAt == Some(r.created_at)
    ensures p.(cameraId := None, thumbnailUrl := None, createdAt := None) == RowAsPatch(r)
  {
    Patch(Some(r.id), Some(r.camera_id), Some(r.incidentType), Some(r.description), Some(r.severity),
          Some(r.resolved), Some(r.thumbnail_url), Some(r.timestamp), Some(r.created_at), None)
  }

  /** The incident-channel handler with the rows mapped to incidents instead of cast. */
  function HandleIncidentChangeMapped(s: State, e: ChangeEvent): (r: State)
    ensures r.(incidents := s.incidents) == s
    ensures e.eventType == "INSERT" && e.newRecord.Some? ==> r.incidents == AddIncident(s.incidents, MappedIncident(e.newRecord.value))
    ensures e.eventType == "UPDATE" && e.newRecord.Some? ==>
      r.incidents == UpdateIncident(s.incidents, e.newRecord.value.id, MappedPatch(e.newRecord.value))
    ensures e.eventType == "DELETE" && e.oldRecord.Some? ==> r.incidents == RemoveIncident(s.incidents, e.oldRecord.value.id)
    ensures e.eventType !in {"INSERT", "UPDATE", "DELETE"} ==> r == s
  {
    var a := match DispatchIncidentChange(e)
      case AddAction(_) => AddAction(MappedIncident(e.newRecord.value))
      case UpdateAction(id, _) => UpdateAction(id, MappedPatch(e.newRecord.value))
      case other => other;
    ApplyAction(s, a)
  }

  /** With the mapping, an INSERT counts once more on the card of the row's camera. */
  lemma {:induction false} MappedInsertCountsForItsCamera(s: State, r: Row)
    ensures Analytics.CameraIncidentCount(HandleIncidentChangeMapped(s, ChangeEvent("INSERT", Some(r), None)).incidents, r.camera_id) ==
      Analytics.CameraIncidentCount(s.incidents, r.camera_id) + 1
  {
    var xs := HandleIncidentChangeMapped(s, ChangeEvent("INSERT", Some(r), None)).incidents;
    var p := Common.KeyIs(Analytics.CameraIdOf(), Some(r.camera_id));
    assert xs == [MappedIncident(r)] + s.incidents;
    Seqs.FilterLength(xs, p);
    Seqs.FilterLength(s.incidents, p);
    Seqs.CountCons(MappedIncident(r), s.incidents, p);
  }
}
