/** The event handlers (src/api/events.rs): listing, creating, showing,
    updating and deactivating door events, and the scan statistics shown
    for one event.

    The create handlers as written do not pass a verifier reference to the
    store, which the store's record requires; this model takes it as an
    extra input of the create step, and the update handler passes none.
    Scan statistics are counted over the event's stored verification rows. */
module EventsApi {
  import opened Base
  import opened Strings
  import opened CardStore
  import Ev = Event
  import VA = VerificationApi

  datatype EventError =
    | DatabaseError
    | NotFound
    | ValidationError(message: string)
    | SessionError(message: string)

  /** `EventError::into_response`. */
  function StatusOf(e: EventError): (status: int)
    ensures status == StatusNotFound <==> e.NotFound?
    ensures status == StatusBadRequest <==> e.ValidationError?
    ensures status == StatusInternalServerError <==> e.DatabaseError? || e.SessionError?
  {
    match e
    case NotFound => StatusNotFound
    case ValidationError(_) => StatusBadRequest
    case _ => StatusInternalServerError
  }

  const NameRequired: string := "Event name is required"

  // ---------------------------------------------------------------------
  // Listing

  /** `list_events_page` and `list_events_json`: one issuer's events (all
      of them unless `active_only` is set) when an issuer is named,
      otherwise the active events of every issuer. */
  function ListEvents(es: Ev.Events, issuerId: Option<Uuid>, activeOnly: Option<bool>): (r: Ev.Events)
    ensures Ev.InDateOrder(r, true)
    ensures issuerId.Some? ==> forall e ::
      multiset(r)[e] == (if e.issuerId == issuerId.value && (activeOnly != Some(true) || e.isActive)
                         then multiset(es)[e] else 0)
    ensures issuerId.None? ==> forall e :: multiset(r)[e] == (if e.isActive then multiset(es)[e] else 0)
  {
    match issuerId
    case Some(id) => Ev.ListByIssuer(es, id, activeOnly.GetOr(false))
    case None => Ev.ListActive(es)
  }

  /** Naming an issuer without `active_only` lists its inactive events too,
      while the unfiltered listing never shows an inactive one, so
      `active_only` has no effect without an issuer. */
  lemma IssuerListingIncludesInactive(es: Ev.Events, e: Ev.Event, activeOnly: Option<bool>)
    requires e in es && !e.isActive
    ensures e in ListEvents(es, Some(e.issuerId), None)
    ensures e in ListEvents(es, Some(e.issuerId), Some(false))
    ensures e !in ListEvents(es, None, activeOnly)
  {
    assert multiset(es)[e] > 0;
    assert multiset(ListEvents(es, Some(e.issuerId), None))[e] > 0;
    assert multiset(ListEvents(es, Some(e.issuerId), Some(false)))[e] > 0;
    assert multiset(ListEvents(es, None, activeOnly))[e] == 0;
  }

  // ---------------------------------------------------------------------
  // Creating, reading, updating, deactivating

  datatype CreateEventRequest = CreateEventRequest(
    issuerId: Uuid,
    eventName: string,
    eventDescription: Option<string>,
    eventDate: Date,
    eventLocation: Option<string>)

  /** Which of the two create routes was used. */
  datatype Route = FormRoute | JsonRoute

  /** The created event, and the HTTP status the route answers with: the
      form route redirects (303), the JSON route answers 201. */
  datatype Created = Created(event: Ev.Event, status: int)

  const StatusSeeOther: int := 303

  /** `create_event_form` and `create_event_json`: a blank name is
      rejected before any write; otherwise the event is stored with the
      name exactly as sent, and starts active. */
  function CreateEvent(es: Ev.Events, route: Route, req: CreateEventRequest, verifierRef: string, freshId: Uuid, now: Time)
    : (r: Result<(Created, Ev.Events), EventError>)
    requires !Ev.IdIn(es, freshId)
    ensures r.Err? <==> AllWhitespace(req.eventName)
    ensures r.Err? ==> r.error == ValidationError(NameRequired)
    ensures r.Ok? ==>
      var e := r.value.0.event;
      && r.value.1 == es + [e]
      && e.id == freshId && e.isActive && e.issuerId == req.issuerId
      && e.eventName == req.eventName && e.eventDate == req.eventDate
      && e.eventDescription == req.eventDescription && e.eventLocation == req.eventLocation
      && Ev.FindById(r.value.1, freshId) == Some(e)
    ensures r.Ok? ==> r.value.0.status == (if route == FormRoute then StatusSeeOther else StatusCreated)
  {
    BlankIffAllWhitespace(req.eventName);
    if IsBlank(req.eventName) then Err(ValidationError(NameRequired))
    else
      var data := Ev.CreateEventData(req.issuerId, req.eventName, req.eventDescription, req.eventDate,
                                     req.eventLocation, verifierRef);
      var (e, es') := Ev.Create(es, data, freshId, now);
      FoundAtEnd(es, e);
      Ok((Created(e, if route == FormRoute then StatusSeeOther else StatusCreated), es'))
  }

  /** A row appended under a fresh id is what a lookup of that id finds. */
  lemma FoundAtEnd(es: Ev.Events, e: Ev.Event)
    requires !Ev.IdIn(es, e.id)
    ensures Ev.FindById(es + [e], e.id) == Some(e)
  {
    assert forall i :: 0 <= i < |es| ==> (es + [e])[i] == es[i] && es[i].id != e.id;
    assert (es + [e])[|es|] == e;
    var found := Ev.FindById(es + [e], e.id).value;
    var k :| 0 <= k < |es + [e]| && (es + [e])[k] == found;
    assert k == |es|;
  }

  /** Both create routes accept and reject the same requests and store the
      same event. */
  lemma RoutesAgree(es: Ev.Events, req: CreateEventRequest, verifierRef: string, freshId: Uuid, now: Time)
    requires !Ev.IdIn(es, freshId)
    ensures var f := CreateEvent(es, FormRoute, req, verifierRef, freshId, now);
      var j := CreateEvent(es, JsonRoute, req, verifierRef, freshId, now);
      && f.Err? == j.Err?
      && (f.Err? ==> f.error == j.error)
      && (f.Ok? ==> f.value.0.event == j.value.0.event && f.value.1 == j.value.1)
  {
  }

  /** `get_event_json`. */
  function GetEvent(es: Ev.Events, id: Uuid): (r: Result<Ev.Event, EventError>)
    ensures r.Err? <==> !Ev.IdIn(es, id)
    ensures r.Err? ==> r.error == NotFound
    ensures r.Ok? ==> r.value in es && r.value.id == id
  {
    match Ev.FindById(es, id)
    case None => Err(NotFound)
    case Some(e) => Ok(e)
  }

  datatype UpdateEventRequest = UpdateEventRequest(
    eventName: Option<string>,
    eventDescription: Option<string>,
    eventDate: Option<Date>,
    eventLocation: Option<string>)

  /** `update_event`: the store's partial update, with no verifier
      reference. A missing event surfaces as the store's "no row" error,
      a database error (500), not as NotFound. */
  function UpdateEvent(es: Ev.Events, id: Uuid, req: UpdateEventRequest): (r: Result<(Ev.Event, Ev.Events), EventError>)
    ensures r.Err? <==> !Ev.IdIn(es, id)
    ensures r.Err? ==> r.error == DatabaseError && StatusOf(r.error) == StatusInternalServerError
    ensures r.Ok? ==> r.value == Ev.Update(es, id, AsUpdateData(req)).value
    ensures r.Ok? && req == UpdateEventRequest(None, None, None, None) ==> r.value.1 == es
  {
    match Ev.Update(es, id, AsUpdateData(req))
    case Err(_) => Err(DatabaseError)
    case Ok(res) => Ok(res)
  }

  /** The event the handler answers with is the stored row after the
      update: the requested fields are the new values, the others are kept,
      and the verifier reference is never touched. */
  lemma UpdatedEventIsAnswered(es: Ev.Events, id: Uuid, req: UpdateEventRequest)
    requires Ev.UniqueIds(es) && Ev.IdIn(es, id)
    ensures var old_ := Ev.FindById(es, id).value;
      var e := UpdateEvent(es, id, req).value.0;
      && e == Ev.Overwrite(old_, AsUpdateData(req))
      && e.id == old_.id && e.verifierRef == old_.verifierRef
      && e.eventName == req.eventName.GetOr(old_.eventName)
      && e.eventDate == req.eventDate.GetOr(old_.eventDate)
      && (req.eventDescription.Some? ==> e.eventDescription == req.eventDescription)
      && (req.eventLocation.Some? ==> e.eventLocation == req.eventLocation)
  {
    Ev.UpdateIsOverwrite(es, id, AsUpdateData(req));
  }

  /** The handler's request as the store's update, without a verifier reference. */
  function AsUpdateData(req: UpdateEventRequest): (d: Ev.UpdateEventData)
    ensures d.verifierRef.None?
    ensures Ev.NoFields(d) <==> req == UpdateEventRequest(None, None, None, None)
  {
    Ev.UpdateEventData(req.eventName, req.eventDescription, req.eventDate, req.eventLocation, None)
  }

  /** `deactivate_event`: always 204, whether or not the id names an event.
      The event with that id is switched off in place; an unknown id leaves
      the store as it was. */
  function DeactivateEvent(es: Ev.Events, id: Uuid): (r: (int, Ev.Events))
    ensures r.0 == StatusNoContent
    ensures |r.1| == |es|
    ensures forall i :: 0 <= i < |es| && es[i].id == id ==> !r.1[i].isActive && r.1[i].id == id
    ensures !Ev.IdIn(es, id) ==> r.1 == es
  {
    UnknownIdIsNoOp(es, id);
    (StatusNoContent, Ev.Deactivate(es, id))
  }

  lemma UnknownIdIsNoOp(es: Ev.Events, id: Uuid)
    ensures !Ev.IdIn(es, id) ==> Ev.Deactivate(es, id) == es
  {
    if !Ev.IdIn(es, id) {
      var d := Ev.Deactivate(es, id);
      forall i | 0 <= i < |es|
        ensures d[i] == es[i]
      {
        assert es[i] in es;
      }
    }
  }

  /** After deactivation the event is gone from the unfiltered listing and
      from its issuer's active-only listing, but its issuer's full listing
      still shows it. */
  lemma DeactivatedEventLeavesActiveListings(es: Ev.Events, id: Uuid, e: Ev.Event)
    requires e in es && e.id == id
    ensures e.(isActive := false) in ListEvents(DeactivateEvent(es, id).1, Some(e.issuerId), None)
    ensures forall x :: x in ListEvents(DeactivateEvent(es, id).1, None, None) ==> x.id != id
    ensures forall x :: x in ListEvents(DeactivateEvent(es, id).1, Some(e.issuerId), Some(true)) ==> x.id != id
  {
    var d := DeactivateEvent(es, id).1;
    var k :| 0 <= k < |es| && es[k] == e;
    assert d[k] == e.(isActive := false);
    assert multiset(d)[d[k]] > 0;
    assert multiset(ListEvents(d, Some(e.issuerId), None))[d[k]] > 0;
    forall x | x in ListEvents(d, None, None)
      ensures x.id != id
    {
      Ev.DeactivatedEventsAreNotListed(es, id, e.issuerId, e.eventDate, x);
    }
    forall x | x in ListEvents(d, Some(e.issuerId), Some(true))
      ensures x.id != id
    {
      Ev.DeactivatedEventsAreNotListed(es, id, e.issuerId, e.eventDate, x);
    }
  }

  // ---------------------------------------------------------------------
  // Scan statistics

  datatype EventStats = EventStats(totalScans: int, successfulScans: int, failedScans: int, uniqueCards: int)

  /** The distinct cards the rows name (`COUNT(DISTINCT card_id)` skips rows without one). */
  function CardsSeen(rows: seq<VA.HistoryRow>): set<Uuid> {
    if |rows| == 0 then {}
    else
      var last := rows[|rows| - 1];
      CardsSeen(rows[..|rows| - 1]) + (if last.cardId.Some? then {last.cardId.value} else {})
  }

  lemma {:induction false} CardsSeenBound(rows: seq<VA.HistoryRow>)
    ensures |CardsSeen(rows)| <= |rows|
  {
    if |rows| > 0 {
      CardsSeenBound(rows[..|rows| - 1]);
    }
  }

  /** A card is seen exactly when some row names it. */
  lemma {:induction false} CardsSeenIff(rows: seq<VA.HistoryRow>, c: Uuid)
    ensures c in CardsSeen(rows) <==> exists i :: 0 <= i < |rows| && rows[i].cardId == Some(c)
  {
    if |rows| > 0 {
      var init := rows[..|rows| - 1];
      CardsSeenIff(init, c);
      if c in CardsSeen(init) {
        var i :| 0 <= i < |init| && init[i].cardId == Some(c);
        assert rows[i] == init[i];
      }
      if exists i :: 0 <= i < |rows| && rows[i].cardId == Some(c) {
        var i :| 0 <= i < |rows| && rows[i].cardId == Some(c);
        if i < |rows| - 1 {
          assert init[i] == rows[i];
        }
      }
    }
  }

  /** The statistics over the event's stored verification rows: every row
      is a scan, "success" rows are successful, and every other row counts
      as failed. */
  function StatsOf(rows: seq<VA.HistoryRow>): (s: EventStats)
    ensures s.totalScans == |rows| && s.successfulScans == VA.CountResult(rows, VA.SuccessResult)
    ensures s.failedScans == s.totalScans - s.successfulScans
    ensures 0 <= s.successfulScans <= s.totalScans && 0 <= s.failedScans
    ensures 0 <= s.uniqueCards <= s.totalScans
    // the number of distinct cards named by the rows (see CardsSeenIff)
    ensures s.uniqueCards == |CardsSeen(rows)|
  {
    CardsSeenBound(rows);
    var total := |rows|;
    var successful := VA.CountResult(rows, VA.SuccessResult);
    EventStats(total, successful, total - successful, |CardsSeen(rows)|)
  }

  /** Rows whose outcome is anything but "success". */
  function CountOther(rows: seq<VA.HistoryRow>, result: string): nat {
    if |rows| == 0 then 0
    else (if rows[|rows| - 1].verificationResult != result then 1 else 0) + CountOther(rows[..|rows| - 1], result)
  }

  /** The failed count is the number of rows not marked "success" — which
      includes every other outcome, not only rows marked "failed". */
  lemma {:induction false} FailedScansAreTheNonSuccesses(rows: seq<VA.HistoryRow>)
    ensures StatsOf(rows).failedScans == CountOther(rows, VA.SuccessResult)
    ensures StatsOf(rows).failedScans >= VA.CountResult(rows, VA.FailedResult)
  {
    OtherPlusMatching(rows, VA.SuccessResult);
    VA.SuccessAndFailureAreDisjoint(rows);
  }

  lemma {:induction false} OtherPlusMatching(rows: seq<VA.HistoryRow>, result: string)
    ensures CountOther(rows, result) + VA.CountResult(rows, result) == |rows|
  {
    if |rows| > 0 {
      OtherPlusMatching(rows[..|rows| - 1], result);
    }
  }

  /** `success_rate_label`'s number: the percentage of successful scans,
      absent when there were none. Its one-decimal formatting is not modelled. */
  function SuccessRate(s: EventStats): (rate: Option<real>)
    ensures rate.None? <==> s.totalScans <= 0
    ensures rate.Some? ==> rate.value * (s.totalScans as real) == (s.successfulScans as real) * 100.0
  {
    if s.totalScans > 0 then Some((s.successfulScans as real) * 100.0 / (s.totalScans as real)) else None
  }

  /** The rate of real statistics is a percentage. */
  lemma RateIsAPercentage(rows: seq<VA.HistoryRow>)
    requires |rows| > 0
    ensures 0.0 <= SuccessRate(StatsOf(rows)).value <= 100.0
  {
    var s := StatsOf(rows);
    var t := s.totalScans as real;
    var k := s.successfulScans as real;
    assert 0.0 <= k <= t;
    assert SuccessRate(s).value == k * 100.0 / t;
  }

  /** `event_stats` (and the statistics of `show_event`). */
  function EventStatsFor(es: Ev.Events, id: Uuid, rows: seq<VA.HistoryRow>): (r: Result<EventStats, EventError>)
    ensures r.Err? <==> !Ev.IdIn(es, id)
    ensures r.Err? ==> r.error == NotFound
    ensures r.Ok? ==> r.value == StatsOf(rows)
  {
    if Ev.FindById(es, id).None? then Err(NotFound) else Ok(StatsOf(rows))
  }

  /** `show_event`: the event, its issuer and its statistics; a missing
      issuer reads as a missing event. */
  function ShowEvent(es: Ev.Events, issuers: Issuers, id: Uuid, rows: seq<VA.HistoryRow>)
    : (r: Result<(Ev.Event, CardIssuer, EventStats), EventError>)
    ensures r.Ok? <==> Ev.IdIn(es, id) && Ev.FindById(es, id).value.issuerId in issuers
    ensures r.Err? ==> r.error == NotFound
    ensures r.Ok? ==> r.value.0 == Ev.FindById(es, id).value
    ensures r.Ok? ==> r.value.0.id == id && r.value.0.issuerId in issuers && r.value.1 == issuers[r.value.0.issuerId] && r.value.2 == StatsOf(rows)
  {
    match Ev.FindById(es, id)
    case None => Err(NotFound)
    case Some(e) => if e.issuerId in issuers then Ok((e, issuers[e.issuerId], StatsOf(rows))) else Err(NotFound)
  }
}
