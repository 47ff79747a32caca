/** Door events (src/models/event.rs): an issuer's dated events at which
    cards are checked, the listings the handlers show, and the partial
    update that builds its UPDATE statement from the fields present.
    Rows are kept in insertion order. */
module Event {
  import opened Base

  datatype Event = Event(
    id: Uuid,
    issuerId: Uuid,
    eventName: string,
    eventDescription: Option<string>,
    eventDate: Date,
    eventLocation: Option<string>,
    verifierRef: string,
    isActive: bool,
    createdAt: Time,
    updatedAt: Time)

  type Events = seq<Event>

  datatype CreateEventData = CreateEventData(
    issuerId: Uuid,
    eventName: string,
    eventDescription: Option<string>,
    eventDate: Date,
    eventLocation: Option<string>,
    verifierRef: string)

  datatype UpdateEventData = UpdateEventData(
    eventName: Option<string>,
    eventDescription: Option<string>,
    eventDate: Option<Date>,
    eventLocation: Option<string>,
    verifierRef: Option<string>)

  datatype DbError = RowNotFound

  /** No two rows share an id. */
  ghost predicate UniqueIds(es: Events) {
    forall i, j :: 0 <= i < j < |es| ==> es[i].id != es[j].id
  }

  predicate IdIn(es: Events, id: Uuid) {
    exists i :: 0 <= i < |es| && es[i].id == id
  }

  /** `create`: a new active event under a fresh id, appended. */
  function Create(es: Events, data: CreateEventData, freshId: Uuid, now: Time): (r: (Event, Events))
    requires !IdIn(es, freshId)
    ensures r.1 == es + [r.0]
    ensures UniqueIds(es) ==> UniqueIds(r.1)
    ensures r.0.id == freshId && r.0.isActive && r.0.createdAt == now
    ensures r.0.issuerId == data.issuerId && r.0.eventName == data.eventName
    ensures r.0.eventDescription == data.eventDescription && r.0.eventDate == data.eventDate
    ensures r.0.eventLocation == data.eventLocation && r.0.verifierRef == data.verifierRef
  {
    var e := Event(freshId, data.issuerId, data.eventName, data.eventDescription, data.eventDate,
                   data.eventLocation, data.verifierRef, true, now, now);
    (e, es + [e])
  }

  /** `find_by_id`. */
  function FindById(es: Events, id: Uuid): (r: Option<Event>)
    ensures r.Some? <==> IdIn(es, id)
    ensures r.Some? ==> r.value in es && r.value.id == id
    ensures UniqueIds(es) ==> forall i :: 0 <= i < |es| && es[i].id == id ==> r == Some(es[i])
  {
    if |es| == 0 then None
    else if es[0].id == id then Some(es[0])
    else
      var r := FindById(es[1..], id);
      assert forall i :: 1 <= i < |es| ==> es[i] == es[1..][i - 1];
      r
  }

  // -----------------------------------------------------------------------
  // `update`: the dynamic UPDATE statement.

  /** The updatable columns, in the order the statement lists them. */
  datatype Column = EventName | EventDescription | EventDate | EventLocation | VerifierRef

  function Rank(c: Column): (k: nat)
    ensures k < 5
  {
    match c
    case EventName => 0
    case EventDescription => 1
    case EventDate => 2
    case EventLocation => 3
    case VerifierRef => 4
  }

  /** A bound parameter value. */
  datatype Value = Text(text: string) | Day(date: Date) | Id(id: Uuid)

  /** `column = $param`. */
  datatype Assignment = Assignment(column: Column, param: nat)

  /** `UPDATE events SET <sets> WHERE id = $<whereParam> RETURNING *`,
      with its parameters bound in order to `binds` ($1 is binds[0]). */
  datatype UpdateStatement = UpdateStatement(sets: seq<Assignment>, whereParam: nat, binds: seq<Value>)

  /** Whether the request carries a value for the column. */
  predicate Present(data: UpdateEventData, c: Column) {
    match c
    case EventName => data.eventName.Some?
    case EventDescription => data.eventDescription.Some?
    case EventDate => data.eventDate.Some?
    case EventLocation => data.eventLocation.Some?
    case VerifierRef => data.verifierRef.Some?
  }

  /** The value the request carries for a present column. */
  function ValueFor(data: UpdateEventData, c: Column): (v: Value)
    requires Present(data, c)
    ensures Fits(c, v)
  {
    match c
    case EventName => Text(data.eventName.value)
    case EventDescription => Text(data.eventDescription.value)
    case EventDate => Day(data.eventDate.value)
    case EventLocation => Text(data.eventLocation.value)
    case VerifierRef => Text(data.verifierRef.value)
  }

  predicate NoFields(data: UpdateEventData) {
    data.eventName.None? && data.eventDescription.None? && data.eventDate.None?
    && data.eventLocation.None? && data.verifierRef.None?
  }

  /** The column at each position of the statement order. */
  function ColumnAt(k: nat): (c: Column)
    requires k < 5
    ensures Rank(c) == k
  {
    if k == 0 then EventName
    else if k == 1 then EventDescription
    else if k == 2 then EventDate
    else if k == 3 then EventLocation
    else VerifierRef
  }

  /** The present columns from position `from` of the statement order on. */
  function PresentFrom(data: UpdateEventData, from: nat): (cols: seq<Column>)
    requires from <= 5
    ensures |cols| <= 5 - from
    ensures forall i :: 0 <= i < |cols| ==> from <= Rank(cols[i]) && Present(data, cols[i])
    decreases 5 - from
  {
    if from == 5 then []
    else if Present(data, ColumnAt(from)) then [ColumnAt(from)] + PresentFrom(data, from + 1)
    else PresentFrom(data, from + 1)
  }

  lemma {:induction false} PresentFromOrdered(data: UpdateEventData, from: nat)
    requires from <= 5
    ensures var cols := PresentFrom(data, from);
      forall i, j :: 0 <= i < j < |cols| ==> Rank(cols[i]) < Rank(cols[j])
    decreases 5 - from
  {
    if from < 5 {
      PresentFromOrdered(data, from + 1);
    }
  }

  lemma {:induction false} PresentFromComplete(data: UpdateEventData, from: nat, c: Column)
    requires from <= Rank(c) && Present(data, c)
    ensures c in PresentFrom(data, from)
    decreases 5 - from
  {
    if ColumnAt(from) != c {
      assert ColumnAt(Rank(c)) == c;
      PresentFromComplete(data, from + 1, c);
    }
  }
  lemma NoPresentColumnsIffNoFields(data: UpdateEventData)
    ensures |PresentFrom(data, 0)| == 0 <==> NoFields(data)
  {
    if !NoFields(data) {
      var c :| Present(data, c);
      PresentFromComplete(data, 0, c);
    }
  }

  /** The SET list: `column = $n` for the n-th present column. */
  function SetList(cols: seq<Column>): (sets: seq<Assignment>) {
    seq(|cols|, i requires 0 <= i < |cols| => Assignment(cols[i], i + 1))
  }

  /** The binds: the present values in the same order, then the id. */
  function BindList(data: UpdateEventData, cols: seq<Column>, id: Uuid): seq<Value>
    requires forall i :: 0 <= i < |cols| ==> Present(data, cols[i])
  {
    seq(|cols|, i requires 0 <= i < |cols| => ValueFor(data, cols[i])) + [Id(id)]
  }

  /** The statement `update` issues, or None when no field is present (then
      no UPDATE runs at all). */
  function BuildUpdate(data: UpdateEventData, id: Uuid): (r: Option<UpdateStatement>)
    ensures r.None? <==> NoFields(data)
    ensures r.Some? ==>
      && r.value.whereParam == |r.value.sets| + 1
      && |r.value.binds| == |r.value.sets| + 1
      && r.value.binds[|r.value.sets|] == Id(id)
  {
    var cols := PresentFrom(data, 0);
    NoPresentColumnsIffNoFields(data);
    if |cols| == 0 then None
    else Some(UpdateStatement(SetList(cols), |cols| + 1, BindList(data, cols, id)))
  }

  /** The placeholders are $1..$k in order, and each is bound to its field's value. */
  lemma PlaceholdersAreConsecutive(data: UpdateEventData, id: Uuid)
    requires !NoFields(data)
    ensures var st := BuildUpdate(data, id).value;
      forall i :: 0 <= i < |st.sets| ==>
        && st.sets[i].param == i + 1
        && Present(data, st.sets[i].column)
        && st.binds[i] == ValueFor(data, st.sets[i].column)
  {
  }

  /** The SET list follows the fixed column order, so no column is set twice. */
  lemma SetsFollowColumnOrder(data: UpdateEventData, id: Uuid)
    requires !NoFields(data)
    ensures var st := BuildUpdate(data, id).value;
      forall i, j :: 0 <= i < j < |st.sets| ==> Rank(st.sets[i].column) < Rank(st.sets[j].column)
  {
    BuiltFromPresentColumns(data, id);
    PresentFromOrdered(data, 0);
  }

  /** A column is set exactly when the request carries a value for it. */
  lemma SetsArePresentFields(data: UpdateEventData, id: Uuid, c: Column)
    requires !NoFields(data)
    ensures var st := BuildUpdate(data, id).value;
      Present(data, c) <==> exists i :: 0 <= i < |st.sets| && st.sets[i].column == c
  {
    var st := BuildUpdate(data, id).value;
    var cols := PresentFrom(data, 0);
    BuiltFromPresentColumns(data, id);
    if Present(data, c) {
      PresentFromComplete(data, 0, c);
      var i :| 0 <= i < |cols| && cols[i] == c;
      assert st.sets[i].column == c;
    }
  }

  /** Whether a bound value has the column's type. */
  predicate Fits(c: Column, v: Value) {
    if c == EventDate then v.Day? else v.Text?
  }

  /** `SET column = v` on one row. */
  function SetColumn(e: Event, c: Column, v: Value): Event
    requires Fits(c, v)
  {
    match c
    case EventName => e.(eventName := v.text)
    case EventDescription => e.(eventDescription := Some(v.text))
    case EventDate => e.(eventDate := v.date)
    case EventLocation => e.(eventLocation := Some(v.text))
    case VerifierRef => e.(verifierRef := v.text)
  }

  /** A statement's parameters are all bound, and each with a value of its column's type. */
  predicate WellBound(sets: seq<Assignment>, binds: seq<Value>) {
    forall i :: 0 <= i < |sets| ==>
      1 <= sets[i].param <= |binds| && Fits(sets[i].column, binds[sets[i].param - 1])
  }

  /** The SET list applied to one row, left to right. */
  function ApplySets(e: Event, sets: seq<Assignment>, binds: seq<Value>): Event
    requires WellBound(sets, binds)
    decreases |sets|
  {
    if |sets| == 0 then e
    else ApplySets(SetColumn(e, sets[0].column, binds[sets[0].param - 1]), sets[1..], binds)
  }

  /** Every row with the given id, rewritten. */
  function Rewrite(es: Events, id: Uuid, e': Event): (r: Events)
    ensures |r| == |es|
    ensures forall i :: 0 <= i < |es| ==> r[i] == (if es[i].id == id then e' else es[i])
  {
    if |es| == 0 then []
    else [if es[0].id == id then e' else es[0]] + Rewrite(es[1..], id, e')
  }

  /** Running the statement: the row whose id is bound to the WHERE
      parameter is updated and returned; no such row is `RowNotFound`. */
  function Execute(es: Events, st: UpdateStatement): Result<(Event, Events), DbError>
    requires 1 <= st.whereParam <= |st.binds| && st.binds[st.whereParam - 1].Id?
    requires WellBound(st.sets, st.binds)
  {
    var id := st.binds[st.whereParam - 1].id;
    match FindById(es, id)
    case None => Err(RowNotFound)
    case Some(e) =>
      var e' := ApplySets(e, st.sets, st.binds);
      Ok((e', Rewrite(es, id, e')))
  }

  /** The present columns, each set to the request's value, left to right. */
  function SetColumns(e: Event, data: UpdateEventData, cols: seq<Column>): Event
    requires forall i :: 0 <= i < |cols| ==> Present(data, cols[i])
    decreases |cols|
  {
    if |cols| == 0 then e else SetColumns(SetColumn(e, cols[0], ValueFor(data, cols[0])), data, cols[1..])
  }

  /** Running the SET list from its `k`-th entry on, with each present
      value bound at its placeholder, sets the remaining columns. */
  lemma {:induction false} ApplySetList(e: Event, data: UpdateEventData, cols: seq<Column>, binds: seq<Value>, k: nat)
    requires forall i :: 0 <= i < |cols| ==> Present(data, cols[i])
    requires |cols| <= |binds| && forall i :: 0 <= i < |cols| ==> binds[i] == ValueFor(data, cols[i])
    requires k <= |cols|
    ensures WellBound(SetList(cols)[k..], binds)
    ensures ApplySets(e, SetList(cols)[k..], binds) == SetColumns(e, data, cols[k..])
    decreases |cols| - k
  {
    var sets := SetList(cols);
    if k < |cols| {
      assert sets[k..][0] == Assignment(cols[k], k + 1);
      assert sets[k..][1..] == sets[k + 1..];
      assert cols[k..][1..] == cols[k + 1..];
      ApplySetList(SetColumn(e, cols[k], ValueFor(data, cols[k])), data, cols, binds, k + 1);
    }
  }

  /** Setting the present columns from position `from` on is the overwrite from there on. */
  lemma {:induction false} SetPresentColumns(e: Event, data: UpdateEventData, from: nat)
    requires from <= 5
    ensures SetColumns(e, data, PresentFrom(data, from)) == OverwriteFrom(e, data, from)
    decreases 5 - from
  {
    if from < 5 {
      var c := ColumnAt(from);
      if Present(data, c) {
        assert ([c] + PresentFrom(data, from + 1))[1..] == PresentFrom(data, from + 1);
        SetPresentColumns(SetColumn(e, c, ValueFor(data, c)), data, from + 1);
      } else {
        SetPresentColumns(e, data, from + 1);
      }
    }
  }
  /** The reference meaning of a partial update: every present field
      overwrites the stored one, every absent field is kept. */
  function Overwrite(e: Event, data: UpdateEventData): Event {
    e.(eventName := data.eventName.GetOr(e.eventName),
       eventDescription := if data.eventDescription.Some? then data.eventDescription else e.eventDescription,
       eventDate := data.eventDate.GetOr(e.eventDate),
       eventLocation := if data.eventLocation.Some? then data.eventLocation else e.eventLocation,
       verifierRef := data.verifierRef.GetOr(e.verifierRef))
  }

  /** The present columns from position `from` on, overwritten one after another. */
  function OverwriteFrom(e: Event, data: UpdateEventData, from: nat): Event
    requires from <= 5
    decreases 5 - from
  {
    if from == 5 then e
    else
      var c := ColumnAt(from);
      OverwriteFrom(if Present(data, c) then SetColumn(e, c, ValueFor(data, c)) else e, data, from + 1)
  }

  lemma OverwriteFromStart(e: Event, data: UpdateEventData)
    ensures OverwriteFrom(e, data, 0) == Overwrite(e, data)
  {
  }

  /** The built statement in terms of the present columns. */
  lemma BuiltFromPresentColumns(data: UpdateEventData, id: Uuid)
    requires !NoFields(data)
    ensures BuildUpdate(data, id) == Some(UpdateStatement(SetList(PresentFrom(data, 0)), |PresentFrom(data, 0)| + 1, BindList(data, PresentFrom(data, 0), id)))
  {
    NoPresentColumnsIffNoFields(data);
  }

  /** The statement the builder makes, run on a row, overwrites exactly the
      present fields. */
  lemma BuiltStatementOverwrites(e: Event, data: UpdateEventData, id: Uuid)
    requires !NoFields(data)
    ensures var st := BuildUpdate(data, id).value;
      WellBound(st.sets, st.binds) && ApplySets(e, st.sets, st.binds) == Overwrite(e, data)
  {
    BuiltFromPresentColumns(data, id);
    var cols := PresentFrom(data, 0);
    ApplySetList(e, data, cols, BindList(data, cols, id), 0);
    assert SetList(cols)[0..] == SetList(cols);
    assert cols[0..] == cols;
    SetPresentColumns(e, data, 0);
    OverwriteFromStart(e, data);
  }

  /** The built statement binds its WHERE parameter to the id and every
      placeholder to a value of its column's type. */
  lemma BuiltStatementRuns(data: UpdateEventData, id: Uuid)
    requires !NoFields(data)
    ensures var st := BuildUpdate(data, id).value;
      && 1 <= st.whereParam <= |st.binds| && st.binds[st.whereParam - 1] == Id(id)
      && WellBound(st.sets, st.binds)
  {
    BuiltFromPresentColumns(data, id);
  }

  /** `update`. */
  function Update(es: Events, id: Uuid, data: UpdateEventData): (r: Result<(Event, Events), DbError>)
    ensures r.Err? <==> !IdIn(es, id)
    ensures NoFields(data) && r.Ok? ==> r.value.1 == es
  {
    match BuildUpdate(data, id)
    case None =>
      (match FindById(es, id)
       case None => Err(RowNotFound)
       case Some(e) => Ok((e, es)))
    case Some(st) =>
      BuiltStatementRuns(data, id);
      Execute(es, st)
  }

  /** A partial update on an existing row is the field-wise overwrite of
      that row, stored back under its id; a missing row is `RowNotFound`. */
  lemma UpdateIsOverwrite(es: Events, id: Uuid, data: UpdateEventData)
    requires UniqueIds(es)
    ensures IdIn(es, id) ==>
      && Update(es, id, data).Ok?
      && Update(es, id, data).value.0 == Overwrite(FindById(es, id).value, data)
      && Update(es, id, data).value.1 == Rewrite(es, id, Overwrite(FindById(es, id).value, data))
  {
    if IdIn(es, id) {
      var e := FindById(es, id).value;
      OverwriteFromStart(e, data);
      if NoFields(data) {
        assert Overwrite(e, data) == e;
        assert Rewrite(es, id, e) == es;
      } else {
        BuiltStatementOverwrites(e, data, id);
      }
    }
  }

  // -----------------------------------------------------------------------
  // `deactivate`

  /** `deactivate`: a soft delete; only `is_active` changes, and a missing
      id changes nothing. */
  function Deactivate(es: Events, id: Uuid): (r: Events)
    ensures |r| == |es|
    ensures forall i :: 0 <= i < |es| && es[i].id != id ==> r[i] == es[i]
    ensures forall i :: 0 <= i < |es| && es[i].id == id ==> r[i] == es[i].(isActive := false)
  {
    if |es| == 0 then []
    else [if es[0].id == id then es[0].(isActive := false) else es[0]] + Deactivate(es[1..], id)
  }

  // -----------------------------------------------------------------------
  // Listings. `ORDER BY event_date` leaves the order of same-day events to
  // the database; the model keeps them in storage order.

  /** The sort key: the date, negated for a descending order. */
  function Key(e: Event, descending: bool): int {
    if descending then -e.eventDate else e.eventDate
  }

  /** In date order: ascending, or descending. */
  predicate InDateOrder(s: Events, descending: bool) {
    forall i, j :: 0 <= i < j < |s| ==> Key(s[i], descending) <= Key(s[j], descending)
  }

  function InsertByDate(e: Event, s: Events, descending: bool): (r: Events)
    requires InDateOrder(s, descending)
    ensures InDateOrder(r, descending)
    ensures |r| == |s| + 1 && (r[0] == e || (|s| > 0 && r[0] == s[0]))
    decreases |s|
  {
    if |s| == 0 || Key(e, descending) <= Key(s[0], descending) then [e] + s
    else [s[0]] + InsertByDate(e, s[1..], descending)
  }

  lemma {:induction false} InsertByDateKeepsRows(e: Event, s: Events, descending: bool)
    requires InDateOrder(s, descending)
    ensures multiset(InsertByDate(e, s, descending)) == multiset(s) + multiset{e}
    decreases |s|
  {
    if |s| > 0 && Key(e, descending) > Key(s[0], descending) {
      InsertByDateKeepsRows(e, s[1..], descending);
      assert s == [s[0]] + s[1..];
    }
  }

  /** `ORDER BY event_date`: the same rows, in date order. */
  function SortByDate(s: Events, descending: bool): (r: Events)
    ensures InDateOrder(r, descending)
    ensures multiset(r) == multiset(s)
    decreases |s|
  {
    if |s| == 0 then []
    else
      var rest := SortByDate(s[1..], descending);
      InsertByDateKeepsRows(s[0], rest, descending);
      assert s == [s[0]] + s[1..];
      InsertByDate(s[0], rest, descending)
  }

  /** `WHERE`: the rows that match, in storage order. */
  function Filter(es: Events, keep: Event -> bool): (r: Events)
    ensures forall e :: multiset(r)[e] == (if keep(e) then multiset(es)[e] else 0)
    decreases |es|
  {
    if |es| == 0 then []
    else
      assert es == [es[0]] + es[1..];
      (if keep(es[0]) then [es[0]] else []) + Filter(es[1..], keep)
  }

  /** `list_by_issuer`: the issuer's events (active ones only, when asked),
      latest date first. */
  function ListByIssuer(es: Events, issuerId: Uuid, activeOnly: bool): (r: Events)
    ensures InDateOrder(r, true)
    ensures forall e ::
      multiset(r)[e] == (if e.issuerId == issuerId && (!activeOnly || e.isActive) then multiset(es)[e] else 0)
  {
    SortByDate(Filter(es, (e: Event) => e.issuerId == issuerId && (!activeOnly || e.isActive)), true)
  }

  /** `list_active`: every issuer's active events, latest date first. */
  function ListActive(es: Events): (r: Events)
    ensures InDateOrder(r, true)
    ensures forall e :: multiset(r)[e] == (if e.isActive then multiset(es)[e] else 0)
  {
    SortByDate(Filter(es, (e: Event) => e.isActive), true)
  }

  /** `list_upcoming`: the issuer's active events dated today or later,
      earliest first. */
  function ListUpcoming(es: Events, issuerId: Uuid, today: Date): (r: Events)
    ensures InDateOrder(r, false)
    ensures forall e ::
      multiset(r)[e] == (if e.issuerId == issuerId && e.isActive && e.eventDate >= today then multiset(es)[e] else 0)
  {
    SortByDate(Filter(es, (e: Event) => e.issuerId == issuerId && e.isActive && e.eventDate >= today), false)
  }

  /** The active-only listing is the full listing's active part. */
  lemma ActiveOnlyNarrowsTheListing(es: Events, issuerId: Uuid)
    ensures forall e ::
      multiset(ListByIssuer(es, issuerId, true))[e] == (if e.isActive then multiset(ListByIssuer(es, issuerId, false))[e] else 0)
  {
  }

  /** After `deactivate`, no active row carries that id. */
  lemma DeactivatedRowsAreInactive(es: Events, id: Uuid, e: Event)
    requires e in Deactivate(es, id) && e.isActive
    ensures e.id != id
  {
    var d := Deactivate(es, id);
    var k :| 0 <= k < |d| && d[k] == e;
  }

  /** A deactivated event drops out of every active listing. */
  lemma DeactivatedEventsAreNotListed(es: Events, id: Uuid, issuerId: Uuid, today: Date, e: Event)
    ensures e in ListActive(Deactivate(es, id)) ==> e.id != id
    ensures e in ListUpcoming(Deactivate(es, id), issuerId, today) ==> e.id != id
    ensures e in ListByIssuer(Deactivate(es, id), issuerId, true) ==> e.id != id
  {
    var d := Deactivate(es, id);
    if e in ListActive(d) || e in ListUpcoming(d, issuerId, today) || e in ListByIssuer(d, issuerId, true) {
      assert multiset(ListActive(d))[e] > 0 || multiset(ListUpcoming(d, issuerId, today))[e] > 0
        || multiset(ListByIssuer(d, issuerId, true))[e] > 0;
      assert multiset(d)[e] > 0;
      DeactivatedRowsAreInactive(es, id, e);
    }
  }
}
