/** Door-side presentation sessions (src/models/verification_session.rs):
    one row per wallet presentation request, with a five-minute lifetime
    and a status that moves from pending to completed, expired or failed.
    Rows are kept in insertion order, which is also `created_at` order. */
module VerificationSession {
  import opened Base

  datatype SessionStatus = Pending | Completed | Expired | Failed

  /** The status as stored in the `status` text column. */
  function StatusName(st: SessionStatus): (name: string)
    ensures name in {"pending", "completed", "expired", "failed"}
  {
    match st
    case Pending => "pending"
    case Completed => "completed"
    case Expired => "expired"
    case Failed => "failed"
  }

  /** Distinct statuses are stored as distinct text. */
  lemma StatusNameInjective(a: SessionStatus, b: SessionStatus)
    ensures StatusName(a) == StatusName(b) <==> a == b
  {
    if a != b {
      assert StatusName(a)[0] != StatusName(b)[0] || |StatusName(a)| != |StatusName(b)|;
    }
  }

  /** `result_data` is opaque JSON; it is carried as its text. */
  datatype VerificationSession = VerificationSession(
    id: Uuid,
    eventId: Uuid,
    transactionId: string,
    qrcodeImage: string,
    authUri: string,
    status: SessionStatus,
    verifyResult: Option<bool>,
    resultDescription: Option<string>,
    resultData: Option<string>,
    createdAt: Time,
    completedAt: Option<Time>,
    expiresAt: Time)

  type Sessions = seq<VerificationSession>

  datatype CreateVerificationSessionData = CreateVerificationSessionData(
    eventId: Uuid, transactionId: string, qrcodeImage: string, authUri: string)

  /** A session's presentation request is valid for five minutes. */
  const SessionLifetime: int := 5 * SecondsPerMinute

  /** Finished sessions are kept for a day before cleanup may delete them. */
  const CleanupAge: int := 24 * SecondsPerHour

  /** `create`: a pending session that expires five minutes from now. */
  function Create(ss: Sessions, data: CreateVerificationSessionData, freshId: Uuid, now: Time)
    : (r: (VerificationSession, Sessions))
    ensures r.1 == ss + [r.0]
    ensures r.0.id == freshId && r.0.eventId == data.eventId && r.0.transactionId == data.transactionId
    ensures r.0.qrcodeImage == data.qrcodeImage && r.0.authUri == data.authUri
    ensures r.0.status == Pending && r.0.createdAt == now && r.0.expiresAt == now + 300
    ensures r.0.verifyResult.None? && r.0.resultDescription.None? && r.0.resultData.None? && r.0.completedAt.None?
  {
    var s := VerificationSession(freshId, data.eventId, data.transactionId, data.qrcodeImage, data.authUri,
                                 Pending, None, None, None, now, None, now + SessionLifetime);
    (s, ss + [s])
  }

  /** `is_expired`: strictly past the expiry instant. */
  predicate IsExpired(s: VerificationSession, now: Time) {
    now > s.expiresAt
  }

  /** `is_pending`: still waiting and not yet past its lifetime. */
  predicate IsPending(s: VerificationSession, now: Time) {
    StatusName(s.status) == "pending" && !IsExpired(s, now)
  }

  /** A fresh session stays pending for exactly its five minutes: still at
      the expiry instant, no longer one second later. */
  lemma FreshSessionLifetime(ss: Sessions, data: CreateVerificationSessionData, freshId: Uuid, now: Time, t: Time)
    ensures var s := Create(ss, data, freshId, now).0;
      IsPending(s, t) <==> t <= now + 300
  {
  }

  /** Rewrites every session with the given transaction id by `f`. */
  function UpdateWhere(ss: Sessions, transactionId: string, f: VerificationSession -> VerificationSession)
    : (r: Sessions)
    ensures |r| == |ss|
    ensures forall i :: 0 <= i < |ss| ==> r[i] == (if ss[i].transactionId == transactionId then f(ss[i]) else ss[i])
  {
    seq(|ss|, i requires 0 <= i < |ss| => if ss[i].transactionId == transactionId then f(ss[i]) else ss[i])
  }

  /** `update_result`: the session is completed with the wallet's verdict,
      whatever its status was. */
  function UpdateResult(ss: Sessions, transactionId: string, verifyResult: bool, description: string,
                        data: Option<string>, now: Time): (r: Sessions)
    ensures |r| == |ss|
    ensures forall i :: 0 <= i < |ss| && ss[i].transactionId != transactionId ==> r[i] == ss[i]
    ensures forall i :: 0 <= i < |ss| && ss[i].transactionId == transactionId ==>
      r[i] == ss[i].(status := Completed, verifyResult := Some(verifyResult),
                     resultDescription := Some(description), resultData := data, completedAt := Some(now))
  {
    UpdateWhere(ss, transactionId, (s: VerificationSession) => s.(status := Completed, verifyResult := Some(verifyResult),
                                           resultDescription := Some(description), resultData := data,
                                           completedAt := Some(now)))
  }

  /** `mark_expired`: only a session still pending becomes expired. */
  function MarkExpired(ss: Sessions, transactionId: string): (r: Sessions)
    ensures |r| == |ss|
    ensures forall i :: 0 <= i < |ss| ==>
      r[i] == (if ss[i].transactionId == transactionId && ss[i].status == Pending
               then ss[i].(status := Expired) else ss[i])
  {
    UpdateWhere(ss, transactionId, (s: VerificationSession) => if s.status == Pending then s.(status := Expired) else s)
  }

  /** `mark_failed`: the session fails with the message, whatever its status was. */
  function MarkFailed(ss: Sessions, transactionId: string, message: string): (r: Sessions)
    ensures |r| == |ss|
    ensures forall i :: 0 <= i < |ss| && ss[i].transactionId != transactionId ==> r[i] == ss[i]
    ensures forall i :: 0 <= i < |ss| && ss[i].transactionId == transactionId ==>
      r[i] == ss[i].(status := Failed, resultDescription := Some(message))
  {
    UpdateWhere(ss, transactionId, (s: VerificationSession) => s.(status := Failed, resultDescription := Some(message)))
  }

  /** Expiring is harmless once a verdict is in: a completed or failed
      session keeps its status, and expiring twice is expiring once. */
  lemma MarkExpiredSparesFinishedSessions(ss: Sessions, transactionId: string)
    ensures var r := MarkExpired(ss, transactionId);
      && (forall i :: 0 <= i < |ss| && ss[i].status != Pending ==> r[i] == ss[i])
      && MarkExpired(r, transactionId) == r
  {
  }

  /** A session the count includes: of the event, and with the filter's status text if there is one. */
  predicate Counted(s: VerificationSession, eventId: Uuid, status: Option<string>) {
    s.eventId == eventId && (status.None? || StatusName(s.status) == status.value)
  }

  /** The positions of the sessions the count includes. */
  function CountedRows(ss: Sessions, eventId: Uuid, status: Option<string>): set<nat> {
    set i: nat | i < |ss| && Counted(ss[i], eventId, status)
  }

  /** Counting over a table grown by one row. */
  lemma CountedRowsOfSnoc(ss: Sessions, eventId: Uuid, status: Option<string>)
    requires |ss| > 0
    ensures CountedRows(ss, eventId, status)
      == CountedRows(ss[..|ss| - 1], eventId, status)
         + (if Counted(ss[|ss| - 1], eventId, status) then {|ss| - 1} else {})
    ensures |ss| - 1 !in CountedRows(ss[..|ss| - 1], eventId, status)
  {
  }

  /** How many sessions of the event, and, with a filter, with that status text. */
  function CountByEventAndStatus(ss: Sessions, eventId: Uuid, status: Option<string>): (n: nat)
    ensures n == |CountedRows(ss, eventId, status)|
    ensures n <= |ss|
  {
    if |ss| == 0 then
      assert CountedRows(ss, eventId, status) == {};
      0
    else
      var s := ss[|ss| - 1];
      var hit := s.eventId == eventId && (status.None? || StatusName(s.status) == status.value);
      CountedRowsOfSnoc(ss, eventId, status);
      CountByEventAndStatus(ss[..|ss| - 1], eventId, status) + (if hit then 1 else 0)
  }

  /** The unfiltered count is the sum of the four status counts, and a
      filter naming no status counts nothing. */
  lemma {:induction false} CountsPartitionByStatus(ss: Sessions, eventId: Uuid, other: string)
    requires other !in {"pending", "completed", "expired", "failed"}
    ensures CountByEventAndStatus(ss, eventId, None)
         == CountByEventAndStatus(ss, eventId, Some("pending")) + CountByEventAndStatus(ss, eventId, Some("completed"))
          + CountByEventAndStatus(ss, eventId, Some("expired")) + CountByEventAndStatus(ss, eventId, Some("failed"))
    ensures CountByEventAndStatus(ss, eventId, Some(other)) == 0
  {
    if |ss| > 0 {
      CountsPartitionByStatus(ss[..|ss| - 1], eventId, other);
    }
  }

  /** A session cleanup deletes: finished without a verdict, and created
      more than a day ago. */
  predicate Stale(s: VerificationSession, now: Time) {
    s.createdAt < now - CleanupAge && StatusName(s.status) in {"expired", "failed"}
  }

  /** `cleanup_old_sessions`: the remaining sessions and how many were deleted. */
  function CleanupOldSessions(ss: Sessions, now: Time): (r: (Sessions, nat))
    ensures r.1 == |ss| - |r.0|
    ensures forall s :: s in r.0 <==> s in ss && !Stale(s, now)
    // every surviving row as often as it was stored; the deleted rows are exactly the stale ones
    ensures forall s :: multiset(r.0)[s] == if Stale(s, now) then 0 else multiset(ss)[s]
    // pending and completed sessions always survive
    ensures forall s :: s in ss && (s.status == Pending || s.status == Completed) ==> s in r.0
    ensures forall s :: s in ss && s.createdAt >= now - CleanupAge ==> s in r.0
  {
    if |ss| == 0 then ([], 0)
    else
      var last := ss[|ss| - 1];
      var (kept, deleted) := CleanupOldSessions(ss[..|ss| - 1], now);
      assert ss == ss[..|ss| - 1] + [last];
      assert forall s :: s in ss <==> s in ss[..|ss| - 1] || s == last;
      if Stale(last, now) then (kept, deleted + 1) else (kept + [last], deleted)
  }

  /** Cleanup has nothing left to do when run again at the same instant:
      every survivor survives again and nothing more is deleted. */
  lemma {:induction false} CleanupIsIdempotent(ss: Sessions, now: Time)
    ensures var (kept, _) := CleanupOldSessions(ss, now);
      CleanupOldSessions(kept, now) == (kept, 0)
  {
    if |ss| > 0 {
      var front := ss[..|ss| - 1];
      var last := ss[|ss| - 1];
      CleanupIsIdempotent(front, now);
      var (kept, _) := CleanupOldSessions(front, now);
      if !Stale(last, now) {
        assert (kept + [last])[..|kept + [last]| - 1] == kept;
      }
    }
  }

  /** A lone session survives exactly when it is not stale. */
  lemma CleanupOfOne(s: VerificationSession, now: Time)
    ensures CleanupOldSessions([s], now) == if Stale(s, now) then ([], 1) else ([s], 0)
  {
    assert [s][..0] == [];
    assert CleanupOldSessions([], now) == ([], 0);
    assert [] + [s] == [s];
  }

  /**
   * The cleanup of a table is the cleanup of its first part followed by that of
   * the rest; with `CleanupOfOne` this makes the survivors the non-stale rows in
   * their stored order.
   */
  lemma {:induction false} CleanupDistributesOverConcat(a: Sessions, b: Sessions, now: Time)
    ensures CleanupOldSessions(a + b, now).0 == CleanupOldSessions(a, now).0 + CleanupOldSessions(b, now).0
    decreases |b|
  {
    if |b| > 0 {
      var front := b[..|b| - 1];
      var last := b[|b| - 1];
      assert (a + b)[..|a + b| - 1] == a + front;
      assert (a + b)[|a + b| - 1] == last;
      CleanupDistributesOverConcat(a, front, now);
    } else {
      assert a + b == a;
    }
  }
}
