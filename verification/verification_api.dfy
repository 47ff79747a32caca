/** The door-side verification handlers (src/api/verification.rs): asking
    the OIDVP service for a presentation QR code for an event, polling it
    for the holder's answer and recording successes, and the paged history
    of an event's verifications.

    The OIDVP replies, the verifier configuration, the UUID parser, which
    database write fails and the event's stored verification rows are
    inputs. Templates are reduced to the data they carry. */
module VerificationApi {
  import opened Base
  import opened Strings
  import opened CardStore
  import M = Member
  import Ev = Event
  import OV = OidvpVerifier

  datatype VerificationApiError =
    | DatabaseError
    | OidvpError(oidvp: OV.OidvpError)
    | EventNotFound
    | ValidationError(message: string)
    | ConfigError(message: string)
    | SessionError(message: string)

  /** `VerificationApiError::into_response`: only a missing event and a
      rejected input are the caller's fault; the rest are the server's. */
  function StatusOf(e: VerificationApiError): (status: int)
    ensures status == StatusNotFound <==> e.EventNotFound?
    ensures status == StatusBadRequest <==> e.ValidationError?
    ensures status == StatusInternalServerError <==> !e.EventNotFound? && !e.ValidationError?
  {
    match e
    case EventNotFound => StatusNotFound
    case ValidationError(_) => StatusBadRequest
    case _ => StatusInternalServerError
  }

  const UrlNotConfigured: string := "VERIFIER_API_URL not configured"
  const TokenNotConfigured: string := "VERIFIER_ACCESS_TOKEN not configured"

  /** The verifier API's base URL and access token, as configured. */
  datatype VerifierConfig = VerifierConfig(apiUrl: Option<string>, accessToken: Option<string>)

  /** The configuration check both OIDVP handlers make: the URL first, then the token. */
  function RequireConfig(c: VerifierConfig): (r: Result<(string, string), VerificationApiError>)
    ensures r.Ok? <==> c.apiUrl.Some? && c.accessToken.Some?
    ensures r.Ok? ==> r.value == (c.apiUrl.value, c.accessToken.value)
    ensures c.apiUrl.None? ==> r == Err(ConfigError(UrlNotConfigured))
    ensures c.apiUrl.Some? && c.accessToken.None? ==> r == Err(ConfigError(TokenNotConfigured))
  {
    if c.apiUrl.None? then Err(ConfigError(UrlNotConfigured))
    else if c.accessToken.None? then Err(ConfigError(TokenNotConfigured))
    else Ok((c.apiUrl.value, c.accessToken.value))
  }

  // ---------------------------------------------------------------------
  // Requesting a presentation QR code

  const DataUrlPrefix: string := "data:image/png;base64,"
  const QrLifetimeSeconds: int := 300

  /** The image without its data-URL prefix, since the page adds it back. */
  function StripDataUrl(image: string): (r: string)
    ensures DataUrlPrefix <= image ==> DataUrlPrefix + r == image
    ensures !(DataUrlPrefix <= image) ==> r == image
  {
    StripPrefix(image, DataUrlPrefix).GetOr(image)
  }

  /** The page re-adds the prefix to what it receives and gets a data URL of
      the same image whichever form the service sent. */
  lemma StrippedImageIsRestored(payload: string)
    ensures StripDataUrl(DataUrlPrefix + payload) == payload
    ensures DataUrlPrefix + StripDataUrl(DataUrlPrefix + payload) == DataUrlPrefix + payload
  {
    assert DataUrlPrefix <= DataUrlPrefix + payload;
    assert (DataUrlPrefix + payload)[|DataUrlPrefix|..] == payload;
  }

  datatype RequestQrResponse = RequestQrResponse(
    transactionId: string,
    qrcodeImage: string,
    authUri: string,
    expiresInSeconds: int)

  /** The outcome and the verifier reference the service was asked about, if it was asked. */
  datatype RequestQrStep = RequestQrStep(outcome: Result<RequestQrResponse, VerificationApiError>, asked: Option<string>)

  /** `request_qr`. */
  function RequestQr(events: Ev.Events, eventId: Uuid, config: VerifierConfig, reply: OV.Exchange<OV.QrCodeResponse>)
    : (r: RequestQrStep)
    ensures Ev.FindById(events, eventId).None? ==> r == RequestQrStep(Err(EventNotFound), None)
    // a missing URL or token stops the request before the service is asked
    ensures Ev.FindById(events, eventId).Some? && RequireConfig(config).Err? ==>
      r == RequestQrStep(Err(RequireConfig(config).error), None)
    // the service is asked with the event's own verifier reference
    ensures r.asked.Some? <==> Ev.FindById(events, eventId).Some? && RequireConfig(config).Ok?
    ensures r.asked.Some? ==> r.asked.value == Ev.FindById(events, eventId).value.verifierRef
    ensures r.asked.Some? && OV.RequestVerificationQr(reply).Err? ==>
      r.outcome == Err(OidvpError(OV.RequestVerificationQr(reply).error))
    // once asked, the request succeeds exactly when the service's reply parses
    ensures r.asked.Some? ==> (r.outcome.Ok? <==> OV.RequestVerificationQr(reply).Ok?)
    // the service's answer is passed on with the image's prefix dropped, valid for five minutes
    ensures r.outcome.Ok? ==>
      && r.asked.Some? && OV.RequestVerificationQr(reply).Ok?
      && var qr := OV.RequestVerificationQr(reply).value;
      && r.outcome.value.transactionId == qr.transactionId
      && r.outcome.value.authUri == qr.authUri
      && r.outcome.value.expiresInSeconds == QrLifetimeSeconds
      && (DataUrlPrefix <= qr.qrcodeImage ==> DataUrlPrefix + r.outcome.value.qrcodeImage == qr.qrcodeImage)
      && (!(DataUrlPrefix <= qr.qrcodeImage) ==> r.outcome.value.qrcodeImage == qr.qrcodeImage)
  {
    match Ev.FindById(events, eventId)
    case None => RequestQrStep(Err(EventNotFound), None)
    case Some(event) =>
      match RequireConfig(config)
      case Err(e) => RequestQrStep(Err(e), None)
      case Ok(_) =>
        var asked := Some(event.verifierRef);
        match OV.RequestVerificationQr(reply)
        case Err(e) => RequestQrStep(Err(OidvpError(e)), asked)
        case Ok(qr) =>
          RequestQrStep(Ok(RequestQrResponse(qr.transactionId, StripDataUrl(qr.qrcodeImage), qr.authUri,
                                             QrLifetimeSeconds)), asked)
  }

  // ---------------------------------------------------------------------
  // Polling for the holder's presentation

  const Completed: string := "completed"
  const Pending: string := "pending"
  const Succeeded: string := "Verification successful!"
  const FailedPrefix: string := "Verification failed: "
  const Waiting: string := "Waiting for user to scan QR code..."
  const CardIdClaim: string := "cardId"
  const SuccessResult: string := "success"
  const OidvpMethod: string := "oidvp"

  datatype CheckResultResponse = CheckResultResponse(
    status: string,
    verifyResult: Option<bool>,
    resultDescription: Option<string>,
    memberInfo: Option<OV.Info>,
    message: string)

  /** The audit row recorded for a successful presentation: the event, the
      presented card if its id could be read, the outcome, and the context
      (the transaction id and the method, `via`). */
  datatype AuditEntry = AuditEntry(eventId: Uuid, cardId: Option<Uuid>, result: string, transactionId: string,
                                   via: string)

  /** The outcome, whether the service was polled, and the audit row written, if any. */
  datatype CheckStep = CheckStep(outcome: Result<CheckResultResponse, VerificationApiError>, polled: bool,
                                 audit: Option<AuditEntry>)

  /** The presented card's id: the `cardId` member of the flattened
      credentials, when present and a UUID. `parseUuid` is `Uuid::parse_str`. */
  function PresentedCardId(info: Option<OV.Info>, parseUuid: string -> Option<Uuid>): (r: Option<Uuid>)
    ensures r.Some? <==> info.Some? && CardIdClaim in info.value && parseUuid(info.value[CardIdClaim]).Some?
    ensures r.Some? ==> r == parseUuid(info.value[CardIdClaim])
  {
    if info.Some? && CardIdClaim in info.value then parseUuid(info.value[CardIdClaim]) else None
  }

  /** The response for a presentation the service has finished checking. */
  function CompletedResponse(result: OV.ResultResponse, info: Option<OV.Info>): (resp: CheckResultResponse)
    ensures resp.status == Completed && resp.verifyResult == Some(result.verifyResult)
    ensures resp.resultDescription == Some(result.resultDescription) && resp.memberInfo == info
    // the message names the failure reason, and says nothing more on success
    ensures result.verifyResult ==> resp.message == Succeeded
    ensures !result.verifyResult ==>
      (FailedPrefix <= resp.message && resp.message[|FailedPrefix|..] == result.resultDescription)
  {
    CheckResultResponse(Completed, Some(result.verifyResult), Some(result.resultDescription), info,
                        if result.verifyResult then Succeeded else FailedPrefix + result.resultDescription)
  }

  /** `check_result`. `auditFault` says the audit write fails. */
  function CheckResult(events: Ev.Events, eventId: Uuid, transactionId: string, config: VerifierConfig,
                       reply: OV.Exchange<OV.ResultResponse>, parseUuid: string -> Option<Uuid>, auditFault: bool)
    : (r: CheckStep)
    ensures Ev.FindById(events, eventId).None? ==> r == CheckStep(Err(EventNotFound), false, None)
    ensures r.polled <==> Ev.FindById(events, eventId).Some? && RequireConfig(config).Ok?
    ensures !r.polled ==> r.audit.None? && r.outcome.Err?
    // an audit row is written exactly for an accepted presentation whose write succeeds
    ensures r.audit.Some? <==>
      r.polled && OV.PollVerificationResult(reply).Ok? && OV.PollVerificationResult(reply).value.verifyResult
      && !auditFault
    ensures r.audit.Some? ==>
      var result := OV.PollVerificationResult(reply).value;
      var info := if result.data.Some? then OV.ExtractMemberInfo(result.data.value) else None;
      r.audit.value == AuditEntry(eventId, PresentedCardId(info, parseUuid), SuccessResult, transactionId, OidvpMethod)
    // no presentation yet is not an error: the page keeps polling
    ensures r.polled && OV.PollVerificationResult(reply) == Err(OV.NotReady) ==>
      r.outcome == Ok(CheckResultResponse(Pending, None, None, None, Waiting))
    ensures r.polled && OV.PollVerificationResult(reply).Err? && OV.PollVerificationResult(reply) != Err(OV.NotReady) ==>
      r.outcome == Err(OidvpError(OV.PollVerificationResult(reply).error))
    ensures r.outcome.Ok? && r.outcome.value.status == Completed ==>
      && OV.PollVerificationResult(reply).Ok?
      && r.outcome.value.verifyResult == Some(OV.PollVerificationResult(reply).value.verifyResult)
    ensures r.outcome.Ok? && r.outcome.value.verifyResult == Some(true) ==> r.audit.Some?
    // a finished check is answered with its verdict, unless the audit write of an accepted one fails
    ensures r.polled && OV.PollVerificationResult(reply).Ok? ==>
      var result := OV.PollVerificationResult(reply).value;
      var info := if result.data.Some? then OV.ExtractMemberInfo(result.data.value) else None;
      r.outcome == if result.verifyResult && auditFault then Err(DatabaseError) else Ok(CompletedResponse(result, info))
  {
    match Ev.FindById(events, eventId)
    case None => CheckStep(Err(EventNotFound), false, None)
    case Some(_) =>
      match RequireConfig(config)
      case Err(e) => CheckStep(Err(e), false, None)
      case Ok(_) =>
        match OV.PollVerificationResult(reply)
        case Err(e) =>
          if e.NotReady? then CheckStep(Ok(CheckResultResponse(Pending, None, None, None, Waiting)), true, None)
          else CheckStep(Err(OidvpError(e)), true, None)
        case Ok(result) =>
          var info := if result.data.Some? then OV.ExtractMemberInfo(result.data.value) else None;
          if !result.verifyResult then CheckStep(Ok(CompletedResponse(result, info)), true, None)
          else if auditFault then CheckStep(Err(DatabaseError), true, None)
          else
            var entry := AuditEntry(eventId, PresentedCardId(info, parseUuid), SuccessResult, transactionId,
                                    OidvpMethod);
            CheckStep(Ok(CompletedResponse(result, info)), true, Some(entry))
  }

  /** A rejected presentation is reported to the door but leaves no audit
      row, and its message carries the service's reason. */
  lemma RejectedPresentationIsNotAudited(events: Ev.Events, eventId: Uuid, transactionId: string,
                                         config: VerifierConfig, reply: OV.Exchange<OV.ResultResponse>,
                                         parseUuid: string -> Option<Uuid>, auditFault: bool)
    requires Ev.FindById(events, eventId).Some? && RequireConfig(config).Ok?
    requires OV.PollVerificationResult(reply).Ok? && !OV.PollVerificationResult(reply).value.verifyResult
    ensures var r := CheckResult(events, eventId, transactionId, config, reply, parseUuid, auditFault);
      && r.audit.None? && r.outcome.Ok?
      && r.outcome.value.message == FailedPrefix + OV.PollVerificationResult(reply).value.resultDescription
  {
  }

  // ---------------------------------------------------------------------
  // The history page

  const DefaultPage: int := 1
  const DefaultPerPage: int := 50
  const FailedResult: string := "failed"

  /** The page requested, the page size, and the rows skipped before it.
      The arithmetic is unbounded here; see README for the 64-bit range. */
  datatype Paging = Paging(page: int, perPage: int, offset: int)

  function Paginate(page: Option<int>, perPage: Option<int>): (p: Paging)
    ensures p.page == page.GetOr(DefaultPage) && p.perPage == perPage.GetOr(DefaultPerPage)
    ensures p.page >= 1 && p.perPage >= 0 ==> p.offset >= 0
    ensures p.page == 1 ==> p.offset == 0
  {
    var pg := page.GetOr(DefaultPage);
    var pp := perPage.GetOr(DefaultPerPage);
    Paging(pg, pp, (pg - 1) * pp)
  }

  /** Consecutive pages start where the previous one ended. */
  lemma NextPageFollows(page: int, perPage: int)
    ensures Paginate(Some(page + 1), Some(perPage)).offset
      == Paginate(Some(page), Some(perPage)).offset + perPage
  {
  }

  function Min(a: int, b: int): int {
    if a <= b then a else b
  }

  /** `LIMIT perPage OFFSET offset` over the event's rows in query order.
      A negative limit or offset is rejected by the database. */
  function PageRows<T>(rows: seq<T>, p: Paging): (r: Option<seq<T>>)
    ensures r.None? <==> p.perPage < 0 || p.offset < 0
    ensures r.Some? ==> |r.value| <= p.perPage
    ensures r.Some? ==> forall i :: 0 <= i < |r.value| ==> p.offset + i < |rows| && r.value[i] == rows[p.offset + i]
    ensures r.Some? ==> |r.value| == Min(p.perPage, if p.offset <= |rows| then |rows| - p.offset else 0)
  {
    if p.perPage < 0 || p.offset < 0 then None
    else
      var lo := Min(p.offset, |rows|);
      var hi := Min(p.offset + p.perPage, |rows|);
      Some(rows[lo..hi])
  }

  /** The rows of pages 1 to `n`, one after the other. */
  function FirstPages<T>(rows: seq<T>, perPage: nat, n: nat): seq<T> {
    if n == 0 then [] else FirstPages(rows, perPage, n - 1) + PageRows(rows, Paginate(Some(n), Some(perPage))).value
  }

  /** Paging loses and repeats nothing: the first `n` pages, read in order,
      are exactly the first `n * perPage` rows. */
  lemma {:induction false} PagesTileTheHistory<T>(rows: seq<T>, perPage: nat, n: nat)
    ensures FirstPages(rows, perPage, n) == rows[..Min(n * perPage, |rows|)]
  {
    if n > 0 {
      PagesTileTheHistory(rows, perPage, n - 1);
      var start := (n - 1) * perPage;
      MultiplyStep(n, perPage);
      var lo := Min(start, |rows|);
      var hi := Min(start + perPage, |rows|);
      assert PageRows(rows, Paginate(Some(n), Some(perPage))).value == rows[lo..hi];
      assert rows[..lo] + rows[lo..hi] == rows[..hi];
    }
  }

  lemma MultiplyStep(n: nat, k: nat)
    requires n > 0
    ensures n * k == (n - 1) * k + k && (n - 1) * k >= 0
  {
  }

  /** Page 0 asks for a negative offset, which the database rejects. */
  lemma PageZeroFails<T>(rows: seq<T>, perPage: int)
    requires perPage > 0
    ensures PageRows(rows, Paginate(Some(0), Some(perPage))).None?
  {
  }

  /** One stored verification of an event: the card presented, if known,
      and the outcome recorded. */
  datatype HistoryRow = HistoryRow(cardId: Option<Uuid>, verificationResult: string)

  /** A history row with the card and its member, where they can be found. */
  datatype EnrichedRow = EnrichedRow(row: HistoryRow, card: Option<MembershipCard>, member: Option<M.Member>)

  function Enrich(row: HistoryRow, cards: Cards, members: M.Members): (e: EnrichedRow)
    ensures e.row == row
    ensures e.card.Some? <==> row.cardId.Some? && row.cardId.value in cards
    ensures e.card.Some? ==> e.card.value == cards[row.cardId.value]
    // a member is shown only through the card presented
    ensures e.member.Some? <==> e.card.Some? && e.card.value.memberId in members
    ensures e.member.Some? ==> e.member.value == members[e.card.value.memberId]
  {
    var card := if row.cardId.Some? && row.cardId.value in cards then Some(cards[row.cardId.value]) else None;
    var member := if card.Some? && card.value.memberId in members then Some(members[card.value.memberId]) else None;
    EnrichedRow(row, card, member)
  }

  /** Rows whose recorded outcome is `result`. */
  function CountResult(rows: seq<HistoryRow>, result: string): (n: nat)
    ensures n <= |rows|
  {
    if |rows| == 0 then 0
    else (if rows[|rows| - 1].verificationResult == result then 1 else 0) + CountResult(rows[..|rows| - 1], result)
  }

  lemma {:induction false} CountConcat(a: seq<HistoryRow>, b: seq<HistoryRow>, result: string)
    ensures CountResult(a + b, result) == CountResult(a, result) + CountResult(b, result)
    decreases |b|
  {
    if |b| == 0 {
      assert a + b == a;
    } else {
      assert (a + b)[..|a + b| - 1] == a + b[..|b| - 1];
      assert (a + b)[|a + b| - 1] == b[|b| - 1];
      CountConcat(a, b[..|b| - 1], result);
    }
  }

  datatype History = History(
    event: Ev.Event,
    issuer: CardIssuer,
    rows: seq<EnrichedRow>,
    successCount: nat,
    failedCount: nat,
    paging: Paging,
    total: nat)

  /** The event and its issuer; a missing issuer reads as a missing event. */
  function EventAndIssuer(events: Ev.Events, issuers: Issuers, eventId: Uuid)
    : (r: Result<(Ev.Event, CardIssuer), VerificationApiError>)
    ensures r.Ok? <==> Ev.FindById(events, eventId).Some? && Ev.FindById(events, eventId).value.issuerId in issuers
    ensures r.Err? ==> r.error == EventNotFound
    ensures r.Ok? ==> r.value.0 == Ev.FindById(events, eventId).value && r.value.1 == issuers[r.value.0.issuerId]
  {
    match Ev.FindById(events, eventId)
    case None => Err(EventNotFound)
    case Some(event) => if event.issuerId in issuers then Ok((event, issuers[event.issuerId])) else Err(EventNotFound)
  }

  /** `verification_history`. `stored` are the event's verification rows in
      the order the query returns them. */
  function VerificationHistory(events: Ev.Events, issuers: Issuers, cards: Cards, members: M.Members,
                               eventId: Uuid, stored: seq<HistoryRow>, page: Option<int>, perPage: Option<int>)
    : (r: Result<History, VerificationApiError>)
    ensures EventAndIssuer(events, issuers, eventId).Err? ==> r == Err(EventNotFound)
    ensures EventAndIssuer(events, issuers, eventId).Ok? ==>
      (r.Err? <==> PageRows(stored, Paginate(page, perPage)).None?)
    ensures r.Err? && EventAndIssuer(events, issuers, eventId).Ok? ==> r.error == DatabaseError
    ensures r.Ok? ==>
      var h := r.value;
      var shown := PageRows(stored, Paginate(page, perPage)).value;
      && h.paging == Paginate(page, perPage) && h.total == |stored|
      && |h.rows| == |shown| && |h.rows| <= h.total
      && (forall i :: 0 <= i < |h.rows| ==> h.rows[i].row == shown[i])
      // the counts describe the page shown, not the whole history
      && h.successCount == CountResult(shown, SuccessResult)
      && h.failedCount == CountResult(shown, FailedResult)
      && h.successCount + h.failedCount <= |h.rows|
  {
    match EventAndIssuer(events, issuers, eventId)
    case Err(e) => Err(e)
    case Ok((event, issuer)) =>
      var paging := Paginate(page, perPage);
      match PageRows(stored, paging)
      case None => Err(DatabaseError)
      case Some(shown) =>
        SuccessAndFailureAreDisjoint(shown);
        var rows := seq(|shown|, i requires 0 <= i < |shown| => Enrich(shown[i], cards, members));
        Ok(History(event, issuer, rows, CountResult(shown, SuccessResult), CountResult(shown, FailedResult),
                   paging, |stored|))
  }

  /** No row counts both as a success and as a failure. */
  lemma {:induction false} SuccessAndFailureAreDisjoint(rows: seq<HistoryRow>)
    ensures CountResult(rows, SuccessResult) + CountResult(rows, FailedResult) <= |rows|
  {
    if |rows| > 0 {
      SuccessAndFailureAreDisjoint(rows[..|rows| - 1]);
    }
  }

  /** The page's counts never exceed the event's own: they are counts over
      a window of the full history. */
  lemma PageCountsAreAtMostTotals(stored: seq<HistoryRow>, p: Paging, result: string)
    requires PageRows(stored, p).Some?
    ensures CountResult(PageRows(stored, p).value, result) <= CountResult(stored, result)
  {
    var lo := Min(p.offset, |stored|);
    var hi := Min(p.offset + p.perPage, |stored|);
    assert stored == stored[..lo] + stored[lo..hi] + stored[hi..];
    CountConcat(stored[..lo] + stored[lo..hi], stored[hi..], result);
    CountConcat(stored[..lo], stored[lo..hi], result);
  }
}
