/** The member-facing card handlers (src/api/cards.rs): claiming a card
    through a verification comment, viewing one's own card and its wallet
    offer, and polling the wallet until the credential is issued.

    The logged-in member is an input (`get_authenticated_member`'s answer),
    as are the member's OAuth session row, the token refresh outcome, the
    session's recorded start time, the wallet API's reply and which
    database write fails. Templates and redirects are reduced to the data
    they carry. */
module CardsApi {
  import opened Base
  import opened CardStore
  import M = Member
  import SC = SubscriptionChecker
  import CI = CardIssuer
  import WQ = WalletQr
  import QR = WalletQrCode

  const NoRefreshToken: string := "No refresh token available"
  const InvalidAccessToken: string := "Invalid access token encoding"
  const NoSessionStart: string := "No session start time"

  datatype CardsError =
    | AuthError
    | DatabaseError
    | IssuanceError(issuance: CI.CardIssuanceError)
    | SessionError(message: string)
    | NotFound
    | WalletQrError(wallet: WQ.WalletQrError)

  /** `CardsError::into_response`: the HTTP status of an error, or None
      when the authentication layer answers with its own response. */
  function StatusOf(e: CardsError): (status: Option<int>)
    ensures status.None? <==> e.AuthError?
    // only a credential that is not ready yet is a 202; every other wallet error is the caller's
    ensures e.WalletQrError? ==>
      (status == Some(StatusAccepted) <==> e.wallet.CredentialNotReady?)
      && (status == Some(StatusAccepted) || status == Some(StatusBadRequest))
    ensures status == Some(StatusNotFound) <==> e.NotFound?
    ensures status == Some(StatusInternalServerError) <==> e.DatabaseError? || e.SessionError?
  {
    match e
    case AuthError => None
    case DatabaseError => Some(StatusInternalServerError)
    case IssuanceError(_) => Some(StatusBadRequest)
    case SessionError(_) => Some(StatusInternalServerError)
    case NotFound => Some(StatusNotFound)
    case WalletQrError(w) => if w.CredentialNotReady? then Some(StatusAccepted) else Some(StatusBadRequest)
  }

  /** The wallet API configuration handed to issuance: the base URL and the
      access token, only when both are configured. */
  function WalletConfig(issuerApiUrl: Option<string>, issuerAccessToken: Option<string>)
    : (c: Option<(string, string)>)
    ensures c.Some? <==> issuerApiUrl.Some? && issuerAccessToken.Some?
    ensures c.Some? ==> c.value.0 == issuerApiUrl.value && c.value.1 == issuerAccessToken.value
  {
    match issuerApiUrl
    case None => None
    case Some(url) => match issuerAccessToken
      case None => None
      case Some(token) => Some((url, token))
  }

  /** The card, when it exists and belongs to the member. Another member's
      card is reported exactly like a missing one. A card row's id is the
      key it is stored under, so later lookups use `cardId`. */
  function OwnedCard(cards: Cards, memberId: Uuid, cardId: Uuid): (r: Result<MembershipCard, CardsError>)
    ensures r.Ok? <==> cardId in cards && cards[cardId].memberId == memberId
    ensures r.Ok? ==> r.value == cards[cardId]
    ensures r.Err? ==> r.error == NotFound
  {
    if cardId !in cards || cards[cardId].memberId != memberId then Err(NotFound) else Ok(cards[cardId])
  }

  /** `show_card`: the member's card with its active wallet offer, if any. */
  function ShowCard(cards: Cards, codes: QR.Codes, memberId: Uuid, cardId: Uuid)
    : (r: Result<(MembershipCard, Option<QR.WalletQrCode>), CardsError>)
    ensures r.Ok? <==> OwnedCard(cards, memberId, cardId).Ok?
    ensures r.Ok? ==> r.value.0 == cards[cardId]
    ensures r.Ok? && r.value.1.Some? ==>
      r.value.1.value in codes && r.value.1.value.cardId == cardId && r.value.1.value.isActive
    ensures r.Ok? && r.value.1.None? ==>
      forall i :: 0 <= i < |codes| ==> !(codes[i].cardId == cardId && codes[i].isActive)
  {
    match OwnedCard(cards, memberId, cardId)
    case Err(e) => Err(e)
    case Ok(card) => Ok((card, QR.FindActiveByCardId(codes, cardId)))
  }

  const NotAvailable: string := "Not available"

  /** `card_qr`: the QR payload of the card's active wallet offer as plain
      text, or "Not available" when there is none. */
  function CardQr(cards: Cards, codes: QR.Codes, memberId: Uuid, cardId: Uuid): (r: Result<string, CardsError>)
    ensures r.Ok? <==> OwnedCard(cards, memberId, cardId).Ok?
    ensures r.Ok? && r.value != NotAvailable ==>
      exists i :: 0 <= i < |codes| && codes[i].cardId == cardId && codes[i].isActive && codes[i].qrCode == r.value
    ensures r.Ok? && (forall i :: 0 <= i < |codes| ==> !(codes[i].cardId == cardId && codes[i].isActive)) ==>
      r.value == NotAvailable
  {
    match ShowCard(cards, codes, memberId, cardId)
    case Err(e) => Err(e)
    case Ok((_, offer)) => Ok(if offer.Some? then offer.value.qrCode else NotAvailable)
  }

  /** Looking at someone else's card tells the member nothing the card's
      absence would not: both handlers answer as if it did not exist. */
  lemma ForeignCardsLookMissing(cards: Cards, codes: QR.Codes, memberId: Uuid, cardId: Uuid)
    requires cardId in cards && cards[cardId].memberId != memberId
    ensures ShowCard(cards, codes, memberId, cardId) == ShowCard(cards - {cardId}, codes, memberId, cardId)
    ensures CardQr(cards, codes, memberId, cardId) == CardQr(cards - {cardId}, codes, memberId, cardId)
    ensures StatusOf(ShowCard(cards, codes, memberId, cardId).error) == Some(StatusNotFound)
  {
  }

  // ---------------------------------------------------------------------
  // Polling the wallet for the issued credential

  const Ready: string := "ready"
  const AlreadyIssued: string := "Credential already issued"
  const IssuedAndStored: string := "Credential issued and CID stored"

  datatype PollCredentialResponse = PollCredentialResponse(status: string, cid: Option<string>, message: string)

  /** What the outside world answers during one poll. */
  datatype PollWorld = PollWorld(
    reply: WQ.Exchange<WQ.PollBody>,            // the wallet API's reply to the status request
    decode: string -> Option<seq<bv8>>,          // base64url decoding
    readJti: seq<bv8> -> Option<string>,         // JSON parse of the claims, `jti` member
    scanFault: bool,                             // `mark_as_scanned` fails
    now: Time)

  /** The outcome, the wallet transaction polled (if the wallet was asked),
      and the offer table afterwards. */
  datatype PollStep = PollStep(
    outcome: Result<PollCredentialResponse, CardsError>,
    polled: Option<string>,
    codes: QR.Codes)

  /** The wallet is asked about the card's active offer: the card is the
      member's, its active offer holds no credential id yet, and the wallet
      API's URL is configured. */
  predicate AsksWalletForCid(cards: Cards, codes: QR.Codes, memberId: Uuid, cardId: Uuid, issuerApiUrl: Option<string>) {
    && OwnedCard(cards, memberId, cardId).Ok?
    && QR.FindActiveByCardId(codes, cardId).Some?
    && QR.FindActiveByCardId(codes, cardId).value.cid.None?
    && issuerApiUrl.Some?
  }

  /** `poll_credential`. `issuerApiUrl` is the configured wallet API base URL. */
  function PollCredential(cards: Cards, codes: QR.Codes, memberId: Uuid, cardId: Uuid,
                          issuerApiUrl: Option<string>, w: PollWorld): (r: PollStep)
    // ownership first: a missing or foreign card is NotFound, with no wallet call and no write
    ensures OwnedCard(cards, memberId, cardId).Err? ==> r == PollStep(Err(NotFound), None, codes)
    ensures OwnedCard(cards, memberId, cardId).Ok? && QR.FindActiveByCardId(codes, cardId).None? ==>
      r == PollStep(Err(WalletQrError(WQ.ApiError(WQ.NoActiveOffer))), None, codes)
    // an offer that already holds a credential id answers from storage alone
    ensures OwnedCard(cards, memberId, cardId).Ok? && QR.FindActiveByCardId(codes, cardId).Some?
            && QR.FindActiveByCardId(codes, cardId).value.cid.Some? ==>
      r == PollStep(Ok(PollCredentialResponse(Ready, QR.FindActiveByCardId(codes, cardId).value.cid, AlreadyIssued)),
                    None, codes)
    // with no credential id stored, a missing URL stops the poll before the wallet is asked
    ensures OwnedCard(cards, memberId, cardId).Ok? && QR.FindActiveByCardId(codes, cardId).Some?
            && QR.FindActiveByCardId(codes, cardId).value.cid.None? && issuerApiUrl.None? ==>
      r == PollStep(Err(WalletQrError(WQ.ApiError(WQ.IssuerApiUrlMissing))), None, codes)
    // the wallet is asked exactly about the card's own active offer, and only when its URL is configured
    ensures r.polled.Some? <==> AsksWalletForCid(cards, codes, memberId, cardId, issuerApiUrl)
    ensures r.polled.Some? ==> r.polled.value == QR.FindActiveByCardId(codes, cardId).value.transactionId
    // a wallet failure is passed on and nothing is written
    ensures r.polled.Some? && WQ.PollCredentialStatus(w.reply).Err? ==>
      r.outcome == Err(WalletQrError(WQ.PollCredentialStatus(w.reply).error)) && r.codes == codes
    // the only write records the extracted credential id on the polled offer
    ensures r.codes != codes ==>
      && r.polled.Some? && r.outcome.Ok? && r.outcome.value.cid.Some?
      && WQ.PollCredentialStatus(w.reply).Ok?
      && WQ.ExtractCid(WQ.PollCredentialStatus(w.reply).value, w.decode, w.readJti)
         == Ok(r.outcome.value.cid.value)
      && r.codes == QR.MarkAsScanned(codes, QR.FindActiveByCardId(codes, cardId).value.id,
                                     r.outcome.value.cid.value, w.now)
    // a credential id read from the issued credential is stored on the offer and answered as ready
    ensures r.polled.Some? && WQ.PollCredentialStatus(w.reply).Ok?
            && WQ.ExtractCid(WQ.PollCredentialStatus(w.reply).value, w.decode, w.readJti).Ok? ==>
      var cid := WQ.ExtractCid(WQ.PollCredentialStatus(w.reply).value, w.decode, w.readJti).value;
      && (!w.scanFault ==>
            r == PollStep(Ok(PollCredentialResponse(Ready, Some(cid), IssuedAndStored)), r.polled,
                          QR.MarkAsScanned(codes, QR.FindActiveByCardId(codes, cardId).value.id, cid, w.now)))
      && (w.scanFault ==> r == PollStep(Err(DatabaseError), r.polled, codes))
    // a credential whose id cannot be read is passed on as the wallet error, with no write
    ensures r.polled.Some? && WQ.PollCredentialStatus(w.reply).Ok?
            && WQ.ExtractCid(WQ.PollCredentialStatus(w.reply).value, w.decode, w.readJti).Err? ==>
      r == PollStep(Err(WalletQrError(WQ.ExtractCid(WQ.PollCredentialStatus(w.reply).value, w.decode, w.readJti).error)),
                    r.polled, codes)
    ensures r.outcome.Ok? ==> r.outcome.value.status == Ready && r.outcome.value.cid.Some?
    // after success the card's active offer holds the credential id returned
    ensures r.outcome.Ok? ==>
      && QR.FindActiveByCardId(r.codes, cardId).Some?
      && QR.FindActiveByCardId(r.codes, cardId).value.cid == r.outcome.value.cid
  {
    match OwnedCard(cards, memberId, cardId)
    case Err(e) => PollStep(Err(e), None, codes)
    case Ok(_) =>
      match QR.FindActiveByCardId(codes, cardId)
      case None => PollStep(Err(WalletQrError(WQ.ApiError(WQ.NoActiveOffer))), None, codes)
      case Some(offer) =>
        if offer.cid.Some? then
          PollStep(Ok(PollCredentialResponse(Ready, offer.cid, AlreadyIssued)), None, codes)
        else if issuerApiUrl.None? then
          PollStep(Err(WalletQrError(WQ.ApiError(WQ.IssuerApiUrlMissing))), None, codes)
        else
          var polled := Some(offer.transactionId);
          match WQ.PollCredentialStatus(w.reply)
          case Err(e) => PollStep(Err(WalletQrError(e)), polled, codes)
          case Ok(credential) =>
            match WQ.ExtractCid(credential, w.decode, w.readJti)
            case Err(e) => PollStep(Err(WalletQrError(e)), polled, codes)
            case Ok(cid) =>
              if w.scanFault then PollStep(Err(DatabaseError), polled, codes)
              else
                var after := QR.MarkAsScanned(codes, offer.id, cid, w.now);
                QR.FindActiveAfterScan(codes, cardId, offer, cid, w.now);
                PollStep(Ok(PollCredentialResponse(Ready, Some(cid), IssuedAndStored)), polled, after)
  }

  /** Polling is idempotent: once a poll has succeeded, every later poll of
      the card answers "ready" with the same credential id from storage,
      without asking the wallet and without writing, whatever the wallet
      would now say and whether or not its URL is still configured. */
  lemma PollAgainAfterSuccess(cards: Cards, codes: QR.Codes, memberId: Uuid, cardId: Uuid,
                              url1: Option<string>, w1: PollWorld, url2: Option<string>, w2: PollWorld)
    requires PollCredential(cards, codes, memberId, cardId, url1, w1).outcome.Ok?
    ensures var first := PollCredential(cards, codes, memberId, cardId, url1, w1);
      PollCredential(cards, first.codes, memberId, cardId, url2, w2)
      == PollStep(Ok(PollCredentialResponse(Ready, first.outcome.value.cid, AlreadyIssued)), None, first.codes)
  {
  }

  /** The status a failed poll answers with: 404 for a card the member
      cannot see, 202 exactly when the wallet said the credential is not
      ready yet, 500 for a failed write, 400 otherwise. */
  lemma PollErrorStatus(cards: Cards, codes: QR.Codes, memberId: Uuid, cardId: Uuid,
                        issuerApiUrl: Option<string>, w: PollWorld)
    requires PollCredential(cards, codes, memberId, cardId, issuerApiUrl, w).outcome.Err?
    ensures var r := PollCredential(cards, codes, memberId, cardId, issuerApiUrl, w);
      var status := StatusOf(r.outcome.error);
      && (status == Some(StatusNotFound) <==> OwnedCard(cards, memberId, cardId).Err?)
      && (status == Some(StatusAccepted) <==>
            r.polled.Some? && WQ.PollCredentialStatus(w.reply) == Err(WQ.CredentialNotReady))
      && (status == Some(StatusInternalServerError) <==>
            r.polled.Some? && WQ.PollCredentialStatus(w.reply).Ok? && w.scanFault
            && WQ.ExtractCid(WQ.PollCredentialStatus(w.reply).value, w.decode, w.readJti).Ok?)
      && (status == Some(StatusNotFound) || status == Some(StatusAccepted)
          || status == Some(StatusInternalServerError) || status == Some(StatusBadRequest))
  {
  }

  // ---------------------------------------------------------------------
  // Claiming a card

  /** Where the session's recorded start time comes from. */
  datatype SessionStart = StoreFailure | Missing | Unparsable | StartedAt(at: Time)

  /** What the outside world answers while a claim is handled. */
  datatype ClaimWorld = ClaimWorld(
    sessionMember: Option<Uuid>,        // get_authenticated_member
    oauth: Option<SC.OAuthSession>,     // OAuthSession::find_by_member_id
    refreshed: Option<string>,          // refresh_access_token: the new access token, None on failure
    tokenWriteFails: bool,              // OAuthSession::update_tokens fails
    sessionStart: SessionStart,         // the session's start time, read and parsed as RFC 3339
    issuerApiUrl: Option<string>,
    issuerAccessToken: Option<string>)

  /** A signed-in member with a member record and an OAuth session row. */
  predicate SignedIn(members: M.Members, w: ClaimWorld) {
    w.sessionMember.Some? && w.sessionMember.value in members && w.oauth.Some?
  }

  /** The session's token had expired and the refresh endpoint issued a new one. */
  predicate Refreshes(members: M.Members, w: ClaimWorld) {
    && SignedIn(members, w) && w.oauth.value.isExpired
    && w.oauth.value.refreshToken.Some? && w.oauth.value.refreshToken.value.Utf8?
    && w.refreshed.Some?
  }

  /** The member record, the access token to use, and the access token
      written back to the session row (after a refresh). */
  datatype Authorized = Authorized(member: M.Member, token: SC.TokenBytes, written: Option<string>)

  /** The authentication checks and, for an expired token, the refresh and
      the write-back of the new token, which happens before anything else
      is checked. */
  function Authorize(members: M.Members, w: ClaimWorld): (r: Result<Authorized, CardsError>)
    ensures !SignedIn(members, w) <==> r == Err(AuthError)
    ensures r == Err(SessionError(NoRefreshToken)) <==>
      && SignedIn(members, w) && w.oauth.value.isExpired
      && (w.oauth.value.refreshToken.None? || w.oauth.value.refreshToken.value.NotUtf8?)
    ensures r == Err(SessionError(TokenRefreshFailed)) <==>
      && SignedIn(members, w) && w.oauth.value.isExpired
      && w.oauth.value.refreshToken.Some? && w.oauth.value.refreshToken.value.Utf8? && w.refreshed.None?
    ensures r == Err(DatabaseError) <==> Refreshes(members, w) && w.tokenWriteFails
    ensures r.Ok? ==> r.value.member == members[w.sessionMember.value]
    ensures r.Ok? && !w.oauth.value.isExpired ==> r.value.token == w.oauth.value.accessToken && r.value.written.None?
    ensures r.Ok? && w.oauth.value.isExpired ==>
      Refreshes(members, w) && r.value.token == SC.Utf8(w.refreshed.value) && r.value.written == w.refreshed
    ensures r.Err? && r.error != AuthError && r.error != DatabaseError ==> r.error.SessionError?
  {
    if w.sessionMember.None? || w.sessionMember.value !in members || w.oauth.None? then Err(AuthError)
    else
      var member := members[w.sessionMember.value];
      var session := w.oauth.value;
      if !session.isExpired then Ok(Authorized(member, session.accessToken, None))
      else if session.refreshToken.None? || session.refreshToken.value.NotUtf8? then
        Err(SessionError(NoRefreshToken))
      else if w.refreshed.None? then Err(SessionError(TokenRefreshFailed))
      else if w.tokenWriteFails then Err(DatabaseError)
      else Ok(Authorized(member, SC.Utf8(w.refreshed.value), w.refreshed))
  }

  /** Everything issuance needs that the handler gathers first: the member
      record, a usable access token and the session start. */
  datatype Prepared = Prepared(member: M.Member, accessToken: string, startedAt: Time)

  /** The checks `claim_card_for_channel` makes before issuing. */
  function PrepareClaim(members: M.Members, w: ClaimWorld): (r: Result<Prepared, CardsError>)
    ensures !SignedIn(members, w) <==> r == Err(AuthError)
    // an expired token with no usable refresh token stops the claim before anything else is tried
    ensures r == Err(SessionError(NoRefreshToken)) <==>
      && SignedIn(members, w) && w.oauth.value.isExpired
      && (w.oauth.value.refreshToken.None? || w.oauth.value.refreshToken.value.NotUtf8?)
    ensures r == Err(DatabaseError) <==> Refreshes(members, w) && w.tokenWriteFails
    ensures r.Ok? ==> r.value.member == members[w.sessionMember.value]
    // the token used is the stored one while it is valid, the refreshed one once it expired
    ensures r.Ok? && !w.oauth.value.isExpired ==> w.oauth.value.accessToken == SC.Utf8(r.value.accessToken)
    ensures r.Ok? && w.oauth.value.isExpired ==> w.refreshed == Some(r.value.accessToken)
    // the session start must be present and parse
    ensures r.Ok? ==> w.sessionStart == StartedAt(r.value.startedAt)
    ensures r.Ok? <==> Authorize(members, w).Ok? && Authorize(members, w).value.token.Utf8? && w.sessionStart.StartedAt?
    ensures r.Err? && r.error != AuthError && r.error != DatabaseError ==> r.error.SessionError?
  {
    match Authorize(members, w)
    case Err(e) => Err(e)
    case Ok(a) =>
      if a.token.NotUtf8? then Err(SessionError(InvalidAccessToken))
      else match w.sessionStart
        case StoreFailure => Err(SessionError(SessionStoreFailure))
        case Missing => Err(SessionError(NoSessionStart))
        case Unparsable => Err(SessionError(UnparsableSessionStart))
        case StartedAt(t) => Ok(Prepared(a.member, a.token.text, t))
  }

  /** The access token written back to the session row during a claim, if any. */
  function TokenWritten(members: M.Members, w: ClaimWorld): (t: Option<string>)
    ensures t.Some? <==> Refreshes(members, w) && !w.tokenWriteFails
    ensures t.Some? ==> t == w.refreshed
  {
    match Authorize(members, w)
    case Ok(a) => a.written
    case Err(_) => None
  }

  /** Messages of session failures whose text comes from a library. */
  const TokenRefreshFailed: string := "Token refresh failed"
  const SessionStoreFailure: string := "Session store failure"
  const UnparsableSessionStart: string := "Unparsable session start time"

  /** The issuance request built from the member record and the form. */
  function ClaimRequest(p: Prepared, issuerId: Uuid, commentLink: string): (req: CI.IssueCardRequest)
    ensures req.issuerId == issuerId && req.commentLinkOrId == commentLink
    ensures req.memberYoutubeUserId == p.member.youtubeUserId
    ensures req.memberDisplayName == p.member.defaultDisplayName && req.memberAvatarUrl == p.member.avatarUrl
    ensures req.sessionStartedAt == p.startedAt && req.accessToken == p.accessToken
  {
    CI.IssueCardRequest(issuerId, p.member.youtubeUserId, p.member.defaultDisplayName, p.member.avatarUrl,
                        commentLink, p.startedAt, p.accessToken)
  }

  /** The outcome (the new card's id, which the handler redirects to), the
      access token written back to the session row, and the tables afterwards. */
  datatype ClaimStep = ClaimStep(outcome: Result<Uuid, CardsError>, tokenWritten: Option<string>, store: CI.Store)

  /** `claim_card_for_channel`. */
  function ClaimCard(s: CI.Store, issuerId: Uuid, commentLink: string, w: ClaimWorld, iw: CI.IssueWorld)
    : (r: ClaimStep)
    requires M.Valid(s.members) && CI.FreshFor(s, iw)
    // a failed check before issuance writes no table
    ensures PrepareClaim(s.members, w).Err? ==> r.outcome == Err(PrepareClaim(s.members, w).error) && r.store == s
    // a refreshed token is written back whatever happens after the refresh
    ensures r.tokenWritten.Some? <==> Refreshes(s.members, w) && !w.tokenWriteFails
    ensures r.tokenWritten.Some? ==> r.tokenWritten == w.refreshed
    ensures r.outcome.Err? && !r.outcome.error.IssuanceError? ==> r.store == s
    // a claimed card is the one issuance created, in the issuer's name, for the member of the session
    ensures r.outcome.Ok? ==>
      && PrepareClaim(s.members, w).Ok?
      && r.outcome.value == iw.freshCardId && r.outcome.value in r.store.cards
      && issuerId in s.issuers
      && r.store.cards[r.outcome.value].issuerId == s.issuers[issuerId].id
      && r.store.cards[r.outcome.value].status == Active
    // once the checks pass, the claim answers what issuance answers and keeps what it wrote
    ensures PrepareClaim(s.members, w).Ok? ==>
      var st := CI.IssueCard(s, WalletConfig(w.issuerApiUrl, w.issuerAccessToken),
                             ClaimRequest(PrepareClaim(s.members, w).value, issuerId, commentLink), iw);
      && r.store == st.store
      && r.outcome == if st.outcome.Ok? then Ok(st.outcome.value.card.id) else Err(IssuanceError(st.outcome.error))
  {
    var written := TokenWritten(s.members, w);
    match PrepareClaim(s.members, w)
    case Err(e) => ClaimStep(Err(e), written, s)
    case Ok(p) =>
      var step := CI.IssueCard(s, WalletConfig(w.issuerApiUrl, w.issuerAccessToken),
                               ClaimRequest(p, issuerId, commentLink), iw);
      match step.outcome
      case Err(e) => ClaimStep(Err(IssuanceError(e)), written, step.store)
      case Ok(result) => ClaimStep(Ok(result.card.id), written, step.store)
  }

  /** Without both the wallet URL and its token no card is ever claimed,
      and the card table is left as it was. */
  lemma NoWalletNoCard(s: CI.Store, issuerId: Uuid, commentLink: string, w: ClaimWorld, iw: CI.IssueWorld)
    requires M.Valid(s.members) && CI.FreshFor(s, iw)
    requires w.issuerApiUrl.None? || w.issuerAccessToken.None?
    ensures ClaimCard(s, issuerId, commentLink, w, iw).outcome.Err?
    ensures ClaimCard(s, issuerId, commentLink, w, iw).store.cards == s.cards
  {
  }

  /** An expired token without a usable refresh token fails the claim as a
      session error (500), before YouTube or the wallet is asked anything. */
  lemma ExpiredWithoutRefreshToken(s: CI.Store, issuerId: Uuid, commentLink: string, w: ClaimWorld, iw: CI.IssueWorld)
    requires M.Valid(s.members) && CI.FreshFor(s, iw)
    requires w.sessionMember.Some? && w.sessionMember.value in s.members && w.oauth.Some?
    requires w.oauth.value.isExpired
    requires w.oauth.value.refreshToken.None? || w.oauth.value.refreshToken.value.NotUtf8?
    ensures ClaimCard(s, issuerId, commentLink, w, iw) == ClaimStep(Err(SessionError(NoRefreshToken)), None, s)
    ensures StatusOf(SessionError(NoRefreshToken)) == Some(StatusInternalServerError)
  {
  }

  /** The refreshed token is written back before the session start is read:
      a claim that then fails on the session start has still stored it. */
  lemma RefreshIsKeptWhenSessionStartFails(s: CI.Store, issuerId: Uuid, commentLink: string, w: ClaimWorld,
                                           iw: CI.IssueWorld)
    requires M.Valid(s.members) && CI.FreshFor(s, iw)
    requires Refreshes(s.members, w) && !w.tokenWriteFails && !w.sessionStart.StartedAt?
    ensures var r := ClaimCard(s, issuerId, commentLink, w, iw);
      r.outcome.Err? && r.outcome.error.SessionError? && r.tokenWritten == w.refreshed && r.store == s
  {
  }

  /** A refresh whose write-back fails stops the claim with a database error (500). */
  lemma FailedTokenWriteStopsClaim(s: CI.Store, issuerId: Uuid, commentLink: string, w: ClaimWorld,
                                   iw: CI.IssueWorld)
    requires M.Valid(s.members) && CI.FreshFor(s, iw)
    requires Refreshes(s.members, w) && w.tokenWriteFails
    ensures ClaimCard(s, issuerId, commentLink, w, iw) == ClaimStep(Err(DatabaseError), None, s)
    ensures StatusOf(DatabaseError) == Some(StatusInternalServerError)
  {
  }
}
