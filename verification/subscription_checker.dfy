/** The background re-verification sweep (src/jobs/subscription_checker.rs):
    each card of a batch is re-checked against the upstream membership probe
    and then extended, charged a failure, or expired; per-card outcomes are
    tallied and never stop the batch.

    Everything the sweep learns from outside (database lookups, the token
    refresh endpoint, the environment, the membership probe's reply, which
    database call fails) is an input `CardWorld`, one per card. */
module SubscriptionChecker {
  import opened Base
  import opened CardStore
  import MC = MembershipChecker

  const FailureThreshold: int := 3

  /** Stored token bytes: valid UTF-8 text or not. */
  datatype TokenBytes = Utf8(text: string) | NotUtf8

  /** The OAuth session row of the card's member; `isExpired` is the answer
      of `OAuthSession::is_expired` at sweep time. */
  datatype OAuthSession = OAuthSession(
    accessToken: TokenBytes,
    refreshToken: Option<TokenBytes>,
    isExpired: bool)

  /** The first database call of a card's check that fails, if any. */
  datatype DbStep =
    | NoFault | AtIssuerLookup | AtSessionLookup | AtTokenUpdate
    | AtExtend | AtIncrement | AtSetStatus

  /** What the world answers while one card is being checked. */
  datatype CardWorld = CardWorld(
    issuer: Option<CardIssuer>,     // CardIssuer::find_by_id
    session: Option<OAuthSession>,  // OAuthSession::find_by_member_id
    refreshConfigured: bool,        // client id, client secret and base URL all set
    refreshed: Option<string>,      // refresh_access_token: the new access token, None on failure
    upstream: MC.Upstream,          // the membership probe's reply
    dbFault: DbStep)

  datatype VerificationResult = StillMember | MembershipExpired

  datatype ApiReason =
    | IssuerNotFound
    | SessionNotFound
    | InvalidTokenEncoding
    | InvalidVerificationMethod
    | CheckFailed(cause: MC.MembershipCheckError)

  datatype VerificationError =
    | TokenRefreshFailed
    | ApiError(reason: ApiReason)
    | DatabaseError(at: DbStep)

  /** Which upstream probe was called, for which video, with which token. */
  datatype ProbeKind = VideoProbe | CommentProbe
  datatype Probe = Probe(kind: ProbeKind, videoId: string, accessToken: string)

  /** The effect of checking one card: its outcome, the probe made (if any)
      and the card table afterwards. */
  datatype CardStep = CardStep(
    outcome: Result<VerificationResult, VerificationError>,
    probe: Option<Probe>,
    cards: Cards)

  /** Steps 1-3 of `verify_single_card`: issuer, session and a usable access token. */
  function Prepare(w: CardWorld): (r: Result<(CardIssuer, string), VerificationError>)
    ensures r.Ok? ==> w.issuer == Some(r.value.0) && w.session.Some?
    ensures r.Ok? && !w.session.value.isExpired ==> w.session.value.accessToken == Utf8(r.value.1)
    ensures r.Ok? && w.session.value.isExpired ==> w.refreshed == Some(r.value.1)
    ensures w.session.Some? && w.session.value.isExpired && w.dbFault != AtIssuerLookup && w.issuer.Some?
            && w.dbFault != AtSessionLookup
            && (w.session.value.refreshToken.None? || w.session.value.refreshToken.value.NotUtf8?)
            ==> r == Err(TokenRefreshFailed)
    ensures r == Err(TokenRefreshFailed) ==> w.session.Some? && w.session.value.isExpired
  {
    if w.dbFault == AtIssuerLookup then Err(DatabaseError(AtIssuerLookup))
    else if w.issuer.None? then Err(ApiError(IssuerNotFound))
    else if w.dbFault == AtSessionLookup then Err(DatabaseError(AtSessionLookup))
    else if w.session.None? then Err(ApiError(SessionNotFound))
    else
      var session := w.session.value;
      if session.isExpired then
        if session.refreshToken.None? || session.refreshToken.value.NotUtf8? then Err(TokenRefreshFailed)
        else if !w.refreshConfigured then Err(TokenRefreshFailed)
        else if w.refreshed.None? then Err(TokenRefreshFailed)
        else if w.dbFault == AtTokenUpdate then Err(DatabaseError(AtTokenUpdate))
        else Ok((w.issuer.value, w.refreshed.value))
      else if session.accessToken.NotUtf8? then Err(ApiError(InvalidTokenEncoding))
      else Ok((w.issuer.value, session.accessToken.text))
  }

  /** Step 4's choice of video: the members-only video for the video method
      when one is configured, otherwise the verification video. */
  function TargetVideo(issuer: CardIssuer): string {
    if issuer.verificationMethod == "video" then
      issuer.membersOnlyVideoId.GetOr(issuer.verificationVideoId)
    else
      issuer.verificationVideoId
  }

  /** `verify_single_card`. */
  function VerifySingleCard(cards: Cards, card: MembershipCard, w: CardWorld, now: Time): (s: CardStep)
    requires card.id in cards
    ensures s.cards.Keys == cards.Keys
    ensures forall k :: k in cards && k != card.id ==> s.cards[k] == cards[k]
    // a confirmed member: thirty more days, checked now, failures cleared
    ensures s.outcome == Ok(StillMember) ==>
      s.cards[card.id] == cards[card.id].(expiresAt := Some(now + ExpirationExtensionDays * SecondsPerDay),
                                          lastVerifiedAt := Some(now), verificationFailures := 0)
    // a denied member: one more failure, expired once the threshold is reached
    ensures s.outcome == Ok(MembershipExpired) ==>
      var n := cards[card.id].verificationFailures + 1;
      s.cards[card.id] == cards[card.id].(verificationFailures := n, lastVerifiedAt := Some(now),
                                          status := if n >= FailureThreshold then Expired else cards[card.id].status)
    // an error leaves the card as it was, unless only the final status write failed
    ensures s.outcome.Err? && s.outcome != Err(DatabaseError(AtSetStatus)) ==> s.cards == cards
    // a probe is made only with a usable token, against the issuer's target video
    ensures s.probe.Some? ==> Prepare(w).Ok? && s.probe.value.videoId == TargetVideo(Prepare(w).value.0)
                              && s.probe.value.accessToken == Prepare(w).value.1
    ensures s.outcome.Ok? ==> s.probe.Some?
    ensures s.probe.Some? ==>
      (s.probe.value.kind == VideoProbe <==> Prepare(w).value.0.verificationMethod == "video")
    // any method other than "video" and "comment" is rejected before a probe
    ensures Prepare(w).Ok? && Prepare(w).value.0.verificationMethod !in {"video", "comment"} ==>
      s.outcome == Err(ApiError(InvalidVerificationMethod)) && s.probe.None?
  {
    match Prepare(w)
    case Err(e) => CardStep(Err(e), None, cards)
    case Ok((issuer, token)) =>
      var video := TargetVideo(issuer);
      var how := issuer.verificationMethod;
      if how != "video" && how != "comment" then
        CardStep(Err(ApiError(InvalidVerificationMethod)), None, cards)
      else
        var probe := Probe(if how == "video" then VideoProbe else CommentProbe, video, token);
        var check := if how == "video" then MC.CheckVideoAccess(w.upstream)
                     else MC.CheckCommentAccess(w.upstream);
        match check
        case Err(e) => CardStep(Err(ApiError(CheckFailed(e))), Some(probe), cards)
        case Ok(isStillMember) =>
          if isStillMember then
            if w.dbFault == AtExtend then CardStep(Err(DatabaseError(AtExtend)), Some(probe), cards)
            else CardStep(Ok(StillMember), Some(probe),
                          ExtendExpiration(cards, card.id, ExpirationExtensionDays, now))
          else if w.dbFault == AtIncrement then
            CardStep(Err(DatabaseError(AtIncrement)), Some(probe), cards)
          else
            var (failures, charged) := IncrementVerificationFailure(cards, card.id, now);
            if failures >= FailureThreshold then
              if w.dbFault == AtSetStatus then
                CardStep(Err(DatabaseError(AtSetStatus)), Some(probe), charged)
              else
                CardStep(Ok(MembershipExpired), Some(probe), SetStatus(charged, card.id, Expired))
            else
              CardStep(Ok(MembershipExpired), Some(probe), charged)
  }

  datatype VerificationStats = VerificationStats(
    totalChecked: nat,
    stillMembers: nat,
    expiredMemberships: nat,
    tokenRefreshFailures: nat,
    apiErrors: nat)

  /** The counter a single outcome increments; database errors count as API errors. */
  function Tally(stats: VerificationStats, outcome: Result<VerificationResult, VerificationError>): VerificationStats {
    match outcome
    case Ok(StillMember) => stats.(stillMembers := stats.stillMembers + 1)
    case Ok(MembershipExpired) => stats.(expiredMemberships := stats.expiredMemberships + 1)
    case Err(TokenRefreshFailed) => stats.(tokenRefreshFailures := stats.tokenRefreshFailures + 1)
    case Err(ApiError(_)) => stats.(apiErrors := stats.apiErrors + 1)
    case Err(DatabaseError(_)) => stats.(apiErrors := stats.apiErrors + 1)
  }

  function Outcomes(steps: seq<CardStep>): seq<Result<VerificationResult, VerificationError>> {
    seq(|steps|, i requires 0 <= i < |steps| => steps[i].outcome)
  }

  /** Number of outcomes in `os` satisfying `p`. */
  function CountWhere(os: seq<Result<VerificationResult, VerificationError>>,
                      p: Result<VerificationResult, VerificationError> -> bool): nat {
    if |os| == 0 then 0 else CountWhere(os[..|os| - 1], p) + (if p(os[|os| - 1]) then 1 else 0)
  }

  predicate IsStillMember(o: Result<VerificationResult, VerificationError>) { o == Ok(StillMember) }
  predicate IsMembershipExpired(o: Result<VerificationResult, VerificationError>) { o == Ok(MembershipExpired) }
  predicate IsRefreshFailure(o: Result<VerificationResult, VerificationError>) { o == Err(TokenRefreshFailed) }
  predicate IsApiOrDbError(o: Result<VerificationResult, VerificationError>) {
    o.Err? && (o.error.ApiError? || o.error.DatabaseError?)
  }

  /** The sweep as a reference definition: every card of the batch is
      checked in order against the table left by the previous card. */
  function Sweep(cards: Cards, batch: seq<MembershipCard>, worlds: seq<CardWorld>, now: Time): (r: (seq<CardStep>, Cards))
    requires |worlds| == |batch|
    requires forall i :: 0 <= i < |batch| ==> batch[i].id in cards
    ensures |r.0| == |batch| && r.1.Keys == cards.Keys
  {
    if |batch| == 0 then ([], cards)
    else
      var (steps, mid) := Sweep(cards, batch[..|batch| - 1], worlds[..|worlds| - 1], now);
      var s := VerifySingleCard(mid, batch[|batch| - 1], worlds[|worlds| - 1], now);
      (steps + [s], s.cards)
  }

  /** The statistics after tallying `os` onto `start`, one outcome at a time. */
  function TallyAll(start: VerificationStats, os: seq<Result<VerificationResult, VerificationError>>): VerificationStats {
    if |os| == 0 then start else Tally(TallyAll(start, os[..|os| - 1]), os[|os| - 1])
  }

  /** Tallying adds to each counter exactly the outcomes of its class, and
      to exactly one counter per outcome. */
  lemma {:induction false} TallyAllCounts(start: VerificationStats, os: seq<Result<VerificationResult, VerificationError>>)
    ensures var t := TallyAll(start, os);
      && t.totalChecked == start.totalChecked
      && t.stillMembers == start.stillMembers + CountWhere(os, IsStillMember)
      && t.expiredMemberships == start.expiredMemberships + CountWhere(os, IsMembershipExpired)
      && t.tokenRefreshFailures == start.tokenRefreshFailures + CountWhere(os, IsRefreshFailure)
      && t.apiErrors == start.apiErrors + CountWhere(os, IsApiOrDbError)
      && t.stillMembers + t.expiredMemberships + t.tokenRefreshFailures + t.apiErrors
         == start.stillMembers + start.expiredMemberships + start.tokenRefreshFailures + start.apiErrors + |os|
  {
    if |os| > 0 {
      TallyAllCounts(start, os[..|os| - 1]);
    }
  }

  /** One more card extends the sweep by one step taken on the table left so far. */
  lemma SweepStep(cards: Cards, batch: seq<MembershipCard>, worlds: seq<CardWorld>, now: Time, i: nat)
    requires |worlds| == |batch| && i < |batch|
    requires forall j :: 0 <= j < |batch| ==> batch[j].id in cards
    ensures var prev := Sweep(cards, batch[..i], worlds[..i], now);
      var s := VerifySingleCard(prev.1, batch[i], worlds[i], now);
      && Sweep(cards, batch[..i + 1], worlds[..i + 1], now) == (prev.0 + [s], s.cards)
      && Outcomes(prev.0 + [s]) == Outcomes(prev.0) + [s.outcome]
  {
    assert batch[..i + 1][..i] == batch[..i];
    assert worlds[..i + 1][..i] == worlds[..i];
  }

  /** `verify_membership_cards`: the batch loop and its statistics. */
  method VerifyMembershipCards(cards: Cards, batch: seq<MembershipCard>, worlds: seq<CardWorld>, now: Time)
    returns (stats: VerificationStats, after: Cards)
    requires |worlds| == |batch|
    requires forall i :: 0 <= i < |batch| ==> batch[i].id in cards
    ensures after == Sweep(cards, batch, worlds, now).1
    ensures stats == TallyAll(VerificationStats(|batch|, 0, 0, 0, 0), Outcomes(Sweep(cards, batch, worlds, now).0))
    ensures stats.totalChecked == |batch|
    ensures stats.stillMembers + stats.expiredMemberships + stats.tokenRefreshFailures + stats.apiErrors
            == stats.totalChecked
  {
    var start := VerificationStats(|batch|, 0, 0, 0, 0);
    stats := start;
    after := cards;
    var i := 0;
    while i < |batch|
      invariant 0 <= i <= |batch|
      invariant after == Sweep(cards, batch[..i], worlds[..i], now).1
      invariant stats == TallyAll(start, Outcomes(Sweep(cards, batch[..i], worlds[..i], now).0))
    {
      SweepStep(cards, batch, worlds, now, i);
      var s := VerifySingleCard(after, batch[i], worlds[i], now);
      stats := Tally(stats, s.outcome);
      after := s.cards;
      i := i + 1;
    }
    assert batch[..i] == batch;
    assert worlds[..i] == worlds;
    TallyAllCounts(start, Outcomes(Sweep(cards, batch, worlds, now).0));
  }

  /** The world answers "not a member" for this check without any fault. */
  predicate ReportsNotMember(w: CardWorld) {
    && w.dbFault == NoFault
    && Prepare(w).Ok?
    && var how := Prepare(w).value.0.verificationMethod;
       || (how == "video" && MC.CheckVideoAccess(w.upstream) == Ok(false))
       || (how == "comment" && MC.CheckCommentAccess(w.upstream) == Ok(false))
  }

  /** The probe confirms the membership (whatever database call may fail afterwards). */
  predicate ReportsMember(w: CardWorld) {
    && Prepare(w).Ok?
    && var how := Prepare(w).value.0.verificationMethod;
       || (how == "video" && MC.CheckVideoAccess(w.upstream) == Ok(true))
       || (how == "comment" && MC.CheckCommentAccess(w.upstream) == Ok(true))
  }

  /** A card is reported as still a member exactly when the probe confirms
      the membership and the extension is written; it then runs for thirty
      more days from now with its failures cleared. */
  lemma ConfirmationExtends(cards: Cards, card: MembershipCard, w: CardWorld, now: Time)
    requires card.id in cards
    ensures VerifySingleCard(cards, card, w, now).outcome == Ok(StillMember) <==>
      ReportsMember(w) && w.dbFault != AtExtend
    ensures ReportsMember(w) && w.dbFault != AtExtend ==>
      var after := VerifySingleCard(cards, card, w, now).cards[card.id];
      && after.expiresAt == Some(now + ExpirationExtensionDays * SecondsPerDay)
      && after.verificationFailures == 0 && after.status == cards[card.id].status
  {
  }

  /** A probe that fails is reported as an API error carrying the probe's
      error, and leaves the card table as it was. */
  lemma ProbeFailureIsApiError(cards: Cards, card: MembershipCard, w: CardWorld, now: Time)
    requires card.id in cards && Prepare(w).Ok?
    ensures var s := VerifySingleCard(cards, card, w, now);
      var how := Prepare(w).value.0.verificationMethod;
      && (how == "video" && MC.CheckVideoAccess(w.upstream).Err? ==>
            s.outcome == Err(ApiError(CheckFailed(MC.CheckVideoAccess(w.upstream).error))) && s.cards == cards)
      && (how == "comment" && MC.CheckCommentAccess(w.upstream).Err? ==>
            s.outcome == Err(ApiError(CheckFailed(MC.CheckCommentAccess(w.upstream).error))) && s.cards == cards)
  {
  }

  /** The same card checked once per world, in order. */
  function Repeat(card: MembershipCard, n: nat): (b: seq<MembershipCard>)
    ensures |b| == n && forall i :: 0 <= i < n ==> b[i] == card
  {
    seq(n, _ => card)
  }

  /** Consecutive "not a member" answers add up: after k of them the card
      has k more failures, is expired once the total reaches the threshold,
      and keeps its status while it stays below. */
  lemma {:induction false} RepeatedDenialsExpire(cards: Cards, card: MembershipCard, worlds: seq<CardWorld>, now: Time)
    requires card.id in cards
    requires forall i :: 0 <= i < |worlds| ==> ReportsNotMember(worlds[i])
    ensures var r := Sweep(cards, Repeat(card, |worlds|), worlds, now);
      var n := cards[card.id].verificationFailures + |worlds|;
      && r.1[card.id].verificationFailures == n
      && (|worlds| > 0 && n >= FailureThreshold ==> r.1[card.id].status == Expired)
      && (n < FailureThreshold ==> r.1[card.id].status == cards[card.id].status)
      && Outcomes(r.0) == seq(|worlds|, _ => Ok(MembershipExpired))
  {
    var k := |worlds|;
    if k > 0 {
      var front := worlds[..k - 1];
      var batch := Repeat(card, k);
      assert batch[..k - 1] == Repeat(card, k - 1);
      RepeatedDenialsExpire(cards, card, front, now);
      var (steps, mid) := Sweep(cards, Repeat(card, k - 1), front, now);
      assert Sweep(cards, batch, worlds, now)
          == (steps + [VerifySingleCard(mid, card, worlds[k - 1], now)],
              VerifySingleCard(mid, card, worlds[k - 1], now).cards);
      DenialIsExpiry(mid, card, worlds[k - 1], now);
      var s := VerifySingleCard(mid, card, worlds[k - 1], now);
      assert Outcomes(steps + [s]) == Outcomes(steps) + [s.outcome];
    }
  }

  /** One "not a member" answer is reported as an expired membership. */
  lemma DenialIsExpiry(cards: Cards, card: MembershipCard, w: CardWorld, now: Time)
    requires card.id in cards && ReportsNotMember(w)
    ensures VerifySingleCard(cards, card, w, now).outcome == Ok(MembershipExpired)
  {
  }

  /** A fresh card (no failures yet) denied on three consecutive sweeps is expired. */
  lemma ThreeStrikes(cards: Cards, card: MembershipCard, worlds: seq<CardWorld>, now: Time)
    requires card.id in cards && cards[card.id].verificationFailures == 0
    requires |worlds| == 3 && forall i :: 0 <= i < 3 ==> ReportsNotMember(worlds[i])
    ensures Sweep(cards, Repeat(card, 3), worlds, now).1[card.id].status == Expired
  {
    RepeatedDenialsExpire(cards, card, worlds, now);
  }
}
