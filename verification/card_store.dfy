/** Membership cards and card issuers as the services read them, and the
    card-store operations the services call. The store methods themselves
    (`find_primary_for_member`, `extend_expiration`,
    `increment_verification_failure`, `set_status`, `create`) of the card
    repository are not part of this model; each is defined here by the contract its callers
    rely on and by the card lifecycle the system documents. */
module CardStore {
  import opened Base

  datatype CardStatus = Active | Expired | Revoked | Suspended

  /** The fields of a card row that the services read or write. */
  datatype MembershipCard = MembershipCard(
    id: Uuid,
    issuerId: Uuid,
    memberId: Uuid,
    levelLabel: string,
    confirmedAt: Time,
    commentId: string,
    videoId: string,
    status: CardStatus,
    expiresAt: Option<Time>,
    lastVerifiedAt: Option<Time>,
    verificationFailures: int,
    issuedAt: Time)

  /** The fields of an issuer (channel) row that the services read. */
  datatype CardIssuer = CardIssuer(
    id: Uuid,
    youtubeChannelId: string,
    channelName: string,
    channelHandle: Option<string>,
    verificationVideoId: string,
    membersOnlyVideoId: Option<string>,
    verificationMethod: string,
    defaultMembershipLabel: string,
    vcUid: Option<string>,
    isActive: bool)

  /** The card table, keyed by card id. */
  type Cards = map<Uuid, MembershipCard>

  /** The issuer table, keyed by issuer id. */
  type Issuers = map<Uuid, CardIssuer>

  /** Every row is stored under its own id. */
  ghost predicate WellKeyed(cards: Cards) {
    forall id :: id in cards ==> cards[id].id == id
  }

  /** Cards this long-lived always expire EXPIRATION_EXTENSION_DAYS after a
      successful check. */
  const ExpirationExtensionDays: int := 30

  /** An active card that has not run out: the card a member may present,
      and at most one per (issuer, member) pair. */
  predicate IsPrimary(c: MembershipCard, now: Time) {
    c.status == Active && (c.expiresAt.None? || c.expiresAt.value > now)
  }

  /** `MembershipCard::find_primary_for_member(...).is_some()`. */
  predicate HasPrimary(cards: Cards, issuerId: Uuid, memberId: Uuid, now: Time) {
    exists id :: id in cards && cards[id].issuerId == issuerId
      && cards[id].memberId == memberId && IsPrimary(cards[id], now)
  }

  /** `MembershipCard::extend_expiration(id, days)`: expiry moved to `days`
      after now, checked now, failure count back to zero. Nothing else
      changes; a missing id changes nothing. */
  function ExtendExpiration(cards: Cards, id: Uuid, days: int, now: Time): (r: Cards)
    ensures r.Keys == cards.Keys
    ensures forall k :: k in cards && k != id ==> r[k] == cards[k]
    ensures id in cards ==>
      && r[id].expiresAt == Some(now + days * SecondsPerDay)
      && r[id].lastVerifiedAt == Some(now)
      && r[id].verificationFailures == 0
      && r[id].status == cards[id].status
      && r[id].issuerId == cards[id].issuerId && r[id].memberId == cards[id].memberId
  {
    if id in cards then
      cards[id := cards[id].(expiresAt := Some(now + days * SecondsPerDay),
                            lastVerifiedAt := Some(now),
                            verificationFailures := 0)]
    else
      cards
  }

  /** `MembershipCard::increment_verification_failure(id)`: one more failed
      check, recorded now; returns the new count. */
  function IncrementVerificationFailure(cards: Cards, id: Uuid, now: Time): (r: (int, Cards))
    requires id in cards
    ensures r.0 == cards[id].verificationFailures + 1
    ensures r.1.Keys == cards.Keys
    ensures forall k :: k in cards && k != id ==> r.1[k] == cards[k]
    ensures r.1[id] == cards[id].(verificationFailures := r.0, lastVerifiedAt := Some(now))
  {
    var n := cards[id].verificationFailures + 1;
    (n, cards[id := cards[id].(verificationFailures := n, lastVerifiedAt := Some(now))])
  }

  /** `MembershipCard::set_status(id, status)`. */
  function SetStatus(cards: Cards, id: Uuid, status: CardStatus): (r: Cards)
    ensures r.Keys == cards.Keys
    ensures forall k :: k in cards && k != id ==> r[k] == cards[k]
    ensures id in cards ==> r[id] == cards[id].(status := status)
  {
    if id in cards then cards[id := cards[id].(status := status)] else cards
  }

  /** What `MembershipCard::create` is given. */
  datatype CreateCardData = CreateCardData(
    issuerId: Uuid,
    memberId: Uuid,
    levelLabel: string,
    confirmedAt: Time,
    commentId: string,
    videoId: string)

  /** `MembershipCard::create`: a new active card under a fresh id, issued
      now, valid for the extension period, with no failures. */
  function Create(cards: Cards, data: CreateCardData, freshId: Uuid, now: Time): (r: (MembershipCard, Cards))
    requires freshId !in cards
    ensures r.0.id == freshId && r.1 == cards[freshId := r.0]
    ensures r.0.status == Active && r.0.verificationFailures == 0
    ensures r.0.expiresAt == Some(now + ExpirationExtensionDays * SecondsPerDay)
    ensures r.0.issuerId == data.issuerId && r.0.memberId == data.memberId
    ensures r.0.levelLabel == data.levelLabel && r.0.confirmedAt == data.confirmedAt
    ensures r.0.commentId == data.commentId && r.0.videoId == data.videoId
  {
    var card := MembershipCard(freshId, data.issuerId, data.memberId, data.levelLabel,
      data.confirmedAt, data.commentId, data.videoId, Active,
      Some(now + ExpirationExtensionDays * SecondsPerDay), None, 0, now);
    (card, cards[freshId := card])
  }
}
