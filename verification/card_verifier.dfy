/** Door-side verification of a presented card (src/services/card_verifier.rs):
    the QR payload names a card, and the card's stored status and expiry
    decide the answer. Payload parsing is an input: the card id it names,
    or the parser's message. */
module CardVerifier {
  import opened Base
  import opened CardStore

  /** The database failure the verifier can raise on its own. */
  datatype DbError = RowNotFound

  datatype VerifierError = DatabaseError(cause: DbError)

  datatype VerificationResult =
    | Success(card: MembershipCard, issuer: CardIssuer)
    | CardNotFound(cardId: Uuid)
    | CardExpired(card: MembershipCard, issuer: CardIssuer)
    | CardRevoked(card: MembershipCard, issuer: CardIssuer)
    | CardSuspended(card: MembershipCard, issuer: CardIssuer)
    | InvalidPayload(error: string)

  /** `result_type`: the label written to the audit log. */
  function ResultType(v: VerificationResult): string {
    match v
    case Success(_, _) => "success"
    case CardNotFound(_) => "card_not_found"
    case CardExpired(_, _) => "card_expired"
    case CardRevoked(_, _) => "card_revoked"
    case CardSuspended(_, _) => "card_suspended"
    case InvalidPayload(_) => "invalid_payload"
  }

  /** Two results of the same kind, whatever they carry. */
  predicate SameKind(a: VerificationResult, b: VerificationResult) {
    || (a.Success? && b.Success?)
    || (a.CardNotFound? && b.CardNotFound?)
    || (a.CardExpired? && b.CardExpired?)
    || (a.CardRevoked? && b.CardRevoked?)
    || (a.CardSuspended? && b.CardSuspended?)
    || (a.InvalidPayload? && b.InvalidPayload?)
  }

  /** The six labels are distinct: the label identifies the kind of result. */
  lemma ResultTypeIdentifiesKind(a: VerificationResult, b: VerificationResult)
    ensures ResultType(a) == ResultType(b) <==> SameKind(a, b)
  {
    if !SameKind(a, b) {
      var x, y := ResultType(a), ResultType(b);
      assert |x| >= 7 && |y| >= 7;
      assert |x| != |y| || x[0] != y[0] || x[5] != y[5];
    }
  }

  /** `card_id`: the card a result is about, when there is one. */
  function CardId(v: VerificationResult): (r: Option<Uuid>)
    ensures r.None? <==> v.InvalidPayload?
    ensures v.CardNotFound? ==> r == Some(v.cardId)
    ensures !v.CardNotFound? && !v.InvalidPayload? ==> r == Some(v.card.id)
  {
    match v
    case Success(card, _) => Some(card.id)
    case CardNotFound(id) => Some(id)
    case CardExpired(card, _) => Some(card.id)
    case CardRevoked(card, _) => Some(card.id)
    case CardSuspended(card, _) => Some(card.id)
    case InvalidPayload(_) => None
  }

  /** Step 4: the verdict on a card that exists and whose issuer exists. */
  function Classify(card: MembershipCard, issuer: CardIssuer, now: Time): (v: VerificationResult)
    ensures v.Success? || v.CardExpired? || v.CardRevoked? || v.CardSuspended?
    ensures v.card == card && v.issuer == issuer
    ensures v.Success? <==> card.status == Active && (card.expiresAt.None? || card.expiresAt.value >= now)
    ensures v.CardExpired? <==>
      card.status == Expired || (card.status == Active && card.expiresAt.Some? && card.expiresAt.value < now)
    ensures v.CardRevoked? <==> card.status == Revoked
    ensures v.CardSuspended? <==> card.status == Suspended
  {
    match card.status
    case Active =>
      if card.expiresAt.Some? && card.expiresAt.value < now then CardExpired(card, issuer)
      else Success(card, issuer)
    case Revoked => CardRevoked(card, issuer)
    case Expired => CardExpired(card, issuer)
    case Suspended => CardSuspended(card, issuer)
  }

  /** `verify_qr_payload`. `parsed` is the JSON parser's answer for the
      payload: the card id it carries or the parser's message. */
  function VerifyQrPayload(parsed: Result<Uuid, string>, cards: Cards, issuers: Issuers, now: Time)
    : (r: Result<VerificationResult, VerifierError>)
    // an unreadable payload is reported without consulting the store
    ensures parsed.Err? ==> r == Ok(InvalidPayload("Invalid JSON: " + parsed.error))
    // an unknown card is reported with exactly the id that was asked for
    ensures parsed.Ok? && parsed.value !in cards ==> r == Ok(CardNotFound(parsed.value))
    // a card whose issuer is gone is an error, not a verdict
    ensures parsed.Ok? && parsed.value in cards && cards[parsed.value].issuerId !in issuers ==>
      r == Err(DatabaseError(RowNotFound))
    ensures r.Err? ==> parsed.Ok? && parsed.value in cards
    // every verdict on a stored card carries that card and its issuer
    ensures r.Ok? && !r.value.InvalidPayload? && !r.value.CardNotFound? ==>
      parsed.Ok? && parsed.value in cards && r.value.card == cards[parsed.value]
      && cards[parsed.value].issuerId in issuers && r.value.issuer == issuers[cards[parsed.value].issuerId]
  {
    match parsed
    case Err(msg) => Ok(InvalidPayload("Invalid JSON: " + msg))
    case Ok(id) =>
      if id !in cards then Ok(CardNotFound(id))
      else
        var card := cards[id];
        if card.issuerId !in issuers then Err(DatabaseError(RowNotFound))
        else Ok(Classify(card, issuers[card.issuerId], now))
  }

  /** A card the issuance rules count as the member's primary card is
      accepted at the door. */
  lemma PrimaryCardsVerify(cards: Cards, issuers: Issuers, id: Uuid, now: Time)
    requires id in cards && IsPrimary(cards[id], now) && cards[id].issuerId in issuers
    ensures VerifyQrPayload(Ok(id), cards, issuers, now).Ok?
    ensures VerifyQrPayload(Ok(id), cards, issuers, now).value.Success?
  {
  }

  /** The converse fails at one instant: a card expiring exactly now is
      accepted at the door (the expiry test is strict) although it no
      longer counts as the member's primary card. */
  lemma ExpiryInstantIsAcceptedButNotPrimary(c: MembershipCard, issuer: CardIssuer)
    requires c.status == Active && c.expiresAt.Some?
    ensures Classify(c, issuer, c.expiresAt.value).Success?
    ensures !IsPrimary(c, c.expiresAt.value)
  {
  }

  /** Every verdict on a readable payload is about the card the payload named. */
  lemma VerdictIsAboutRequestedCard(id: Uuid, cards: Cards, issuers: Issuers, now: Time)
    requires WellKeyed(cards)
    requires VerifyQrPayload(Ok(id), cards, issuers, now).Ok?
    ensures CardId(VerifyQrPayload(Ok(id), cards, issuers, now).value) == Some(id)
  {
  }
}
