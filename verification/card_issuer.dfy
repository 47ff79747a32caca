/** Card issuance (src/services/card_issuer.rs): the ordered chain of
    guards that turns a verified comment into a membership card and a wallet
    credential offer, and what each failure leaves written.

    The comment reference parser (`extract_comment_and_video_id`) is not part
    of this model; its answer is an input, as are the YouTube reply
    to the comment lookup and the wallet API's reply. Fresh row ids and the
    clock are inputs too. Payload signing and the audit snapshot feed only
    the card's QR payload, which this model does not carry. */
module CardIssuer {
  import opened Base
  import opened CardStore
  import M = Member
  import CV = CommentVerifier
  import WQ = WalletQr
  import QR = WalletQrCode

  datatype CardIssuanceError =
    | CommentVerification(commentError: CV.CommentVerificationError)
    | WalletQrGeneration(walletError: WQ.WalletQrError)
    | IssuerNotFound
    | DuplicateCard
    | InvalidCommentId
    | MissingVcUid
    | WalletApiNotConfigured
    | DatabaseError

  datatype IssueCardRequest = IssueCardRequest(
    issuerId: Uuid,
    memberYoutubeUserId: string,
    memberDisplayName: string,
    memberAvatarUrl: Option<string>,
    commentLinkOrId: string,
    sessionStartedAt: Time,
    accessToken: string)

  /** What the outside world answers during one issuance. */
  datatype IssueWorld = IssueWorld(
    commentRef: Option<(string, Option<string>)>,  // comment id and the video id in the link, if any
    commentsReply: CV.CommentsReply,               // YouTube's reply to the comment lookup
    walletReply: WQ.Exchange<WQ.GenerateBody>,     // the wallet API's reply to the offer request
    alnum: char -> bool,                           // char::is_alphanumeric
    freshMemberId: Uuid,
    freshCardId: Uuid,
    freshCodeId: Uuid,
    now: Time,
    dbFault: IssueDbFault,                         // the write or lookup before the offer that fails, if any
    offerFault: QR.TxFault)                        // the statement of the offer's transaction that fails, if any

  /** The database call of an issuance, other than the offer's transaction, that fails. */
  datatype IssueDbFault = NoDbFault | AtMemberUpsert | AtPrimaryLookup | AtCardInsert

  /** The tables issuance reads and writes. */
  datatype Store = Store(issuers: Issuers, members: M.Members, cards: Cards, codes: QR.Codes)

  predicate FreshFor(s: Store, w: IssueWorld) {
    && w.freshMemberId !in s.members
    && w.freshCardId !in s.cards
    && !QR.IdIn(s.codes, w.freshCodeId)
  }

  datatype IssueCardResult = IssueCardResult(card: MembershipCard, member: M.Member, walletQr: QR.WalletQrCode)

  /** The outcome, the wallet request made (if any), and the tables afterwards. */
  datatype IssueStep = IssueStep(
    outcome: Result<IssueCardResult, CardIssuanceError>,
    walletRequest: Option<WQ.WalletQrRequest>,
    store: Store)

  /** Characters the wallet accepts in a name: alphanumerics, '_' and the
      CJK Unified Ideographs block. */
  predicate AllowedInName(c: char, alnum: char -> bool) {
    alnum(c) || c == '_' || ('\U{4E00}' <= c <= '\U{9FFF}')
  }

  /** The name with every character the wallet rejects dropped. */
  function SanitizeName(name: string, alnum: char -> bool): (r: string)
    ensures |r| <= |name|
    ensures forall i :: 0 <= i < |r| ==> AllowedInName(r[i], alnum)
    ensures forall c :: AllowedInName(c, alnum) ==> multiset(r)[c] == multiset(name)[c]
    ensures forall c :: !AllowedInName(c, alnum) ==> c !in r
  {
    if |name| == 0 then ""
    else
      var rest := SanitizeName(name[1..], alnum);
      assert name == [name[0]] + name[1..];
      if AllowedInName(name[0], alnum) then [name[0]] + rest else rest
  }

  /** Sanitising keeps the order of what it keeps: it distributes over concatenation. */
  lemma {:induction false} SanitizeNameOfConcat(a: string, b: string, alnum: char -> bool)
    ensures SanitizeName(a + b, alnum) == SanitizeName(a, alnum) + SanitizeName(b, alnum)
  {
    if |a| == 0 {
      assert a + b == b;
    } else {
      assert (a + b)[0] == a[0] && (a + b)[1..] == a[1..] + b;
      SanitizeNameOfConcat(a[1..], b, alnum);
    }
  }

  /** A name the wallet already accepts is kept as it is, so sanitising twice changes nothing. */
  lemma {:induction false} SanitizeNameKeepsAcceptedNames(name: string, alnum: char -> bool)
    requires forall i :: 0 <= i < |name| ==> AllowedInName(name[i], alnum)
    ensures SanitizeName(name, alnum) == name
  {
    if |name| > 0 {
      SanitizeNameKeepsAcceptedNames(name[1..], alnum);
    }
  }

  /** The name written into the credential: the sanitised name, or "Member"
      when nothing is left. */
  function DisplayName(name: string, alnum: char -> bool): (r: string)
    ensures |r| > 0
    ensures forall i :: 0 <= i < |r| ==> AllowedInName(r[i], alnum) || r == "Member"
    ensures r == "Member" || r == SanitizeName(name, alnum)
    ensures SanitizeName(name, alnum) != "" ==> r == SanitizeName(name, alnum)
  {
    var s := SanitizeName(name, alnum);
    if s == "" then "Member" else s
  }

  /** The single field of the wallet request. */
  function CredentialFields(authorDisplayName: string, alnum: char -> bool): (fs: seq<WQ.WalletQrField>)
    ensures |fs| == 1 && fs[0].ename == "name" && fs[0].content == DisplayName(authorDisplayName, alnum)
  {
    [WQ.WalletQrField("name", DisplayName(authorDisplayName, alnum))]
  }

  /** Steps 1-3: everything decided before the first write. */
  function Precheck(s: Store, req: IssueCardRequest, w: IssueWorld)
    : (r: Result<(CardIssuer, CV.CommentVerificationResult), CardIssuanceError>)
    ensures (req.issuerId !in s.issuers || !s.issuers[req.issuerId].isActive) <==> r == Err(IssuerNotFound)
    ensures r.Ok? ==> req.issuerId in s.issuers && r.value.0 == s.issuers[req.issuerId] && r.value.0.isActive
    ensures r == Err(InvalidCommentId) <==>
      req.issuerId in s.issuers && s.issuers[req.issuerId].isActive
      && (w.commentRef.None? ||
          (w.commentRef.value.1.Some? && w.commentRef.value.1.value != s.issuers[req.issuerId].verificationVideoId))
    ensures r.Ok? ==>
      && w.commentRef.Some?
      && CV.VerifyComment(w.commentsReply, r.value.0.verificationVideoId, req.memberYoutubeUserId,
                          req.sessionStartedAt) == Ok(r.value.1)
  {
    if req.issuerId !in s.issuers || !s.issuers[req.issuerId].isActive then Err(IssuerNotFound)
    else
      var issuer := s.issuers[req.issuerId];
      match w.commentRef
      case None => Err(InvalidCommentId)
      case Some((_, urlVideoId)) =>
        if urlVideoId.Some? && urlVideoId.value != issuer.verificationVideoId then Err(InvalidCommentId)
        else
          match CV.VerifyComment(w.commentsReply, issuer.verificationVideoId, req.memberYoutubeUserId,
                                 req.sessionStartedAt)
          case Err(e) => Err(CommentVerification(e))
          case Ok(v) => Ok((issuer, v))
  }

  /** The member the upsert of step 4 yields, once the checks before it pass. */
  function Claimant(s: Store, req: IssueCardRequest, w: IssueWorld): M.Member
    requires M.Valid(s.members) && FreshFor(s, w) && Precheck(s, req, w).Ok?
  {
    M.FindOrCreate(s.members, MemberData(req, Precheck(s, req, w).value.1), w.freshMemberId).0
  }

  /** Steps 1-5 pass: the checks, the member upsert, and the lookup that
      finds no primary card of this issuer for the member. */
  predicate NoPrimaryYet(s: Store, req: IssueCardRequest, w: IssueWorld)
    requires M.Valid(s.members) && FreshFor(s, w)
  {
    && Precheck(s, req, w).Ok?
    && w.dbFault != AtMemberUpsert && w.dbFault != AtPrimaryLookup
    && !HasPrimary(s.cards, Precheck(s, req, w).value.0.id, Claimant(s, req, w).id, w.now)
  }

  /** The wallet is asked for a credential offer: steps 1-5 pass, the wallet
      API is configured and the issuer has a credential template. */
  predicate AsksWallet(s: Store, walletConfig: Option<(string, string)>, req: IssueCardRequest, w: IssueWorld)
    requires M.Valid(s.members) && FreshFor(s, w)
  {
    NoPrimaryYet(s, req, w) && walletConfig.Some? && Precheck(s, req, w).value.0.vcUid.Some?
  }

  /** The wallet made an offer, so the card is about to be stored. */
  predicate OfferMade(s: Store, walletConfig: Option<(string, string)>, req: IssueCardRequest, w: IssueWorld)
    requires M.Valid(s.members) && FreshFor(s, w)
  {
    AsksWallet(s, walletConfig, req, w) && WQ.GenerateWalletQr(w.walletReply).Ok?
  }

  /** The card was stored but the offer's transaction failed: the card stays,
      without an offer. */
  predicate OrphanedCard(s: Store, walletConfig: Option<(string, string)>, req: IssueCardRequest, w: IssueWorld)
    requires M.Valid(s.members) && FreshFor(s, w)
  {
    OfferMade(s, walletConfig, req, w) && w.dbFault == NoDbFault && w.offerFault != QR.NoFault
  }

  /** `issue_card`. `walletConfig` is the wallet API's base URL and access
      token when both are configured. */
  function IssueCard(s: Store, walletConfig: Option<(string, string)>, req: IssueCardRequest, w: IssueWorld)
    : (r: IssueStep)
    requires M.Valid(s.members) && FreshFor(s, w)
    // nothing is written before the member upsert
    ensures Precheck(s, req, w).Err? ==>
      r == IssueStep(Err(Precheck(s, req, w).error), None, s)
    // the issuer and offer tables change only on success; the card table
    // changes on success and when the offer's transaction fails after the card was stored
    ensures r.outcome.Err? ==> r.store.issuers == s.issuers && r.store.codes == s.codes
    ensures r.outcome.Err? ==> (r.store.cards == s.cards <==> !OrphanedCard(s, walletConfig, req, w))
    ensures Precheck(s, req, w).Ok? && w.dbFault != AtMemberUpsert ==>
      r.store.members == M.FindOrCreate(s.members, MemberData(req, Precheck(s, req, w).value.1), w.freshMemberId).1
    ensures w.dbFault == AtMemberUpsert ==> r.store.members == s.members
    // a member who already holds a primary card of this issuer gets no new card and no offer
    ensures Precheck(s, req, w).Ok? && w.dbFault != AtMemberUpsert && w.dbFault != AtPrimaryLookup &&
      HasPrimary(s.cards, s.issuers[req.issuerId].id, Claimant(s, req, w).id, w.now)
      ==> r.outcome == Err(DuplicateCard) && r.walletRequest.None?
    // the wallet is asked exactly when every guard before it passes, with
    // the issuer's template and exactly the name field
    ensures r.walletRequest.Some? <==> AsksWallet(s, walletConfig, req, w)
    ensures r.walletRequest.Some? ==>
      && r.walletRequest.value.vcUid == Precheck(s, req, w).value.0.vcUid.value
      && r.walletRequest.value.fields == CredentialFields(Precheck(s, req, w).value.1.authorDisplayName, w.alnum)
    ensures r.outcome.Ok? ==> OfferMade(s, walletConfig, req, w)
    // the card stored before a failed offer transaction is the member's primary card of the issuer
    ensures OrphanedCard(s, walletConfig, req, w) ==>
      && w.freshCardId in r.store.cards && r.store.cards == s.cards[w.freshCardId := r.store.cards[w.freshCardId]]
      && r.store.cards[w.freshCardId].issuerId == s.issuers[req.issuerId].id
      && r.store.cards[w.freshCardId].memberId == Claimant(s, req, w).id
      && r.store.cards[w.freshCardId].status == Active
      && r.store.cards[w.freshCardId].expiresAt == Some(w.now + ExpirationExtensionDays * SecondsPerDay)
    // on success: one new active card for the member, and one active offer that points at it
    ensures r.outcome.Ok? ==>
      var res := r.outcome.value;
      && res.card.id == w.freshCardId && r.store.cards == s.cards[w.freshCardId := res.card]
      && res.card.issuerId == s.issuers[req.issuerId].id && res.card.memberId == res.member.id
      && res.card.status == Active && res.card.verificationFailures == 0
      && res.card.expiresAt == Some(w.now + ExpirationExtensionDays * SecondsPerDay)
      && res.card.levelLabel == s.issuers[req.issuerId].defaultMembershipLabel
      && res.walletQr.cardId == res.card.id && res.walletQr.isActive
      && res.walletQr.transactionId == WQ.GenerateWalletQr(w.walletReply).value.transactionId
      && res.walletQr.deepLink == Some(WQ.GenerateWalletQr(w.walletReply).value.deepLink)
      && QR.FindActiveByCardId(r.store.codes, res.card.id) == Some(res.walletQr)
      && res.member.youtubeUserId == req.memberYoutubeUserId
  {
    match Precheck(s, req, w)
    case Err(e) => IssueStep(Err(e), None, s)
    case Ok((issuer, verified)) =>
      if w.dbFault == AtMemberUpsert then IssueStep(Err(DatabaseError), None, s)
      else
        var (member, members) := M.FindOrCreate(s.members, MemberData(req, verified), w.freshMemberId);
        var s1 := s.(members := members);
        if w.dbFault == AtPrimaryLookup then IssueStep(Err(DatabaseError), None, s1)
        else if HasPrimary(s.cards, issuer.id, member.id, w.now) then IssueStep(Err(DuplicateCard), None, s1)
        else if walletConfig.None? then IssueStep(Err(WalletApiNotConfigured), None, s1)
        else if issuer.vcUid.None? then IssueStep(Err(MissingVcUid), None, s1)
        else
          var request := WQ.WalletQrRequestFor(issuer.vcUid.value, CredentialFields(verified.authorDisplayName, w.alnum));
          match WQ.GenerateWalletQr(w.walletReply)
          case Err(e) => IssueStep(Err(WalletQrGeneration(e)), Some(request), s1)
          case Ok(offer) => RecordIssuance(s, issuer, verified, member, members, request, offer, w)
  }

  /** Steps 12-13: the card, then its credential offer, written for the member. */
  function RecordIssuance(s: Store, issuer: CardIssuer, verified: CV.CommentVerificationResult, member: M.Member,
                          members: M.Members, request: WQ.WalletQrRequest, offer: WQ.WalletQrResponse, w: IssueWorld)
    : (r: IssueStep)
    requires FreshFor(s, w)
    ensures r.walletRequest == Some(request)
    ensures r.store.issuers == s.issuers && r.store.members == members
    ensures r.outcome.Ok? <==> w.dbFault == NoDbFault && w.offerFault == QR.NoFault
    ensures r.outcome.Err? ==> r.outcome == Err(DatabaseError) && r.store.codes == s.codes
    ensures w.dbFault != NoDbFault ==> r.store.cards == s.cards
    ensures w.dbFault == NoDbFault ==>
      && w.freshCardId in r.store.cards && r.store.cards == s.cards[w.freshCardId := r.store.cards[w.freshCardId]]
      && r.store.cards[w.freshCardId].issuerId == issuer.id && r.store.cards[w.freshCardId].memberId == member.id
      && r.store.cards[w.freshCardId].status == Active
      && r.store.cards[w.freshCardId].expiresAt == Some(w.now + ExpirationExtensionDays * SecondsPerDay)
    ensures r.outcome.Ok? ==>
      var res := r.outcome.value;
      && res.member == member
      && res.card.id == w.freshCardId && r.store.cards == s.cards[w.freshCardId := res.card]
      && res.card.issuerId == issuer.id && res.card.memberId == member.id
      && res.card.status == Active && res.card.verificationFailures == 0
      && res.card.expiresAt == Some(w.now + ExpirationExtensionDays * SecondsPerDay)
      && res.card.levelLabel == issuer.defaultMembershipLabel
      && res.walletQr.cardId == res.card.id && res.walletQr.isActive
      && res.walletQr.transactionId == offer.transactionId
      && res.walletQr.deepLink == Some(offer.deepLink)
      && QR.FindActiveByCardId(r.store.codes, res.card.id) == Some(res.walletQr)
  {
    if w.dbFault != NoDbFault then IssueStep(Err(DatabaseError), Some(request), Store(s.issuers, members, s.cards, s.codes))
    else
      var data := CreateCardData(issuer.id, member.id, issuer.defaultMembershipLabel,
                                 verified.publishedAt, verified.commentId, verified.videoId);
      var (card, cards) := Create(s.cards, data, w.freshCardId, w.now);
      var codeData := QR.CreateWalletQrCodeData(card.id, offer.transactionId, offer.qrCode, Some(offer.deepLink));
      match QR.Create(s.codes, codeData, w.freshCodeId, w.now, w.offerFault)
      case Err(_) => IssueStep(Err(DatabaseError), Some(request), Store(s.issuers, members, cards, s.codes))
      case Ok((code, codes)) =>
        QR.FindActiveAfterCreate(s.codes, codeData, w.freshCodeId, w.now);
        IssueStep(Ok(IssueCardResult(card, member, code)), Some(request), Store(s.issuers, members, cards, codes))
  }

  /** Which guard decides an issuance: every error is produced by its own
      step, and issuance succeeds exactly when the wallet makes an offer and
      no database call fails. */
  lemma IssuanceOutcomes(s: Store, walletConfig: Option<(string, string)>, req: IssueCardRequest, w: IssueWorld)
    requires M.Valid(s.members) && FreshFor(s, w)
    ensures var r := IssueCard(s, walletConfig, req, w);
      && (r.outcome.Ok? <==> OfferMade(s, walletConfig, req, w) && w.dbFault == NoDbFault && w.offerFault == QR.NoFault)
      && (r.outcome == Err(WalletApiNotConfigured) <==> NoPrimaryYet(s, req, w) && walletConfig.None?)
      && (r.outcome == Err(MissingVcUid) <==>
            NoPrimaryYet(s, req, w) && walletConfig.Some? && Precheck(s, req, w).value.0.vcUid.None?)
      && (AsksWallet(s, walletConfig, req, w) && WQ.GenerateWalletQr(w.walletReply).Err? ==>
            r.outcome == Err(WalletQrGeneration(WQ.GenerateWalletQr(w.walletReply).error)))
      && (r.outcome == Err(DatabaseError) <==>
            && Precheck(s, req, w).Ok?
            && (|| w.dbFault == AtMemberUpsert || w.dbFault == AtPrimaryLookup
                || (OfferMade(s, walletConfig, req, w) && (w.dbFault == AtCardInsert || w.offerFault != QR.NoFault))))
  {
    var r := IssueCard(s, walletConfig, req, w);
    if Precheck(s, req, w).Ok? && w.dbFault != AtMemberUpsert && w.dbFault != AtPrimaryLookup {
      var (issuer, verified) := Precheck(s, req, w).value;
      assert issuer.id == s.issuers[req.issuerId].id;
    }
  }

  /** A card stored before its offer's transaction failed is a primary card:
      asking again for the same issuer, while that card is unexpired, is
      refused as a duplicate, so the member is left with a card and no offer. */
  lemma RetryAfterOrphanedCardIsDuplicate(s: Store, walletConfig: Option<(string, string)>, req: IssueCardRequest,
                                          w: IssueWorld, w2: IssueWorld)
    requires M.Valid(s.members) && FreshFor(s, w) && OrphanedCard(s, walletConfig, req, w)
    requires FreshFor(IssueCard(s, walletConfig, req, w).store, w2)
    requires w2.commentRef == w.commentRef && w2.commentsReply == w.commentsReply
    requires w2.dbFault != AtMemberUpsert && w2.dbFault != AtPrimaryLookup
    requires w.now <= w2.now < w.now + ExpirationExtensionDays * SecondsPerDay
    ensures IssueCard(IssueCard(s, walletConfig, req, w).store, walletConfig, req, w2).outcome == Err(DuplicateCard)
  {
    var r := IssueCard(s, walletConfig, req, w);
    var (issuer, verified) := Precheck(s, req, w).value;
    assert Precheck(r.store, req, w2) == Precheck(s, req, w);
    M.FindOrCreateIsStable(s.members, MemberData(req, verified), w.freshMemberId, w2.freshMemberId);
    assert Claimant(r.store, req, w2) == Claimant(s, req, w);
    var card := r.store.cards[w.freshCardId];
    assert IsPrimary(card, w2.now);
    assert HasPrimary(r.store.cards, issuer.id, Claimant(s, req, w).id, w2.now);
  }

  /** The member record issuance asks for: the account from the request,
      the name YouTube shows on the comment, the avatar from the request. */
  function MemberData(req: IssueCardRequest, verified: CV.CommentVerificationResult): (d: M.CreateMemberData)
    ensures d.youtubeUserId == req.memberYoutubeUserId && d.defaultDisplayName == verified.authorDisplayName
    ensures d.avatarUrl == req.memberAvatarUrl && d.locale.None?
  {
    M.CreateMemberData(req.memberYoutubeUserId, verified.authorDisplayName, req.memberAvatarUrl, None)
  }

  /** The one-primary-card rule: whenever issuance succeeds, the member
      holds exactly one primary card of the issuer, the new one. */
  lemma IssuanceKeepsOnePrimaryCard(s: Store, walletConfig: Option<(string, string)>, req: IssueCardRequest,
                                    w: IssueWorld)
    requires M.Valid(s.members) && FreshFor(s, w)
    ensures var r := IssueCard(s, walletConfig, req, w);
      r.outcome.Ok? ==>
      var card := r.outcome.value.card;
      && IsPrimary(card, w.now) && card in r.store.cards.Values
      && forall id :: id in r.store.cards && r.store.cards[id].issuerId == card.issuerId
                      && r.store.cards[id].memberId == card.memberId && IsPrimary(r.store.cards[id], w.now)
                      ==> id == card.id
  {
    var r := IssueCard(s, walletConfig, req, w);
    if r.outcome.Ok? {
      var card := r.outcome.value.card;
      assert r.store.cards[card.id] == card;
      var (issuer, verified) := Precheck(s, req, w).value;
      var (member, _) := M.FindOrCreate(s.members, MemberData(req, verified), w.freshMemberId);
      assert !HasPrimary(s.cards, issuer.id, member.id, w.now);
    }
  }
}
