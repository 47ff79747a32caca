# Membership-card engine of civictech-vpass, in Dafny

civictech-vpass issues digital membership cards to YouTube channel members.

**Claiming a card.** A member signs in with YouTube and claims a card for a channel (an *issuer*) by pointing at a comment they wrote under the channel's verification video. Issuance then runs an ordered chain of guards:
- the issuer must be active;
- the comment reference must parse, and must name the issuer's verification video;
- the comment must be verified;
- the member record is created or refreshed;
- the member must not already hold a primary card;
- wallet credentials and the issuer's credential template id must be configured;
- the member's display name is sanitised.

Only then is a QR offer requested from the Taiwan Digital Wallet. The card and its wallet offer are stored after that request succeeds. The member's phone later picks up the credential. Polling the wallet reads the credential id (CID) out of the issued JWT and records it on the offer.

**Re-checking membership.** A background sweep re-checks every card against YouTube:
- a confirmed member's card is extended by 30 days;
- a failed check counts one strike;
- three strikes expire the card.

**Events.** Issuers run door events where presented credentials are checked through an OIDVP verifier service, and successful presentations are written to an audit log. There are also handlers for issuers, events and health, and the small stores underneath: members, events with a dynamic partial UPDATE, verification sessions with a five-minute lifetime, and wallet offers with at most one active offer per card.

**How the model works.**
- Each source file becomes one Dafny module. `Base` holds Option/Result, identifiers, times and HTTP status classes; `Strings` holds the slice of `str` the code uses.
- Tables are maps or sequences of immutable rows.
- Each query is one pure state transition.
- Every HTTP exchange is an input: a transport failure, or a status and a body.
- Library parsers are function parameters: JSON, base64url, URL, RFC 3339, UUID and Unicode `is_alphanumeric`.
- Fresh identifiers and the current time are parameters.

The properties proved include:
- which guard wins when several fail, and what is or is not written when a step fails;
- the statistics identity of the sweep, and three consecutive denials expiring a card;
- the placeholder numbering of the dynamic UPDATE, and that the statement it builds is a field-wise overwrite;
- that the OIDVP claim flattening equals a "latest write wins" reference;
- that polling a credential is idempotent;
- that pages of the audit history tile it;
- that switching an issuer twice restores the table.

## Model

| member | source | states |
|---|---|---|
| CardStore.ExtendExpiration | src/jobs/subscription_checker.rs:183-195 | only the named card changes; its expiry moves to `now` plus the given days, failures reset and last-verified is stamped |
| CardStore.IncrementVerificationFailure | src/jobs/subscription_checker.rs:197-208 | returns the card's failure count plus one and stores exactly that count, touching no other card |
| CardStore.SetStatus | src/jobs/subscription_checker.rs:209-221 | only the named card changes, and only in its status |
| CardStore.Create | src/services/card_issuer.rs:236-249 | a new card is stored under the fresh id, active, with no failures, expiring 30 days after issue, with the issuer, member, label and comment given |
| SubscriptionChecker.Prepare | src/jobs/subscription_checker.rs:100-162 | an issuer and a session are required; an unexpired session's token is used as stored, an expired one only after a successful refresh; an expired session without a UTF-8 refresh token fails as TokenRefreshFailed before any membership probe |
| SubscriptionChecker.VerifySingleCard | src/jobs/subscription_checker.rs:96-227 | the probe targets the method's video (members-only video with fallback for "video", verification video for "comment"); an unknown method is an ApiError with no write; a confirmed member is extended by 30 days; a denial adds a strike and expires the card at 3 strikes, both reported as MembershipExpired; other cards are untouched |
| SubscriptionChecker.ConfirmationExtends | src/jobs/subscription_checker.rs:172-195 | the outcome is StillMember iff the probe of the method's video confirms the member and the extension write succeeds; the card then expires 30 days from now with no failures and an unchanged status |
| SubscriptionChecker.ProbeFailureIsApiError | src/jobs/subscription_checker.rs:172-178 | a failed video or comment probe is an ApiError carrying the probe's error, and no card is written |
| SubscriptionChecker.Sweep | src/jobs/subscription_checker.rs:47-75 | reference definition of the batch: one step per card, each on the table the previous step left |
| SubscriptionChecker.TallyAllCounts | src/jobs/subscription_checker.rs:47-75 | each outcome increments exactly one counter (database errors count as API errors), so the counters add up to the number of outcomes |
| SubscriptionChecker.SweepStep | src/jobs/subscription_checker.rs:47-75 | one more card extends the sweep by one step on the table the earlier steps left |
| SubscriptionChecker.VerifyMembershipCards | src/jobs/subscription_checker.rs:29-83 | the loop leaves the table the sweep defines; total_checked is the batch size and the four counters sum to it; a per-card error never stops the loop |
| SubscriptionChecker.RepeatedDenialsExpire | src/jobs/subscription_checker.rs:197-221 | k consecutive denials of one card add k strikes, and the card is expired once the strikes reach 3 |
| SubscriptionChecker.ThreeStrikes | src/jobs/subscription_checker.rs:209-221 | a card with no strikes denied on three consecutive sweeps ends Expired |
| CardVerifier.ResultTypeIdentifiesKind | src/services/card_verifier.rs:55-64 | two results share an audit label exactly when they are of the same kind (six distinct labels) |
| CardVerifier.CardId | src/services/card_verifier.rs:67-76 | there is no card id exactly for InvalidPayload; CardNotFound carries the looked-up id, the other kinds their card's id |
| CardVerifier.Classify | src/services/card_verifier.rs:133-160 | Success iff the card is active and has no expiry or expires at or after now; CardExpired iff active and strictly past expiry or stored Expired; revoked and suspended map to their own verdicts regardless of expiry |
| CardVerifier.VerifyQrPayload | src/services/card_verifier.rs:87-164 | an unreadable payload is InvalidPayload without a lookup; an unknown id is CardNotFound with that id; a missing issuer is an error, not a verdict; otherwise the verdict is the classification of the stored card |
| CardVerifier.PrimaryCardsVerify | src/services/card_verifier.rs:133-148 | a card that counts as a member's primary card always verifies as Success |
| CardVerifier.ExpiryInstantIsAcceptedButNotPrimary | src/services/card_verifier.rs:136-143 | at the exact expiry instant the door accepts the card while issuance no longer counts it as primary |
| CardVerifier.VerdictIsAboutRequestedCard | src/services/card_verifier.rs:104-160 | every verdict on a readable payload names the card the payload asked about |
| CardIssuer.SanitizeName | src/services/card_issuer.rs:215-219 | keeps every accepted character (alphanumeric, '_', U+4E00..U+9FFF) as often as it occurs and drops every other one |
| CardIssuer.SanitizeNameOfConcat | src/services/card_issuer.rs:215-219 | the filter distributes over concatenation, so kept characters stay in their order |
| CardIssuer.SanitizeNameKeepsAcceptedNames | src/services/card_issuer.rs:215-219 | a name made only of accepted characters is kept unchanged, so sanitising is idempotent |
| CardIssuer.DisplayName | src/services/card_issuer.rs:215-225 | never empty: the sanitised name when it is non-empty, otherwise "Member" |
| CardIssuer.CredentialFields | src/services/card_issuer.rs:227-230 | exactly one field, named "name", holding the display name |
| CardIssuer.Precheck | src/services/card_issuer.rs:78-124 | a missing or inactive issuer is IssuerNotFound before the reference is read; an unparsable reference or one naming another video is InvalidCommentId before comment verification |
| CardIssuer.IssueCard | src/services/card_issuer.rs:70-280 | guard failures before the member upsert write nothing; a duplicate primary card writes no card and no offer; the wallet is asked exactly when no primary card exists and both the wallet config and the vc_uid are present; a failure leaves the cards as they were except when the card insert succeeded and the offer write failed, which leaves an active 30-day card behind; success stores the card and an offer referencing it |
| CardIssuer.RecordIssuance | src/services/card_issuer.rs:232-280 | a failed card insert writes no card; a failed offer write keeps the inserted card and writes no offer; both are DatabaseError, and success needs neither fault |
| CardIssuer.IssuanceOutcomes | src/services/card_issuer.rs:133-267 | success iff the wallet offer is made and neither write fails; WalletApiNotConfigured iff no primary card and no wallet config; MissingVcUid iff no primary card, a wallet config and no vc_uid; a wallet QR error is passed on as WalletQrGeneration; DatabaseError iff the upsert, the primary lookup, the card insert or the offer write fails |
| CardIssuer.RetryAfterOrphanedCardIsDuplicate | src/services/card_issuer.rs:147-151 | after a failed offer write has left a card behind, retrying the same comment within 30 days is refused as DuplicateCard |
| CardIssuer.MemberData | src/services/card_issuer.rs:134-143 | the upserted member carries the requested account and avatar, the verified comment author's name, and no locale |
| CardIssuer.IssuanceKeepsOnePrimaryCard | src/services/card_issuer.rs:147-152 | after a successful issuance the new card is primary and is the member's only primary card for that issuer |
| WalletQr.TrimmedBase | src/services/wallet_qr.rs:52 | the base URL with all trailing '/' removed and nothing else |
| WalletQr.BaseIgnoresTrailingSlashes | src/services/wallet_qr.rs:52 | an extra trailing slash changes no endpoint, and trimming twice is trimming once |
| WalletQr.EndpointsJoinWithOneSlash | src/services/wallet_qr.rs:170 | health and poll endpoints are the trimmed base joined by exactly one '/' to their path |
| WalletQr.CheckWalletHealth | src/services/wallet_qr.rs:47-73 | healthy iff a reply arrived and it is not a 5xx; a 4xx counts as up; a transport failure is HttpError |
| WalletQr.WalletQrRequestFor | src/services/wallet_qr.rs:80-98 | the request carries the template id and the fields unchanged |
| WalletQr.GenerateWalletQr | src/services/wallet_qr.rs:99-138 | Ok iff a 2xx reply parses as an offer; a non-2xx is an ApiError with status and body; an unparsable 2xx is an ApiError |
| WalletQr.PollCredentialStatus | src/services/wallet_qr.rs:163-231 | a non-2xx reply with status 404 or code 61010 is CredentialNotReady, any other is an ApiError; a 2xx with code 61010 is not ready; otherwise Ok iff the body reads as a credential |
| WalletQr.NotReadyCodeWinsOnEveryStatus | src/services/wallet_qr.rs:192-223 | the 61010 code means not ready on every status, and on a 2xx it is the only way to be not ready |
| WalletQr.ExtractCid | src/services/wallet_qr.rs:239-283 | a token without exactly three dot-separated parts, an undecodable middle part, a payload without `jti`, or an empty CID is InvalidJwt; otherwise the CID is the last '/'-separated segment of `jti` |
| WalletQr.ThreePartsIffTwoDots | src/services/wallet_qr.rs:246-251 | a token splits into three parts exactly when it holds two dots |
| WalletQr.PlainJtiIsItsOwnCid | src/services/wallet_qr.rs:268-272 | a non-empty `jti` without '/' is itself the CID |
| WalletQr.EmptyCidRejected | src/services/wallet_qr.rs:274-278 | a `jti` that is empty or ends in '/' is rejected |
| WalletQr.CidFollowsLastSlash | src/services/wallet_qr.rs:268-272 | whatever follows the last '/' is the CID |
| WalletQr.CidOfCredentialUrl | src/services/wallet_qr.rs:233-237 | the documented credential URL yields the documented CID |
| Strings.Split | src/services/wallet_qr.rs:246 | at least one piece, and no piece holds the separator |
| Strings.SplitCount | src/services/wallet_qr.rs:246-251 | there is one more piece than there are separators |
| Strings.JoinSplit | src/services/wallet_qr.rs:246 | joining the pieces with the separator restores the input |
| Strings.LastSegmentIsMaximalSuffix | src/services/wallet_qr.rs:268-272 | the last piece is the longest separator-free suffix of the input |
| WalletQrCode.DeactivateCard | src/models/wallet_qr_code.rs:36-45 | every offer of the card becomes inactive; other cards' offers are untouched |
| WalletQrCode.Create | src/models/wallet_qr_code.rs:31-68 | a failed transaction changes nothing; otherwise the card's old offers are deactivated and a new active offer with the given fields is appended |
| WalletQrCode.CreatePreservesInvariants | src/models/wallet_qr_code.rs:31-68 | unique ids, at most one active offer per card and creation order survive `create` |
| WalletQrCode.FindActiveByCardId | src/models/wallet_qr_code.rs:71-86 | finds an active offer of the card, and finds none exactly when the card has no active offer |
| WalletQrCode.FindActiveIsTheActiveOffer | src/models/wallet_qr_code.rs:71-86 | with at most one active offer per card, the lookup returns that offer |
| WalletQrCode.FindActiveAfterCreate | src/models/wallet_qr_code.rs:31-86 | right after `create` the card's active offer is the new one |
| WalletQrCode.MarkAsScanned | src/models/wallet_qr_code.rs:107-121 | the offer with that id records the CID and scan time; activity, transaction id and QR are unchanged; other offers are untouched |
| WalletQrCode.MarkAsScannedKeepsActiveOffers | src/models/wallet_qr_code.rs:107-121 | marking a scan never changes which offers are active |
| WalletQrCode.FindActiveAfterScan | src/models/wallet_qr_code.rs:107-121 | after recording a scan on the card's active offer, the lookup returns that offer with the CID recorded |
| WalletQrCode.ListByCardId | src/models/wallet_qr_code.rs:124-137 | exactly the card's offers, active or not, each as often as stored |
| WalletQrCode.ListIsNewestFirst | src/models/wallet_qr_code.rs:124-137 | the listing is newest first |
| VerificationSession.StatusName | src/models/verification_session.rs:13 | a status is stored as one of the four texts |
| VerificationSession.StatusNameInjective | src/models/verification_session.rs:13 | distinct statuses are stored as distinct text |
| VerificationSession.Create | src/models/verification_session.rs:34-60 | a pending session with the given fields, no result yet, expiring 300 seconds after creation |
| VerificationSession.FreshSessionLifetime | src/models/verification_session.rs:177-184 | a fresh session is pending exactly up to and including 300 seconds after its creation |
| VerificationSession.UpdateResult | src/models/verification_session.rs:105-135 | every session with the transaction id becomes completed with the verdict, description, data and completion time, whatever its status; others are untouched |
| VerificationSession.MarkExpired | src/models/verification_session.rs:138-151 | only sessions of that transaction that are still pending become expired |
| VerificationSession.MarkFailed | src/models/verification_session.rs:154-174 | sessions of that transaction become failed with the message, whatever their status |
| VerificationSession.MarkExpiredSparesFinishedSessions | src/models/verification_session.rs:138-151 | completed and failed sessions are never changed by expiring |
| VerificationSession.CountByEventAndStatus | src/models/verification_session.rs:187-216 | exactly the number of rows of the event, with the given status text when a status is given |
| VerificationSession.CountsPartitionByStatus | src/models/verification_session.rs:187-216 | the unfiltered count is the sum of the four status counts, and an unknown status counts nothing |
| VerificationSession.CleanupOldSessions | src/models/verification_session.rs:219-233 | every session that is not an expired or failed one older than 24 hours survives as often as it was stored and every stale one is deleted; the count returned is the number of deleted rows; pending and completed sessions are never deleted |
| VerificationSession.CleanupIsIdempotent | src/models/verification_session.rs:219-233 | a second cleanup keeps every survivor and deletes nothing |
| VerificationSession.CleanupOfOne | src/models/verification_session.rs:222-225 | a single session survives iff it is not stale |
| VerificationSession.CleanupDistributesOverConcat | src/models/verification_session.rs:219-233 | the survivors of a table are the survivors of its first part followed by those of the rest, so they keep their stored order |
| MembershipChecker.CheckVideoAccess | src/services/membership_checker.rs:38-92 | member iff 200 with a non-empty item list; 403, 404 and an empty 200 are not-a-member; 401 is TokenExpired; any other status is an ApiError with that status |
| MembershipChecker.CheckCommentAccess | src/services/membership_checker.rs:96-127 | 200 is member whatever the body; 403 is not-a-member; 401 is TokenExpired; every other status, 404 included, is an ApiError |
| MembershipChecker.UnauthorizedIsNeverNotAMember | src/services/membership_checker.rs:77-80 | a 401 is indeterminate in both probes, never a denial |
| MembershipChecker.ProbesDifferOnlyOn200And404 | src/services/membership_checker.rs:54-125 | the two probes agree on every reply except a 200 and a 404 |
| MembershipChecker.VideoProbeConfirmsOnlyWhenCommentProbeDoes | src/services/membership_checker.rs:54-114 | the video probe never confirms a member the comment probe would not |
| CommentVerifier.VerifyComment | src/services/comment_verifier.rs:100-142 | an empty item list is CommentNotFound; an author mismatch is reported before a video mismatch; a well-formed comment is CommentTooOld iff it was published strictly before the session start; an unparsable publication time is a ParseError; success echoes the comment's fields |
| CommentVerifier.SessionStartIsTheOnlyTimeBoundary | src/services/comment_verifier.rs:126-133 | an accepted comment is still accepted with any earlier session start and is CommentTooOld with any session start after its publication |
| CommentVerifier.FirstValue | src/services/comment_verifier.rs:159-166 | a value is found iff some pair has the key, and it belongs to such a pair |
| CommentVerifier.FirstValueIsFirst | src/services/comment_verifier.rs:159-166 | it is the first pair with the key whose value is returned |
| CommentVerifier.ExtractCommentId | src/services/comment_verifier.rs:149-169 | input made only of alphanumerics, '-' and '_' is returned as is; otherwise a parseable URL yields its first `lc` value; anything else is None |
| CommentVerifier.ExtractCommentIdExamples | src/services/comment_verifier.rs:176-194 | the URL, bare id and invalid examples of the unit tests, and the empty input |
| YoutubeChannel.ExtractChannelHandle | src/services/youtube_channel.rs:31-50 | trimmed input starting with '@' is returned whole; otherwise a handle exists iff the text contains "youtube.com/@", and it is the text from that '@' up to the first '/', '?' or '#' |
| YoutubeChannel.FetchChannelInfo | src/services/youtube_channel.rs:54-99 | no handle is InvalidUrl before any request; the handle is looked up without its leading '@'s; success iff a 2xx reply lists at least one item, and it is the first item with the extracted handle; a non-2xx reply is an ApiError with its status and body; a transport failure or a reply without an item list is an HttpError; an empty item list is NotFound |
| YoutubeChannel.HandleOfChannelUrl | src/services/youtube_channel.rs:40-47 | any channel URL of the form prefix, domain, handle, optional tail yields exactly the handle |
| YoutubeChannel.NoMarkerNoHandle | src/services/youtube_channel.rs:49 | trimmed text that does not start with '@' and contains the marker "youtube.com/@" nowhere yields nothing |
| YoutubeChannel.NoYNoMarker | src/services/youtube_channel.rs:40 | text without a 'y' contains the marker nowhere, which is how the invalid-input example reaches the no-handle case |
| YoutubeChannel.BareHandleExample | src/services/youtube_channel.rs:132-135 | the bare-handle example of the tests |
| YoutubeChannel.ChannelUrlExamples | src/services/youtube_channel.rs:124-142 | the www, non-www, `/videos` and `?feature` examples of the tests |
| YoutubeChannel.InvalidInputExample | src/services/youtube_channel.rs:143 | the invalid-input example of the tests |
| OidvpVerifier.RequestVerificationQr | src/services/oidvp_verifier.rs:80-133 | Ok iff a 2xx reply parses; a non-2xx is an ApiError carrying status and body text; a transport failure is HttpError |
| OidvpVerifier.PollVerificationResult | src/services/oidvp_verifier.rs:139-206 | 404, or a non-2xx body saying "not ready", "61010" or "verify result not found", is NotReady; every other non-2xx reply is a StatusFailure ApiError with its status and error text; a 2xx that does not parse is an ApiError |
| OidvpVerifier.NotFoundIsNotReadyWhateverTheBody | src/services/oidvp_verifier.rs:169-192 | a 404 is not ready even with an unreadable body, while any other failure with an unreadable body is an ApiError |
| OidvpVerifier.ExtractMemberInfo | src/services/oidvp_verifier.rs:211-233 | None exactly for an empty credential list; otherwise the object holds the credentialType key |
| OidvpVerifier.WritesLookup | src/services/oidvp_verifier.rs:218-232 | after a series of writes, a key holds its latest written value, or its earlier value if never written |
| OidvpVerifier.CredentialsAsWrites | src/services/oidvp_verifier.rs:218-232 | the nested loops are the same as applying their writes in order |
| OidvpVerifier.MemberInfoIsLatestWrite | src/services/oidvp_verifier.rs:218-232 | the object holds exactly the written keys, each with the value of its latest write, so a later claim overrides an earlier one and `cname` never appears |
| OidvpVerifier.WrittenKeys | src/services/oidvp_verifier.rs:218-229 | every key is credentialType or some claim's ename |
| OidvpVerifier.MemberInfoExample | src/services/oidvp_verifier.rs:240-261 | the test's credential flattens to the asserted name, memberLevel and credentialType |
| Member.UpdateProfile | src/models/member.rs:77-103 | each given value overwrites its column and each absent one keeps it; id and account never change; other members are untouched |
| Member.EmptyUpdateIsIdentity | src/models/member.rs:84-92 | an update with nothing to set changes nothing |
| Member.FindByYoutubeUserId | src/models/member.rs:60-74 | finds the stored member with that account, and none exactly when no member has it |
| Member.FindOrCreate | src/models/member.rs:106-130 | keyed on the account: an existing member keeps its id, gets the new display name, and changes avatar and locale only when given; an unknown account creates a member from the data; uniqueness of accounts is kept |
| Member.FindOrCreateIsStable | src/models/member.rs:106-130 | asking twice for the same account yields the same member and the same table |
| Event.Create | src/models/event.rs:41-59 | a new active event with the given fields is appended under the fresh id |
| Event.FindById | src/models/event.rs:62-73 | finds a stored event with that id, and none exactly when no event has it |
| Event.BuildUpdate | src/models/event.rs:137-176 | no statement exactly when no field is present; otherwise the WHERE placeholder is the one after the last SET, bound to the id |
| Event.PlaceholdersAreConsecutive | src/models/event.rs:143-166 | the SET placeholders are $1..$k in order, each on a present column and bound to its value |
| Event.SetsFollowColumnOrder | src/models/event.rs:143-166 | SET entries follow the fixed column order, so no column is set twice |
| Event.SetsArePresentFields | src/models/event.rs:143-166 | a column is set exactly when the request carries a value for it |
| Event.BuiltStatementRuns | src/models/event.rs:175-196 | every placeholder is bound, to a value of its column's type, and the WHERE parameter to the id |
| Event.BuiltStatementOverwrites | src/models/event.rs:143-196 | running the built statement on a row overwrites exactly the present fields |
| Event.Update | src/models/event.rs:137-201 | RowNotFound exactly when no event has the id; with no field present nothing is written |
| Event.UpdateIsOverwrite | src/models/event.rs:137-201 | an update of an existing event is the field-wise overwrite of that row, stored back under its id |
| Event.Deactivate | src/models/event.rs:204-217 | only `is_active` of the events with that id changes, to false |
| Event.SortByDate | src/models/event.rs:76-101 | the same rows in date order |
| Event.ListByIssuer | src/models/event.rs:76-101 | the issuer's events (active ones only when asked), each as often as stored, latest date first |
| Event.ListActive | src/models/event.rs:104-116 | every active event, each as often as stored, latest date first |
| Event.ListUpcoming | src/models/event.rs:119-134 | the issuer's active events dated today or later, earliest first |
| Event.ActiveOnlyNarrowsTheListing | src/models/event.rs:76-101 | the active-only listing is the full listing's active part |
| Event.DeactivatedEventsAreNotListed | src/models/event.rs:204-217 | a deactivated event drops out of every active listing |
| CardsApi.StatusOf | src/api/cards.rs:37-62 | auth errors answer through the auth layer; a not-ready credential is 202 and any other wallet error 400; NotFound is 404; database and session errors are 500 |
| CardsApi.WalletConfig | src/api/cards.rs:199-205 | the wallet configuration exists iff both the URL and the token are present |
| CardsApi.OwnedCard | src/api/cards.rs:243-245 | the card is returned iff it exists and belongs to the member; otherwise NotFound |
| CardsApi.ShowCard | src/api/cards.rs:229-254 | the owner sees the card with its active offer, if any |
| CardsApi.CardQr | src/api/cards.rs:256-290 | the owner gets the QR of an active offer of the card, or "Not available" when the card has none |
| CardsApi.ForeignCardsLookMissing | src/api/cards.rs:270-272 | another member's card answers exactly as a missing card, with 404 |
| CardsApi.PollCredential | src/api/cards.rs:315-396 | not owned is NotFound; no active offer is an ApiError; a stored CID is returned with no wallet call and no write; without a stored CID, a missing URL is the IssuerApiUrlMissing error and otherwise the offer's transaction is polled, exactly then; an extracted CID is stored on that offer and answered as ready, a failed store is DatabaseError, and a wallet or CID-extraction error is passed on with no write |
| CardsApi.PollAgainAfterSuccess | src/api/cards.rs:345-352 | after a successful poll every later poll returns the same CID without asking the wallet or writing |
| CardsApi.PollErrorStatus | src/api/cards.rs:52-58 | a failed poll answers 404 for a card not owned, 202 while the credential is not ready, 500 for a storage fault, and 400 otherwise |
| CardsApi.Authorize | src/api/cards.rs:115-170 | a signed-in member with a session is required; an expired token without a UTF-8 refresh token is the no-refresh-token session error; a failed refresh is a session error; a failed token write is DatabaseError; otherwise the refreshed token is used after expiry and the stored one before |
| CardsApi.TokenWritten | src/api/cards.rs:154-163 | the refreshed token is written iff the session was signed in and expired, a refresh succeeded and the write did not fail |
| CardsApi.PrepareClaim | src/api/cards.rs:115-185 | the authorisation failures come first and a failed token write is DatabaseError; then the token must be UTF-8 and the session start must be present and parse; Ok exactly when all of these hold |
| CardsApi.ClaimRequest | src/api/cards.rs:211-219 | the issuance request carries the member record's account, name and avatar, the form's comment link, the session start and the token |
| CardsApi.ClaimCard | src/api/cards.rs:109-227 | a failed precondition writes no card; the refreshed token is written, before the session-start checks, exactly when a refresh of an expired token succeeded and the write did not fail, so it is kept even when the claim then fails; once the checks pass, the claim ends with issuance's tables and answers the new card's id when issuance succeeds and the issuance error otherwise; a claimed card is active and belongs to this issuer |
| CardsApi.RefreshIsKeptWhenSessionStartFails | src/api/cards.rs:154-185 | a refreshed token is written even when the session start is missing or unparsable and the claim fails |
| CardsApi.FailedTokenWriteStopsClaim | src/api/cards.rs:154-163 | a failed token write ends the claim with DatabaseError (status 500) before issuance, writing nothing |
| CardsApi.NoWalletNoCard | src/api/cards.rs:199-205 | without both wallet URL and token no card is ever claimed and no card is written |
| CardsApi.ExpiredWithoutRefreshToken | src/api/cards.rs:134-143 | an expired token without a usable refresh token fails with a 500 session error before issuance and writes nothing |
| VerificationApi.StatusOf | src/api/verification.rs:32-57 | 404 only for a missing event, 400 only for validation errors, 500 for everything else |
| VerificationApi.RequireConfig | src/api/verification.rs:189-199 | configured iff both URL and token are present; a missing URL is reported before a missing token |
| VerificationApi.StripDataUrl | src/api/verification.rs:213-217 | removes the PNG data-URL prefix when present and leaves the image unchanged otherwise |
| VerificationApi.StrippedImageIsRestored | src/api/verification.rs:213-217 | the page re-adding the prefix gets back the image the verifier sent |
| VerificationApi.RequestQr | src/api/verification.rs:178-232 | a missing event or configuration fails before any verifier call; the event's verifier reference is sent; once sent, the request succeeds iff the reply parses, and success answers the stripped image and a 300-second lifetime |
| VerificationApi.PresentedCardId | src/api/verification.rs:281-285 | the card id is the `cardId` claim when it parses as a UUID, otherwise none |
| VerificationApi.CompletedResponse | src/api/verification.rs:310-320 | a completed answer carries the verdict, description and member info, with the success message or the failure message with the description |
| VerificationApi.CheckResult | src/api/verification.rs:237-337 | a missing event or configuration fails before polling; not-ready answers pending with no result fields; other poll errors propagate; a finished check answers its verdict; an audit row (success, presented card id, transaction, method oidvp) is written iff the verdict is positive, and a failed audit write fails the request |
| VerificationApi.RejectedPresentationIsNotAudited | src/api/verification.rs:279-302 | a rejected presentation is answered but leaves no audit row |
| VerificationApi.Paginate | src/api/verification.rs:356-358 | page defaults to 1 and page size to 50; page 1 starts at offset 0 |
| VerificationApi.NextPageFollows | src/api/verification.rs:358 | each page starts where the previous one ended |
| VerificationApi.PageRows | src/api/verification.rs:360-363 | a negative limit or offset is a database error; otherwise at most a page of consecutive rows from the offset |
| VerificationApi.PagesTileTheHistory | src/api/verification.rs:356-363 | the first n pages read in order are exactly the first n times page-size rows |
| VerificationApi.PageZeroFails | src/api/verification.rs:356-363 | page 0 asks for a negative offset, which the database rejects |
| VerificationApi.Enrich | src/api/verification.rs:369-394 | a row gets its card when its card exists, and the card's member when that exists |
| VerificationApi.CountConcat | src/api/verification.rs:396-403 | outcome counts add over concatenated row lists |
| VerificationApi.EventAndIssuer | src/api/verification.rs:346-354 | the event and its issuer; a missing issuer reads as a missing event |
| VerificationApi.VerificationHistory | src/api/verification.rs:340-419 | a missing event or issuer is EventNotFound; otherwise the page of enriched rows, the page's success and failed counts, and the event's total |
| VerificationApi.SuccessAndFailureAreDisjoint | src/api/verification.rs:396-403 | no row counts both as a success and as a failure |
| VerificationApi.PageCountsAreAtMostTotals | src/api/verification.rs:396-403 | the counts cover only the page, so they never exceed the event's own counts |
| IssuersApi.StatusOf | src/api/issuers.rs:25-39 | 500 only for database errors, 404 only for NotFound, 400 for validation and YouTube errors |
| IssuersApi.NormalizeHandle | src/api/issuers.rs:98-106 | a missing or blank handle is absent; otherwise it is stored trimmed |
| IssuersApi.CreateIssuer | src/api/issuers.rs:77-125 | a blank channel id, name, then video id are rejected in that order; otherwise the stored fields are trimmed and the credential template id is unset |
| IssuersApi.CreateIsStableOnItsOutput | src/api/issuers.rs:98-116 | submitting the stored values again stores the same values |
| IssuersApi.NonBlank | src/api/issuers.rs:326-331 | a blank value counts as absent; a non-blank one passes through untrimmed |
| IssuersApi.UpdateIssuer | src/api/issuers.rs:314-354 | a missing issuer is NotFound before any write; the channel info is written with blank fields as absent; the video is written only when non-blank; an existing issuer always gets the writes |
| IssuersApi.BlankUpdateChangesNothing | src/api/issuers.rs:326-349 | a form with every field blank writes no value and no video |
| IssuersApi.ToggleIssuer | src/api/issuers.rs:357-379 | a missing issuer is NotFound; otherwise only that issuer's active flag changes, to its negation |
| IssuersApi.ToggleTwiceRestores | src/api/issuers.rs:366-370 | switching an issuer twice restores the table |
| IssuersApi.AutoFill | src/api/issuers.rs:394-414 | nothing is fetched without an API key; with one, the answer is Ok iff the channel lookup succeeds, any lookup error is passed on as a YouTube error, and success answers the channel's id, name and handle |
| EventsApi.StatusOf | src/api/events.rs:26-41 | 404 only for NotFound, 400 only for validation errors, 500 for database and session errors |
| EventsApi.ListEvents | src/api/events.rs:128-136 | with an issuer, its events (active only just when asked, the default being all); without one, every active event; each row as often as stored, latest date first |
| EventsApi.IssuerListingIncludesInactive | src/api/events.rs:151-159 | an inactive event is listed under its issuer by default but never in the unfiltered listing |
| EventsApi.CreateEvent | src/api/events.rs:182-212 | rejected iff the name is blank, before any write; otherwise a new active event is appended with the name as sent, found under its new id; the form route answers 303 and the JSON route 201 |
| EventsApi.RoutesAgree | src/api/events.rs:215-242 | the form and JSON routes accept and reject the same requests and store the same event |
| EventsApi.GetEvent | src/api/events.rs:305-315 | the stored event with that id, or NotFound exactly when there is none |
| EventsApi.UpdateEvent | src/api/events.rs:318-339 | a missing event is a 500 database error, not a 404; an update with no fields changes nothing; the answered event is the stored one after the update |
| EventsApi.UpdatedEventIsAnswered | src/api/events.rs:318-339 | the answered event is the stored row overwritten with the request: it keeps its id and verifier reference, takes each field the request sets, and keeps its name and date when they are not set |
| EventsApi.DeactivateEvent | src/api/events.rs:342-353 | always 204; the event with that id becomes inactive, and an unknown id changes nothing |
| EventsApi.DeactivatedEventLeavesActiveListings | src/api/events.rs:128-159 | after deactivation the event is still in its issuer's full listing, but in no active listing |
| EventsApi.CardsSeenIff | src/api/events.rs:279-285 | a card is counted as seen exactly when some row names it |
| EventsApi.StatsOf | src/api/events.rs:287-292 | every row is a scan; success rows are successful; failed is total minus successful; unique cards is the number of distinct cards the rows name, never more than the scans |
| EventsApi.FailedScansAreTheNonSuccesses | src/api/events.rs:392-397 | the failed count is the number of rows not marked success, so it includes every non-success outcome and not only "failed" rows |
| EventsApi.SuccessRate | src/api/events.rs:101-108 | absent exactly when there were no scans; otherwise successful scans times 100 divided by scans |
| EventsApi.RateIsAPercentage | src/api/events.rs:101-108 | the rate of real statistics lies between 0 and 100 |
| EventsApi.EventStatsFor | src/api/events.rs:356-400 | NotFound exactly when the event is missing; otherwise the statistics of its rows |
| EventsApi.ShowEvent | src/api/events.rs:245-302 | the stored event, its issuer and its statistics; a missing event or issuer is NotFound |
| HealthApi.CheckDatabase | src/api/health.rs:86-101 | healthy with no error iff the probe query answered; otherwise unhealthy with the prefixed error text |
| HealthApi.CheckWallet | src/api/health.rs:104-119 | healthy with no error iff the wallet health check passes, i.e. a reply that is not a 5xx |
| HealthApi.HealthCheck | src/api/health.rs:33-83 | 200 iff the database is up and the wallet is up or not configured, otherwise 503; the status text agrees with the code; a wallet missing its URL or token reports not_configured |
| HealthApi.ConfiguringWalletOnlyAddsFailures | src/api/health.rs:40-60 | configuring the wallet can turn a 200 into a 503 but never the reverse |
| HealthApi.HalfConfiguredIsUnconfigured | src/api/health.rs:40-50 | with only one of URL and token the endpoint behaves exactly as with neither |
| HealthApi.ClientErrorFromWalletIsHealthy | src/api/health.rs:107-112 | a 4xx from the wallet still counts as healthy |

## Left out

- Network I/O: YouTube, wallet and OIDVP requests are inputs (a transport failure or a status with a body); their URLs and headers are not modelled, except the wallet base-URL trimming.
- Database faults: they are modelled only where the code's behaviour depends on them. Those places are the sweep's per-card steps, the issuance's member upsert, primary-card lookup, card insert and offer write, the wallet-offer transaction, the claim's token write and the audit write; elsewhere a query is assumed to answer.
- CardIssuer.IssueCard: a database error of the issuer lookup (src/services/card_issuer.rs:78-81) is not modelled; the issuer is found or absent.
- Concurrency and transaction isolation: each query is one atomic step.
- Clocks, `Instant` response times and timestamps are parameters or not modelled. RFC 3339 parsing is an input.
- Library parsers are parameters: JSON (serde), base64url, `url::Url`, UUID parsing and Unicode `is_alphanumeric`.
- `extract_comment_and_video_id` is not part of this model; issuance takes its answer as an input.
- `MembershipCard` store methods are not part of this model: `find_primary_for_member`, `extend_expiration`, `increment_verification_failure`, `set_status` and `create`. They are specified by the contracts their callers rely on. `CardStore.Create` does not supersede older cards.
- The QR payload, its signature and the card snapshot (src/services/qr_generator.rs, signature and encryption stubs) are not modelled. They are stubs or serialisation, and do not decide any outcome.
- Stale model files (card, issuer, oauth_session, verification_event, revocation) are not modelled; row types follow what the services read.
- Session, OAuth and CSRF plumbing (src/api/auth.rs, the middleware) is not modelled. The signed-in member and the session values are inputs. The token refresh call and the success of the token write are inputs, and the refreshed token is returned as a write rather than applied to a table.
- Templates, redirects' HTML, the inline edit form of the issuers handler, and `is_authenticated` are not modelled: they only render or gate pages.
- IssuersApi.UpdateIssuer: the issuer-table update methods are not part of this model, so the handler's writes are stated as a write plan, not applied to the table. Only the active flag is applied, by ToggleIssuer.
- `list_issuers` and the page handlers that only render are not modelled.
- EventsApi.SuccessRate: the one-decimal text formatting of the percentage is not modelled; the number is a `real`.
- EventsApi.CreateEvent: the create handlers as written pass no verifier reference to the store; the model takes it as an input.
- EventsApi.UpdateEvent: the handler as written passes no verifier reference either; the model passes none.
- The `updated_at` column of events is not modelled.
- Event listings: rows with equal dates are assumed to stay in storage order.
- VerificationApi.Paginate: 64-bit overflow of `(page - 1) * per_page` is not modelled.
- The display texts of nested errors are not modelled, except where a response carries them.
- Configuration and environment reads, logging and tracing are not modelled.
