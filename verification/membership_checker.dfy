/** The two upstream membership probes (src/services/membership_checker.rs):
    the members-only video lookup and the comment-thread lookup. The HTTP
    exchange is an input: the model classifies the reply. */
module MembershipChecker {
  import opened Base

  datatype MembershipCheckError =
    | HttpError                      // the request never produced a reply
    | ApiError(status: int)          // any reply the probe does not understand
    | TokenExpired                   // 401: the access token must be refreshed
    | MembershipExpired              // declared by the service, never produced

  /** A reply of the YouTube Data API. `itemCount` is the length of the
      `items` array of the JSON body, or None when the body does not parse. */
  datatype Upstream =
    | TransportFailure
    | Reply(status: int, itemCount: Option<nat>)

  /** `check_video_access`: Ok(true) = still a member, Ok(false) = not a member. */
  function CheckVideoAccess(u: Upstream): (r: Result<bool, MembershipCheckError>)
    ensures r == Ok(true) <==> u.Reply? && u.status == 200 && u.itemCount.Some? && u.itemCount.value > 0
    ensures r == Ok(false) <==>
      u.Reply? && (u.status == 403 || u.status == 404 || (u.status == 200 && u.itemCount == Some(0)))
    ensures r == Err(TokenExpired) <==> u.Reply? && u.status == 401
    ensures r == Err(HttpError) <==> u.TransportFailure?
    ensures r.Err? && r.error.ApiError? ==>
      u.Reply? && (r.error.status == u.status || (u.status == 200 && r.error.status == 500))
  {
    match u
    case TransportFailure => Err(HttpError)
    case Reply(status, itemCount) =>
      if status == 200 then
        (match itemCount
         case None => Err(ApiError(500))
         case Some(n) => Ok(n > 0))
      else if status == 403 then Ok(false)
      else if status == 404 then Ok(false)
      else if status == 401 then Err(TokenExpired)
      else Err(ApiError(status))
  }

  /** `check_comment_access`: the body is not read; only the status matters. */
  function CheckCommentAccess(u: Upstream): (r: Result<bool, MembershipCheckError>)
    ensures r == Ok(true) <==> u.Reply? && u.status == 200
    ensures r == Ok(false) <==> u.Reply? && u.status == 403
    ensures r == Err(TokenExpired) <==> u.Reply? && u.status == 401
    ensures r == Err(HttpError) <==> u.TransportFailure?
    ensures r.Err? && r.error.ApiError? ==> u.Reply? && r.error.status == u.status
  {
    match u
    case TransportFailure => Err(HttpError)
    case Reply(status, _) =>
      if status == 200 then Ok(true)
      else if status == 403 then Ok(false)
      else if status == 401 then Err(TokenExpired)
      else Err(ApiError(status))
  }

  /** The three outcome classes callers act on: a confirmed member, a
      trustworthy negative, or an answer that says nothing about membership. */
  datatype ProofOutcome = Confirmed | NotAMember | Indeterminate

  function OutcomeOf(r: Result<bool, MembershipCheckError>): ProofOutcome {
    match r
    case Ok(b) => if b then Confirmed else NotAMember
    case Err(_) => Indeterminate
  }

  /** An expired token never reads as "not a member", in either probe. */
  lemma UnauthorizedIsNeverNotAMember(u: Upstream)
    requires u.Reply? && u.status == 401
    ensures OutcomeOf(CheckVideoAccess(u)) == Indeterminate
    ensures OutcomeOf(CheckCommentAccess(u)) == Indeterminate
  {
  }

  /** The two probes agree on every reply except a 200 (the video probe
      also reads the body) and a 404 (a denial for the video probe, an
      error for the comment probe). */
  lemma ProbesDifferOnlyOn200And404(u: Upstream)
    ensures !(u.Reply? && (u.status == 200 || u.status == 404)) ==>
      CheckVideoAccess(u) == CheckCommentAccess(u)
    ensures u.Reply? && u.status == 404 ==>
      CheckVideoAccess(u) == Ok(false) && CheckCommentAccess(u) == Err(ApiError(404))
  {
  }

  /** The video probe never confirms more than the comment probe does. */
  lemma VideoProbeConfirmsOnlyWhenCommentProbeDoes(u: Upstream)
    ensures OutcomeOf(CheckVideoAccess(u)) == Confirmed ==> OutcomeOf(CheckCommentAccess(u)) == Confirmed
  {
  }
}
