/** The wallet credential bridge (src/services/wallet_qr.rs): building the
    wallet API requests, classifying its replies, and reading the credential
    id out of an issued credential.

    Every HTTP exchange is an input: a transport failure, or a reply with
    its status, its body text, and what the body parses as. The
    base64url decoding (section 5 of RFC 4648) of a JWS compact
    serialisation's payload (section 7.1 of RFC 7515) and the JSON parse
    that reads its `jti` claim (section 4.1.7 of RFC 7519) are partial
    functions given as parameters. */
module WalletQr {
  import opened Base
  import opened Strings

  /** Why the wallet API did not answer as hoped. */
  datatype ApiReason =
    | Unavailable(status: int)                 // health probe: a 5xx reply
    | StatusFailure(status: int, body: string) // a non-2xx reply and its body text
    | UnparsableResponse                       // a 2xx reply whose body is not the expected JSON
    | NoActiveOffer                            // the card has no active offer to poll
    | IssuerApiUrlMissing                      // the wallet API's base URL is not configured

  /** Why a credential token is not a usable JWT. */
  datatype JwtProblem = WrongPartCount | BadBase64 | BadJson | EmptyCid

  datatype WalletQrError =
    | HttpError
    | ApiError(reason: ApiReason)
    | MissingVcUid
    | InvalidJwt(problem: JwtProblem)
    | CredentialNotReady

  /** One credential field the wallet is asked to fill in. */
  datatype WalletQrField = WalletQrField(ename: string, content: string)

  datatype WalletQrRequest = WalletQrRequest(vcUid: string, fields: seq<WalletQrField>)

  datatype WalletQrResponse = WalletQrResponse(transactionId: string, qrCode: string, deepLink: string)

  /** The body of a poll reply as the two parsers see it: as an error body
      (`{code?, message?}`, None when it does not parse) and as a
      credential body (`{credential}`, None when it does not parse). */
  datatype ErrorBody = ErrorBody(code: Option<string>)
  datatype PollBody = PollBody(text: string, asError: Option<ErrorBody>, asCredential: Option<string>)

  datatype Exchange<B> = TransportFailure | Reply(status: int, body: B)

  /** The wallet's "credential not yet issued" code. */
  const NotReadyCode: string := "61010"

  /** `api_base_url.trim_end_matches('/')`. */
  function TrimmedBase(apiBaseUrl: string): (b: string)
    ensures |b| == 0 || b[|b| - 1] != '/'
    ensures b <= apiBaseUrl && forall i :: |b| <= i < |apiBaseUrl| ==> apiBaseUrl[i] == '/'
  {
    TrimEndMatches(apiBaseUrl, '/')
  }

  /** Trailing slashes on the configured base URL never change an endpoint. */
  lemma {:induction false} BaseIgnoresTrailingSlashes(apiBaseUrl: string)
    ensures TrimmedBase(apiBaseUrl + "/") == TrimmedBase(apiBaseUrl)
    ensures TrimmedBase(TrimmedBase(apiBaseUrl)) == TrimmedBase(apiBaseUrl)
  {
    assert (apiBaseUrl + "/")[..|apiBaseUrl + "/"| - 1] == apiBaseUrl;
  }

  function HealthUrl(apiBaseUrl: string): string {
    TrimmedBase(apiBaseUrl) + "/api/qrcode/data"
  }

  function PollUrl(apiBaseUrl: string, transactionId: string): string {
    TrimmedBase(apiBaseUrl) + "/api/credential/nonce/" + transactionId
  }

  /** Endpoints built from a base URL whose trailing slashes were dropped:
      the path is joined to the base by exactly one '/'. */
  lemma EndpointsJoinWithOneSlash(apiBaseUrl: string, transactionId: string)
    ensures var b := TrimmedBase(apiBaseUrl);
      && HealthUrl(apiBaseUrl) == b + "/api/qrcode/data"
      && PollUrl(apiBaseUrl, transactionId) == b + "/api/credential/nonce/" + transactionId
      && (|b| == 0 || b[|b| - 1] != '/')
  {
  }

  /** `check_wallet_health`: only a server error counts as down; any other
      reply, a 4xx included, counts as up. */
  function CheckWalletHealth(x: Exchange<string>): (r: Result<(), WalletQrError>)
    ensures r.Ok? <==> x.Reply? && !IsServerError(x.status)
    ensures r == Err(HttpError) <==> x.TransportFailure?
    ensures x.Reply? && IsServerError(x.status) ==> r == Err(ApiError(Unavailable(x.status)))
  {
    match x
    case TransportFailure => Err(HttpError)
    case Reply(status, _) => if IsServerError(status) then Err(ApiError(Unavailable(status))) else Ok(())
  }

  /** `generate_wallet_qr`: the request sent, and the classification of the
      reply. `parsed` is the body read as `{transactionId, qrCode, deepLink}`. */
  function WalletQrRequestFor(vcUid: string, fields: seq<WalletQrField>): (q: WalletQrRequest)
    ensures q.vcUid == vcUid && q.fields == fields
  {
    WalletQrRequest(vcUid, fields)
  }

  datatype GenerateBody = GenerateBody(text: string, parsed: Option<WalletQrResponse>)

  function GenerateWalletQr(x: Exchange<GenerateBody>): (r: Result<WalletQrResponse, WalletQrError>)
    ensures r.Ok? <==> x.Reply? && IsSuccess(x.status) && x.body.parsed.Some?
    ensures r.Ok? ==> r.value == x.body.parsed.value
    ensures x.Reply? && !IsSuccess(x.status) ==> r == Err(ApiError(StatusFailure(x.status, x.body.text)))
    ensures x.Reply? && IsSuccess(x.status) && x.body.parsed.None? ==> r == Err(ApiError(UnparsableResponse))
    ensures x.TransportFailure? ==> r == Err(HttpError)
  {
    match x
    case TransportFailure => Err(HttpError)
    case Reply(status, body) =>
      if !IsSuccess(status) then Err(ApiError(StatusFailure(status, body.text)))
      else if body.parsed.None? then Err(ApiError(UnparsableResponse))
      else Ok(body.parsed.value)
  }

  /** The error body names the "not ready" code. */
  predicate SaysNotReady(b: PollBody) {
    b.asError.Some? && b.asError.value.code == Some(NotReadyCode)
  }

  /** `poll_credential_status`: the credential JWT once the holder has
      scanned the offer, CredentialNotReady while not, ApiError otherwise. */
  function PollCredentialStatus(x: Exchange<PollBody>): (r: Result<string, WalletQrError>)
    ensures x.TransportFailure? ==> r == Err(HttpError)
    // a failing status: not ready on 404 or the not-ready code, an error otherwise
    ensures x.Reply? && !IsSuccess(x.status) ==>
      (r == Err(CredentialNotReady) <==> x.status == 404 || SaysNotReady(x.body))
    ensures x.Reply? && !IsSuccess(x.status) && x.status != 404 && !SaysNotReady(x.body) ==>
      r == Err(ApiError(StatusFailure(x.status, x.body.text)))
    // a success status can still carry the not-ready code, which wins over a credential
    ensures x.Reply? && IsSuccess(x.status) && SaysNotReady(x.body) ==> r == Err(CredentialNotReady)
    ensures r.Ok? <==>
      x.Reply? && IsSuccess(x.status) && !SaysNotReady(x.body) && x.body.asCredential.Some?
    ensures r.Ok? ==> r.value == x.body.asCredential.value
    ensures x.Reply? && IsSuccess(x.status) && !SaysNotReady(x.body) && x.body.asCredential.None? ==>
      r == Err(ApiError(UnparsableResponse))
  {
    match x
    case TransportFailure => Err(HttpError)
    case Reply(status, body) =>
      if !IsSuccess(status) then
        if status == 404 || SaysNotReady(body) then Err(CredentialNotReady)
        else Err(ApiError(StatusFailure(status, body.text)))
      else if SaysNotReady(body) then Err(CredentialNotReady)
      else if body.asCredential.None? then Err(ApiError(UnparsableResponse))
      else Ok(body.asCredential.value)
  }

  /** The not-ready code means "not ready" whatever the status, and a
      success status is "not ready" only because of that code. */
  lemma NotReadyCodeWinsOnEveryStatus(x: Exchange<PollBody>)
    requires x.Reply?
    ensures SaysNotReady(x.body) ==> PollCredentialStatus(x) == Err(CredentialNotReady)
    ensures IsSuccess(x.status) && PollCredentialStatus(x) == Err(CredentialNotReady) ==> SaysNotReady(x.body)
  {
  }

  /** `extract_cid_from_jwt`. `decode` is base64url decoding without
      padding; `readJti` parses decoded bytes as a JSON object and reads its
      string `jti` member. */
  function ExtractCid(jwt: string, decode: string -> Option<seq<bv8>>, readJti: seq<bv8> -> Option<string>)
    : (r: Result<string, WalletQrError>)
    ensures |Split(jwt, '.')| != 3 ==> r == Err(InvalidJwt(WrongPartCount))
    ensures |Split(jwt, '.')| == 3 && decode(Split(jwt, '.')[1]).None? ==> r == Err(InvalidJwt(BadBase64))
    ensures (|Split(jwt, '.')| == 3 && decode(Split(jwt, '.')[1]).Some?
             && readJti(decode(Split(jwt, '.')[1]).value).None?) ==> r == Err(InvalidJwt(BadJson))
    ensures r.Ok? <==>
      |Split(jwt, '.')| == 3 && decode(Split(jwt, '.')[1]).Some?
      && readJti(decode(Split(jwt, '.')[1]).value).Some?
      && LastSegment(readJti(decode(Split(jwt, '.')[1]).value).value, '/') != ""
    ensures r.Ok? ==>
      var jti := readJti(decode(Split(jwt, '.')[1]).value).value;
      && r.value == LastSegment(jti, '/')
      && 0 < |r.value| <= |jti| && '/' !in r.value
      && r.value == jti[|jti| - |r.value|..]
      && (|r.value| == |jti| || jti[|jti| - |r.value| - 1] == '/')
    ensures r.Err? ==> r.error.InvalidJwt?
  {
    var parts := Split(jwt, '.');
    if |parts| != 3 then Err(InvalidJwt(WrongPartCount))
    else match decode(parts[1])
      case None => Err(InvalidJwt(BadBase64))
      case Some(bytes) =>
        match readJti(bytes)
        case None => Err(InvalidJwt(BadJson))
        case Some(jti) =>
          LastSegmentIsMaximalSuffix(jti, '/');
          var cid := LastSegment(jti, '/');
          if cid == "" then Err(InvalidJwt(EmptyCid)) else Ok(cid)
  }

  /** A token is split into three parts exactly when it holds two dots. */
  lemma ThreePartsIffTwoDots(jwt: string)
    ensures |Split(jwt, '.')| == 3 <==> Occurrences(jwt, '.') == 2
  {
    SplitCount(jwt, '.');
  }

  /** A `jti` without any '/' is itself the CID, when it is not empty. */
  lemma PlainJtiIsItsOwnCid(jwt: string, decode: string -> Option<seq<bv8>>, readJti: seq<bv8> -> Option<string>)
    requires |Split(jwt, '.')| == 3 && decode(Split(jwt, '.')[1]).Some?
    requires var jti := readJti(decode(Split(jwt, '.')[1]).value);
      jti.Some? && '/' !in jti.value && jti.value != ""
    ensures ExtractCid(jwt, decode, readJti) == Ok(readJti(decode(Split(jwt, '.')[1]).value).value)
  {
    LastSegmentWithoutSeparator(readJti(decode(Split(jwt, '.')[1]).value).value, '/');
  }

  /** A `jti` that is empty or ends in '/' has no CID. */
  lemma EmptyCidRejected(jwt: string, decode: string -> Option<seq<bv8>>, readJti: seq<bv8> -> Option<string>)
    requires |Split(jwt, '.')| == 3 && decode(Split(jwt, '.')[1]).Some?
    requires var jti := readJti(decode(Split(jwt, '.')[1]).value);
      jti.Some? && (jti.value == "" || jti.value[|jti.value| - 1] == '/')
    ensures ExtractCid(jwt, decode, readJti) == Err(InvalidJwt(EmptyCid))
  {
    LastSegmentEmptyIff(readJti(decode(Split(jwt, '.')[1]).value).value, '/');
  }

  /** The CID is whatever follows the last '/' of `jti`. */
  lemma CidFollowsLastSlash(jwt: string, decode: string -> Option<seq<bv8>>, readJti: seq<bv8> -> Option<string>,
                            prefix: string, cid: string)
    requires |Split(jwt, '.')| == 3 && decode(Split(jwt, '.')[1]).Some?
    requires readJti(decode(Split(jwt, '.')[1]).value) == Some(prefix + "/" + cid)
    requires '/' !in cid && cid != ""
    ensures ExtractCid(jwt, decode, readJti) == Ok(cid)
  {
    LastSegmentAfterLastSeparator(prefix, '/', cid);
  }

  /** The credential URL form of `jti` the wallet issues. */
  lemma CidOfCredentialUrl()
    ensures LastSegment("https://issuer-vc.wallet.gov.tw/api/credential/a16187e9-755e-48ca-a9c0-622f76fe1360", '/')
            == "a16187e9-755e-48ca-a9c0-622f76fe1360"
  {
    var p, cid := "https://issuer-vc.wallet.gov.tw/api/credential", "a16187e9-755e-48ca-a9c0-622f76fe1360";
    assert forall i :: 0 <= i < |cid| ==> cid[i] != '/';
    assert p + "/" + cid == "https://issuer-vc.wallet.gov.tw/api/credential/a16187e9-755e-48ca-a9c0-622f76fe1360";
    LastSegmentAfterLastSeparator(p, '/', cid);
  }
}
