/** The verifier side of the wallet (src/services/oidvp_verifier.rs): asking
    the OIDVP service for a presentation QR code, polling for the holder's
    presentation, and flattening the presented credentials into one object.

    Every HTTP exchange is an input: a transport failure, or a reply with
    its status, its body text (None when the text cannot be read) and what
    the body parses as (None when it does not parse). */
module OidvpVerifier {
  import opened Base
  import opened Strings

  /** Why the OIDVP service did not answer as hoped. */
  datatype ApiReason =
    | StatusFailure(status: int, body: string) // a non-2xx reply and its body text
    | UnparsableResponse                       // a 2xx reply whose body is not the expected JSON

  datatype OidvpError =
    | HttpError
    | ApiError(reason: ApiReason)
    | MissingConfig
    | NotReady
    | Expired
    | VerificationFailed(message: string)

  datatype QrCodeResponse = QrCodeResponse(transactionId: string, qrcodeImage: string, authUri: string)

  datatype ClaimData = ClaimData(ename: string, cname: string, value: string)

  datatype CredentialData = CredentialData(credentialType: string, claims: seq<ClaimData>)

  datatype ResultResponse = ResultResponse(
    verifyResult: bool,
    resultDescription: string,
    transactionId: string,
    data: Option<seq<CredentialData>>)

  datatype Exchange<B> =
    | TransportFailure
    | Reply(status: int, text: Option<string>, parsed: Option<B>)

  /** The body text of a failed reply, with the placeholder used when it cannot be read. */
  function ErrorText<B>(x: Exchange<B>): string
    requires x.Reply?
  {
    x.text.GetOr("Unknown error")
  }

  /** `request_verification_qr`: any non-2xx reply is an API error carrying
      its status and text; a 2xx reply must parse. */
  function RequestVerificationQr(x: Exchange<QrCodeResponse>): (r: Result<QrCodeResponse, OidvpError>)
    ensures r.Ok? <==> x.Reply? && IsSuccess(x.status) && x.parsed.Some?
    ensures r.Ok? ==> r.value == x.parsed.value
    ensures r == Err(HttpError) <==> x.TransportFailure?
    ensures r == Err(ApiError(UnparsableResponse)) <==> x.Reply? && IsSuccess(x.status) && x.parsed.None?
    ensures x.Reply? && !IsSuccess(x.status) ==> r == Err(ApiError(StatusFailure(x.status, ErrorText(x))))
  {
    match x
    case TransportFailure => Err(HttpError)
    case Reply(status, _, parsed) =>
      if !IsSuccess(status) then Err(ApiError(StatusFailure(status, ErrorText(x))))
      else if parsed.None? then Err(ApiError(UnparsableResponse))
      else Ok(parsed.value)
  }

  /** The body texts the OIDVP service uses for "no presentation yet". */
  predicate SaysNotReady(text: string) {
    Contains(text, "not ready") || Contains(text, "61010") || Contains(text, "verify result not found")
  }

  /** `poll_verification_result`. */
  function PollVerificationResult(x: Exchange<ResultResponse>): (r: Result<ResultResponse, OidvpError>)
    ensures r == Err(HttpError) <==> x.TransportFailure?
    // "not ready" is a 404, or another failure whose text says so; never a 2xx
    ensures r == Err(NotReady) <==>
      x.Reply? && (x.status == 404 || (!IsSuccess(x.status) && SaysNotReady(ErrorText(x))))
    ensures r.Ok? <==> x.Reply? && IsSuccess(x.status) && x.parsed.Some?
    ensures r.Ok? ==> r.value == x.parsed.value
    ensures r == Err(ApiError(UnparsableResponse)) <==> x.Reply? && IsSuccess(x.status) && x.parsed.None?
    ensures r.Err? && r.error.ApiError? && r.error.reason.StatusFailure? <==>
      x.Reply? && !IsSuccess(x.status) && x.status != 404 && !SaysNotReady(ErrorText(x))
    ensures x.Reply? && !IsSuccess(x.status) && x.status != 404 && !SaysNotReady(ErrorText(x)) ==>
      r == Err(ApiError(StatusFailure(x.status, ErrorText(x))))
  {
    match x
    case TransportFailure => Err(HttpError)
    case Reply(status, _, parsed) =>
      if status == 404 then Err(NotReady)
      else if !IsSuccess(status) then
        if SaysNotReady(ErrorText(x)) then Err(NotReady)
        else Err(ApiError(StatusFailure(status, ErrorText(x))))
      else if parsed.None? then Err(ApiError(UnparsableResponse))
      else Ok(parsed.value)
  }

  lemma UnknownErrorIsNotNotReady()
    ensures !SaysNotReady("Unknown error")
  {
    var u := "Unknown error";
    assert 'y' !in u && '6' !in u && 'v' !in u;
    NotContainsMissingChar(u, "not ready", 8);
    NotContainsMissingChar(u, "61010", 0);
    NotContainsMissingChar(u, "verify result not found", 0);
  }

  /** A 404 is "not ready" whatever its body says, and an unreadable body
      of another failed reply is an API error. */
  lemma NotFoundIsNotReadyWhateverTheBody(x: Exchange<ResultResponse>)
    requires x.Reply? && x.text.None?
    ensures x.status == 404 ==> PollVerificationResult(x) == Err(NotReady)
    ensures x.status != 404 && !IsSuccess(x.status) ==>
      PollVerificationResult(x) == Err(ApiError(StatusFailure(x.status, "Unknown error")))
  {
    UnknownErrorIsNotNotReady();
  }

  // ---------------------------------------------------------------------
  // `extract_member_info`: the presented credentials flattened into one
  // JSON object of strings.

  type Info = map<string, string>

  const CredentialTypeKey: string := "credentialType"

  /** The inner loop: each claim's value stored under its ename. */
  function InsertClaims(m: Info, claims: seq<ClaimData>): Info
    decreases |claims|
  {
    if |claims| == 0 then m
    else InsertClaims(m[claims[0].ename := claims[0].value], claims[1..])
  }

  /** The outer loop: per credential, its type, then its claims. */
  function InsertCredentials(m: Info, credentials: seq<CredentialData>): Info
    decreases |credentials|
  {
    if |credentials| == 0 then m
    else
      var c := credentials[0];
      InsertCredentials(InsertClaims(m[CredentialTypeKey := c.credentialType], c.claims), credentials[1..])
  }

  /** `extract_member_info`. */
  function ExtractMemberInfo(credentials: seq<CredentialData>): (r: Option<Info>)
    ensures r.None? <==> |credentials| == 0
    ensures r.Some? ==> CredentialTypeKey in r.value
  {
    if |credentials| == 0 then None
    else
      var c := credentials[0];
      KeyKeptByInsertions(map[CredentialTypeKey := c.credentialType], credentials, CredentialTypeKey);
      Some(InsertCredentials(map[], credentials))
  }

  /** Inserting never removes a key. */
  lemma {:induction false} KeyKeptByInsertions(m: Info, credentials: seq<CredentialData>, k: string)
    requires |credentials| > 0 || k in m
    ensures |credentials| > 0 ==> k == CredentialTypeKey ==> k in InsertCredentials(map[], credentials)
    ensures k in m ==> k in InsertCredentials(m, credentials)
    decreases |credentials|
  {
    if |credentials| > 0 {
      var c := credentials[0];
      var m' := InsertClaims(m[CredentialTypeKey := c.credentialType], c.claims);
      ClaimsAsWrites(m[CredentialTypeKey := c.credentialType], c.claims);
      WritesLookup(m[CredentialTypeKey := c.credentialType], ClaimWrites(c.claims), k);
      if k in m {
        KeyKeptByInsertions(m', credentials[1..], k);
      }
      if k == CredentialTypeKey {
        var m0: Info := map[];
        ClaimsAsWrites(m0[CredentialTypeKey := c.credentialType], c.claims);
        WritesLookup(m0[CredentialTypeKey := c.credentialType], ClaimWrites(c.claims), k);
        KeyKeptByInsertions(InsertClaims(m0[CredentialTypeKey := c.credentialType], c.claims), credentials[1..], k);
      }
    }
  }

  // The reference reading: the credentials stand for a list of key/value
  // writes, and each key ends up holding the value of its latest write.

  type Write = (string, string)

  function ClaimWrites(claims: seq<ClaimData>): seq<Write> {
    seq(|claims|, i requires 0 <= i < |claims| => (claims[i].ename, claims[i].value))
  }

  /** Every write the loops perform, in order. `cname` is never written. */
  function Writes(credentials: seq<CredentialData>): seq<Write>
    decreases |credentials|
  {
    if |credentials| == 0 then []
    else [(CredentialTypeKey, credentials[0].credentialType)] + ClaimWrites(credentials[0].claims) + Writes(credentials[1..])
  }

  /** The value of the latest write to `k`, if any. */
  function LastValue(ws: seq<Write>, k: string): (r: Option<string>)
    ensures r.Some? ==> exists i :: 0 <= i < |ws| && ws[i] == (k, r.value) && forall j :: i < j < |ws| ==> ws[j].0 != k
    ensures r.None? ==> forall i :: 0 <= i < |ws| ==> ws[i].0 != k
  {
    if |ws| == 0 then None
    else
      var later := LastValue(ws[1..], k);
      if later.Some? then
        var i :| 1 <= i + 1 < |ws| && ws[1..][i] == (k, later.value) && forall j :: i < j < |ws[1..]| ==> ws[1..][j].0 != k;
        assert ws[i + 1] == (k, later.value);
        later
      else if ws[0].0 == k then Some(ws[0].1)
      else None
  }

  /** Performing the writes one by one on a map. */
  function Apply(m: Info, ws: seq<Write>): Info
    decreases |ws|
  {
    if |ws| == 0 then m else Apply(m[ws[0].0 := ws[0].1], ws[1..])
  }

  lemma {:induction false} ApplyConcat(m: Info, a: seq<Write>, b: seq<Write>)
    ensures Apply(m, a + b) == Apply(Apply(m, a), b)
    decreases |a|
  {
    if |a| == 0 {
      assert a + b == b;
    } else {
      assert (a + b)[1..] == a[1..] + b;
      ApplyConcat(m[a[0].0 := a[0].1], a[1..], b);
    }
  }

  /** After the writes, a key holds its latest written value, or what it held before. */
  lemma {:induction false} WritesLookup(m: Info, ws: seq<Write>, k: string)
    ensures k in Apply(m, ws) <==> (k in m || LastValue(ws, k).Some?)
    ensures LastValue(ws, k).Some? ==> Apply(m, ws)[k] == LastValue(ws, k).value
    ensures LastValue(ws, k).None? && k in m ==> Apply(m, ws)[k] == m[k]
    decreases |ws|
  {
    if |ws| > 0 {
      WritesLookup(m[ws[0].0 := ws[0].1], ws[1..], k);
    }
  }

  lemma {:induction false} ClaimsAsWrites(m: Info, claims: seq<ClaimData>)
    ensures InsertClaims(m, claims) == Apply(m, ClaimWrites(claims))
    decreases |claims|
  {
    if |claims| > 0 {
      assert ClaimWrites(claims)[1..] == ClaimWrites(claims[1..]);
      ClaimsAsWrites(m[claims[0].ename := claims[0].value], claims[1..]);
    }
  }

  lemma {:induction false} CredentialsAsWrites(m: Info, credentials: seq<CredentialData>)
    ensures InsertCredentials(m, credentials) == Apply(m, Writes(credentials))
    decreases |credentials|
  {
    if |credentials| > 0 {
      var c := credentials[0];
      var head: seq<Write> := [(CredentialTypeKey, c.credentialType)];
      ClaimsAsWrites(m[CredentialTypeKey := c.credentialType], c.claims);
      assert Apply(m, head) == m[CredentialTypeKey := c.credentialType];
      ApplyConcat(m, head, ClaimWrites(c.claims));
      ApplyConcat(m, head + ClaimWrites(c.claims), Writes(credentials[1..]));
      CredentialsAsWrites(InsertClaims(m[CredentialTypeKey := c.credentialType], c.claims), credentials[1..]);
    }
  }

  /** The object holds exactly the written keys, each with the value of its
      latest write: a later claim overrides an earlier one, and a claim
      named `credentialType` overrides the credential's own type. */
  lemma MemberInfoIsLatestWrite(credentials: seq<CredentialData>, k: string)
    requires |credentials| > 0
    ensures var info := ExtractMemberInfo(credentials).value;
      && (k in info <==> LastValue(Writes(credentials), k).Some?)
      && (k in info ==> info[k] == LastValue(Writes(credentials), k).value)
  {
    CredentialsAsWrites(map[], credentials);
    WritesLookup(map[], Writes(credentials), k);
  }

  /** Every key is the `credentialType` key or some claim's ename; `cname` plays no part. */
  lemma {:induction false} WrittenKeys(credentials: seq<CredentialData>, i: nat)
    requires i < |Writes(credentials)|
    ensures var k := Writes(credentials)[i].0;
      k == CredentialTypeKey || exists c, j :: 0 <= c < |credentials| && 0 <= j < |credentials[c].claims| && credentials[c].claims[j].ename == k
    decreases |credentials|
  {
    var c0 := credentials[0];
    var n := 1 + |c0.claims|;
    if i == 0 {
    } else if i < n {
      assert Writes(credentials)[i] == ClaimWrites(c0.claims)[i - 1];
      assert credentials[0].claims[i - 1].ename == Writes(credentials)[i].0;
    } else {
      assert Writes(credentials)[i] == Writes(credentials[1..])[i - n];
      WrittenKeys(credentials[1..], i - n);
      var k := Writes(credentials)[i].0;
      if k != CredentialTypeKey {
        var c, j :| 0 <= c < |credentials[1..]| && 0 <= j < |credentials[1..][c].claims| && credentials[1..][c].claims[j].ename == k;
        assert credentials[c + 1].claims[j].ename == k;
      }
    }
  }

  /** The example in the verifier service's unit tests: one membership credential with a
      name and a level. */
  lemma MemberInfoExample()
    ensures var credentials := [CredentialData("MembershipCard", [
        ClaimData("name", "\U{59D3}\U{540D}", "Test User"),
        ClaimData("memberLevel", "\U{6703}\U{54E1}\U{7B49}\U{7D1A}", "Premium")])];
      var info := ExtractMemberInfo(credentials).value;
      && "name" in info && info["name"] == "Test User"
      && "memberLevel" in info && info["memberLevel"] == "Premium"
      && CredentialTypeKey in info && info[CredentialTypeKey] == "MembershipCard"
  {
    var credentials := [CredentialData("MembershipCard", [
        ClaimData("name", "\U{59D3}\U{540D}", "Test User"),
        ClaimData("memberLevel", "\U{6703}\U{54E1}\U{7B49}\U{7D1A}", "Premium")])];
    var c := credentials[0];
    var m0: Info := map[];
    var m1 := m0[CredentialTypeKey := "MembershipCard"];
    var m2 := m1["name" := "Test User"];
    var m3 := m2["memberLevel" := "Premium"];
    assert InsertClaims(m1, c.claims) == m3;
    assert InsertCredentials(m0, credentials) == m3;
  }
}
