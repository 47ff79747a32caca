/** The operator's issuer handlers (src/api/issuers.rs): creating an issuer
    from a form, updating one, switching it on and off, and filling in
    channel details from a YouTube URL.

    The issuer repository's write statements are not part of this
    model, so creating and updating an issuer yield the writes the handler
    asks for; switching sets one flag and is applied to the table. */
module IssuersApi {
  import opened Base
  import opened Strings
  import opened CardStore
  import YC = YoutubeChannel

  datatype IssuersError =
    | DatabaseError
    | NotFound
    | ValidationError(message: string)
    | YouTubeApiError(cause: YC.YouTubeChannelError)

  /** `IssuersError::into_response`. */
  function StatusOf(e: IssuersError): (status: int)
    ensures status == StatusInternalServerError <==> e.DatabaseError?
    ensures status == StatusNotFound <==> e.NotFound?
    ensures status == StatusBadRequest <==> e.ValidationError? || e.YouTubeApiError?
  {
    match e
    case DatabaseError => StatusInternalServerError
    case NotFound => StatusNotFound
    case _ => StatusBadRequest
  }

  const ChannelIdRequired: string := "YouTube Channel ID is required"
  const NameRequired: string := "Channel Name is required"
  const VideoRequired: string := "Verification Video ID is required"
  const ApiKeyMissing: string := "YouTube API key not configured"

  datatype CreateIssuerForm = CreateIssuerForm(
    youtubeChannelId: string,
    channelName: string,
    channelHandle: Option<string>,
    verificationVideoId: string,
    defaultMembershipLabel: string)

  datatype CreateIssuerData = CreateIssuerData(
    youtubeChannelId: string,
    channelHandle: Option<string>,
    channelName: string,
    verificationVideoId: string,
    defaultMembershipLabel: string,
    vcUid: Option<string>)

  /** A handle field: absent when not sent or blank, otherwise trimmed. */
  function NormalizeHandle(h: Option<string>): (r: Option<string>)
    ensures r.None? <==> h.None? || AllWhitespace(h.value)
    ensures r.Some? ==> |r.value| > 0 && r.value == Trim(h.value)
  {
    match h
    case None => None
    case Some(v) =>
      BlankIffAllWhitespace(v);
      if IsBlank(v) then None else Some(Trim(v))
  }

  /** `create_issuer`: the three required fields are checked in order, and
      everything stored is trimmed. An issuer starts without a credential
      template. */
  function CreateIssuer(form: CreateIssuerForm): (r: Result<CreateIssuerData, IssuersError>)
    ensures r == Err(ValidationError(ChannelIdRequired)) <==> AllWhitespace(form.youtubeChannelId)
    ensures r == Err(ValidationError(NameRequired)) <==>
      !AllWhitespace(form.youtubeChannelId) && AllWhitespace(form.channelName)
    ensures r == Err(ValidationError(VideoRequired)) <==>
      !AllWhitespace(form.youtubeChannelId) && !AllWhitespace(form.channelName)
      && AllWhitespace(form.verificationVideoId)
    ensures r.Ok? <==>
      !AllWhitespace(form.youtubeChannelId) && !AllWhitespace(form.channelName)
      && !AllWhitespace(form.verificationVideoId)
    ensures r.Ok? ==>
      && r.value.youtubeChannelId == Trim(form.youtubeChannelId)
      && r.value.channelName == Trim(form.channelName)
      && r.value.verificationVideoId == Trim(form.verificationVideoId)
      && r.value.defaultMembershipLabel == Trim(form.defaultMembershipLabel)
      && r.value.channelHandle == NormalizeHandle(form.channelHandle)
      && r.value.vcUid.None?
    // the required fields are stored non-empty
    ensures r.Ok? ==>
      |r.value.youtubeChannelId| > 0 && |r.value.channelName| > 0 && |r.value.verificationVideoId| > 0
  {
    BlankIffAllWhitespace(form.youtubeChannelId);
    BlankIffAllWhitespace(form.channelName);
    BlankIffAllWhitespace(form.verificationVideoId);
    if IsBlank(form.youtubeChannelId) then Err(ValidationError(ChannelIdRequired))
    else if IsBlank(form.channelName) then Err(ValidationError(NameRequired))
    else if IsBlank(form.verificationVideoId) then Err(ValidationError(VideoRequired))
    else
      Ok(CreateIssuerData(Trim(form.youtubeChannelId), NormalizeHandle(form.channelHandle), Trim(form.channelName),
                          Trim(form.verificationVideoId), Trim(form.defaultMembershipLabel), None))
  }

  /** The form that shows stored values back to the operator. */
  function FormOf(d: CreateIssuerData): CreateIssuerForm {
    CreateIssuerForm(d.youtubeChannelId, d.channelName, d.channelHandle, d.verificationVideoId,
                     d.defaultMembershipLabel)
  }

  /** Normalisation is stable: submitting what was stored again is
      accepted and stores the same values. */
  lemma CreateIsStableOnItsOutput(form: CreateIssuerForm)
    requires !AllWhitespace(form.youtubeChannelId) && !AllWhitespace(form.channelName)
    requires !AllWhitespace(form.verificationVideoId)
    ensures CreateIssuer(FormOf(CreateIssuer(form).value)) == CreateIssuer(form)
  {
    var d := CreateIssuer(form).value;
    TrimIdempotent(form.youtubeChannelId);
    TrimIdempotent(form.channelName);
    TrimIdempotent(form.verificationVideoId);
    TrimIdempotent(form.defaultMembershipLabel);
    if d.channelHandle.Some? {
      TrimIdempotent(form.channelHandle.value);
      BlankIffAllWhitespace(d.channelHandle.value);
    }
    BlankIffAllWhitespace(d.youtubeChannelId);
    BlankIffAllWhitespace(d.channelName);
    BlankIffAllWhitespace(d.verificationVideoId);
  }

  // ---------------------------------------------------------------------
  // Updating and switching

  datatype UpdateIssuerForm = UpdateIssuerForm(
    channelName: Option<string>,
    channelHandle: Option<string>,
    verificationVideoId: Option<string>,
    defaultMembershipLabel: Option<string>,
    vcUid: Option<string>)

  /** The writes the handlers ask of the issuer table. */
  datatype IssuerWrite =
    | UpdateChannelInfo(id: Uuid, channelName: Option<string>, channelHandle: Option<string>,
                        defaultMembershipLabel: Option<string>, vcUid: Option<string>)
    | UpdateVerificationVideo(id: Uuid, videoId: string)
    | SetActiveStatus(id: Uuid, isActive: bool)

  /** A submitted field counts only when it is not blank; it is kept as typed. */
  function NonBlank(v: Option<string>): (r: Option<string>)
    ensures r.Some? <==> v.Some? && !AllWhitespace(v.value)
    ensures r.Some? ==> r == v
  {
    match v
    case None => None
    case Some(s) =>
      BlankIffAllWhitespace(s);
      if IsBlank(s) then None else Some(s)
  }

  /** Every value the writes carry has a non-whitespace character. */
  predicate NoBlankValues(ws: seq<IssuerWrite>) {
    forall i :: 0 <= i < |ws| ==>
      match ws[i]
      case UpdateChannelInfo(_, n, h, l, u) =>
        && (n.Some? ==> !AllWhitespace(n.value)) && (h.Some? ==> !AllWhitespace(h.value))
        && (l.Some? ==> !AllWhitespace(l.value)) && (u.Some? ==> !AllWhitespace(u.value))
      case UpdateVerificationVideo(_, v) => !AllWhitespace(v)
      case SetActiveStatus(_, _) => true
  }

  /** `update_issuer`: a missing issuer is NotFound before any write; then
      the channel details are written with blank fields left out, and the
      verification video only when a non-blank one was sent. */
  function UpdateIssuer(issuers: Issuers, id: Uuid, form: UpdateIssuerForm): (r: Result<seq<IssuerWrite>, IssuersError>)
    ensures r == Err(NotFound) <==> id !in issuers
    ensures r.Ok? <==> id in issuers
    ensures r.Ok? ==> NoBlankValues(r.value)
    ensures r.Ok? ==> 1 <= |r.value| <= 2 && r.value[0].UpdateChannelInfo? && r.value[0].id == id
    ensures r.Ok? ==>
      && (r.value[0].channelName.Some? <==> form.channelName.Some? && !AllWhitespace(form.channelName.value))
      && (r.value[0].channelName.Some? ==> r.value[0].channelName == form.channelName)
      && (r.value[0].channelHandle.Some? <==> form.channelHandle.Some? && !AllWhitespace(form.channelHandle.value))
      && (r.value[0].channelHandle.Some? ==> r.value[0].channelHandle == form.channelHandle)
      && (r.value[0].defaultMembershipLabel.Some? <==>
            form.defaultMembershipLabel.Some? && !AllWhitespace(form.defaultMembershipLabel.value))
      && (r.value[0].defaultMembershipLabel.Some? ==> r.value[0].defaultMembershipLabel == form.defaultMembershipLabel)
      && (r.value[0].vcUid.Some? <==> form.vcUid.Some? && !AllWhitespace(form.vcUid.value))
      && (r.value[0].vcUid.Some? ==> r.value[0].vcUid == form.vcUid)
    ensures r.Ok? ==>
      (|r.value| == 2 <==> form.verificationVideoId.Some? && !AllWhitespace(form.verificationVideoId.value))
    ensures r.Ok? && |r.value| == 2 ==> r.value[1] == UpdateVerificationVideo(id, form.verificationVideoId.value)
  {
    if id !in issuers then Err(NotFound)
    else
      var info := UpdateChannelInfo(id, NonBlank(form.channelName), NonBlank(form.channelHandle),
                                    NonBlank(form.defaultMembershipLabel), NonBlank(form.vcUid));
      match NonBlank(form.verificationVideoId)
      case None => Ok([info])
      case Some(v) => Ok([info, UpdateVerificationVideo(id, v)])
  }

  /** An update form with every field blank or missing asks only for a
      channel-details write that changes no column. */
  lemma BlankUpdateChangesNothing(issuers: Issuers, id: Uuid, form: UpdateIssuerForm)
    requires id in issuers
    requires form.channelName.None? || AllWhitespace(form.channelName.value)
    requires form.channelHandle.None? || AllWhitespace(form.channelHandle.value)
    requires form.verificationVideoId.None? || AllWhitespace(form.verificationVideoId.value)
    requires form.defaultMembershipLabel.None? || AllWhitespace(form.defaultMembershipLabel.value)
    requires form.vcUid.None? || AllWhitespace(form.vcUid.value)
    ensures UpdateIssuer(issuers, id, form) == Ok([UpdateChannelInfo(id, None, None, None, None)])
  {
  }

  /** `toggle_issuer_status`: the stored flag becomes its negation, and
      nothing else changes. */
  function ToggleIssuer(issuers: Issuers, id: Uuid): (r: Result<Issuers, IssuersError>)
    ensures r == Err(NotFound) <==> id !in issuers
    ensures r.Ok? ==> r.value.Keys == issuers.Keys
    ensures r.Ok? ==> r.value[id].isActive == !issuers[id].isActive
    ensures r.Ok? ==> r.value[id] == issuers[id].(isActive := r.value[id].isActive)
    ensures r.Ok? ==> forall k :: k in issuers && k != id ==> r.value[k] == issuers[k]
  {
    if id !in issuers then Err(NotFound)
    else Ok(ApplyWrite(issuers, SetActiveStatus(id, !issuers[id].isActive)))
  }

  /** `set_active_status`: the one write this model applies to the table. */
  function ApplyWrite(issuers: Issuers, w: IssuerWrite): Issuers
    requires w.SetActiveStatus?
  {
    if w.id in issuers then issuers[w.id := issuers[w.id].(isActive := w.isActive)] else issuers
  }

  /** Switching an issuer twice restores the table. */
  lemma ToggleTwiceRestores(issuers: Issuers, id: Uuid)
    requires id in issuers
    ensures ToggleIssuer(ToggleIssuer(issuers, id).value, id) == Ok(issuers)
  {
    var once := ToggleIssuer(issuers, id).value;
    var twice := ToggleIssuer(once, id).value;
    assert twice[id] == issuers[id];
    assert forall k :: k in issuers ==> twice[k] == issuers[k];
    assert twice.Keys == issuers.Keys;
    assert twice == issuers;
  }

  // ---------------------------------------------------------------------
  // Autofill

  datatype AutoFillResponse = AutoFillResponse(channelId: string, channelName: string, channelHandle: string)

  /** `autofill_channel`: nothing is fetched without an API key; the
      handle is the one read from the URL, or empty. */
  function AutoFill(apiKey: Option<string>, url: string, reply: YC.ChannelsReply): (r: Result<AutoFillResponse, IssuersError>)
    ensures apiKey.None? ==> r == Err(ValidationError(ApiKeyMissing))
    ensures apiKey.Some? && YC.ExtractChannelHandle(url).None? ==> r == Err(YouTubeApiError(YC.InvalidUrl))
    // with a key, the lookup's error is passed on as it is, and a found channel is answered
    ensures apiKey.Some? ==> (r.Ok? <==> YC.FetchChannelInfo(url, reply).outcome.Ok?)
    ensures apiKey.Some? && YC.FetchChannelInfo(url, reply).outcome.Err? ==>
      r == Err(YouTubeApiError(YC.FetchChannelInfo(url, reply).outcome.error))
    ensures r.Ok? ==>
      && apiKey.Some? && YC.ExtractChannelHandle(url).Some?
      && r.value.channelHandle == YC.ExtractChannelHandle(url).value
      && reply.Reply? && reply.items.Some? && |reply.items.value| > 0
      && r.value.channelId == reply.items.value[0].id
      && r.value.channelName == reply.items.value[0].title
  {
    if apiKey.None? then Err(ValidationError(ApiKeyMissing))
    else match YC.FetchChannelInfo(url, reply).outcome
      case Err(e) => Err(YouTubeApiError(e))
      case Ok(info) => Ok(AutoFillResponse(info.channelId, info.channelName, info.channelHandle.GetOr("")))
  }
}
