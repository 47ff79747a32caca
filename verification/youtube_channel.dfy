/** Channel handles (src/services/youtube_channel.rs): reading an `@handle`
    out of what an operator types as the channel of a new issuer. */
module YoutubeChannel {
  import opened Base
  import opened Strings

  const HandleMarker: string := "youtube.com/@"
  const HandleEnds: set<char> := {'/', '?', '#'}

  /** `extract_channel_handle`. */
  function ExtractChannelHandle(url: string): (r: Option<string>)
    // a bare handle is taken as it is, once trimmed
    ensures |Trim(url)| > 0 && Trim(url)[0] == '@' ==> r == Some(Trim(url))
    // otherwise the handle in a channel URL runs from '@' to the first '/', '?', '#' or the end
    ensures !(|Trim(url)| > 0 && Trim(url)[0] == '@') ==> (r.Some? <==> Contains(Trim(url), HandleMarker))
    ensures r.Some? && !(|Trim(url)| > 0 && Trim(url)[0] == '@') ==>
      && |r.value| > 0 && r.value[0] == '@'
      && (forall i :: 0 <= i < |r.value| ==> r.value[i] !in HandleEnds)
      && var at := Find(Trim(url), HandleMarker).value + |HandleMarker| - 1;
         && r.value <= Trim(url)[at..]
         && (|r.value| == |Trim(url)| - at || Trim(url)[at + |r.value|] in HandleEnds)
  {
    var t := Trim(url);
    if |t| > 0 && t[0] == '@' then Some(t)
    else match Find(t, HandleMarker)
      case None => None
      case Some(idx) => Some(HandleAfter(t, idx))
  }

  /** The handle of a channel URL whose marker starts at `idx`: from the
      marker's '@' up to the first '/', '?', '#' or the end. */
  function HandleAfter(t: string, idx: nat): (h: string)
    requires OccursAt(t, HandleMarker, idx)
    ensures |h| > 0 && h[0] == '@'
    ensures forall i :: 0 <= i < |h| ==> h[i] !in HandleEnds
    ensures var at := idx + |HandleMarker| - 1;
      h <= t[at..] && (|h| == |t| - at || t[at + |h|] in HandleEnds)
  {
    var at := idx + |HandleMarker| - 1;
    assert t[idx..idx + |HandleMarker|][|HandleMarker| - 1] == '@';
    var afterDomain := t[at..];
    assert afterDomain[0] == '@';
    match FindAny(afterDomain, HandleEnds)
    case Some(handleEnd) => afterDomain[..handleEnd]
    case None => afterDomain
  }

  datatype YouTubeChannelError =
    | HttpError
    | InvalidUrl
    | NotFound
    | ApiError(status: int, body: string)   // "HTTP {status}: {body}"

  /** One channel of the Data API's `channels` listing. */
  datatype ChannelItem = ChannelItem(id: string, title: string)

  /** The Data API's reply: a transport failure, or a status, the body text
      and the listed channels (None when the body does not parse). */
  datatype ChannelsReply =
    | TransportFailure
    | Reply(status: int, body: string, items: Option<seq<ChannelItem>>)

  datatype ChannelInfo = ChannelInfo(channelId: string, channelName: string, channelHandle: Option<string>)

  /** The outcome and the handle looked up (without its '@'), if the API was asked. */
  datatype Fetch = Fetch(outcome: Result<ChannelInfo, YouTubeChannelError>, lookedUp: Option<string>)

  /** No reply arrived, or a successful reply whose body does not parse:
      both are `reqwest` errors. */
  predicate NoListing(reply: ChannelsReply) {
    reply.TransportFailure? || (IsSuccess(reply.status) && reply.items.None?)
  }

  /** `fetch_channel_info`. */
  function FetchChannelInfo(handleOrUrl: string, reply: ChannelsReply): (r: Fetch)
    // text that names no handle is rejected without asking the API
    ensures ExtractChannelHandle(handleOrUrl).None? <==> r == Fetch(Err(InvalidUrl), None)
    // a named handle is always looked up, without its leading '@'s
    ensures ExtractChannelHandle(handleOrUrl).Some? ==>
      r.lookedUp == Some(TrimStartMatches(ExtractChannelHandle(handleOrUrl).value, '@'))
    ensures r.lookedUp.Some? ==>
      && ExtractChannelHandle(handleOrUrl).Some?
      && var handle := ExtractChannelHandle(handleOrUrl).value;
      // the handle with its leading '@'s dropped
      && |r.lookedUp.value| < |handle| && r.lookedUp.value == handle[|handle| - |r.lookedUp.value|..]
      && (forall i :: 0 <= i < |handle| - |r.lookedUp.value| ==> handle[i] == '@')
      && (|r.lookedUp.value| == 0 || r.lookedUp.value[0] != '@')
    // once a handle is named, the reply decides: the first listed channel,
    // an API error carrying status and body, a transport or body failure, or none found
    ensures ExtractChannelHandle(handleOrUrl).Some? ==>
      (r.outcome.Ok? <==> reply.Reply? && IsSuccess(reply.status) && reply.items.Some? && |reply.items.value| > 0)
    ensures ExtractChannelHandle(handleOrUrl).Some? && reply.Reply? && !IsSuccess(reply.status) ==>
      r.outcome == Err(ApiError(reply.status, reply.body))
    ensures ExtractChannelHandle(handleOrUrl).Some? && NoListing(reply) ==> r.outcome == Err(HttpError)
    ensures r.lookedUp.Some? && reply.Reply? && IsSuccess(reply.status) && reply.items == Some([]) ==>
      r.outcome == Err(NotFound)
    // the first channel listed, under the handle the operator typed
    ensures r.outcome.Ok? ==>
      && reply.Reply? && IsSuccess(reply.status) && reply.items.Some? && |reply.items.value| > 0
      && r.outcome.value.channelId == reply.items.value[0].id
      && r.outcome.value.channelName == reply.items.value[0].title
      && r.outcome.value.channelHandle == ExtractChannelHandle(handleOrUrl)
  {
    match ExtractChannelHandle(handleOrUrl)
    case None => Fetch(Err(InvalidUrl), None)
    case Some(handle) => AskForHandle(handle, reply)
  }

  /** The lookup of one handle (with its '@') and what the API's reply makes of it. */
  function AskForHandle(handle: string, reply: ChannelsReply): (r: Fetch)
    requires |handle| > 0 && handle[0] == '@'
    ensures r.lookedUp == Some(TrimStartMatches(handle, '@'))
    ensures |r.lookedUp.value| < |handle|
    ensures reply.Reply? && IsSuccess(reply.status) && reply.items == Some([]) ==> r.outcome == Err(NotFound)
    ensures r.outcome.Ok? <==> reply.Reply? && IsSuccess(reply.status) && reply.items.Some? && |reply.items.value| > 0
    ensures reply.Reply? && !IsSuccess(reply.status) ==> r.outcome == Err(ApiError(reply.status, reply.body))
    ensures NoListing(reply) ==> r.outcome == Err(HttpError)
    ensures r.outcome.Ok? ==>
      && reply.Reply? && IsSuccess(reply.status) && reply.items.Some? && |reply.items.value| > 0
      && r.outcome.value == ChannelInfo(reply.items.value[0].id, reply.items.value[0].title, Some(handle))
  {
    var lookedUp := Some(TrimStartMatches(handle, '@'));
    match reply
    case TransportFailure => Fetch(Err(HttpError), lookedUp)
    case Reply(status, body, items) =>
      if !IsSuccess(status) then Fetch(Err(ApiError(status, body)), lookedUp)
      else if items.None? then Fetch(Err(HttpError), lookedUp)
      else if |items.value| == 0 then Fetch(Err(NotFound), lookedUp)
      else Fetch(Ok(ChannelInfo(items.value[0].id, items.value[0].title, Some(handle))), lookedUp)
  }

  /** A marker found at `k` with no earlier 'y' is the first occurrence. */
  lemma FindFirstMarker(s: string, k: nat)
    requires OccursAt(s, HandleMarker, k)
    requires forall j :: 0 <= j < k ==> s[j] != 'y'
    ensures Find(s, HandleMarker) == Some(k)
  {
    forall j | 0 <= j < k
      ensures !OccursAt(s, HandleMarker, j)
    {
      if j + |HandleMarker| <= |s| {
        assert s[j..j + |HandleMarker|][0] == s[j];
      }
    }
  }

  /** Trimmed text that neither starts with '@' nor contains the channel
      URL marker holds no handle. */
  lemma NoMarkerNoHandle(s: string)
    requires |s| > 0 && !IsWhitespace(s[0]) && !IsWhitespace(s[|s| - 1]) && s[0] != '@'
    requires forall j :: 0 <= j <= |s| ==> !OccursAt(s, HandleMarker, j)
    ensures ExtractChannelHandle(s) == None
  {
    TrimOfTrimmed(s);
    assert Find(s, HandleMarker).None?;
  }

  /** Text without a 'y' cannot contain the marker, which starts with one. */
  lemma NoYNoMarker(s: string)
    requires forall j :: 0 <= j < |s| ==> s[j] != 'y'
    ensures forall j :: 0 <= j <= |s| ==> !OccursAt(s, HandleMarker, j)
  {
    forall j | 0 <= j <= |s|
      ensures !OccursAt(s, HandleMarker, j)
    {
      if j + |HandleMarker| <= |s| {
        assert s[j..j + |HandleMarker|][0] == s[j];
      }
    }
  }

  /** A channel URL: whatever precedes the domain (a scheme, `www.`), then
      `youtube.com/`, the handle, and an optional path, query or fragment.
      The handle is read back exactly. */
  lemma {:induction false} HandleOfChannelUrl(scheme: string, handle: string, tail: string)
    requires |scheme| > 0 && !IsWhitespace(scheme[0]) && scheme[0] != '@'
    requires forall j :: 0 <= j < |scheme| ==> scheme[j] != 'y'
    requires |handle| > 0 && handle[0] == '@'
    requires forall j :: 0 <= j < |handle| ==> handle[j] !in HandleEnds
    requires |tail| == 0 || tail[0] in HandleEnds
    requires !IsWhitespace((handle + tail)[|handle + tail| - 1])
    ensures ExtractChannelHandle(scheme + "youtube.com/" + handle + tail) == Some(handle)
  {
    var s := scheme + "youtube.com/" + handle + tail;
    var k := |scheme|;
    assert s[|s| - 1] == (handle + tail)[|handle + tail| - 1];
    TrimOfTrimmed(s);
    assert s[k..k + 12] == "youtube.com/";
    assert s[k + 12] == '@';
    assert s[k..k + 13] == HandleMarker;
    FindFirstMarker(s, k);
    assert s[k + 12..] == handle + tail;
    HandleAfterReadsHandle(s, k, handle, tail);
  }

  /** Past the marker, a handle followed by nothing or by a delimiter is
      read back exactly. */
  lemma HandleAfterReadsHandle(t: string, idx: nat, handle: string, tail: string)
    requires OccursAt(t, HandleMarker, idx)
    requires t[idx + |HandleMarker| - 1..] == handle + tail
    requires forall j :: 0 <= j < |handle| ==> handle[j] !in HandleEnds
    requires |tail| == 0 || tail[0] in HandleEnds
    ensures HandleAfter(t, idx) == handle
  {
    var h := HandleAfter(t, idx);
    var rest := t[idx + |HandleMarker| - 1..];
    assert h <= rest;
    assert forall i :: 0 <= i < |handle| ==> rest[i] == handle[i];
    assert |tail| > 0 ==> rest[|handle|] == tail[0];
    assert h == rest[..|h|] == handle;
  }

  /** A bare handle is kept as typed, once trimmed. */
  lemma BareHandleExample()
    ensures ExtractChannelHandle("@Dokibird") == Some("@Dokibird")
  {
    TrimOfTrimmed("@Dokibird");
  }

  /** The URL forms the system's tests use. */
  lemma ChannelUrlExamples()
    ensures ExtractChannelHandle("https://www." + "youtube.com/" + "@Dokibird" + "") == Some("@Dokibird")
    ensures ExtractChannelHandle("https://" + "youtube.com/" + "@Dokibird" + "") == Some("@Dokibird")
    ensures ExtractChannelHandle("https://www." + "youtube.com/" + "@Dokibird" + "/videos") == Some("@Dokibird")
    ensures ExtractChannelHandle("https://www." + "youtube.com/" + "@Dokibird" + "?feature=shared") == Some("@Dokibird")
  {
    HandleOfChannelUrl("https://www.", "@Dokibird", "");
    HandleOfChannelUrl("https://", "@Dokibird", "");
    HandleOfChannelUrl("https://www.", "@Dokibird", "/videos");
    HandleOfChannelUrl("https://www.", "@Dokibird", "?feature=shared");
  }

  /** Text that is neither a handle nor a channel URL yields nothing. */
  lemma InvalidInputExample()
    ensures ExtractChannelHandle("not a valid url") == None
  {
    NoYNoMarker("not a valid url");
    NoMarkerNoHandle("not a valid url");
  }
}
