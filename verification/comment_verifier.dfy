/** Proof of membership by comment (src/services/comment_verifier.rs):
    reading a comment reference the member pastes, and checking the comment
    the YouTube Data API returns for it.

    Unicode `char::is_alphanumeric` is the parameter `alnum`; `url::Url::parse`
    followed by `query_pairs` is the parameter `queryPairs` (None when the
    input is not an absolute URL); RFC 3339 parsing of the publication time
    happens before the model sees the comment. */
module CommentVerifier {
  import opened Base

  /** Which parse failed. */
  datatype ParseStage = ResponseBody | PublishedAt

  datatype CommentVerificationError =
    | HttpError
    | CommentNotFound
    | CommentOwnershipMismatch
    | WrongVideo
    | CommentTooOld
    | ApiError(body: string)
    | ParseError(stage: ParseStage)

  /** One item of the comments list; `publishedAt` is None when the
      timestamp is not valid RFC 3339. */
  datatype CommentItem = CommentItem(
    id: string,
    authorChannelId: string,
    authorDisplayName: string,
    videoId: string,
    textDisplay: string,
    publishedAt: Option<Time>)

  datatype CommentVerificationResult = CommentVerificationResult(
    commentId: string,
    authorChannelId: string,
    authorDisplayName: string,
    videoId: string,
    publishedAt: Time,
    text: string)

  /** The comments request's outcome: no reply, or a status with its body
      text and the body parsed as `{items: [...]}` (None when it does not parse). */
  datatype CommentsReply =
    | TransportFailure
    | Reply(status: int, text: string, items: Option<seq<CommentItem>>)

  /** `verify_comment` once the comment has been requested: the checks in
      their order, on the first item of the reply. */
  function VerifyComment(reply: CommentsReply, expectedVideoId: string, expectedAuthorChannelId: string,
                         sessionStartedAt: Time): (r: Result<CommentVerificationResult, CommentVerificationError>)
    ensures reply.TransportFailure? ==> r == Err(HttpError)
    ensures reply.Reply? && !IsSuccess(reply.status) ==> r == Err(ApiError(reply.text))
    ensures reply.Reply? && IsSuccess(reply.status) && reply.items.None? ==> r == Err(ParseError(ResponseBody))
    ensures reply.Reply? && IsSuccess(reply.status) && reply.items == Some([]) ==> r == Err(CommentNotFound)
    // ownership is judged before the video, and both before the timestamp is read
    ensures r == Err(CommentOwnershipMismatch) <==>
      reply.Reply? && IsSuccess(reply.status) && reply.items.Some? && |reply.items.value| > 0
      && reply.items.value[0].authorChannelId != expectedAuthorChannelId
    ensures r == Err(WrongVideo) <==>
      reply.Reply? && IsSuccess(reply.status) && reply.items.Some? && |reply.items.value| > 0
      && reply.items.value[0].authorChannelId == expectedAuthorChannelId
      && reply.items.value[0].videoId != expectedVideoId
    // a comment from before the session is too old; one from the same instant is accepted
    ensures r == Err(CommentTooOld) <==>
      reply.Reply? && IsSuccess(reply.status) && reply.items.Some? && |reply.items.value| > 0
      && var c := reply.items.value[0];
         && c.authorChannelId == expectedAuthorChannelId && c.videoId == expectedVideoId
         && c.publishedAt.Some? && c.publishedAt.value < sessionStartedAt
    // the timestamp is read only for the expected author's comment on the expected video
    ensures r == Err(ParseError(PublishedAt)) <==>
      reply.Reply? && IsSuccess(reply.status) && reply.items.Some? && |reply.items.value| > 0
      && var c := reply.items.value[0];
         && c.authorChannelId == expectedAuthorChannelId && c.videoId == expectedVideoId
         && c.publishedAt.None?
    ensures r.Ok? <==>
      && reply.Reply? && IsSuccess(reply.status) && reply.items.Some? && |reply.items.value| > 0
      && var c := reply.items.value[0];
         && c.authorChannelId == expectedAuthorChannelId && c.videoId == expectedVideoId
         && c.publishedAt.Some? && c.publishedAt.value >= sessionStartedAt
    // the result echoes the first comment
    ensures r.Ok? ==>
      var c := reply.items.value[0];
      r.value == CommentVerificationResult(c.id, c.authorChannelId, c.authorDisplayName, c.videoId,
                                           c.publishedAt.value, c.textDisplay)
  {
    match reply
    case TransportFailure => Err(HttpError)
    case Reply(status, text, items) =>
      if !IsSuccess(status) then Err(ApiError(text))
      else if items.None? then Err(ParseError(ResponseBody))
      else if |items.value| == 0 then Err(CommentNotFound)
      else
        var c := items.value[0];
        if c.authorChannelId != expectedAuthorChannelId then Err(CommentOwnershipMismatch)
        else if c.videoId != expectedVideoId then Err(WrongVideo)
        else if c.publishedAt.None? then Err(ParseError(PublishedAt))
        else if c.publishedAt.value < sessionStartedAt then Err(CommentTooOld)
        else Ok(CommentVerificationResult(c.id, c.authorChannelId, c.authorDisplayName, c.videoId,
                                          c.publishedAt.value, c.textDisplay))
  }

  /** Only the session start moves the time boundary: a comment accepted
      for one session is accepted, with the same result, for any session
      that started no later, and refused as too old for one that started
      after the comment was published. */
  lemma SessionStartIsTheOnlyTimeBoundary(reply: CommentsReply, expectedVideoId: string,
                                          expectedAuthorChannelId: string, t: Time, t2: Time)
    requires VerifyComment(reply, expectedVideoId, expectedAuthorChannelId, t).Ok?
    ensures t2 <= t ==>
      VerifyComment(reply, expectedVideoId, expectedAuthorChannelId, t2)
        == VerifyComment(reply, expectedVideoId, expectedAuthorChannelId, t)
    ensures t2 > VerifyComment(reply, expectedVideoId, expectedAuthorChannelId, t).value.publishedAt ==>
      VerifyComment(reply, expectedVideoId, expectedAuthorChannelId, t2) == Err(CommentTooOld)
  {
  }

  /** A character allowed in a bare comment id. */
  predicate IdChar(c: char, alnum: char -> bool) {
    alnum(c) || c == '-' || c == '_'
  }

  predicate IsBareId(input: string, alnum: char -> bool) {
    forall i :: 0 <= i < |input| ==> IdChar(input[i], alnum)
  }

  /** The value of the first pair whose key is `key`. */
  function FirstValue(pairs: seq<(string, string)>, key: string): (r: Option<string>)
    ensures r.Some? <==> exists i :: 0 <= i < |pairs| && pairs[i].0 == key
    ensures r.Some? ==> (key, r.value) in pairs
  {
    if |pairs| == 0 then None
    else if pairs[0].0 == key then Some(pairs[0].1)
    else FirstValue(pairs[1..], key)
  }

  /** It is the first such pair that counts: later repetitions of the key are ignored. */
  lemma {:induction false} FirstValueIsFirst(pairs: seq<(string, string)>, key: string, i: nat)
    requires i < |pairs| && pairs[i].0 == key
    requires forall j :: 0 <= j < i ==> pairs[j].0 != key
    ensures FirstValue(pairs, key) == Some(pairs[i].1)
  {
    if i > 0 {
      FirstValueIsFirst(pairs[1..], key, i - 1);
    }
  }

  /** `extract_comment_id`. */
  function ExtractCommentId(input: string, alnum: char -> bool, queryPairs: string -> Option<seq<(string, string)>>)
    : (r: Option<string>)
    ensures IsBareId(input, alnum) ==> r == Some(input)
    ensures !IsBareId(input, alnum) ==>
      r == (if queryPairs(input).Some? then FirstValue(queryPairs(input).value, "lc") else None)
    ensures !IsBareId(input, alnum) && queryPairs(input).None? ==> r.None?
  {
    if IsBareId(input, alnum) then Some(input)
    else if queryPairs(input).Some? then FirstValue(queryPairs(input).value, "lc")
    else None
  }

  /** `alnum` agrees with `char::is_alphanumeric` on ASCII. */
  predicate AsciiAlnum(alnum: char -> bool) {
    forall c: char :: c < '\U{0080}' ==>
      (alnum(c) <==> ('a' <= c <= 'z' || 'A' <= c <= 'Z' || '0' <= c <= '9'))
  }

  /** The reference forms the system accepts, on the examples its tests use. */
  lemma ExtractCommentIdExamples(alnum: char -> bool, queryPairs: string -> Option<seq<(string, string)>>)
    requires AsciiAlnum(alnum)
    requires queryPairs("https://www.youtube.com" + "/watch?v=dQw4w9WgXcQ&lc=UgxABC123")
             == Some([("v", "dQw4w9WgXcQ"), ("lc", "UgxABC123")])
    requires queryPairs("not a valid url or id!!!").None?
    ensures ExtractCommentId("https://www.youtube.com" + "/watch?v=dQw4w9WgXcQ&lc=UgxABC123", alnum, queryPairs)
            == Some("UgxABC123")
    ensures ExtractCommentId("UgxDirect123", alnum, queryPairs) == Some("UgxDirect123")
    ensures ExtractCommentId("not a valid url or id!!!", alnum, queryPairs).None?
    ensures ExtractCommentId("", alnum, queryPairs) == Some("")
  {
    var url := "https://www.youtube.com" + "/watch?v=dQw4w9WgXcQ&lc=UgxABC123";
    assert url[5] == ':' && !IdChar(url[5], alnum);
    var bad := "not a valid url or id!!!";
    assert bad[3] == ' ' && !IdChar(bad[3], alnum);
    var direct := "UgxDirect123";
    assert forall i :: 0 <= i < |direct| ==> 'a' <= direct[i] <= 'z' || 'A' <= direct[i] <= 'Z' || '0' <= direct[i] <= '9';
  }
}
