/** Members, one per YouTube account (src/models/member.rs). The table is
    keyed by member id; `youtube_user_id` is unique among its rows. */
module Member {
  import opened Base

  datatype Member = Member(
    id: Uuid,
    youtubeUserId: string,
    defaultDisplayName: string,
    avatarUrl: Option<string>,
    locale: Option<string>)

  type Members = map<Uuid, Member>

  datatype CreateMemberData = CreateMemberData(
    youtubeUserId: string,
    defaultDisplayName: string,
    avatarUrl: Option<string>,
    locale: Option<string>)

  /** Rows are stored under their own id and no two share a YouTube account. */
  predicate Valid(ms: Members) {
    && (forall id :: id in ms ==> ms[id].id == id)
    && (forall a, b :: a in ms && b in ms && ms[a].youtubeUserId == ms[b].youtubeUserId ==> a == b)
  }

  /** SQL `COALESCE(new, old)`. */
  function Coalesce<T>(given: Option<T>, current: T): T {
    if given.Some? then given.value else current
  }

  /** `update_profile`: each given value overwrites its column, each absent
      one leaves it; an unknown id changes nothing. */
  function UpdateProfile(ms: Members, id: Uuid, displayName: Option<string>, avatarUrl: Option<string>,
                         locale: Option<string>): (r: Members)
    ensures r.Keys == ms.Keys
    ensures forall k :: k in ms && k != id ==> r[k] == ms[k]
    ensures id in ms ==>
      && r[id].id == ms[id].id && r[id].youtubeUserId == ms[id].youtubeUserId
      && (displayName.None? ==> r[id].defaultDisplayName == ms[id].defaultDisplayName)
      && (displayName.Some? ==> r[id].defaultDisplayName == displayName.value)
      && (avatarUrl.None? ==> r[id].avatarUrl == ms[id].avatarUrl)
      && (avatarUrl.Some? ==> r[id].avatarUrl == avatarUrl)
      && (locale.None? ==> r[id].locale == ms[id].locale)
      && (locale.Some? ==> r[id].locale == locale)
  {
    if id !in ms then ms
    else
      var m := ms[id];
      ms[id := m.(defaultDisplayName := Coalesce(displayName, m.defaultDisplayName),
                  avatarUrl := if avatarUrl.Some? then avatarUrl else m.avatarUrl,
                  locale := if locale.Some? then locale else m.locale)]
  }

  /** An update with nothing to set leaves the profile as it was. */
  lemma EmptyUpdateIsIdentity(ms: Members, id: Uuid)
    ensures UpdateProfile(ms, id, None, None, None) == ms
  {
  }

  /** `find_by_youtube_user_id`. */
  function FindByYoutubeUserId(ms: Members, youtubeUserId: string): (r: Option<Member>)
    requires Valid(ms)
    ensures r.Some? ==> r.value.id in ms && ms[r.value.id] == r.value && r.value.youtubeUserId == youtubeUserId
    ensures r.None? <==> forall id :: id in ms ==> ms[id].youtubeUserId != youtubeUserId
  {
    if exists id :: id in ms && ms[id].youtubeUserId == youtubeUserId then
      var id :| id in ms && ms[id].youtubeUserId == youtubeUserId;
      Some(ms[id])
    else None
  }

  /** `find_or_create`: the account's existing member, refreshed with the
      given display name and with the avatar and locale when given; or a
      new member built from the data. */
  function FindOrCreate(ms: Members, data: CreateMemberData, freshId: Uuid): (r: (Member, Members))
    requires Valid(ms) && freshId !in ms
    ensures Valid(r.1)
    ensures r.0.id in r.1 && r.1[r.0.id] == r.0 && r.0.youtubeUserId == data.youtubeUserId
    // the display name always follows the account; avatar and locale only when given
    ensures r.0.defaultDisplayName == data.defaultDisplayName
    ensures data.avatarUrl.Some? ==> r.0.avatarUrl == data.avatarUrl
    ensures data.locale.Some? ==> r.0.locale == data.locale
    // a known account keeps its member id and gains no row
    ensures (exists id :: id in ms && ms[id].youtubeUserId == data.youtubeUserId) ==>
      && r.0.id in ms && ms[r.0.id].youtubeUserId == data.youtubeUserId
      && r.1.Keys == ms.Keys
      && (data.avatarUrl.None? ==> r.0.avatarUrl == ms[r.0.id].avatarUrl)
      && (data.locale.None? ==> r.0.locale == ms[r.0.id].locale)
    // an unknown account gets exactly one new row, built from the data
    ensures (forall id :: id in ms ==> ms[id].youtubeUserId != data.youtubeUserId) ==>
      && r.0 == Member(freshId, data.youtubeUserId, data.defaultDisplayName, data.avatarUrl, data.locale)
      && r.1 == ms[freshId := r.0]
    ensures forall k :: k in ms && k != r.0.id ==> r.1[k] == ms[k]
  {
    match FindByYoutubeUserId(ms, data.youtubeUserId)
    case Some(existing) =>
      var after := UpdateProfile(ms, existing.id, Some(data.defaultDisplayName), data.avatarUrl, data.locale);
      (after[existing.id], after)
    case None =>
      var m := Member(freshId, data.youtubeUserId, data.defaultDisplayName, data.avatarUrl, data.locale);
      (m, ms[freshId := m])
  }

  /** Asking twice for the same account yields the same member. */
  lemma FindOrCreateIsStable(ms: Members, data: CreateMemberData, freshId: Uuid, freshId2: Uuid)
    requires Valid(ms) && freshId !in ms
    requires freshId2 !in FindOrCreate(ms, data, freshId).1
    ensures var (m1, ms1) := FindOrCreate(ms, data, freshId);
      var (m2, ms2) := FindOrCreate(ms1, data, freshId2);
      m2 == m1 && ms2 == ms1
  {
    var (m1, ms1) := FindOrCreate(ms, data, freshId);
    var (m2, ms2) := FindOrCreate(ms1, data, freshId2);
    assert m1.id in ms1 && ms1[m1.id].youtubeUserId == data.youtubeUserId;
    assert m2.id == m1.id;
  }
}
