/** The add-video flow of app/api/videos/route.ts (`POST`): guards, the
    duplicate check, the provider call and the single insert. */
module VideosRoute {
  import opened Wrappers
  import opened Records

  /** The reply, the store after the request, and the ids the metadata
      provider was asked about (in call order). */
  datatype AddVideoOutcome = AddVideoOutcome(reply: Reply<Video>, store: Store, fetched: seq<string>)

  /** `POST /api/videos`. `user` is the authenticated user (none when signed
      out), `videoId` the request field, `provider` the metadata fetch (which
      answers with details or throws), `insertFails` whether the database
      rejects the insert. */
  function AddVideo(
    s: Store,
    user: Option<UserId>,
    videoId: Option<string>,
    provider: string -> Result<VideoDetails>,
    insertFails: bool): (o: AddVideoOutcome)
    // signed out: 401 before anything else
    ensures user.None? ==>
      o.reply == Failed(401, "Unauthorized") && o.store == s && o.fetched == []
    // missing id: 400 before any store access
    ensures user.Some? && Blank(videoId) ==>
      o.reply == Failed(400, "Video ID is required") && o.store == s && o.fetched == []
    // already in the library: 409, nothing written, provider not called
    ensures user.Some? && !Blank(videoId) && UniqueKeys(s.videos)
            && InLibrary(s.videos, user.value, videoId.value) ==>
      o.reply == Failed(409, "Video already in your library") && o.store == s && o.fetched == []
    // the provider is asked about the requested id only, and only once the
    // guards and the duplicate check have passed
    ensures o.fetched == [] || (user.Some? && !Blank(videoId) && o.fetched == [videoId.value])
    ensures UniqueKeys(s.videos) ==>
      (o.fetched != [] <==>
        user.Some? && !Blank(videoId) && !InLibrary(s.videos, user.value, videoId.value))
    // every failure leaves the store as it was
    ensures o.reply.Failed? ==> o.store == s
    // a provider error is reported with its message
    ensures user.Some? && !Blank(videoId) && o.fetched != [] && provider(videoId.value).Failure? ==>
      o.reply == Failed(500, provider(videoId.value).message)
    // an insert error is a 500
    ensures user.Some? && !Blank(videoId) && o.fetched != [] && provider(videoId.value).Success? && insertFails ==>
      o.reply == Failed(500, "Failed to save video")
    // success adds exactly one row: the user's copy of the requested video,
    // with the provider's details; nothing else changes
    ensures o.reply.Created? ==>
      && user.Some? && !Blank(videoId)
      && provider(videoId.value).Success? && !insertFails
      && o.store.videos == s.videos + [o.reply.row]
      && o.store.playlists == s.playlists
      && o.store.links == s.links
      && o.reply.row.userId == user.value
      && o.reply.row.youtubeId == videoId.value
      && o.reply.row.details == provider(videoId.value).value
      && o.fetched == [videoId.value]
    // and it happens exactly when every step succeeds
    ensures UniqueKeys(s.videos) ==>
      (o.reply.Created? <==>
        user.Some? && !Blank(videoId) && !InLibrary(s.videos, user.value, videoId.value)
        && provider(videoId.value).Success? && !insertFails)
  {
    if user.None? then AddVideoOutcome(Failed(401, "Unauthorized"), s, [])
    else if Blank(videoId) then AddVideoOutcome(Failed(400, "Video ID is required"), s, [])
    else
      var u, id := user.value, videoId.value;
      SingleIsExists(s.videos, u, id);
      if SingleVideo(s.videos, u, id).Some? then
        AddVideoOutcome(Failed(409, "Video already in your library"), s, [])
      else
        match provider(id)
        case Failure(message) => AddVideoOutcome(Failed(500, message), s, [id])
        case Success(details) =>
          if insertFails then AddVideoOutcome(Failed(500, "Failed to save video"), s, [id])
          else
            var inserted := InsertVideo(s, u, VideoMeta(id, details));
            AddVideoOutcome(Created(inserted.1), inserted.0, [id])
  }

  /** Adding a video keeps the store well formed and keeps
      `(user_id, youtube_id)` unique; a created row has an id no other
      video row had. */
  lemma AddVideoKeepsInvariants(
    s: Store,
    user: Option<UserId>,
    videoId: Option<string>,
    provider: string -> Result<VideoDetails>,
    insertFails: bool)
    requires WellFormed(s) && UniqueKeys(s.videos)
    ensures var o := AddVideo(s, user, videoId, provider, insertFails);
      && WellFormed(o.store)
      && UniqueKeys(o.store.videos)
      && (o.reply.Created? ==> !HasVideoId(s.videos, o.reply.row.id))
  {
    var o := AddVideo(s, user, videoId, provider, insertFails);
    if o.reply.Created? {
      var meta := VideoMeta(videoId.value, provider(videoId.value).value);
      assert o.store == InsertVideo(s, user.value, meta).0;
      InsertVideoWellFormed(s, user.value, meta);
      InsertKeepsKeysUnique(s.videos, o.reply.row);
    }
  }

  /** Each request reads, then writes, with no lock between the two: when two
      requests for the same new video both look it up before either inserts,
      both are created, and the second insert gives the user two rows for the
      one video. */
  lemma InterleavedAddsDuplicate(
    s: Store,
    user: UserId,
    videoId: string,
    provider: string -> Result<VideoDetails>)
    requires UniqueKeys(s.videos) && videoId != "" && !InLibrary(s.videos, user, videoId)
    requires provider(videoId).Success?
    ensures var first := AddVideo(s, Some(user), Some(videoId), provider, false);
      var second := AddVideo(s, Some(user), Some(videoId), provider, false);
      var interleaved := InsertVideo(first.store, user, VideoMeta(videoId, provider(videoId).value)).0;
      && first.reply.Created? && second.reply.Created?
      && !UniqueKeys(interleaved.videos)
  {
    var first := AddVideo(s, Some(user), Some(videoId), provider, false);
    var interleaved := InsertVideo(first.store, user, VideoMeta(videoId, provider(videoId).value)).0;
    var n := |s.videos|;
    assert interleaved.videos[n] == first.reply.row;
    assert interleaved.videos[n + 1].userId == user && interleaved.videos[n + 1].youtubeId == videoId;
  }
}
