/** The three tables the routes work on (videos, playlists, playlist_videos),
    an in-memory store holding them, the `.single()` lookup the routes use
    to find a user's copy of a video, and the invariants every write keeps. */
module Records {
  import opened Wrappers

  type UserId = string

  /** Row identifiers; the database generates them, the store hands out
      fresh ones from a counter. */
  type RowId = nat

  /** What the metadata provider reports about one video, apart from its id. */
  datatype VideoDetails = VideoDetails(
    title: string,
    description: Option<string>,
    thumbnailUrl: Option<string>,
    duration: Option<nat>,
    channelName: Option<string>)

  /** One video as the provider reports it. */
  datatype VideoMeta = VideoMeta(youtubeId: string, details: VideoDetails)

  /** What the provider reports about a playlist itself. */
  datatype PlaylistMeta = PlaylistMeta(
    name: string,
    description: Option<string>,
    thumbnailUrl: Option<string>,
    itemCount: nat)

  /** A fetched playlist: its own metadata and its videos in remote order. */
  datatype PlaylistFetch = PlaylistFetch(playlist: PlaylistMeta, videos: seq<VideoMeta>)

  /** A row of `videos` (timestamps left out). */
  datatype Video = Video(id: RowId, userId: UserId, youtubeId: string, details: VideoDetails)

  /** A row of `playlists` (timestamps left out). */
  datatype Playlist = Playlist(
    id: RowId,
    userId: UserId,
    youtubePlaylistId: string,
    name: string,
    description: Option<string>,
    thumbnailUrl: Option<string>,
    videoCount: nat,
    totalDuration: nat)

  /** A row of `playlist_videos`: one slot of a video inside a playlist. */
  datatype PlaylistVideo = PlaylistVideo(id: RowId, playlistId: RowId, videoId: RowId, position: nat)

  /** The three tables and the supply of fresh row ids. */
  datatype Store = Store(
    videos: seq<Video>,
    playlists: seq<Playlist>,
    links: seq<PlaylistVideo>,
    nextId: RowId)

  /** A route's answer: the created row (status 201) or an error status with
      its message. */
  datatype Reply<T> = Created(row: T) | Failed(status: nat, message: string)

  /** JavaScript's `!x` for a request field that should hold a string:
      missing and empty both count as absent. */
  predicate Blank(x: Option<string>)
  {
    x.None? || x.value == ""
  }

  /** A row of `vs` belongs to `user` and caches remote video `youtubeId`. */
  predicate InLibrary(vs: seq<Video>, user: UserId, youtubeId: string)
  {
    exists i :: 0 <= i < |vs| && vs[i].userId == user && vs[i].youtubeId == youtubeId
  }

  /** The central invariant: a user never has two rows for one remote video. */
  predicate UniqueKeys(vs: seq<Video>)
  {
    forall i, j :: 0 <= i < j < |vs| ==>
      !(vs[i].userId == vs[j].userId && vs[i].youtubeId == vs[j].youtubeId)
  }

  /** The rows `.eq('user_id', user).eq('youtube_id', youtubeId)` selects,
      in table order. */
  function Matching(vs: seq<Video>, user: UserId, youtubeId: string): (r: seq<Video>)
    ensures forall v :: v in r <==> v in vs && v.userId == user && v.youtubeId == youtubeId
    ensures |r| <= |vs|
  {
    if vs == [] then []
    else
      var rest := Matching(vs[1..], user, youtubeId);
      if vs[0].userId == user && vs[0].youtubeId == youtubeId then [vs[0]] + rest else rest
  }

  /** The lookup keeps every selected row as often as the table holds it,
      which is what `.single()` counts. */
  lemma {:induction false} MatchingCounts(vs: seq<Video>, user: UserId, youtubeId: string)
    ensures var r := Matching(vs, user, youtubeId);
      forall v :: multiset(r)[v] == if v.userId == user && v.youtubeId == youtubeId then multiset(vs)[v] else 0
  {
    if vs != [] {
      MatchingCounts(vs[1..], user, youtubeId);
      assert vs == [vs[0]] + vs[1..];
    }
  }

  /** Row `i` is the one and only row of `user` for `youtubeId`. */
  predicate UniqueMatchAt(vs: seq<Video>, user: UserId, youtubeId: string, i: int)
  {
    && 0 <= i < |vs| && vs[i].userId == user && vs[i].youtubeId == youtubeId
    && forall j :: 0 <= j < |vs| && vs[j].userId == user && vs[j].youtubeId == youtubeId ==> j == i
  }

  /** The lookup selects a single row exactly when one index of the table
      matches, and then that row. */
  lemma {:induction false} MatchingOne(vs: seq<Video>, user: UserId, youtubeId: string)
    ensures |Matching(vs, user, youtubeId)| == 1 <==> exists i :: UniqueMatchAt(vs, user, youtubeId, i)
    ensures forall i :: UniqueMatchAt(vs, user, youtubeId, i) ==> Matching(vs, user, youtubeId) == [vs[i]]
  {
    if vs != [] {
      var tail := vs[1..];
      MatchingOne(tail, user, youtubeId);
      var m := Matching(tail, user, youtubeId);
      if vs[0].userId == user && vs[0].youtubeId == youtubeId {
        if m == [] {
          forall j | 0 < j < |vs|
            ensures !(vs[j].userId == user && vs[j].youtubeId == youtubeId)
          {
            assert vs[j] == tail[j - 1];
          }
          assert UniqueMatchAt(vs, user, youtubeId, 0);
        } else {
          assert m[0] in tail;
          var k :| 0 <= k < |tail| && tail[k] == m[0];
          assert vs[k + 1] == m[0];
          forall i | 0 <= i < |vs|
            ensures !UniqueMatchAt(vs, user, youtubeId, i)
          {
          }
        }
      } else {
        forall i | UniqueMatchAt(vs, user, youtubeId, i)
          ensures i > 0 && UniqueMatchAt(tail, user, youtubeId, i - 1)
        {
          forall j | 0 <= j < |tail| && tail[j].userId == user && tail[j].youtubeId == youtubeId
            ensures j == i - 1
          {
            assert vs[j + 1] == tail[j];
          }
        }
        forall i | UniqueMatchAt(tail, user, youtubeId, i)
          ensures UniqueMatchAt(vs, user, youtubeId, i + 1)
        {
          forall j | 0 <= j < |vs| && vs[j].userId == user && vs[j].youtubeId == youtubeId
            ensures j == i + 1
          {
            assert j > 0 && tail[j - 1] == vs[j];
          }
        }
      }
    }
  }

  /** `.single()`: the row when exactly one row matches, null otherwise
      (no row, or several). */
  function SingleVideo(vs: seq<Video>, user: UserId, youtubeId: string): (r: Option<Video>)
    ensures r.Some? ==> r.value in vs && r.value.userId == user && r.value.youtubeId == youtubeId
    ensures r.Some? ==> |Matching(vs, user, youtubeId)| == 1
    ensures r.Some? <==> exists i :: UniqueMatchAt(vs, user, youtubeId, i)
    ensures forall i :: UniqueMatchAt(vs, user, youtubeId, i) ==> r == Some(vs[i])
  {
    var m := Matching(vs, user, youtubeId);
    MatchingOne(vs, user, youtubeId);
    if |m| == 1 then Some(m[0]) else None
  }

  /** Under the uniqueness invariant at most one row matches. */
  lemma {:induction false} AtMostOneMatch(vs: seq<Video>, user: UserId, youtubeId: string)
    requires UniqueKeys(vs)
    ensures |Matching(vs, user, youtubeId)| <= 1
  {
    if vs != [] {
      var tail := vs[1..];
      assert UniqueKeys(tail) by {
        forall i, j | 0 <= i < j < |tail|
          ensures !(tail[i].userId == tail[j].userId && tail[i].youtubeId == tail[j].youtubeId)
        {
          assert tail[i] == vs[i + 1] && tail[j] == vs[j + 1];
        }
      }
      AtMostOneMatch(tail, user, youtubeId);
      if vs[0].userId == user && vs[0].youtubeId == youtubeId {
        forall w | w in tail
          ensures !(w.userId == user && w.youtubeId == youtubeId)
        {
          var j :| 0 <= j < |tail| && tail[j] == w;
          assert vs[j + 1] == w;
        }
        var m := Matching(tail, user, youtubeId);
        assert |m| == 0 || m[0] in m;
      }
    }
  }

  /** Under the uniqueness invariant `.single()` finds a row exactly when
      the user has the video, so "exactly one" and "exists" agree. */
  lemma SingleIsExists(vs: seq<Video>, user: UserId, youtubeId: string)
    ensures UniqueKeys(vs) ==>
      (SingleVideo(vs, user, youtubeId).Some? <==> InLibrary(vs, user, youtubeId))
  {
    if UniqueKeys(vs) {
      AtMostOneMatch(vs, user, youtubeId);
    }
    if InLibrary(vs, user, youtubeId) {
      var i :| 0 <= i < |vs| && vs[i].userId == user && vs[i].youtubeId == youtubeId;
      assert vs[i] in Matching(vs, user, youtubeId);
    }
  }

  /** Without the invariant the lookup can miss a video the user has. */
  lemma DuplicatesHideFromSingle(v: Video)
    ensures InLibrary([v, v], v.userId, v.youtubeId)
    ensures SingleVideo([v, v], v.userId, v.youtubeId) == None
  {
    assert [v, v][0] == v;
    assert [v, v][1..] == [v];
    assert [v][1..] == [];
  }

  /** The video row with id `id`, if any. */
  predicate HasVideoId(vs: seq<Video>, id: RowId)
  {
    exists i :: 0 <= i < |vs| && vs[i].id == id
  }

  predicate HasPlaylistId(ps: seq<Playlist>, id: RowId)
  {
    exists i :: 0 <= i < |ps| && ps[i].id == id
  }

  /** Row `id` of `vs` is `user`'s copy of remote video `youtubeId`. */
  predicate Owns(vs: seq<Video>, id: RowId, user: UserId, youtubeId: string)
  {
    exists i :: 0 <= i < |vs| && vs[i].id == id && vs[i].userId == user && vs[i].youtubeId == youtubeId
  }

  /** Every row id is below the id counter, video and playlist ids are
      distinct, and every membership points at an existing video and
      playlist (the foreign keys of `playlist_videos`). */
  predicate WellFormed(s: Store)
  {
    && (forall i :: 0 <= i < |s.videos| ==> s.videos[i].id < s.nextId)
    && (forall i :: 0 <= i < |s.playlists| ==> s.playlists[i].id < s.nextId)
    && (forall i :: 0 <= i < |s.links| ==> s.links[i].id < s.nextId)
    && (forall i, j :: 0 <= i < j < |s.videos| ==> s.videos[i].id != s.videos[j].id)
    && (forall i, j :: 0 <= i < j < |s.playlists| ==> s.playlists[i].id != s.playlists[j].id)
    && (forall i :: 0 <= i < |s.links| ==>
          HasVideoId(s.videos, s.links[i].videoId) && HasPlaylistId(s.playlists, s.links[i].playlistId))
  }

  /** `insert({ user_id, ...metadata })` on `videos`: a new row with a fresh
      id, appended. */
  function InsertVideo(s: Store, user: UserId, meta: VideoMeta): (r: (Store, Video))
    ensures r.1.userId == user && r.1.youtubeId == meta.youtubeId && r.1.details == meta.details
    ensures r.1.id == s.nextId && r.0.nextId > s.nextId
    ensures r.0.videos == s.videos + [r.1]
    ensures r.0.playlists == s.playlists && r.0.links == s.links
  {
    var v := Video(s.nextId, user, meta.youtubeId, meta.details);
    (s.(videos := s.videos + [v], nextId := s.nextId + 1), v)
  }

  /** Appending a row for a video the user does not have keeps keys unique. */
  lemma InsertKeepsKeysUnique(vs: seq<Video>, v: Video)
    ensures UniqueKeys(vs) && !InLibrary(vs, v.userId, v.youtubeId) ==> UniqueKeys(vs + [v])
  {
    if UniqueKeys(vs) && !InLibrary(vs, v.userId, v.youtubeId) {
      var ws := vs + [v];
      forall i, j | 0 <= i < j < |ws|
        ensures !(ws[i].userId == ws[j].userId && ws[i].youtubeId == ws[j].youtubeId)
      {
        if j == |vs| {
          assert ws[i] == vs[i];
        }
      }
    }
  }

  /** Inserting a video keeps the store well formed. */
  lemma InsertVideoWellFormed(s: Store, user: UserId, meta: VideoMeta)
    requires WellFormed(s)
    ensures WellFormed(InsertVideo(s, user, meta).0)
  {
    var r := InsertVideo(s, user, meta).0;
    forall i | 0 <= i < |r.links|
      ensures HasVideoId(r.videos, r.links[i].videoId)
    {
      assert r.links[i] == s.links[i];
      assert HasVideoId(s.videos, s.links[i].videoId);
      var k :| 0 <= k < |s.videos| && s.videos[k].id == s.links[i].videoId;
      assert r.videos[k] == s.videos[k];
    }
  }
}
