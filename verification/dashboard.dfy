/** The library listing of app/dashboard/page.tsx: which videos are shown as
    standalone (in no playlist), and the item list and counts it renders. */
module Dashboard {
  import opened Wrappers
  import opened Records

  /** `a` is `b` with some elements left out, the rest in the same order. */
  predicate IsSubsequence<T(==)>(a: seq<T>, b: seq<T>)
    decreases |b|
  {
    a == [] || (b != [] && ((a[0] == b[0] && IsSubsequence(a[1..], b[1..])) || IsSubsequence(a, b[1..])))
  }

  /** `new Set(relations?.map(pv => pv.video_id) || [])`: a null query result
      counts as no memberships. */
  function LinkedIds(relations: Option<seq<RowId>>): (r: set<RowId>)
    ensures forall id :: id in r <==> relations.Some? && id in relations.value
  {
    if relations.None? then {} else set id | id in relations.value
  }

  /** `allVideos.filter(video => !linked.has(video.id))`. */
  function KeepStandalone(vs: seq<Video>, linked: set<RowId>): (r: seq<Video>)
    ensures forall v :: v in r <==> v in vs && v.id !in linked
    ensures forall v :: multiset(r)[v] == if v.id in linked then 0 else multiset(vs)[v]
    ensures IsSubsequence(r, vs)
  {
    if vs == [] then []
    else
      var rest := KeepStandalone(vs[1..], linked);
      assert vs == [vs[0]] + vs[1..];
      if vs[0].id in linked then rest else [vs[0]] + rest
  }

  /** A subsequence is never longer. */
  lemma {:induction false} SubsequenceLength<T>(a: seq<T>, b: seq<T>)
    requires IsSubsequence(a, b)
    ensures |a| <= |b|
    decreases |b|
  {
    if a != [] {
      if a[0] == b[0] && IsSubsequence(a[1..], b[1..]) {
        SubsequenceLength(a[1..], b[1..]);
      } else {
        SubsequenceLength(a, b[1..]);
      }
    }
  }

  /** What `loadContent` keeps: the playlists and the standalone videos. */
  datatype Content = Content(playlists: seq<Playlist>, videos: seq<Video>)

  /** `loadContent` given the three query results (each null on failure). */
  function LoadContent(
    playlistsData: Option<seq<Playlist>>,
    allVideos: Option<seq<Video>>,
    relations: Option<seq<RowId>>): (c: Content)
    ensures c.playlists == (if playlistsData.Some? then playlistsData.value else [])
    ensures allVideos.None? ==> c.videos == []
    ensures forall v :: v in c.videos <==>
      allVideos.Some? && v in allVideos.value && !(relations.Some? && v.id in relations.value)
    ensures IsSubsequence(c.videos, allVideos.GetOr([]))
  {
    Content(playlistsData.GetOr([]), KeepStandalone(allVideos.GetOr([]), LinkedIds(relations)))
  }

  /** An entry of the library grid. */
  datatype Item = PlaylistItem(playlist: Playlist) | VideoItem(video: Video)

  /** `[...playlists, ...videos]`: all playlists first, then the standalone
      videos, each group in its own order. */
  function AllItems(c: Content): (r: seq<Item>)
    ensures |r| == |c.playlists| + |c.videos|
    ensures forall i :: 0 <= i < |c.playlists| ==> r[i] == PlaylistItem(c.playlists[i])
    ensures forall i :: 0 <= i < |c.videos| ==> r[|c.playlists| + i] == VideoItem(c.videos[i])
  {
    seq(|c.playlists|, i requires 0 <= i < |c.playlists| => PlaylistItem(c.playlists[i]))
      + seq(|c.videos|, i requires 0 <= i < |c.videos| => VideoItem(c.videos[i]))
  }

  /** The standalone count shown never exceeds the number of videos fetched. */
  lemma TotalVideosBounded(
    playlistsData: Option<seq<Playlist>>,
    allVideos: Option<seq<Video>>,
    relations: Option<seq<RowId>>)
    ensures |LoadContent(playlistsData, allVideos, relations).videos| <= |allVideos.GetOr([])|
  {
    SubsequenceLength(LoadContent(playlistsData, allVideos, relations).videos, allVideos.GetOr([]));
  }

  /** The video ids the memberships of a store point at. */
  function LinkTargets(s: Store): (r: seq<RowId>)
    ensures |r| == |s.links| && forall k :: 0 <= k < |r| ==> r[k] == s.links[k].videoId
  {
    seq(|s.links|, k requires 0 <= k < |s.links| => s.links[k].videoId)
  }

  /** Read against a whole store, the dashboard lists exactly the videos that
      no membership references: the standalone videos of the library. */
  lemma StandaloneMeansNoMembership(s: Store)
    ensures var shown := LoadContent(Some(s.playlists), Some(s.videos), Some(LinkTargets(s))).videos;
      forall v :: v in shown <==> v in s.videos && forall k :: 0 <= k < |s.links| ==> s.links[k].videoId != v.id
  {
    var t := LinkTargets(s);
    forall v | v in s.videos
      ensures v.id in t <==> exists k :: 0 <= k < |s.links| && s.links[k].videoId == v.id
    {
      if v.id in t {
        var k :| 0 <= k < |t| && t[k] == v.id;
      }
    }
  }
}
