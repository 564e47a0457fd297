/** The playlist import flow of app/api/playlists/route.ts (`POST`): guards,
    the provider fetch, the summary, the playlist insert, and the per-item
    find-or-create loop, written as a fold that threads the store. */
module PlaylistsRoute {
  import opened Wrappers
  import opened Records

  // ---------------------------------------------------------------------
  // The summary
  // ---------------------------------------------------------------------

  /** `video.duration || 0`: a missing duration counts as zero. */
  function Duration(v: VideoMeta): (r: nat)
  {
    v.details.duration.GetOr(0)
  }

  /** Total running time of a list of videos. */
  function SumDurations(vs: seq<VideoMeta>): (r: nat)
  {
    if vs == [] then 0 else Duration(vs[0]) + SumDurations(vs[1..])
  }

  /** `videos.reduce((acc, video) => acc + (video.duration || 0), 0)`,
      generalised to an arbitrary starting value `acc`. */
  function ReduceDurations(vs: seq<VideoMeta>, acc: nat): (r: nat)
    ensures r >= acc
  {
    if vs == [] then acc else ReduceDurations(vs[1..], acc + Duration(vs[0]))
  }

  /** The left fold the route uses computes the total running time. */
  lemma {:induction false} ReduceIsSum(vs: seq<VideoMeta>, acc: nat)
    ensures ReduceDurations(vs, acc) == acc + SumDurations(vs)
  {
    if vs != [] {
      ReduceIsSum(vs[1..], acc + Duration(vs[0]));
    }
  }

  // ---------------------------------------------------------------------
  // The find-or-create loop
  // ---------------------------------------------------------------------

  /** Whether the video insert attempted for item `i` fails; items past the
      end of `fails` succeed. */
  predicate InsertFails(fails: seq<bool>, i: nat)
  {
    i < |fails| && fails[i]
  }

  /** The membership insert; its result is not checked by the route, so it
      always succeeds here. */
  function AddLink(s: Store, playlistId: RowId, videoId: RowId, position: nat): (r: Store)
    ensures r.videos == s.videos && r.playlists == s.playlists && r.nextId > s.nextId
    ensures r.links == s.links + [PlaylistVideo(s.nextId, playlistId, videoId, position)]
  {
    s.(links := s.links + [PlaylistVideo(s.nextId, playlistId, videoId, position)], nextId := s.nextId + 1)
  }

  /** One iteration for item `i`: reuse the user's row for the video when the
      lookup finds exactly one, otherwise insert one; skip the item when that
      insert fails; then link the video at position `i`. */
  function ImportItem(s: Store, user: UserId, playlistId: RowId, item: VideoMeta, failed: bool, i: nat): (r: Store)
    ensures s.videos <= r.videos && r.playlists == s.playlists && r.nextId >= s.nextId
    // a new row is the user's copy of the fetched item, `{ user_id, ...videoMetadata }`
    ensures forall k :: |s.videos| <= k < |r.videos| ==>
      r.videos[k].userId == user && r.videos[k].youtubeId == item.youtubeId && r.videos[k].details == item.details
    // either nothing is linked, or one link at position i to the user's copy
    ensures r.links == s.links || (
      && |r.links| == |s.links| + 1
      && s.links <= r.links
      && r.links[|s.links|].playlistId == playlistId
      && r.links[|s.links|].position == i
      && Owns(r.videos, r.links[|s.links|].videoId, user, item.youtubeId))
    // the item is skipped exactly when the video was missing and its insert failed
    ensures UniqueKeys(s.videos) ==>
      (r.links != s.links <==> InLibrary(s.videos, user, item.youtubeId) || !failed)
    // the user's library grows by this video exactly when it was inserted
    ensures UniqueKeys(s.videos) ==> UniqueKeys(r.videos)
    ensures UniqueKeys(s.videos) ==> forall y :: InLibrary(r.videos, user, y) <==>
      InLibrary(s.videos, user, y) || (y == item.youtubeId && !failed)
  {
    SingleIsExists(s.videos, user, item.youtubeId);
    match SingleVideo(s.videos, user, item.youtubeId)
    case Some(v) => AddLink(s, playlistId, v.id, i)
    case None =>
      if failed then s else InsertAndLink(s, user, playlistId, item, i)
  }

  /** The branch of one iteration that inserts the user's copy of the item
      and links it at position `i`. */
  function InsertAndLink(s: Store, user: UserId, playlistId: RowId, item: VideoMeta, i: nat): (r: Store)
    ensures s.videos <= r.videos && |r.videos| == |s.videos| + 1
    ensures r.videos[|s.videos|].userId == user && r.videos[|s.videos|].youtubeId == item.youtubeId
    ensures r.videos[|s.videos|].details == item.details
    ensures r.playlists == s.playlists && r.nextId > s.nextId
    ensures r.videos[|s.videos|].id == s.nextId
    ensures r.links == s.links + [PlaylistVideo(s.nextId + 1, playlistId, s.nextId, i)]
    ensures Owns(r.videos, s.nextId, user, item.youtubeId)
    ensures UniqueKeys(s.videos) && !InLibrary(s.videos, user, item.youtubeId) ==> UniqueKeys(r.videos)
    ensures forall y :: InLibrary(r.videos, user, y) <==> InLibrary(s.videos, user, y) || y == item.youtubeId
  {
    var inserted := InsertVideo(s, user, item);
    InsertKeepsKeysUnique(s.videos, inserted.1);
    assert inserted.0.videos[|s.videos|] == inserted.1;
    AddLink(inserted.0, playlistId, inserted.1.id, i)
  }

  /** The loop `for (let i = from; i < videos.length; i++)`. */
  function ImportItems(s: Store, user: UserId, playlistId: RowId, items: seq<VideoMeta>, fails: seq<bool>, i: nat): (r: Store)
    requires i <= |items|
    ensures s.videos <= r.videos && s.links <= r.links
    ensures r.playlists == s.playlists && r.nextId >= s.nextId
    ensures forall k :: |s.videos| <= k < |r.videos| ==> r.videos[k].userId == user
    decreases |items| - i
  {
    if i == |items| then s
    else ImportItems(ImportItem(s, user, playlistId, items[i], InsertFails(fails, i), i),
                     user, playlistId, items, fails, i + 1)
  }

  /** Video row `v` is a copy of one of the fetched items from index `i` on. */
  predicate FromItem(v: Video, items: seq<VideoMeta>, i: nat)
    requires i <= |items|
  {
    VideoMeta(v.youtubeId, v.details) in items[i..]
  }

  /** Every row the loop adds carries the id and the details of a fetched
      item. */
  lemma {:induction false} ImportedRowsFromItems(s: Store, user: UserId, playlistId: RowId, items: seq<VideoMeta>, fails: seq<bool>, i: nat)
    requires i <= |items|
    ensures var r := ImportItems(s, user, playlistId, items, fails, i);
      forall v :: v in r.videos[|s.videos|..] ==> FromItem(v, items, i)
    decreases |items| - i
  {
    if i < |items| {
      var s' := ImportItem(s, user, playlistId, items[i], InsertFails(fails, i), i);
      var r := ImportItems(s', user, playlistId, items, fails, i + 1);
      ImportedRowsFromItems(s', user, playlistId, items, fails, i + 1);
      FromItemConcat(s.videos, s'.videos, r.videos, items, i);
    }
  }

  /** Rows `a..b` copy item `i` and rows `b..c` copy items from `i + 1` on,
      so rows `a..c` copy items from `i` on. */
  lemma FromItemConcat(a: seq<Video>, b: seq<Video>, c: seq<Video>, items: seq<VideoMeta>, i: nat)
    requires a <= b <= c && i < |items|
    requires forall v :: v in b[|a|..] ==> VideoMeta(v.youtubeId, v.details) == items[i]
    requires forall v :: v in c[|b|..] ==> FromItem(v, items, i + 1)
    ensures forall v :: v in c[|a|..] ==> FromItem(v, items, i)
  {
    assert items[i..] == [items[i]] + items[i + 1..];
    assert c[|a|..] == b[|a|..] + c[|b|..];
  }

  /** The membership rows the loop added. */
  function NewLinks(s: Store, user: UserId, playlistId: RowId, items: seq<VideoMeta>, fails: seq<bool>, i: nat): (r: seq<PlaylistVideo>)
    requires i <= |items|
  {
    var r := ImportItems(s, user, playlistId, items, fails, i);
    r.links[|s.links|..]
  }

  /** Splitting off the first iteration of the loop. */
  lemma NewLinksStep(s: Store, user: UserId, playlistId: RowId, items: seq<VideoMeta>, fails: seq<bool>, i: nat)
    requires i < |items|
    ensures var s' := ImportItem(s, user, playlistId, items[i], InsertFails(fails, i), i);
      NewLinks(s, user, playlistId, items, fails, i) ==
        s'.links[|s.links|..] + NewLinks(s', user, playlistId, items, fails, i + 1)
  {
    var s' := ImportItem(s, user, playlistId, items[i], InsertFails(fails, i), i);
    var r := ImportItems(s', user, playlistId, items, fails, i + 1);
    SuffixSplits(s.links, s'.links, r.links);
  }

  /** When `a` is a prefix of `b` and `b` of `c`, what `c` adds to `a` is what
      `b` adds followed by what `c` adds to `b`. */
  lemma SuffixSplits<T>(a: seq<T>, b: seq<T>, c: seq<T>)
    requires a <= b && b <= c
    ensures c[|a|..] == b[|a|..] + c[|b|..]
  {
    assert c[|a|..] == c[|a|..|b|] + c[|b|..];
    assert c[|a|..|b|] == b[|a|..];
  }

  /** The links one step adds: none, or one at position `i` for the new
      playlist. */
  lemma ItemLink(s: Store, user: UserId, playlistId: RowId, item: VideoMeta, failed: bool, i: nat)
    ensures var r := ImportItem(s, user, playlistId, item, failed, i);
      var head := r.links[|s.links|..];
      && |head| <= 1
      && forall k :: 0 <= k < |head| ==>
           head[k].playlistId == playlistId && head[k].position == i
           && Owns(r.videos, head[k].videoId, user, item.youtubeId)
  {
  }

  /** Links owned in an earlier table stay owned once the table has grown,
      so the owned links of a step followed by those of the rest of the loop
      are all owned at the end. */
  lemma OwnedConcat(head: seq<PlaylistVideo>, tail: seq<PlaylistVideo>, mid: seq<Video>, end: seq<Video>, user: UserId, items: seq<VideoMeta>)
    requires mid <= end
    requires forall k :: 0 <= k < |head| ==>
      head[k].position < |items| && Owns(mid, head[k].videoId, user, items[head[k].position].youtubeId)
    requires forall k :: 0 <= k < |tail| ==>
      tail[k].position < |items| && Owns(end, tail[k].videoId, user, items[tail[k].position].youtubeId)
    ensures var nl := head + tail;
      forall k :: 0 <= k < |nl| ==>
        nl[k].position < |items| && Owns(end, nl[k].videoId, user, items[nl[k].position].youtubeId)
  {
    var nl := head + tail;
    forall k | 0 <= k < |nl|
      ensures nl[k].position < |items| && Owns(end, nl[k].videoId, user, items[nl[k].position].youtubeId)
    {
      if k < |head| {
        assert nl[k] == head[k];
        OwnsGrows(mid, end, nl[k].videoId, user, items[nl[k].position].youtubeId);
      } else {
        assert nl[k] == tail[k - |head|];
      }
    }
  }

  /** Every membership the loop creates belongs to the new playlist and sits
      at an item index not below the loop's start. */
  lemma {:induction false} NewLinksInRange(s: Store, user: UserId, playlistId: RowId, items: seq<VideoMeta>, fails: seq<bool>, i: nat)
    requires i <= |items|
    ensures var nl := NewLinks(s, user, playlistId, items, fails, i);
      forall k :: 0 <= k < |nl| ==> nl[k].playlistId == playlistId && i <= nl[k].position < |items|
    decreases |items| - i
  {
    if i < |items| {
      var s' := ImportItem(s, user, playlistId, items[i], InsertFails(fails, i), i);
      NewLinksInRange(s', user, playlistId, items, fails, i + 1);
      NewLinksStep(s, user, playlistId, items, fails, i);
      ItemLink(s, user, playlistId, items[i], InsertFails(fails, i), i);
      var head, tail := s'.links[|s.links|..], NewLinks(s', user, playlistId, items, fails, i + 1);
      var nl := NewLinks(s, user, playlistId, items, fails, i);
      forall k | 0 <= k < |nl|
        ensures nl[k].playlistId == playlistId && i <= nl[k].position < |items|
      {
        if k < |head| {
          assert nl[k] == head[k];
        } else {
          assert nl[k] == tail[k - |head|];
        }
      }
    }
  }

  /** The positions of the memberships the loop creates strictly increase. */
  lemma {:induction false} NewLinksIncreasing(s: Store, user: UserId, playlistId: RowId, items: seq<VideoMeta>, fails: seq<bool>, i: nat)
    requires i <= |items|
    ensures var nl := NewLinks(s, user, playlistId, items, fails, i);
      forall a, b :: 0 <= a < b < |nl| ==> nl[a].position < nl[b].position
    decreases |items| - i
  {
    if i < |items| {
      var s' := ImportItem(s, user, playlistId, items[i], InsertFails(fails, i), i);
      var head, tail := s'.links[|s.links|..], NewLinks(s', user, playlistId, items, fails, i + 1);
      NewLinksIncreasing(s', user, playlistId, items, fails, i + 1);
      NewLinksInRange(s', user, playlistId, items, fails, i + 1);
      NewLinksStep(s, user, playlistId, items, fails, i);
      ItemLink(s, user, playlistId, items[i], InsertFails(fails, i), i);
      PrependKeepsIncreasing(head, tail, i);
      assert NewLinks(s, user, playlistId, items, fails, i) == head + tail;
    }
  }

  /** At most one link at position `i` in front of links at later, strictly
      increasing positions gives strictly increasing positions. */
  lemma PrependKeepsIncreasing(head: seq<PlaylistVideo>, tail: seq<PlaylistVideo>, i: nat)
    requires |head| <= 1 && forall k :: 0 <= k < |head| ==> head[k].position == i
    requires forall k :: 0 <= k < |tail| ==> i < tail[k].position
    requires forall a, b :: 0 <= a < b < |tail| ==> tail[a].position < tail[b].position
    ensures var nl := head + tail;
      forall a, b :: 0 <= a < b < |nl| ==> nl[a].position < nl[b].position
  {
    var nl := head + tail;
    forall a, b | 0 <= a < b < |nl|
      ensures nl[a].position < nl[b].position
    {
      assert nl[b] == tail[b - |head|];
      if a < |head| {
        assert nl[a] == head[a];
      } else {
        assert nl[a] == tail[a - |head|];
      }
    }
  }

  /** Every membership the loop creates belongs to the new playlist, sits at
      its item's index, and positions strictly increase below the item count. */
  lemma NewLinksOrdered(s: Store, user: UserId, playlistId: RowId, items: seq<VideoMeta>, fails: seq<bool>, i: nat)
    requires i <= |items|
    ensures var nl := NewLinks(s, user, playlistId, items, fails, i);
      && (forall k :: 0 <= k < |nl| ==> nl[k].playlistId == playlistId && i <= nl[k].position < |items|)
      && (forall a, b :: 0 <= a < b < |nl| ==> nl[a].position < nl[b].position)
  {
    NewLinksInRange(s, user, playlistId, items, fails, i);
    NewLinksIncreasing(s, user, playlistId, items, fails, i);
  }

  /** `position` is taken by some membership in `ls`. */
  ghost predicate HasPosition(ls: seq<PlaylistVideo>, position: nat)
  {
    exists k :: 0 <= k < |ls| && ls[k].position == position
  }

  /** Owning a row is kept when the table only grows at the end. */
  lemma OwnsGrows(vs: seq<Video>, ws: seq<Video>, id: RowId, user: UserId, youtubeId: string)
    requires vs <= ws && Owns(vs, id, user, youtubeId)
    ensures Owns(ws, id, user, youtubeId)
  {
    var i :| 0 <= i < |vs| && vs[i].id == id && vs[i].userId == user && vs[i].youtubeId == youtubeId;
    assert ws[i] == vs[i];
  }

  /** The membership at position `i` points at the user's own row for the
      video fetched at index `i`. */
  lemma {:induction false} NewLinksTargets(s: Store, user: UserId, playlistId: RowId, items: seq<VideoMeta>, fails: seq<bool>, i: nat)
    requires i <= |items|
    ensures var r := ImportItems(s, user, playlistId, items, fails, i);
      var nl := NewLinks(s, user, playlistId, items, fails, i);
      forall k :: 0 <= k < |nl| ==>
        nl[k].position < |items| && Owns(r.videos, nl[k].videoId, user, items[nl[k].position].youtubeId)
    decreases |items| - i
  {
    if i < |items| {
      var s' := ImportItem(s, user, playlistId, items[i], InsertFails(fails, i), i);
      var r := ImportItems(s', user, playlistId, items, fails, i + 1);
      NewLinksTargets(s', user, playlistId, items, fails, i + 1);
      NewLinksStep(s, user, playlistId, items, fails, i);
      ItemLink(s, user, playlistId, items[i], InsertFails(fails, i), i);
      OwnedConcat(s'.links[|s.links|..], NewLinks(s', user, playlistId, items, fails, i + 1), s'.videos, r.videos, user, items);
    }
  }

  /** The loop keeps `(user_id, youtube_id)` unique, also when the fetched list
      names one video twice, and every row it adds is a video the user did
      not have before. */
  lemma {:induction false} ImportKeepsKeysUnique(s: Store, user: UserId, playlistId: RowId, items: seq<VideoMeta>, fails: seq<bool>, i: nat)
    requires i <= |items|
    requires UniqueKeys(s.videos)
    ensures var r := ImportItems(s, user, playlistId, items, fails, i);
      && UniqueKeys(r.videos)
      && forall k :: |s.videos| <= k < |r.videos| ==> !InLibrary(s.videos, user, r.videos[k].youtubeId)
    decreases |items| - i
  {
    if i < |items| {
      var s' := ImportItem(s, user, playlistId, items[i], InsertFails(fails, i), i);
      ImportKeepsKeysUnique(s', user, playlistId, items, fails, i + 1);
    }
    var r := ImportItems(s, user, playlistId, items, fails, i);
    forall k | |s.videos| <= k < |r.videos|
      ensures !InLibrary(s.videos, user, r.videos[k].youtubeId)
    {
      NotInPrefix(s.videos, r.videos, k);
    }
  }

  /** In a table with unique keys that extends `vs`, a row past the end of
      `vs` has a key no row of `vs` has. */
  lemma NotInPrefix(vs: seq<Video>, ws: seq<Video>, k: nat)
    requires vs <= ws && UniqueKeys(ws) && |vs| <= k < |ws|
    ensures !InLibrary(vs, ws[k].userId, ws[k].youtubeId)
  {
    forall j | 0 <= j < |vs|
      ensures !(vs[j].userId == ws[k].userId && vs[j].youtubeId == ws[k].youtubeId)
    {
      assert ws[j] == vs[j];
    }
  }

  /** Item `p` is linked exactly when the user already had its video before
      the loop reached `from`, or some item in `from..p` naming the same
      video was inserted successfully. */
  ghost predicate Linked(vs: seq<Video>, user: UserId, items: seq<VideoMeta>, fails: seq<bool>, from: nat, p: nat)
    requires p < |items|
  {
    || InLibrary(vs, user, items[p].youtubeId)
    || exists j :: from <= j <= p && items[j].youtubeId == items[p].youtubeId && !InsertFails(fails, j)
  }

  /** Which items end up in the playlist: a skipped item leaves a gap at its
      index, and later items keep their own indices. */
  lemma {:induction false} LinkedPositions(s: Store, user: UserId, playlistId: RowId, items: seq<VideoMeta>, fails: seq<bool>, i: nat)
    requires i <= |items|
    requires UniqueKeys(s.videos)
    ensures var nl := NewLinks(s, user, playlistId, items, fails, i);
      forall p :: i <= p < |items| ==> (HasPosition(nl, p) <==> Linked(s.videos, user, items, fails, i, p))
    decreases |items| - i
  {
    if i < |items| {
      var s' := ImportItem(s, user, playlistId, items[i], InsertFails(fails, i), i);
      LinkedPositions(s', user, playlistId, items, fails, i + 1);
      NewLinksOrdered(s', user, playlistId, items, fails, i + 1);
      NewLinksStep(s, user, playlistId, items, fails, i);
      var nl := NewLinks(s, user, playlistId, items, fails, i);
      var head := s'.links[|s.links|..];
      var tail := NewLinks(s', user, playlistId, items, fails, i + 1);
      assert nl == head + tail;
      forall p | i <= p < |items|
        ensures HasPosition(nl, p) <==> Linked(s.videos, user, items, fails, i, p)
      {
        if p == i {
          HeadPosition(head, tail, i);
          if !InsertFails(fails, i) {
            assert Linked(s.videos, user, items, fails, i, i);
          }
        } else {
          TailPosition(head, tail, i, p);
          LinkedStep(s.videos, s'.videos, user, items, fails, i, p);
        }
      }
    }
  }

  /** Position `i` is taken in `head + tail` exactly when `head` is a single
      link at `i`, the tail's positions being past `i`. */
  lemma HeadPosition(head: seq<PlaylistVideo>, tail: seq<PlaylistVideo>, i: nat)
    requires head == [] || (|head| == 1 && head[0].position == i)
    requires forall k :: 0 <= k < |tail| ==> i < tail[k].position
    ensures HasPosition(head + tail, i) <==> head != []
  {
    var nl := head + tail;
    if head != [] {
      assert nl[0].position == i;
    }
    if HasPosition(nl, i) {
      var k :| 0 <= k < |nl| && nl[k].position == i;
      if k >= |head| {
        assert tail[k - |head|].position == i;
      }
    }
  }

  /** A position past `i` is taken in `head + tail` exactly when the tail
      takes it. */
  lemma TailPosition(head: seq<PlaylistVideo>, tail: seq<PlaylistVideo>, i: nat, p: nat)
    requires head == [] || (|head| == 1 && head[0].position == i)
    requires i < p
    ensures HasPosition(head + tail, p) <==> HasPosition(tail, p)
  {
    var nl := head + tail;
    if HasPosition(tail, p) {
      var k :| 0 <= k < |tail| && tail[k].position == p;
      assert nl[|head| + k] == tail[k];
    }
    if HasPosition(nl, p) {
      var k :| 0 <= k < |nl| && nl[k].position == p;
      if k >= |head| {
        assert nl[k] == tail[k - |head|];
      }
    }
  }

  /** One iteration moves the "already in the library" condition forward. */
  lemma LinkedStep(vs: seq<Video>, ws: seq<Video>, user: UserId, items: seq<VideoMeta>, fails: seq<bool>, i: nat, p: nat)
    requires i < p < |items|
    requires forall y :: InLibrary(ws, user, y) <==>
      InLibrary(vs, user, y) || (y == items[i].youtubeId && !InsertFails(fails, i))
    ensures Linked(vs, user, items, fails, i, p) <==> Linked(ws, user, items, fails, i + 1, p)
  {
    var y := items[p].youtubeId;
    if items[i].youtubeId == y && !InsertFails(fails, i) {
      assert InLibrary(ws, user, y);
    }
    if exists j :: i <= j <= p && items[j].youtubeId == y && !InsertFails(fails, j) {
      var j :| i <= j <= p && items[j].youtubeId == y && !InsertFails(fails, j);
      if j > i {
        assert Linked(ws, user, items, fails, i + 1, p);
      }
    }
  }

  /** Two memberships for the same remote video point at the same row: a
      repeated id in the fetched list links one video twice. */
  lemma RepeatedItemSharesVideo(s: Store, user: UserId, playlistId: RowId, items: seq<VideoMeta>, fails: seq<bool>, i: nat)
    requires i <= |items|
    requires UniqueKeys(s.videos)
    ensures var nl := NewLinks(s, user, playlistId, items, fails, i);
      forall a, b ::
        (0 <= a < |nl| && 0 <= b < |nl| && nl[a].position < |items| && nl[b].position < |items|
         && items[nl[a].position].youtubeId == items[nl[b].position].youtubeId)
        ==> nl[a].videoId == nl[b].videoId
  {
    var r := ImportItems(s, user, playlistId, items, fails, i);
    var nl := NewLinks(s, user, playlistId, items, fails, i);
    NewLinksTargets(s, user, playlistId, items, fails, i);
    ImportKeepsKeysUnique(s, user, playlistId, items, fails, i);
    forall a, b | 0 <= a < |nl| && 0 <= b < |nl| && nl[a].position < |items| && nl[b].position < |items|
        && items[nl[a].position].youtubeId == items[nl[b].position].youtubeId
      ensures nl[a].videoId == nl[b].videoId
    {
      var y := items[nl[a].position].youtubeId;
      var ia :| 0 <= ia < |r.videos| && r.videos[ia].id == nl[a].videoId && r.videos[ia].userId == user && r.videos[ia].youtubeId == y;
      var ib :| 0 <= ib < |r.videos| && r.videos[ib].id == nl[b].videoId && r.videos[ib].userId == user && r.videos[ib].youtubeId == y;
      assert ia == ib;
    }
  }

  /** The loop keeps the store well formed when it links into an existing
      playlist. */
  lemma {:induction false} ImportKeepsWellFormed(s: Store, user: UserId, playlistId: RowId, items: seq<VideoMeta>, fails: seq<bool>, i: nat)
    requires i <= |items|
    requires WellFormed(s) && HasPlaylistId(s.playlists, playlistId)
    ensures WellFormed(ImportItems(s, user, playlistId, items, fails, i))
    decreases |items| - i
  {
    if i < |items| {
      var s' := ImportItem(s, user, playlistId, items[i], InsertFails(fails, i), i);
      ImportItemWellFormed(s, user, playlistId, items[i], InsertFails(fails, i), i);
      ImportKeepsWellFormed(s', user, playlistId, items, fails, i + 1);
    }
  }

  lemma ImportItemWellFormed(s: Store, user: UserId, playlistId: RowId, item: VideoMeta, failed: bool, i: nat)
    requires WellFormed(s) && HasPlaylistId(s.playlists, playlistId)
    ensures WellFormed(ImportItem(s, user, playlistId, item, failed, i))
  {
    var r := ImportItem(s, user, playlistId, item, failed, i);
    match SingleVideo(s.videos, user, item.youtubeId)
    case Some(v) =>
      var j :| 0 <= j < |s.videos| && s.videos[j] == v;
      LinkKeepsWellFormed(s, playlistId, v.id, i);
    case None =>
      if !failed {
        var inserted := InsertVideo(s, user, item);
        InsertVideoWellFormed(s, user, item);
        assert inserted.0.videos[|s.videos|] == inserted.1;
        LinkKeepsWellFormed(inserted.0, playlistId, inserted.1.id, i);
      }
  }

  lemma LinkKeepsWellFormed(s: Store, playlistId: RowId, videoId: RowId, position: nat)
    requires WellFormed(s) && HasPlaylistId(s.playlists, playlistId) && HasVideoId(s.videos, videoId)
    ensures WellFormed(AddLink(s, playlistId, videoId, position))
  {
  }

  // ---------------------------------------------------------------------
  // The route
  // ---------------------------------------------------------------------

  /** The reply, the store after the request, and the playlist ids the
      metadata provider was asked about. */
  datatype ImportOutcome = ImportOutcome(reply: Reply<Playlist>, store: Store, fetched: seq<string>)

  /** `POST /api/playlists`. `provider` is the playlist fetch (metadata plus
      the first page of videos, or a thrown error), `playlistInsertFails`
      whether the playlist insert is rejected, `videoInsertFails` which
      per-item video inserts are rejected. */
  function ImportPlaylist(
    s: Store,
    user: Option<UserId>,
    playlistId: Option<string>,
    provider: string -> Result<PlaylistFetch>,
    playlistInsertFails: bool,
    videoInsertFails: seq<bool>): (o: ImportOutcome)
    ensures user.None? ==>
      o.reply == Failed(401, "Unauthorized") && o.store == s && o.fetched == []
    ensures user.Some? && Blank(playlistId) ==>
      o.reply == Failed(400, "Playlist ID is required") && o.store == s && o.fetched == []
    // past the guards the provider is asked exactly once, before any write
    ensures user.Some? && !Blank(playlistId) ==> o.fetched == [playlistId.value]
    ensures user.Some? && !Blank(playlistId) && provider(playlistId.value).Failure? ==>
      o.reply == Failed(500, provider(playlistId.value).message)
    ensures user.Some? && !Blank(playlistId) && provider(playlistId.value).Success? && playlistInsertFails ==>
      o.reply == Failed(500, "Failed to save playlist")
    ensures o.reply.Failed? ==> o.store == s
    ensures o.reply.Created? <==>
      user.Some? && !Blank(playlistId) && provider(playlistId.value).Success? && !playlistInsertFails
    // the saved playlist: the user's, tagged with the requested id, with the
    // summary of everything fetched (even items whose insert is skipped later)
    ensures o.reply.Created? ==>
      var p, fetch := o.reply.row, provider(playlistId.value).value;
      && p.userId == user.value
      && p.youtubePlaylistId == playlistId.value
      && p.name == fetch.playlist.name
      && p.description == fetch.playlist.description
      && p.thumbnailUrl == fetch.playlist.thumbnailUrl
      && p.videoCount == |fetch.videos|
      && p.totalDuration == SumDurations(fetch.videos)
      && o.store.playlists == s.playlists + [p]
      && s.videos <= o.store.videos
      && s.links <= o.store.links
  {
    if user.None? then ImportOutcome(Failed(401, "Unauthorized"), s, [])
    else if Blank(playlistId) then ImportOutcome(Failed(400, "Playlist ID is required"), s, [])
    else
      var u, pid := user.value, playlistId.value;
      match provider(pid)
      case Failure(message) => ImportOutcome(Failed(500, message), s, [pid])
      case Success(fetch) =>
        var items := fetch.videos;
        var total := ReduceDurations(items, 0);
        ReduceIsSum(items, 0);
        if playlistInsertFails then ImportOutcome(Failed(500, "Failed to save playlist"), s, [pid])
        else
          var p := Playlist(s.nextId, u, pid, fetch.playlist.name, fetch.playlist.description,
                            fetch.playlist.thumbnailUrl, |items|, total);
          ImportOutcome(Created(p), ImportItems(SavedPlaylist(s, p), u, p.id, items, videoInsertFails, 0), [pid])
  }

  /** The store right after the playlist insert, before the loop. */
  function SavedPlaylist(s: Store, p: Playlist): (r: Store)
  {
    s.(playlists := s.playlists + [p], nextId := s.nextId + 1)
  }

  /** A successful import is the playlist insert followed by the loop. */
  lemma ImportPlaylistRunsLoop(
    s: Store,
    user: Option<UserId>,
    playlistId: Option<string>,
    provider: string -> Result<PlaylistFetch>,
    playlistInsertFails: bool,
    videoInsertFails: seq<bool>)
    ensures var o := ImportPlaylist(s, user, playlistId, provider, playlistInsertFails, videoInsertFails);
      o.reply.Created? ==>
        o.store == ImportItems(SavedPlaylist(s, o.reply.row), user.value, o.reply.row.id,
                               provider(playlistId.value).value.videos, videoInsertFails, 0)
  {
  }

  /** What the loop did, comparing the tables `before` and `after` it, for
      the memberships it added to playlist `playlistId`: each sits at its
      item's index below the item count, positions strictly increase, each
      points at the user's own row for that item's video, exactly the items
      whose video was present or successfully inserted are linked, keys stay
      unique, and every added video row is the user's and new to them. */
  ghost predicate LoopEffect(before: Store, after: Store, user: UserId, playlistId: RowId, items: seq<VideoMeta>, fails: seq<bool>)
    requires |before.links| <= |after.links|
  {
    var nl := after.links[|before.links|..];
    && UniqueKeys(after.videos)
    && (forall k :: 0 <= k < |nl| ==> nl[k].playlistId == playlistId && nl[k].position < |items|)
    && (forall a, b :: 0 <= a < b < |nl| ==> nl[a].position < nl[b].position)
    && (forall k :: 0 <= k < |nl| ==>
          nl[k].position < |items| && Owns(after.videos, nl[k].videoId, user, items[nl[k].position].youtubeId))
    && (forall q :: 0 <= q < |items| ==> (HasPosition(nl, q) <==> Linked(before.videos, user, items, fails, 0, q)))
    && (forall k :: |before.videos| <= k < |after.videos| ==>
          after.videos[k].userId == user && !InLibrary(before.videos, user, after.videos[k].youtubeId))
    && |before.videos| <= |after.videos|
    && (forall v :: v in after.videos[|before.videos|..] ==> FromItem(v, items, 0))
  }

  /** The whole loop, run from index 0 on a store with unique keys. */
  lemma LoopHasEffect(s: Store, user: UserId, playlistId: RowId, items: seq<VideoMeta>, fails: seq<bool>)
    requires UniqueKeys(s.videos)
    ensures LoopEffect(s, ImportItems(s, user, playlistId, items, fails, 0), user, playlistId, items, fails)
  {
    NewLinksOrdered(s, user, playlistId, items, fails, 0);
    NewLinksTargets(s, user, playlistId, items, fails, 0);
    ImportKeepsKeysUnique(s, user, playlistId, items, fails, 0);
    LinkedPositions(s, user, playlistId, items, fails, 0);
    ImportedRowsFromItems(s, user, playlistId, items, fails, 0);
    var r := ImportItems(s, user, playlistId, items, fails, 0);
    assert NewLinks(s, user, playlistId, items, fails, 0) == r.links[|s.links|..];
  }

  /** What an import does to the memberships and videos (see `LoopEffect`),
      measured against the store before the request. */
  lemma ImportPlaylistMemberships(
    s: Store,
    user: Option<UserId>,
    playlistId: Option<string>,
    provider: string -> Result<PlaylistFetch>,
    playlistInsertFails: bool,
    videoInsertFails: seq<bool>)
    requires UniqueKeys(s.videos)
    ensures var o := ImportPlaylist(s, user, playlistId, provider, playlistInsertFails, videoInsertFails);
      o.reply.Created? ==>
        |s.links| <= |o.store.links| &&
        LoopEffect(s, o.store, user.value, o.reply.row.id, provider(playlistId.value).value.videos, videoInsertFails)
  {
    var o := ImportPlaylist(s, user, playlistId, provider, playlistInsertFails, videoInsertFails);
    if o.reply.Created? {
      var u, items := user.value, provider(playlistId.value).value.videos;
      var saved := SavedPlaylist(s, o.reply.row);
      ImportPlaylistRunsLoop(s, user, playlistId, provider, playlistInsertFails, videoInsertFails);
      LoopHasEffect(saved, u, o.reply.row.id, items, videoInsertFails);
      assert saved.videos == s.videos && saved.links == s.links;
    }
  }

  /** An import keeps the store well formed, and the new playlist's id is
      fresh. */
  lemma ImportPlaylistKeepsWellFormed(
    s: Store,
    user: Option<UserId>,
    playlistId: Option<string>,
    provider: string -> Result<PlaylistFetch>,
    playlistInsertFails: bool,
    videoInsertFails: seq<bool>)
    requires WellFormed(s)
    ensures var o := ImportPlaylist(s, user, playlistId, provider, playlistInsertFails, videoInsertFails);
      && WellFormed(o.store)
      && (o.reply.Created? ==> !HasPlaylistId(s.playlists, o.reply.row.id))
  {
    var o := ImportPlaylist(s, user, playlistId, provider, playlistInsertFails, videoInsertFails);
    if o.reply.Created? {
      var saved := SavedPlaylist(s, o.reply.row);
      assert o.reply.row.id == s.nextId;
      SavedPlaylistWellFormed(s, o.reply.row);
      ImportKeepsWellFormed(saved, user.value, o.reply.row.id, provider(playlistId.value).value.videos, videoInsertFails, 0);
    }
  }

  /** Appending a playlist row under the next free id keeps the store well
      formed and puts that id in use; it was not in use before. */
  lemma SavedPlaylistWellFormed(s: Store, p: Playlist)
    requires WellFormed(s) && p.id == s.nextId
    ensures WellFormed(SavedPlaylist(s, p)) && HasPlaylistId(SavedPlaylist(s, p).playlists, p.id)
    ensures !HasPlaylistId(s.playlists, p.id)
  {
    var saved := SavedPlaylist(s, p);
    assert saved.playlists[|s.playlists|] == p;
    forall i | 0 <= i < |saved.links|
      ensures HasPlaylistId(saved.playlists, saved.links[i].playlistId)
    {
      assert saved.links[i] == s.links[i];
      assert HasPlaylistId(s.playlists, s.links[i].playlistId);
      var k :| 0 <= k < |s.playlists| && s.playlists[k].id == s.links[i].playlistId;
      assert saved.playlists[k] == s.playlists[k];
    }
  }

  /** Number of playlists imported from remote playlist `remoteId`. */
  function CountImports(ps: seq<Playlist>, remoteId: string): (r: nat)
  {
    if ps == [] then 0
    else CountImports(ps[..|ps| - 1], remoteId) + (if ps[|ps| - 1].youtubePlaylistId == remoteId then 1 else 0)
  }

  /** There is no duplicate-import guard: importing the same playlist twice
      leaves two more playlists carrying its id, with distinct row ids. */
  lemma ImportTwiceMakesTwoPlaylists(
    s: Store,
    user: UserId,
    playlistId: string,
    provider: string -> Result<PlaylistFetch>,
    fails1: seq<bool>,
    fails2: seq<bool>)
    requires WellFormed(s) && playlistId != "" && provider(playlistId).Success?
    ensures var o1 := ImportPlaylist(s, Some(user), Some(playlistId), provider, false, fails1);
      var o2 := ImportPlaylist(o1.store, Some(user), Some(playlistId), provider, false, fails2);
      && o1.reply.Created? && o2.reply.Created?
      && CountImports(o2.store.playlists, playlistId) == CountImports(s.playlists, playlistId) + 2
      && o1.reply.row.id != o2.reply.row.id
  {
    var o1 := ImportPlaylist(s, Some(user), Some(playlistId), provider, false, fails1);
    ImportOnceAddsOne(s, user, playlistId, provider, fails1);
    var o2 := ImportPlaylist(o1.store, Some(user), Some(playlistId), provider, false, fails2);
    ImportOnceAddsOne(o1.store, user, playlistId, provider, fails2);
    assert o1.store.playlists[|s.playlists|] == o1.reply.row;
  }

  /** One successful import appends one playlist row carrying the requested
      id, under a row id not in use before, and keeps the store well formed. */
  lemma ImportOnceAddsOne(
    s: Store,
    user: UserId,
    playlistId: string,
    provider: string -> Result<PlaylistFetch>,
    fails: seq<bool>)
    requires WellFormed(s) && playlistId != "" && provider(playlistId).Success?
    ensures var o := ImportPlaylist(s, Some(user), Some(playlistId), provider, false, fails);
      && o.reply.Created?
      && o.store.playlists == s.playlists + [o.reply.row]
      && CountImports(o.store.playlists, playlistId) == CountImports(s.playlists, playlistId) + 1
      && WellFormed(o.store)
      && !HasPlaylistId(s.playlists, o.reply.row.id)
  {
    var o := ImportPlaylist(s, Some(user), Some(playlistId), provider, false, fails);
    ImportPlaylistKeepsWellFormed(s, Some(user), Some(playlistId), provider, false, fails);
    assert (s.playlists + [o.reply.row])[..|s.playlists|] == s.playlists;
  }

  /** A two-video playlist of 120 s and 180 s is saved with two videos and a
      total of 300 s; had the second length been missing, the total would
      be 120 s. */
  lemma ImportSummaryExample(
    s: Store, user: UserId, playlistId: string, provider: string -> Result<PlaylistFetch>,
    meta: PlaylistMeta, a: VideoMeta, b: VideoMeta, fails: seq<bool>)
    requires playlistId != ""
    requires provider(playlistId) == Success(PlaylistFetch(meta, [a, b]))
    requires a.details.duration == Some(120)
    requires b.details.duration == Some(180) || b.details.duration.None?
    ensures var o := ImportPlaylist(s, Some(user), Some(playlistId), provider, false, fails);
      && o.reply.Created?
      && o.reply.row.videoCount == 2
      && o.reply.row.totalDuration == (if b.details.duration.None? then 120 else 300)
  {
    assert [a, b][1..] == [b];
    assert SumDurations([b]) == Duration(b);
  }
}
