/** The ordering logic of components/PlaylistView.tsx: the Fisher–Yates
    shuffle, the shuffle/original-order toggle, and the Play All target. */
module PlaylistView {
  import opened Wrappers
  import opened Records

  /** The watch page address `/watch/{videoId}?playlist={playlistId}&index={index}`. */
  datatype Watch = Watch(videoId: RowId, playlistId: string, index: int)

  /** `[a[i], a[j]] = [a[j], a[i]]`. */
  function Swap<T>(a: seq<T>, i: nat, j: nat): (r: seq<T>)
    requires i < |a| && j < |a|
    ensures |r| == |a| && multiset(r) == multiset(a)
    ensures r[i] == a[j] && r[j] == a[i]
    ensures forall k :: 0 <= k < |a| && k != i && k != j ==> r[k] == a[k]
  {
    a[i := a[j]][j := a[i]]
  }

  /** `shuffleArray`. The loop walks `i` from the last index down to 1 and
      swaps with some `j` in `[0, i]`; `pick(i) % (i + 1)` stands for
      `Math.floor(Math.random() * (i + 1))`, every such `j` being reachable.
      The argument is a value, so it is not changed (the source copies it). */
  method Shuffle<T>(a: seq<T>, pick: nat -> nat) returns (r: seq<T>)
    ensures |r| == |a|
    ensures multiset(r) == multiset(a)
    ensures |a| <= 1 ==> r == a
  {
    r := a;
    var i := |r| - 1;
    while i > 0
      invariant -1 <= i < |r|
      invariant |r| == |a|
      invariant multiset(r) == multiset(a)
      invariant |a| <= 1 ==> r == a
    {
      var j := pick(i) % (i + 1);
      r := Swap(r, i, j);
      i := i - 1;
    }
  }

  /** The component's state: the playlist's videos in stored order, the
      order on display, and whether shuffle is on. */
  datatype ViewState = ViewState(videos: seq<Video>, display: seq<Video>, shuffled: bool)

  /** `useState(false)`, `useState(videos)`. */
  function Initial(videos: seq<Video>): (st: ViewState)
    ensures Consistent(st) && !st.shuffled && st.display == videos
  {
    ViewState(videos, videos, false)
  }

  /** What the view keeps: the display is a rearrangement of the stored
      videos, and is the stored order itself while shuffle is off. */
  predicate Consistent(st: ViewState)
  {
    && |st.display| == |st.videos|
    && multiset(st.display) == multiset(st.videos)
    && (!st.shuffled ==> st.display == st.videos)
  }

  /** `handleShuffle`: turning shuffle off restores the stored order;
      turning it on shows a fresh shuffle of the stored order (not of the
      current display). */
  method HandleShuffle(st: ViewState, pick: nat -> nat) returns (st': ViewState)
    ensures st'.videos == st.videos
    ensures st'.shuffled == !st.shuffled
    ensures st.shuffled ==> st'.display == st.videos
    ensures !st.shuffled ==>
      |st'.display| == |st.videos| && multiset(st'.display) == multiset(st.videos)
    ensures Consistent(st')
  {
    if st.shuffled {
      st' := ViewState(st.videos, st.videos, false);
    } else {
      var shuffled := Shuffle(st.videos, pick);
      st' := ViewState(st.videos, shuffled, true);
    }
  }

  /** `handlePlayAll`: the first video on display, at index 0, when there is
      one. */
  function PlayAll(playlistId: string, display: seq<Video>): (r: Option<Watch>)
    ensures r.Some? <==> |display| > 0
    ensures r.Some? ==> r.value.index == 0 && r.value.playlistId == playlistId
    ensures r.Some? ==> r.value.videoId == display[0].id
  {
    if |display| > 0 then Some(Watch(display[0].id, playlistId, 0)) else None
  }

  /** On mount shuffle is off, so Play All opens the first stored video. */
  lemma InitialPlayAllOpensFirst(videos: seq<Video>, playlistId: string)
    requires |videos| > 0
    ensures PlayAll(playlistId, Initial(videos).display) == Some(Watch(videos[0].id, playlistId, 0))
  {
  }

  /** With shuffle off, Play All starts from the first stored video; with it
      on, from some video of the playlist. */
  lemma PlayAllStartsInPlaylist(st: ViewState, playlistId: string)
    requires Consistent(st) && |st.videos| > 0
    ensures PlayAll(playlistId, st.display).Some?
    ensures !st.shuffled ==> PlayAll(playlistId, st.display).value.videoId == st.videos[0].id
    ensures exists k :: 0 <= k < |st.videos| && PlayAll(playlistId, st.display).value.videoId == st.videos[k].id
  {
    var first := st.display[0];
    assert first in multiset(st.display);
    assert first in multiset(st.videos);
    var k :| 0 <= k < |st.videos| && st.videos[k] == first;
  }
}
