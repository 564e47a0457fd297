/** The playlist navigation of components/VideoPlayer.tsx: next, previous,
    auto-advance when a video ends, and when the two buttons are disabled. */
module VideoPlayer {
  import opened Wrappers
  import opened Records
  import opened PlaylistView

  /** What a navigation handler does: nothing, push a watch address, or
      throw because the index lies outside the list (`playlistVideos[k]` is
      undefined and `.id` is read from it). */
  datatype Step = Stay | Go(target: Watch) | Fault

  /** `playlistId && playlistVideos.length > 0`. */
  predicate InPlaylist(playlistId: Option<string>, list: seq<Video>)
  {
    !Blank(playlistId) && |list| > 0
  }

  /** Pushing the watch address of entry `index`. */
  function GoTo(playlistId: string, list: seq<Video>, index: int): (r: Step)
    ensures r.Go? <==> 0 <= index < |list|
    ensures r.Go? ==> r.target == Watch(list[index].id, playlistId, index)
  {
    if 0 <= index < |list| then Go(Watch(list[index].id, playlistId, index)) else Fault
  }

  /** `playNext`. */
  function PlayNext(playlistId: Option<string>, list: seq<Video>, current: int): (r: Step)
    ensures r != Stay <==> InPlaylist(playlistId, list) && current + 1 < |list|
    ensures r.Go? <==> InPlaylist(playlistId, list) && 0 <= current + 1 < |list|
    ensures r.Go? ==> r.target == Watch(list[current + 1].id, playlistId.value, current + 1)
  {
    if InPlaylist(playlistId, list) && current + 1 < |list| then GoTo(playlistId.value, list, current + 1)
    else Stay
  }

  /** `playPrevious`. */
  function PlayPrevious(playlistId: Option<string>, list: seq<Video>, current: int): (r: Step)
    ensures r != Stay <==> InPlaylist(playlistId, list) && current - 1 >= 0
    ensures r.Go? <==> InPlaylist(playlistId, list) && 0 <= current - 1 < |list|
    ensures r.Go? ==> r.target == Watch(list[current - 1].id, playlistId.value, current - 1)
  {
    if InPlaylist(playlistId, list) && current - 1 >= 0 then GoTo(playlistId.value, list, current - 1)
    else Stay
  }

  /** `onPlayerStateChange` for player state `state` (0 means ended). */
  function OnPlayerStateChange(state: int, playlistId: Option<string>, list: seq<Video>, current: int): (r: Step)
    ensures r != Stay ==> state == 0
    ensures r.Go? <==> state == 0 && InPlaylist(playlistId, list) && 0 <= current + 1 < |list|
    ensures r.Go? ==> r.target == Watch(list[current + 1].id, playlistId.value, current + 1)
  {
    if state == 0 && InPlaylist(playlistId, list) && current + 1 < |list| then
      GoTo(playlistId.value, list, current + 1)
    else Stay
  }

  /** `disabled={currentIndex === 0}`. */
  predicate PreviousDisabled(current: int)
  {
    current == 0
  }

  /** `disabled={currentIndex >= playlistVideos.length - 1}`. */
  predicate NextDisabled(list: seq<Video>, current: int)
  {
    current >= |list| - 1
  }

  /** Auto-advance fires only when a video ends, and then does what Next
      does. */
  lemma AutoAdvanceIsNext(state: int, playlistId: Option<string>, list: seq<Video>, current: int)
    ensures state == 0 ==> OnPlayerStateChange(state, playlistId, list, current) == PlayNext(playlistId, list, current)
    ensures state != 0 ==> OnPlayerStateChange(state, playlistId, list, current) == Stay
  {
  }

  /** From a valid index every navigation lands on a valid neighbouring
      index, pointing at that entry's video; at the last index nothing
      advances. */
  lemma NavigationStaysInList(playlistId: Option<string>, list: seq<Video>, current: int, state: int)
    requires 0 <= current < |list|
    ensures var steps := [PlayNext(playlistId, list, current), PlayPrevious(playlistId, list, current),
                          OnPlayerStateChange(state, playlistId, list, current)];
      forall k :: 0 <= k < |steps| ==>
        steps[k] != Fault
        && (steps[k].Go? ==> 0 <= steps[k].target.index < |list|
                             && steps[k].target.videoId == list[steps[k].target.index].id)
    ensures current == |list| - 1 ==>
      PlayNext(playlistId, list, current) == Stay && OnPlayerStateChange(state, playlistId, list, current) == Stay
  {
  }

  /** Inside a playlist, each button is disabled exactly when its handler
      would not navigate. */
  lemma ButtonsMatchHandlers(playlistId: Option<string>, list: seq<Video>, current: int)
    requires InPlaylist(playlistId, list) && 0 <= current < |list|
    ensures PreviousDisabled(current) <==> PlayPrevious(playlistId, list, current) == Stay
    ensures NextDisabled(list, current) <==> PlayNext(playlistId, list, current) == Stay
  {
  }

  /** The index comes from the address unchecked: from an index past the end,
      Previous is enabled and throws. */
  lemma IndexPastEndFaults(playlistId: string, v: Video)
    requires playlistId != ""
    ensures !PreviousDisabled(5) && NextDisabled([v, v, v], 5)
    ensures PlayPrevious(Some(playlistId), [v, v, v], 5) == Fault
  {
  }

  /** The watch page rebuilds its list in stored order whatever order the
      playlist page showed, so a shuffle only chooses the first video: with
      two videos shown swapped, Play All opens the second stored video at
      index 0, and Next opens that same video again at index 1 while the
      first stored video is never reached by Next. */
  lemma ShuffleOnlyPicksFirst(a: Video, b: Video, playlistId: string)
    requires a.id != b.id && playlistId != ""
    ensures var st := PlaylistView.ViewState([a, b], [b, a], true);
      && PlaylistView.Consistent(st)
      && PlaylistView.PlayAll(playlistId, st.display) == Some(Watch(b.id, playlistId, 0))
      && PlayNext(Some(playlistId), st.videos, 0) == Go(Watch(b.id, playlistId, 1))
      && PlayPrevious(Some(playlistId), st.videos, 0) == Stay
  {
    assert multiset([b, a]) == multiset([a, b]);
  }
}
