# Distraction-Free-Tube core, modelled in Dafny

Distraction-Free-Tube keeps a personal library of YouTube videos and
playlists per user. Videos and playlists are imported by URL or identifier,
and videos are watched through an embedded player. This project models the
parts of it that hold stateable logic:

- **`lib/youtube.ts`** (module `YouTube`, with `Decimal` for digit strings).
  - The two identifier extractors. Each regular expression is written as a hand-written scanner over `seq<char>`: find the leftmost marker that is followed by a character other than `&`, `?`, `#` and newline, and return the maximal run of such characters after it; if no marker qualifies, fall back to the bare-identifier form.
  - `formatDuration`.
  - `parseDuration`, which reads the `PT#H#M#S` time-part subset of the duration format of section 4.4.3.2 of ISO 8601:2004.
- **The library store** (module `Records`). It holds the video, playlist and membership rows of `types/database.types.ts` as sequences, together with the next row id.
  - Lookups written with `.single()` are modelled as "exactly one row matches".
  - The invariant that `(user_id, youtube_id)` is unique among videos is proved to be preserved by each request run on its own, from start to finish. Under that invariant the lookup is the same as "some row matches". Requests that interleave can break it (`VideosRoute.InterleavedAddsDuplicate`).
- **`POST /api/videos`** (module `VideosRoute`) and **`POST /api/playlists`** (module `PlaylistsRoute`). Each is modelled as a function from a store, request fields and oracles to a reply, a new store and the log of provider requests.
  - The metadata provider is a function parameter that returns records or fails.
  - Insert failures are boolean oracles. For the import loop the oracle is a `seq<bool>` indexed by loop position; positions past its end succeed.
  - The import loop is a recursive fold that threads the store.
- **The dashboard's standalone-video filter** and item list (module `Dashboard`).
- **Playback ordering** (modules `PlaylistView` and `VideoPlayer`).
  - The Fisher–Yates shuffle. `Math.random` becomes an arbitrary `pick` function, and the index used is `pick(i) % (i + 1)`.
  - The shuffle toggle and Play All.
  - Previous, next and auto-advance navigation, and the disabled-button conditions.

Two behaviours of the import code are worth stating outright:

- A failed video insert skips its item (app/api/playlists/route.ts:75-77). Membership positions are the fetched indices, so a skipped item leaves a gap, and later items keep their index.
- The saved `video_count` is the number of fetched items (app/api/playlists/route.ts:38), not the number of memberships created.

The saved playlist row also carries `youtube_playlist_id` (app/api/playlists/route.ts:34), although the `Playlist` interface in `types/database.types.ts` has no such field.

Something the model shows about the code (`VideoPlayer.ShuffleOnlyPicksFirst`): the watch page rebuilds its list in stored position order. So after a shuffle, Play All opens the first shuffled video at index 0, and Next then opens the second entry in stored order, not the second shuffled one. With two videos swapped, the second video plays twice and Next never reaches the first.

## Model

| member | source | states |
|---|---|---|
| YouTube.Search | lib/youtube.ts:4 | finds the leftmost position where one of the pattern's markers is followed by a delimiter-free character, and returns the maximal delimiter-free run there; None exactly when no position matches |
| YouTube.ExtractVideoId | lib/youtube.ts:2-14 | a result is non-empty and free of `&`, `?`, `#` and newline; when a `watch?v=`, `youtu.be/` or `embed/` marker is followed by a character other than those four, the result is the maximal run after the leftmost such marker (so `youtu.be/?x=youtu.be/abc` gives `abc`); otherwise the result is the input exactly when it is 11 id characters, else null |
| YouTube.ExtractPlaylistId | lib/youtube.ts:16-28 | a result is delimiter-free and non-empty; when some `?list=` or `&list=` is followed by a delimiter-free character, the result is the maximal run after the leftmost such marker (so `?list=&list=PLx` gives `PLx`); otherwise the input is returned exactly when it is `PL` plus one or more id characters, else null |
| YouTube.DottedMarkerAbsent | lib/youtube.ts:4-5 | an 11-character bare id cannot contain any of the URL markers, so the URL pattern never fires on it |
| YouTube.BareVideoIdIsItself | lib/youtube.ts:5 | every string of exactly 11 characters from `[A-Za-z0-9_-]` extracts to itself |
| YouTube.BarePlaylistIdIsItself | lib/youtube.ts:19 | every `PL` followed by one or more id characters extracts to itself |
| YouTube.PlaylistIdFromWatchUrl | lib/youtube.ts:18 | `watch?v=x&list=PLab&index=3` yields `PLab` |
| YouTube.PlaylistIdRejections | lib/youtube.ts:18-19 | bare `PL`, and `list=PLab` with no preceding `?` or `&`, both yield null |
| YouTube.FormatDuration | lib/youtube.ts:30-39 | the function only computes; its contract is carried by `YouTube.FormatDurationRoundTrip` (the text reads back to the input) and `YouTube.FormatDurationShape` (field count, padding and field values) |
| YouTube.ClockOf | lib/youtube.ts:31-33 | hours*3600 + minutes*60 + seconds equals the input, with minutes and seconds below 60 |
| YouTube.FormatDurationRoundTrip | lib/youtube.ts:30-39 | reading the formatted clock back as colon-separated base-60 fields gives the original number of seconds |
| YouTube.FormatDurationShape | lib/youtube.ts:35-38 | three fields exactly from one hour up and two fields below; the leading field is an unpadded numeral of the hours or minutes; every later field has two digits; the fields hold the hours, the minutes below 60 and the seconds below 60 of the input |
| YouTube.FormatDurationExamples | lib/youtube.ts:35-38 | 0 gives `0:00`, 65 gives `1:05`, 3725 gives `1:02:05` |
| YouTube.FindPT | lib/youtube.ts:42 | returns the leftmost index at which `PT` occurs, and None exactly when it occurs nowhere |
| YouTube.ParseDuration | lib/youtube.ts:41-43 | an input with no `PT` anywhere reads as 0 |
| YouTube.ParseDurationInContext | lib/youtube.ts:41-50 | the pattern is not anchored: after any prefix without `PT`, `PT{h}H{m}M{s}S` followed by anything that does not start with a digit reads as h*3600 + m*60 + s, omitted components counting 0 |
| YouTube.ParseDurationRoundTrip | lib/youtube.ts:41-50 | `PT{h}H{m}M{s}S` with any of the three components omitted reads as h*3600 + m*60 + s, omitted components counting 0 |
| YouTube.DatedDurationReadsZero | lib/youtube.ts:42-47 | `P1DT2H`, a duration with a date part and no `PT`, reads as 0 |
| YouTube.ParseDurationExamples | lib/youtube.ts:42-49 | `PT1H30S` reads as 3630 seconds |
| YouTube.ParseDurationMinutesExample | lib/youtube.ts:42-49 | `PT4M13S` reads as 253 seconds |
| YouTube.ParseDurationUnanchoredExample | lib/youtube.ts:42 | `xPT5M!` reads as 300 seconds: text around the match is ignored |
| Decimal.Show | lib/youtube.ts:36-38 | the decimal rendering of a number is a canonical numeral with one digit exactly below 10 |
| Decimal.ValueOfShow | lib/youtube.ts:36-38 | reading a rendered number back gives the number |
| Decimal.Pad2 | lib/youtube.ts:36-38 | left-padding with `0` to width 2 keeps the value and gives exactly two digits below 100 |
| Records.Matching | app/api/videos/route.ts:24-28 | a row is returned exactly when it is in the library with the given user and YouTube id, and no more rows than the table holds |
| Records.MatchingCounts | app/api/videos/route.ts:24-28 | each matching row is returned as many times as it occurs in the table, and every other row zero times |
| Records.MatchingOne | app/api/videos/route.ts:24-29 | exactly one row is returned exactly when some index holds the only row with the key, and then the result is that row |
| Records.SingleVideo | app/api/videos/route.ts:24-29 | `.single()` yields a row if and only if exactly one index of the table holds the key, and then it yields that row; no row and several rows both give none |
| Records.AtMostOneMatch | types/database.types.ts:1-12 | under unique `(user_id, youtube_id)` at most one row matches a key |
| Records.SingleIsExists | app/api/playlists/route.ts:57-62 | under unique keys the `.single()` lookup finds a row exactly when the user already has the video |
| Records.DuplicatesHideFromSingle | app/api/videos/route.ts:24-31 | with the key duplicated, the lookup reports no row although the video is in the library |
| Records.InsertVideo | app/api/videos/route.ts:42-49 | an insert appends one row, the user's copy of the metadata, numbered with the next id, which then advances; playlists and memberships are left as they were |
| Records.InsertKeepsKeysUnique | app/api/videos/route.ts:23-49 | appending a row whose key is absent keeps keys unique |
| Records.InsertVideoWellFormed | app/api/videos/route.ts:42-49 | an insert keeps ids distinct and below the next id, and every membership pointing at existing rows |
| VideosRoute.AddVideo | app/api/videos/route.ts:5-67 | 401 without a user and 400 without an id, each before store or provider access; 409 for a video already in the library, with no provider call, when `(user_id, youtube_id)` is unique (with the key duplicated the lookup reports no row, see `Records.DuplicatesHideFromSingle`); provider failures and insert failures are 500s that leave the store unchanged; success appends exactly one row, the user's copy of the requested id with the provider's details, and touches nothing else |
| VideosRoute.AddVideoKeepsInvariants | app/api/videos/route.ts:23-49 | adding a video keeps the store well formed and `(user_id, youtube_id)` unique, and a created row's id was not in use |
| VideosRoute.InterleavedAddsDuplicate | app/api/videos/route.ts:23-49 | two requests for the same new video whose lookups both run before either insert are both created, and the second insert leaves the user with two rows for one video |
| PlaylistsRoute.ReduceDurations | app/api/playlists/route.ts:27 | the fold never goes below its start value; that it equals the start plus the duration sum is `PlaylistsRoute.ReduceIsSum` |
| PlaylistsRoute.ReduceIsSum | app/api/playlists/route.ts:27 | the left-fold `reduce` with missing durations as 0 equals the duration sum |
| PlaylistsRoute.AddLink | app/api/playlists/route.ts:83-89 | the membership insert appends one row for the playlist, the video and the position, with a fresh id, and leaves videos and playlists as they were |
| PlaylistsRoute.ImportItem | app/api/playlists/route.ts:53-90 | one loop step reuses the user's existing row or appends a new row that is the user's copy of the item, with its YouTube id and its fetched details; a failed insert links nothing; otherwise one membership at position i to a video the user owns with that YouTube id; existing rows unchanged; keys stay unique; the user's library gains exactly the item's id unless its insert failed |
| PlaylistsRoute.ImportItems | app/api/playlists/route.ts:53-91 | the loop only appends videos and memberships, never changes playlists, and every video it adds belongs to the user |
| PlaylistsRoute.ImportedRowsFromItems | app/api/playlists/route.ts:64-73 | every video row the loop adds from index i on carries the YouTube id and the details of some fetched item at or after i |
| PlaylistsRoute.NewLinksOrdered | app/api/playlists/route.ts:53-89 | the memberships the loop creates belong to the new playlist, have positions below the fetched count, and strictly increasing positions |
| PlaylistsRoute.NewLinksInRange | app/api/playlists/route.ts:53-89 | every membership the loop creates from index i on belongs to the new playlist, with a position between i and the fetched count |
| PlaylistsRoute.NewLinksIncreasing | app/api/playlists/route.ts:53-89 | the positions of the memberships the loop creates strictly increase |
| PlaylistsRoute.NewLinksTargets | app/api/playlists/route.ts:57-89 | the membership at position p points at a video the user owns whose YouTube id is that of fetched item p |
| PlaylistsRoute.ImportKeepsKeysUnique | app/api/playlists/route.ts:53-81 | the loop keeps `(user_id, youtube_id)` unique even when the fetched list repeats an id, and only adds videos the user did not have |
| PlaylistsRoute.LinkedPositions | app/api/playlists/route.ts:64-89 | position p gets a membership exactly when the item's video was already in the library or some insert of the same id at or before p succeeded; a skipped item leaves a gap and later items keep their indices |
| PlaylistsRoute.RepeatedItemSharesVideo | app/api/playlists/route.ts:57-89 | two memberships for items with the same YouTube id point at the same video row |
| PlaylistsRoute.ImportKeepsWellFormed | app/api/playlists/route.ts:53-91 | the loop keeps row ids distinct and memberships pointing at existing rows |
| PlaylistsRoute.ImportPlaylist | app/api/playlists/route.ts:5-101 | 401 and 400 before any access; the provider is asked once, before any write; a provider error or playlist insert error is a 500 with the store unchanged; otherwise the saved playlist is the user's, carries the requested id and the fetched name, description and thumbnail, a count equal to the number of fetched items and the sum of their durations, and videos and memberships are only appended |
| PlaylistsRoute.LoopHasEffect | app/api/playlists/route.ts:53-91 | the fold over all fetched items has every property of the membership lemmas at once: ordering, targets, linked positions, unique keys, new rows the user's and new to them, each a copy of a fetched item's id and details |
| PlaylistsRoute.ImportPlaylistMemberships | app/api/playlists/route.ts:30-91 | a successful import's memberships are exactly those of the loop run over the fetched items for the new playlist row |
| PlaylistsRoute.ImportPlaylistKeepsWellFormed | app/api/playlists/route.ts:30-91 | an import keeps the store well formed, and the new playlist's id was not in use |
| PlaylistsRoute.ImportOnceAddsOne | app/api/playlists/route.ts:30-42 | a successful import appends exactly one playlist row tagged with the requested id, under a row id not in use before, and keeps the store well formed |
| PlaylistsRoute.ImportTwiceMakesTwoPlaylists | app/api/playlists/route.ts:30-42 | importing the same id twice adds two distinct playlist rows tagged with that id |
| PlaylistsRoute.ImportSummaryExample | app/api/playlists/route.ts:27-39 | a playlist of a 120 s and a 180 s video is saved with count 2 and total 300, or 120 when the second length is missing |
| Dashboard.LinkedIds | app/dashboard/page.tsx:61-63 | an id is in the set exactly when some membership row carries it; a null query result gives the empty set |
| Dashboard.KeepStandalone | app/dashboard/page.tsx:65-67 | a video is kept exactly when no membership references it, every kept video keeps its multiplicity, and the kept list is in the original order |
| Dashboard.LoadContent | app/dashboard/page.tsx:44-70 | missing query results count as empty lists; the standalone list holds exactly the unreferenced videos, in order |
| Dashboard.AllItems | app/dashboard/page.tsx:93 | the item list is every playlist followed by every standalone video |
| Dashboard.TotalVideosBounded | app/dashboard/page.tsx:91 | the standalone count is at most the number of videos |
| Dashboard.StandaloneMeansNoMembership | app/dashboard/page.tsx:56-67 | over a store, a video is listed as standalone exactly when no membership row points at it |
| PlaylistView.Swap | components/PlaylistView.tsx:30 | the swap exchanges entries i and j, leaves every other entry in place, and keeps the multiset |
| PlaylistView.Shuffle | components/PlaylistView.tsx:26-33 | the result is a permutation of the input (same length, same multiset); lists of length 0 or 1 come back unchanged |
| PlaylistView.HandleShuffle | components/PlaylistView.tsx:35-45 | turning shuffle off restores the stored order; turning it on shows a permutation of the stored order, not of the current display |
| PlaylistView.Initial | components/PlaylistView.tsx:23-24 | on mount shuffle is off and the display is the stored order, a consistent view state |
| PlaylistView.InitialPlayAllOpensFirst | components/PlaylistView.tsx:23-52 | with the initial state of a non-empty playlist, Play All opens the first stored video at index 0 |
| PlaylistView.PlayAll | components/PlaylistView.tsx:47-52 | acts exactly when the display is non-empty, and then opens the first displayed video at index 0 of the given playlist |
| PlaylistView.PlayAllStartsInPlaylist | components/PlaylistView.tsx:22-52 | Play All always opens a video of the playlist, and the first stored one while shuffle is off |
| VideoPlayer.PlayNext | components/VideoPlayer.tsx:86-94 | acts exactly when inside a playlist and the next index is below the length: it navigates to entry current + 1 when that index lies inside the list, and otherwise throws, as reading `.id` of a missing entry does |
| VideoPlayer.PlayPrevious | components/VideoPlayer.tsx:96-104 | acts exactly when inside a playlist and the previous index is at least 0: it navigates to entry current - 1 when that index lies inside the list, and otherwise throws |
| VideoPlayer.OnPlayerStateChange | components/VideoPlayer.tsx:72-84 | navigates only when the player reports state 0; then it goes exactly when inside a playlist and the next index lies inside the list, to entry current + 1 |
| VideoPlayer.AutoAdvanceIsNext | components/VideoPlayer.tsx:72-84 | a player state of 0 does what Next does; any other state does nothing |
| VideoPlayer.NavigationStaysInList | components/VideoPlayer.tsx:72-104 | from an index inside the list every navigation target lies inside the list and names that entry's video; at the last index Next and auto-advance do nothing |
| VideoPlayer.ButtonsMatchHandlers | components/VideoPlayer.tsx:125-135 | inside a playlist and at an index inside the list, each button is disabled exactly when its handler would not navigate (an out-of-range index from the address is covered by `VideoPlayer.IndexPastEndFaults`) |
| VideoPlayer.PreviousDisabled | components/VideoPlayer.tsx:125 | the predicate only computes; `VideoPlayer.ButtonsMatchHandlers` states that inside a playlist it holds exactly when Previous would not navigate |
| VideoPlayer.NextDisabled | components/VideoPlayer.tsx:135 | the predicate only computes; `VideoPlayer.ButtonsMatchHandlers` states that inside a playlist it holds exactly when Next would not navigate |
| VideoPlayer.IndexPastEndFaults | components/VideoPlayer.tsx:96-104 | from index 5 in a three-video list Previous is enabled and reads past the end |
| VideoPlayer.ShuffleOnlyPicksFirst | components/PlaylistView.tsx:47-52 | after a swap of two videos, Play All opens the second stored video at index 0 and Next opens that same video again |

## Left out

- The YouTube Data API calls in `fetchVideoMetadata` and `fetchPlaylistMetadata` (lib/youtube.ts:53-142) are network I/O. They are a provider parameter. The 50-item page cap only bounds the length of what the provider returns.
- The Supabase client, `createClient` and the auth lookup: the signed-in user is an `Option` parameter and the database is the in-memory `Store`.
- VideosRoute.AddVideoKeepsInvariants: each request is modelled as running alone from lookup to insert. The lookup at app/api/videos/route.ts:24-29 and the insert at :42-49 are separate awaits, so concurrent requests for the same video can both pass the lookup and both insert a row; `VideosRoute.InterleavedAddsDuplicate` shows one such interleaving. Any unique constraint in the database schema is not part of this model.
- PlaylistsRoute.ImportKeepsKeysUnique: the import loop is likewise modelled as running alone. Its lookup (app/api/playlists/route.ts:57-62) and insert (:65-73) are separate awaits, so a concurrent import or add of the same video can create a duplicate row.
- Records.SingleVideo: the lookups at app/api/videos/route.ts:24-29 and app/api/playlists/route.ts:57-62 discard the query error, so a failed query reads as "no row" and the code goes on to insert. The model's lookup cannot fail, and the uniqueness results (`VideosRoute.AddVideoKeepsInvariants`, `PlaylistsRoute.ImportKeepsKeysUnique`) hold only for lookups that answer truthfully.
- PlaylistsRoute.ImportPlaylist: the result of the membership insert is not checked by the code, so the model treats that insert as always succeeding.
- The request body's JSON parsing: a malformed body throws into the 500 handler; the model takes the parsed fields as parameters.
- The `'Failed to add video'` and `'Failed to add playlist'` messages for thrown values that are not `Error` objects; every provider failure carries a message in the model.
- The GET list handlers (app/api/videos/route.ts:69-99, app/api/playlists/route.ts:103-133) only order rows by database timestamps, and timestamps are not modelled.
- Playlist refresh, playlist delete and video delete: their handlers (`app/api/playlists/[id]/refresh/route.ts`, `app/api/playlists/[id]/route.ts`, `app/api/videos/[id]/route.ts`) are not part of this model.
- React rendering, the login, signup and home pages, the navigation bar, the cards, the add-content dialog (which only calls the extractors before a fetch) and the YouTube iframe player lifecycle (components/VideoPlayer.tsx:33-70).
- `Math.random`: abstracted as an arbitrary `pick` function, so the model says nothing about the distribution of shuffles.
- JavaScript number semantics: durations and indices are unbounded integers. Loss of precision beyond 2^53 in `parseInt` and arithmetic, and a `NaN` index from a non-numeric `index` parameter, are not modelled; the index is an arbitrary integer.
- YouTube.ParseDuration: `parseInt(match[k])` reads the digits before the unit letter; the model reads the same digits directly. Only the `PT` subset is read, as in the code; date parts are not.
- Database row ids are modelled as natural numbers drawn from a counter, in place of UUID strings.
