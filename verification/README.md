# chakras, modelled in Dafny

chakras is a music web app. An Express/MongoDB back end keeps songs,
users and their playlists. A React front end browses the library, plays a
queue of songs and builds playlists. This project models the app's decision
logic as pure Dafny functions over immutable data and proves what that logic
promises:

- the player's queue and transport state machine (`AudioContext`);
- the queue panel's "now playing" and "next up" view;
- the playlist routes of the back end, the Favorites cleanup script and the
  album aggregation;
- the per-file decisions of the music-folder scanner;
- the client-side selection, validation and "is this collection playing"
  selectors of the pages and cards;
- the song row, the song card and the add-to-playlist menu.

Every service call, media-element call and random draw becomes an input.
A call's outcome is a parameter: success or failure, the list it returns,
whether `play()` started, or the draws of a shuffle.

Modules, one per component of the app:

- `Wrappers`: `Option`, `Result` with an HTTP status.
- `Text`: ASCII lower-casing, trimming, substring search, `split`/`join`,
  decimal printing and parsing.
- `Seqs`: filtering, subsequences, distinctness.
- `Sorting`: a stable lexicographic sort by string keys.
- `Songs`: the song record and id lookups.
- `Player`: `AudioContext.jsx`.
- `PlayerProps`: multi-step properties of the player.
- `ShuffleSplice`: the shuffle-on path of `toggleShuffle` exactly as written.
- `QueueView`: `QueueDisplay.jsx`.
- `Durations`: the clock and hours/minutes formatters.
- `PlaylistRoutes`: `backend/routes/playlists.js`.
- `Cleanup`: `backend/scripts/cleanupPlaylists.js`.
- `AlbumRoutes`: `backend/routes/albums.js`.
- `Scanner`: `backend/seed/scanMusicFolder.js`.
- `Selection`: the two create-playlist pages.
- `Register`: the sign-up form.
- `CollectionViews`: the albums, liked-songs, playlist and search pages and
  the playlist card.
- `SongWidgets`: the song row, the song card and the add-to-playlist menu.
- `CreateFlow`: creating a playlist from a selection and adding its songs
  through the add-song route.

The model follows the code as written; in particular:

- `skipToNext` always wraps to the first track, even with repeat off.
- With shuffle on, `playQueue` starts whatever track the shuffle puts at
  the start index, not the requested one.
- Setting the volume to 0 mutes. Unmuting afterwards stays silent, because
  the stored volume is still 0.
- `seekTo` does not clamp the position.
- The create-playlist page trims the description as well as the name.

## Model

| member | source | states |
|---|---|---|
| Player.ShuffleQueue | frontend/src/context/AudioContext.jsx:144-155 | The Fisher–Yates shuffle, with the draws as input, returns a permutation of the songs, of the same length. |
| Player.ShuffleAround | frontend/src/context/AudioContext.jsx:167-183 | Shuffling around the current index yields a permutation of the queue. The entry at that index stays in place. |
| Player.PlaySong | frontend/src/context/AudioContext.jsx:67-92 | With no song, the state is unchanged. A different song becomes current at position 0. The same id keeps its position. Playing follows whether `play()` started. Queue, volume and flags are untouched. |
| Player.PauseSong | frontend/src/context/AudioContext.jsx:95-100 | Not playing afterwards; nothing else changes. |
| Player.TogglePlayPause | frontend/src/context/AudioContext.jsx:103-109 | Playing pauses. Paused with no current song changes nothing. Paused with a song resumes it when `play()` starts. |
| Player.SeekTo | frontend/src/context/AudioContext.jsx:112-117 | The position becomes the requested time, unclamped; nothing else changes. |
| Player.TimeUpdate | frontend/src/context/AudioContext.jsx:33 | The time-update event leaves the state exactly as `seekTo` to the element's position would. |
| Player.MediaError | frontend/src/context/AudioContext.jsx:46-49 | A media error leaves the state exactly as `pauseSong` would. |
| Player.SetVolume | frontend/src/context/AudioContext.jsx:120-128 | The stored volume is the request clamped to [0, 1]. The player is muted exactly when that volume is 0, and the output volume is the stored one. |
| Player.ToggleMute | frontend/src/context/AudioContext.jsx:131-141 | Flips muting. Never changes the stored volume. The output is 0 when muting and the stored volume when unmuting. |
| Player.ToggleRepeat | frontend/src/context/AudioContext.jsx:158-160 | Flips repeat; nothing else changes. |
| Player.ToggleShuffle | frontend/src/context/AudioContext.jsx:163-197 | Enabling saves the queue as the original and yields a permutation that keeps the current entry and its index. Disabling restores a non-empty original queue, with the index of the current song's first occurrence, or 0 if it is absent. The current song, playback, position, volume and repeat are kept. |
| Player.RestoredIndex | frontend/src/context/AudioContext.jsx:188-196 | The index shuffle-off restores is in range. It is the first entry with the current song's id, or 0 when there is no current song or no such entry. |
| Player.PlayQueue | frontend/src/context/AudioContext.jsx:200-210 | An empty list changes nothing. Otherwise the original queue is the list and the index is the start index. The queue is the list, or a permutation of it with shuffle on. When the start index is in range, the song there is played as by `playSong`: a different song starts at 0, the same one keeps its position, and playing follows whether `play()` started. Past the end nothing is played. |
| Player.SkipToNext | frontend/src/context/AudioContext.jsx:213-219 | An empty queue is a no-op. Otherwise the index becomes (i+1) mod n, so the last track wraps to the first, and that track is current. |
| Player.SkipToPrevious | frontend/src/context/AudioContext.jsx:222-234 | An empty queue is a no-op. Past 3 seconds, only the position resets to 0. Otherwise the index becomes (i-1+n) mod n and that track is current. |
| Player.TrackEnded | frontend/src/context/AudioContext.jsx:35-45 | The listener as evidently intended, reading the live state: with repeat on, the same song restarts at 0; otherwise the transition is exactly `skipToNext`. |
| Player.TrackEndedAsWritten | frontend/src/context/AudioContext.jsx:23-62 | The listener as written reads repeat, queue, cursor and current song from the render that last ran the setup effect. With repeat on it restarts at 0. Otherwise it does nothing when that queue was empty, and moves to the entry after that render's cursor when it was not. |
| PlayerProps.ShuffleOnOffRestoresQueue | frontend/src/context/AudioContext.jsx:163-197 | Turning shuffle on and then off restores the pre-shuffle queue. With unique ids and a current song at its index, the index is restored too. |
| PlayerProps.SkipNextThenPrevious | frontend/src/context/AudioContext.jsx:213-234 | Within the first 3 seconds, next then previous returns to the same index. |
| PlayerProps.SkipNextCycles | frontend/src/context/AudioContext.jsx:213-219 | k skips move the index to (i+k) mod n, so n skips return to the start. |
| PlayerProps.PauseIdempotent | frontend/src/context/AudioContext.jsx:95-100 | Pausing twice equals pausing once. |
| PlayerProps.ToggleMuteTwice | frontend/src/context/AudioContext.jsx:131-141 | Toggling mute twice restores the state and the output volume. |
| PlayerProps.UnmuteAfterZeroVolumeIsSilent | frontend/src/context/AudioContext.jsx:120-141 | After the volume is set to 0, unmuting leaves the output at 0. |
| PlayerProps.ShuffledPlayQueueMayStartElsewhere | frontend/src/context/AudioContext.jsx:200-210 | With shuffle on, `playQueue(songs, 0)` can start a song other than `songs[0]`. |
| PlayerProps.PlaySongKeepsQueue | frontend/src/context/AudioContext.jsx:67-92 | Playing a song keeps the queue and its index. |
| PlayerProps.MediaEventsAreTransportCalls | frontend/src/context/AudioContext.jsx:33-49 | A position update is a seek and a media error is a pause, so neither changes the song. |
| PlayerProps.ToggleRepeatTwice | frontend/src/context/AudioContext.jsx:158-160 | Toggling repeat twice restores the state. |
| PlayerProps.PauseThenResume | frontend/src/context/AudioContext.jsx:103-109 | Toggling a playing song twice, when `play()` starts, returns to the same song at the same position. |
| PlayerProps.SeekOverrides | frontend/src/context/AudioContext.jsx:112-117 | A later seek overrides an earlier one. `skipToPrevious` past 3 seconds is a seek to 0. |
| PlayerProps.StaleListenerDoesNotAdvance | frontend/src/context/AudioContext.jsx:23-62 | Until repeat is toggled, the listener as written sees the first render's empty queue. A track that ends then changes nothing, while `TrackEnded` moves the cursor in a queue of two or more. |
| PlayerProps.FreshListenerIsTrackEnded | frontend/src/context/AudioContext.jsx:35-45 | A listener that reads the live state behaves as `TrackEnded`. |
| ShuffleSplice.SpliceOut | frontend/src/context/AudioContext.jsx:175-176 | `splice(i, 1)` removes entry i when i is in range and returns it. Past the end, the array is unchanged and the removed value is `undefined`. |
| ShuffleSplice.SpliceIn | frontend/src/context/AudioContext.jsx:182 | `splice(i, 0, x)` inserts x at i, or appends it when i is past the end. |
| ShuffleSplice.ShuffleAsWritten | frontend/src/context/AudioContext.jsx:173-183 | In range, it is a permutation that keeps entry i. Past the end, the queue grows by one `undefined` entry. |
| ShuffleSplice.AsWrittenAgreesInRange | frontend/src/context/AudioContext.jsx:173-183 | For an index inside the queue, the shuffle as written equals `Player.ShuffleAround`. |
| ShuffleSplice.AsWrittenDiffersPastEnd | frontend/src/context/AudioContext.jsx:173-183 | For an index past the end, the shuffle as written differs from `Player.ShuffleAround`, which adds no `undefined`. |
| ShuffleSplice.AsWrittenEmptyQueue | frontend/src/context/AudioContext.jsx:173-183 | With an empty queue and a current song, the shuffle as written leaves a queue of one `undefined` entry. |
| QueueView.RefreshAllIsLastNonEmpty | frontend/src/components/ui/QueueDisplay.jsx:17-21 | After any run of queue changes, the copy is the last non-empty queue. |
| QueueView.RefreshAllOfEmpties | frontend/src/components/ui/QueueDisplay.jsx:17-21 | Empty queues leave the copy as it was. |
| QueueView.NextUp | frontend/src/components/ui/QueueDisplay.jsx:71-88 | For i < n, next-up has n-1 entries, entry k is copy[(i+1+k) mod n], and it holds every entry but copy[i]. |
| QueueView.Render | frontend/src/components/ui/QueueDisplay.jsx:54-88 | An empty copy shows the empty panel. Now-playing is shown exactly when queueIndex < queue length, and it is queue[queueIndex]. |
| QueueView.NowPlayingThenNextUpIsRotation | frontend/src/components/ui/QueueDisplay.jsx:54-88 | Now-playing followed by next-up is the queue rotated by i. |
| QueueView.NextUpOmitsOnlyCurrent | frontend/src/components/ui/QueueDisplay.jsx:71-88 | In a queue without repeats, a song is in next-up exactly when it is queued and is not the current entry. |
| QueueView.ClickNextUp | frontend/src/components/ui/QueueDisplay.jsx:71-88 | Clicking a next-up item makes it current and leaves the queue and its index unchanged. |
| Durations.ReadFormatTime | frontend/src/context/AudioContext.jsx:237-241 | `formatTime` prints `m:ss` that reads back to the same number of seconds. |
| Durations.FormatDurationIsFormatTime | frontend/src/pages/Albums.jsx:85-89 | The albums page's `formatDuration` equals the player's `formatTime`. |
| Durations.ReadFormatAlbumDuration | frontend/src/pages/Albums.jsx:92-100 | `"{h}h {m}m"` or `"{m}m"` reads back to the total minus its leftover seconds. |
| Durations.ReadTotalDurationText | frontend/src/pages/LikedSongs.jsx:119-129 | For a non-empty list, `"{h} hr {m} min"` or `"{m} min"` reads back to the summed durations minus the leftover seconds. |
| Durations.ReadEmptyTotalDurationText | frontend/src/pages/Playlist.jsx:72-82 | An empty list shows `0:00`. |
| PlaylistRoutes.Create | backend/routes/playlists.js:27-60 | A missing or empty name gives 400. An unknown user gives 404. An exact name clash gives 400. Otherwise the new empty playlist is appended and the others are kept. |
| PlaylistRoutes.AddSong | backend/routes/playlists.js:63-100 | Unknown user, song or playlist give 404, in that order. A song already present gives 400. Otherwise the id is appended to that playlist only. |
| PlaylistRoutes.RemoveSong | backend/routes/playlists.js:103-129 | An unknown user or playlist gives 404. Otherwise every occurrence of the song is removed, every other id keeps its multiplicity and order, and the other playlists are unchanged. |
| PlaylistRoutes.Delete | backend/routes/playlists.js:132-161 | An unknown playlist gives 404. One named exactly `Favorites` gives 400. Any other found playlist is deleted: the result is Ok, without that id, the rest in order. |
| PlaylistRoutes.AddKeepsSongsDistinct | backend/routes/playlists.js:86-93 | Playlists without repeated song ids keep none after an add. |
| PlaylistRoutes.RemoveSongIdempotent | backend/routes/playlists.js:114-122 | Removing a song twice equals removing it once. |
| PlaylistRoutes.AddThenRemove | backend/routes/playlists.js:63-129 | Removing a song just added restores the playlists. |
| PlaylistRoutes.CreateThenDelete | backend/routes/playlists.js:27-161 | Deleting a playlist just created, under a fresh id and a name other than `Favorites`, restores the list. |
| PlaylistRoutes.DeleteTwiceNotFound | backend/routes/playlists.js:132-161 | A second delete of the same playlist gives 404. |
| Cleanup.CleanupUser | backend/scripts/cleanupPlaylists.js:32-70 | No playlist named `favorites` in any case remains, and all others are kept in order. Variants are only reported. The user is saved exactly when a `favorites` playlist existed. |
| Cleanup.CleanupAll | backend/scripts/cleanupPlaylists.js:24-70 | A run that does not throw: afterwards no user has a `favorites` playlist in any case. Each user keeps exactly their other playlists, and is saved exactly when they had one. |
| Cleanup.CleanupAllIdempotent | backend/scripts/cleanupPlaylists.js:24-70 | A second run over all users saves nobody and changes no playlist. |
| Cleanup.CleanupRun | backend/scripts/cleanupPlaylists.js:24-79 | A run that throws while handling one user ends there: every earlier user is cleaned, and that user and all later ones keep what was stored. |
| Cleanup.CompleteRunIsCleanupAll | backend/scripts/cleanupPlaylists.js:24-79 | A run that does not throw stores what `CleanupAll` leaves. |
| Cleanup.RerunCompletes | backend/scripts/cleanupPlaylists.js:24-79 | Running the script again after a run that threw stores the same as one run that did not throw. |
| Cleanup.CleanupIdempotent | backend/scripts/cleanupPlaylists.js:43-70 | A second cleanup keeps the same playlists and variants and saves nothing. |
| AlbumRoutes.GroupIsReference | backend/routes/albums.js:10-46 | The one-pass grouping equals, per album, the entry built from that album's songs. |
| AlbumRoutes.ListAlbums | backend/routes/albums.js:10-53 | One entry per distinct real album name, sorted by artist then album name. |
| AlbumRoutes.ListAlbumsEntries | backend/routes/albums.js:12-32 | No entry is for `Single`, `Unknown Album` or `''`. The song count equals the number of grouped songs, the total is their summed duration, and the track list is exactly their references. |
| AlbumRoutes.EntryIsReference | backend/routes/albums.js:18-32 | Artist, cover and genre come from the first song of the album in input order. |
| AlbumRoutes.ListAlbumsDistinctNames | backend/routes/albums.js:18-25 | No two entries share an album name. |
| AlbumRoutes.Singles | backend/routes/albums.js:66-71 | Exactly the songs whose album is `Single`, `''` or `Unknown Album`, sorted by artist then title. |
| AlbumRoutes.EverySongClassifiedOnce | backend/routes/albums.js:12-16 | Every song is in exactly one of: album, single, no album. |
| AlbumRoutes.AlbumByName | backend/routes/albums.js:84-90 | No matching song gives 404. Otherwise the matching songs are returned sorted by title. |
| AlbumRoutes.AlbumPageMatchesEntry | backend/routes/albums.js:18-90 | An album's page lists as many songs as its entry counts. |
| Scanner.Extname | backend/seed/scanMusicFolder.js:41 | The extension is the text from the last dot, when that dot is not the first character, and is otherwise empty. |
| Scanner.Basename | backend/seed/scanMusicFolder.js:47 | Strips the given suffix exactly when the name ends with it and is longer. |
| Scanner.AsWrittenFallbackTitle | backend/seed/scanMusicFolder.js:47 | The fallback title as written strips only the lower-cased extension. |
| Scanner.AsWrittenKeepsUpperCaseExtension | backend/seed/scanMusicFolder.js:41-47 | `Song.MP3` is accepted as audio, yet its fallback title as written is `Song.MP3`. |
| Scanner.FallbackTitle | backend/seed/scanMusicFolder.js:47 | The title followed by the file's extension is the file name; an audio file's title is strictly shorter. |
| Scanner.FallbackTitlesAgree | backend/seed/scanMusicFolder.js:47 | For a lower-case extension, both fallback titles agree. |
| Scanner.Round | backend/seed/scanMusicFolder.js:51 | `Math.round`: the nearest integer, with halves rounding up. |
| Scanner.RecordedDuration | backend/seed/scanMusicFolder.js:51 | The rounded duration, or 180 when it is missing or rounds to 0; never 0. |
| Scanner.Sanitize | backend/seed/scanMusicFolder.js:58 | Keeps the length, keeps ASCII letters and digits, and makes every other character `_`. |
| Scanner.CoverExt | backend/seed/scanMusicFolder.js:57 | The lower-cased last `/`-segment of the MIME type. It has no slash and no upper case. |
| Scanner.StoredPath | backend/seed/scanMusicFolder.js:77 | Same length; no backslash is left. |
| Scanner.MakeRecord | backend/seed/scanMusicFolder.js:44-94 | Every field has its default. The fallback title is the one written, cutting only a lower-case extension. A failed parse gives `Unknown Artist`/`Unknown Album`/`Unknown`, 180 and no cover. A cover is recorded exactly when a picture exists and was written. |
| Scanner.MakeRecordDefaults | backend/seed/scanMusicFolder.js:46-94 | Metadata naming nothing gives the failed-parse record except the genre (`Unknown Genre` against `Unknown`). With a lower-case extension, the title plus the extension is the file name. |
| Scanner.ScanDirectory | backend/seed/scanMusicFolder.js:20-105 | An unreadable folder or a failed `stat` gives no records. Every record has sound fields. |
| Scanner.ScanEntries | backend/seed/scanMusicFolder.js:27-97 | Fails exactly when a later entry's `stat` fails. Subfolders are entered only below depth 3. |
| Scanner.ScanShallowDirectory | backend/seed/scanMusicFolder.js:27-97 | Without subfolders to enter, the result is one record per audio file, in listing order, each built by `MakeRecord` with the fallback title as written. |
| Scanner.UnreadableSubdirectoryIsSkipped | backend/seed/scanMusicFolder.js:31-37 | An unreadable subfolder contributes nothing and does not stop the scan. |
| Scanner.DirectoryDepth | backend/seed/scanMusicFolder.js:31-37 | No returned path is nested deeper than 3 folders. |
| Scanner.ScanCount | backend/seed/scanMusicFolder.js:20-105 | In a tree where every `stat` succeeds, the scan yields one record per audio file reachable within the depth bound, at any nesting, with unreadable folders counting none. |
| Scanner.AlbumCount | backend/seed/scanMusicFolder.js:187 | The number of distinct albums other than `Unknown Album`. It is zero exactly when every album is unknown. |
| Scanner.ArtistCount | backend/seed/scanMusicFolder.js:188 | The number of distinct artists other than `Unknown Artist`. It is zero exactly when every artist is unknown. |
| Scanner.UnparsedFilesCountNothing | backend/seed/scanMusicFolder.js:81-94 | Files whose metadata failed add to neither count. |
| Selection.Toggle | frontend/src/pages/CreatePlaylistNew.jsx:49-63 | An absent id is appended. A present one is removed once, keeping the order. Other ids are unaffected and ids stay unique. |
| Selection.ToggleTwice | frontend/src/pages/CreatePlaylist.jsx:37-51 | Toggling an absent song twice restores the selection. |
| Selection.IsSelected | frontend/src/pages/CreatePlaylist.jsx:85-87 | True exactly when some selected song has the id. |
| Selection.RemoveFromSelection | frontend/src/pages/CreatePlaylistNew.jsx:65-67 | Drops every entry with the id and keeps every other entry as often as it occurred, in order; ids stay unique. |
| Selection.AddAllFiltered | frontend/src/pages/CreatePlaylistNew.jsx:147-154 | The selection is an unchanged prefix. What follows is exactly the listed songs not yet selected, in order, so every listed id ends up selected. |
| Selection.AddAllKeepsUniqueIds | frontend/src/pages/CreatePlaylistNew.jsx:147-154 | Adding all keeps selection ids unique. |
| Selection.FilterSongs | frontend/src/pages/CreatePlaylistNew.jsx:156-160 | A song is kept exactly when its title, artist or present album contains the term case-insensitively. The order is preserved. |
| Selection.EmptyTermListsAll | frontend/src/pages/CreatePlaylistNew.jsx:156-160 | The empty term lists the whole library. |
| Selection.CheckImage | frontend/src/pages/CreatePlaylistNew.jsx:69-93 | Accepted exactly when the MIME type starts with `image/` and the size is at most 5 MiB. |
| Selection.ChooseCover | frontend/src/pages/CreatePlaylistNew.jsx:69-93 | A rejected file leaves the cover unchanged. |
| Selection.CoverLimitIsInclusive | frontend/src/pages/CreatePlaylistNew.jsx:77-82 | Exactly 5 MiB is accepted and one byte more is too large. |
| Selection.ValidateCreate | frontend/src/pages/CreatePlaylist.jsx:53-62 | A name blank after trimming is reported first, then an empty selection. Otherwise the result carries the trimmed name, which only the newer page sends; the older page posts the name as typed (`CreateFlow.OlderCreate`). |
| Selection.CreateRequest | frontend/src/pages/CreatePlaylistNew.jsx:95-114 | A request is made exactly when validation passes, with the name and description trimmed. |
| Selection.CreateRequestOfTrimmed | frontend/src/pages/CreatePlaylistNew.jsx:95-114 | Trimming name and description before submitting changes nothing. |
| Selection.EnabledMeansValid | frontend/src/pages/CreatePlaylist.jsx:151 | An enabled save button implies a valid form. When not saving, disabled means invalid. |
| Selection.AddSelectionSwallowing | frontend/src/pages/CreatePlaylistNew.jsx:116-146 | Every selected id is attempted in order. What was added is the failures' complement, a subsequence of the selection. |
| Selection.FirstFailure | frontend/src/pages/CreatePlaylist.jsx:64-82 | The first failing position, or the length when none fails. |
| Selection.AddSelectionAborting | frontend/src/pages/CreatePlaylist.jsx:64-82 | The adds stop at the first failure. What was added is the prefix before it, and the calls are that prefix plus the failing one. |
| Selection.AbortingAddsPrefixOfSwallowing | frontend/src/pages/CreatePlaylist.jsx:64-82 | What the older page adds is a prefix of what the newer page adds for the same outcomes; with no failure both add every id. |
| Selection.AllFailing | frontend/src/pages/CreatePlaylistNew.jsx:116-146 | When every add fails, the newer page adds nothing and the older one stops at the first id. |
| Register.Validate | frontend/src/pages/Register.jsx:24-40 | Passes exactly when all fields are filled, the passwords match and the password has at least 6 characters. Otherwise the first failing message wins, in that order. |
| Register.FirstFailing | frontend/src/pages/Register.jsx:27-40 | No message exactly when every check passes. Otherwise the message of a failing check all of whose predecessors pass. |
| Register.Submit | frontend/src/pages/Register.jsx:22-48 | The form error is cleared first, so only the form and the call's outcome matter. `register` is called exactly when validation passes, with only username, email and password. It navigates exactly on success. A rejection shows its message or `Registration failed`. |
| Register.ValidateIsFirstFailing | frontend/src/pages/Register.jsx:27-40 | Validation equals the first failing check of the ordered list missing fields, mismatch, length: each message is shown only when every earlier check passes. |
| Register.InvalidFormIgnoresOutcome | frontend/src/pages/Register.jsx:27-47 | A form that fails validation makes no call and does not navigate, so the call's outcome changes nothing. |
| CollectionViews.SameIdsInOrder | frontend/src/pages/LikedSongs.jsx:93-105 | True exactly when the two id sequences are equal. |
| CollectionViews.InOrderImpliesAnyOrder | frontend/src/pages/Albums.jsx:56-66 | Position-wise equal ids also pass the order-insensitive test. |
| CollectionViews.AnyOrderIgnoresPermutation | frontend/src/components/ui/PlaylistCard.jsx:11-25 | The order-insensitive test is unaffected by reordering the queue. |
| CollectionViews.AnyOrderMissesRepeats | frontend/src/components/ui/PlaylistCard.jsx:17-24 | A queue with a repeated song passes the order-insensitive test for a list it does not equal. |
| CollectionViews.AlbumPlayPause | frontend/src/pages/Albums.jsx:69-81 | Pauses exactly when the album is queued in any order and playing. Otherwise it plays the fetched album songs from the start, or does nothing when the fetch fails. |
| CollectionViews.AlbumButtonNeverPlays | frontend/src/pages/Albums.jsx:69-81 | With the fetch failing, as it always does without an album service, the button pauses a playing album and otherwise does nothing; it never plays. |
| CollectionViews.CardPlayPause | frontend/src/components/ui/PlaylistCard.jsx:27-36 | Pauses exactly when the playlist is queued in any order and playing; otherwise plays it from the start. |
| CollectionViews.PlayAll | frontend/src/pages/LikedSongs.jsx:108-116 | An empty list does nothing. It pauses exactly when the list is queued in order and playing; otherwise it plays the list. |
| CollectionViews.SearchPlayAll | frontend/src/pages/Search.jsx:60-68 | No results does nothing. It pauses exactly when the results are playing; otherwise it plays them. |
| CollectionViews.PlayAllToggles | frontend/src/pages/Playlist.jsx:61-69 | With shuffle off, after play-all the list is queued in order, and the next click does the opposite command. |
| CollectionViews.ShuffledAlbumIsRecognised | frontend/src/pages/Albums.jsx:56-66 | An album played with shuffle on is still recognised as queued. |
| CollectionViews.ShuffleKeepsAnyOrderMatch | frontend/src/components/ui/PlaylistCard.jsx:11-25 | Turning shuffle on keeps an order-insensitive match. |
| CollectionViews.ShuffleCanEndInOrderMatch | frontend/src/pages/Playlist.jsx:46-58 | Shuffling can make the in-order test fail for the list just played. |
| CollectionViews.FetchLiked | frontend/src/pages/LikedSongs.jsx:21-62 | Without a token there is no fetch and an error. A list response is shown. Any other value gives an empty list, and a rejection gives the 401 or the generic error. Loading is always off afterwards. |
| CollectionViews.GetFavorites | frontend/src/services/api.js:68-89 | The favorites service always yields a list. It is the answer's array only with a stored token and an array body; otherwise it is empty. |
| CollectionViews.LikedPageHidesFetchErrors | frontend/src/pages/LikedSongs.jsx:21-62 | With the service as written, a logged-in visit never shows an error. A failed fetch shows the same empty page as having no liked songs. |
| CollectionViews.FindPlaylist | frontend/src/pages/Playlist.jsx:23-31 | The first playlist with the route id, or none exactly when no id matches. |
| CollectionViews.LoadPlaylist | frontend/src/pages/Playlist.jsx:18-43 | A failed fetch sets `Failed to load playlist`. No match sets `Playlist not found`. A match shows that playlist. Either error keeps the playlist shown before. |
| CollectionViews.HandleSearch | frontend/src/pages/Search.jsx:16-43 | A blank query clears the results without a fetch. Otherwise the results are the matching library songs, in library order. A failed fetch keeps the previous results. |
| CollectionViews.CoverImages | frontend/src/components/ui/PlaylistCard.jsx:48-57 | Always 4 entries. The first min(4, n) are the songs' cover URLs and the rest are empty. |
| CreateFlow.AddEachUnknown | backend/routes/playlists.js:63-83 | Every add sent to a playlist id that no playlist has is refused with 404, and the playlists stay as they were. |
| CreateFlow.AsWrittenAddsNothing | backend/routes/playlists.js:55 | The create reply has no `_id`, so the newer page sends every add to the playlist `undefined`. Every add is refused, and the new playlist stays empty. |
| CreateFlow.AsWrittenPagesAddNothing | frontend/src/pages/CreatePlaylistNew.jsx:116-146 | As written, the newer page adds none of the selection. |
| CreateFlow.CorrectedAddsAll | backend/routes/playlists.js:48-55 | Reading the id of the playlist just pushed, the adds of distinct ids all succeed, and the new playlist holds exactly the selection in order. |
| CreateFlow.OlderCreate | frontend/src/pages/CreatePlaylist.jsx:68 | The older page posts the bare name. The strict JSON parser accepts it only when it is JSON text opening an object or an array; otherwise the answer is 500. A created playlist gets the parsed `name` member. |
| CreateFlow.AddUntilRefused | frontend/src/pages/CreatePlaylist.jsx:71-73 | The adds sent are a prefix of the selection, all of it when none is refused. For an unknown playlist only the first add is sent. |
| CreateFlow.OlderPageSave | frontend/src/pages/CreatePlaylist.jsx:64-82 | A refused create sends no add and stores nothing. The adds sent are a prefix of the selection, and success means every add was sent. |
| CreateFlow.OlderPageFailsAtCreate | frontend/src/pages/CreatePlaylist.jsx:53-82 | For every name the checks let through, other than the JSON text of an object or an array, the create gets 500. No add is sent, nothing is stored, and the page reports failure. |
| SongWidgets.HandlePlayAsWritten | frontend/src/components/ui/SongRow.jsx:42-58 | Current and playing pauses. Current and paused calls `playSong()` without a song. Otherwise it plays the given list from the row's index, or the song alone. |
| SongWidgets.PausedRowClickDoesNothing | frontend/src/components/ui/SongRow.jsx:47-50 | As written, clicking the paused current row leaves the player state unchanged. |
| SongWidgets.HandlePlay | frontend/src/components/ui/SongRow.jsx:42-58 | The same choices, but a paused current row resumes the current song. |
| SongWidgets.PausedRowClickResumes | frontend/src/components/ui/SongRow.jsx:47-50 | Corrected, clicking the paused current row resumes it at the same position. |
| SongWidgets.RowClickPlaysThatSong | frontend/src/components/ui/SongRow.jsx:51-57 | With shuffle off, clicking a row of a list queues that list and makes the clicked song current. |
| SongWidgets.IsFavorite | frontend/src/components/ui/SongRow.jsx:26-32 | Liked exactly when the favorites response is a list holding the song's id. |
| SongWidgets.LikedPageAgreesWithRows | frontend/src/pages/LikedSongs.jsx:21-62 | For the same favorites answer, the liked-songs page lists a song exactly when its row shows it liked. |
| SongWidgets.RowDisagreesAfterFailure | frontend/src/components/ui/SongRow.jsx:61-83 | As written, a row that agreed with the server shows the opposite of the server's favourites after a failed call. |
| SongWidgets.RowToggleLike | frontend/src/components/ui/SongRow.jsx:61-83 | Corrected, the flag flips on success and stays on failure. |
| SongWidgets.ServerAfter | frontend/src/services/api.js:92-133 | The server's favourites after an add or remove: on success the song is or is not a favourite, on failure nothing changes, and no other song is affected. |
| SongWidgets.SongsStatus | backend/routes/songs.js:1-16 | `/api/songs` answers `GET /` with the listing's status and every other request with 404. |
| SongWidgets.FavoritesCall | frontend/src/services/api.js:92-133 | The add and remove services succeed exactly on a 2xx status. |
| SongWidgets.EveryLikeFailsWithoutRoute | frontend/src/components/ui/SongRow.jsx:24-83 | With no favorites route, every row and card starts not liked, every add and remove fails, and the server's favourites never change. Yet the row as written shows the song liked after a click, while the card does not. |
| SongWidgets.RowTracksServer | frontend/src/components/ui/SongRow.jsx:61-83 | Corrected, a row that agreed with the server's favourites before the click agrees with them after the call, on success and on failure. |
| SongWidgets.RowCoverUrl | frontend/src/components/ui/SongRow.jsx:114-122 | No picture for an empty or default cover. An `http` cover is used as is. With a file path, the URL is the `cover.jpg` in the file's folder. Otherwise it is the uploads URL. |
| SongWidgets.FolderAndName | frontend/src/components/ui/SongRow.jsx:117-119 | The folder part followed by `/` and a slash-free name is the stored path; a path without a slash has an empty folder. |
| SongWidgets.SongCardPlayPause | frontend/src/components/ui/SongCard.jsx:45-55 | Pauses exactly when the song is current and playing; otherwise it plays the song alone. |
| SongWidgets.CardClickPlays | frontend/src/components/ui/SongCard.jsx:45-55 | A click on a song not playing makes it the current, playing song. |
| SongWidgets.CardToggleLike | frontend/src/components/ui/SongCard.jsx:58-103 | Logged out: no call, no change. Logged in: the flag flips at once. After success it stays flipped, after failure it reverts, and `onLike` runs either way. |
| SongWidgets.CardTracksServer | frontend/src/components/ui/SongCard.jsx:58-103 | A card that agreed with the server's favourites agrees with them after every call, like the corrected row. |
| SongWidgets.Membership | frontend/src/components/ui/AddToPlaylistMenu.jsx:23-28 | One key per fetched playlist id. The last playlist with an id says whether it holds the song's id. |
| SongWidgets.OpenMenu | frontend/src/components/ui/AddToPlaylistMenu.jsx:13-40 | A closed menu fetches nothing. A fetch builds the membership map, and a failure sets an error. |
| SongWidgets.OpenedMenuCallsOnlyForMissing | frontend/src/components/ui/AddToPlaylistMenu.jsx:13-57 | Once the menu has fetched, it calls the add service for a listed playlist exactly when that playlist lacks the song. |
| SongWidgets.AddToPlaylist | frontend/src/components/ui/AddToPlaylistMenu.jsx:43-57 | A playlist already marked makes no call. Success marks only that playlist, failure changes nothing, and other entries never change. |
| SongWidgets.AddTwiceCallsOnce | frontend/src/components/ui/AddToPlaylistMenu.jsx:43-57 | After a successful add, adding again makes no call. |

## Left out

- HTTP, MongoDB and Express plumbing. Service calls, queries, `save`/`populate` and the aggregation engine are replaced by their results, given as inputs.
- The HTML `Audio` element, `play()`'s promise and the media URL. Whether playback started is a boolean input.
- `Math.random`: the shuffle takes its draws as a parameter, so every draw sequence gives a permutation.
- Player.ToggleRepeat: the audio element is re-created whenever repeat changes, because the setup effect depends on it. This is not modelled.
- Player.TrackEnded: models the `ended` listener as evidently intended, reading the live state. The listener as written is `Player.TrackEndedAsWritten`: it reads the render that last ran the setup effect, so until repeat is toggled a track that ends does not advance (see Findings).
- Player.ToggleShuffle: enabling shuffle uses the corrected `ShuffleAround`. When a current song's `queueIndex` is at or past the end, the source appends an `undefined` entry instead (`ShuffleSplice.ShuffleAsWritten`, see Findings). A queue of songs cannot hold that entry.
- Durations.FormatTime: takes whole seconds. The player bar passes the fractional position and duration, which `formatTime` floors; the model's input is that floored value.
- Floating-point volume and position are modelled as `real`. `NaN` durations and the progress-bar arithmetic of the player bar are not modelled.
- Text.Lower: lower-casing and trimming are modelled for ASCII only; JavaScript also folds and trims non-ASCII characters.
- Register.Validate: the password length counts characters, whereas JavaScript counts UTF-16 code units.
- AlbumRoutes.ListAlbums: the order of entries whose artist and album name are both equal is the stable sort's. MongoDB does not promise an order for such ties.
- Scanner.Extname: names made only of dots, such as `..`, are not treated specially beyond the leading-dot rule.
- Scanner.MakeRecord: a picture without a MIME format, which would throw in the source, is not modelled.
- Scanner.ScanDirectory: the folder is a finite tree; symbolic-link cycles and the file system's changes during a scan are not modelled. The path separator is fixed to `\`, as on the Windows machine the scanner's music folder names.
- The scanner's metadata reading, cover writes and seed-file generation are inputs or left out. Whether a cover write succeeded is an input.
- Toasts, console output, loading spinners and the periodic refresh of the liked-songs page.
- The cover upload call after creating a playlist.
- Selection.AddSelectionSwallowing: which adds fail is given as a set of positions. `CreateFlow.AddEach` computes that set from the add-song route for the id the pages send.
- Cleanup.CleanupAll: a run that throws, through a failed `save` or a playlist without a name, is `Cleanup.CleanupRun`, with the position of the throw as an input.
- Scanner.Sanitize: replaces each character with one `_`. The regular expression has no `u` flag, so JavaScript writes one `_` per UTF-16 code unit, two for a character outside the Basic Multilingual Plane such as an emoji. Cover file names are therefore modelled exactly only for such names without those characters.
- CollectionViews.FetchLiked: the page's 401 and generic-error branches are modelled, but the favorites service as written never rejects (`CollectionViews.GetFavorites`), so they cannot occur; `CollectionViews.LikedPageHidesFetchErrors` states the combination.
- CreateFlow.OlderCreate: JSON parsing is not modelled. Whether the bare name is already JSON text, and the `name` member of what an accepted body parses to, are inputs. The older page is not the one the router shows: `App.jsx` imports the newer page under its name.
- SongWidgets.ServerAfter: no favorites route exists. `backend/routes/songs.js` defines only `GET /`, so every `/api/songs/favorites` call answers 404 (`SongWidgets.EveryLikeFailsWithoutRoute`). The success branch of `ServerAfter`, `RowTracksServer` and `CardTracksServer` therefore never occurs in the program; it states what a successful add or remove would mean.
- CollectionViews.AlbumPlayPause: `api.js` exports no `albumService`, so `getAlbumSongs` never returns songs and the play branch cannot occur (`CollectionViews.AlbumButtonNeverPlays`). The router has no `/albums` route either: the sidebar link to it falls through to the redirect home.

## Findings

| source | as written | input that shows it | evidently intended | confidence | as-written member | corrected member |
|---|---|---|---|---|---|---|
| frontend/src/components/ui/SongRow.jsx:47-50 | A paused current row calls `playSong()` with no song, and `playSong` returns at once without one. | The current song is paused and its row is clicked. | The row resumes the current song. | not executed | SongWidgets.PausedRowClickDoesNothing | SongWidgets.PausedRowClickResumes |
| frontend/src/components/ui/SongRow.jsx:64-73 | The liked flag is flipped after the call whatever its `success` says. The favorites service reports failure through that flag, not by throwing. | Any like: no favorites route exists, so every call answers 404 and `{ success: false }`. | The flag flips only on success, as on the song card. | not executed | SongWidgets.RowDisagreesAfterFailure | SongWidgets.RowTracksServer |
| frontend/src/context/AudioContext.jsx:173-183 | Enabling shuffle with a current song splices at `queueIndex` even when it is past the end of the queue. The removed value is then `undefined`, and it is inserted back. | A song is current and `queueIndex` is at or past the queue's end, as `playQueue(songs, k)` with `k >= songs.length` leaves it; then shuffle is enabled. | The queue is left a permutation of itself. | not executed | ShuffleSplice.AsWrittenDiffersPastEnd | Player.ShuffleAround |
| backend/seed/scanMusicFolder.js:41-47 | The audio test lower-cases the extension, but the fallback title strips that lower-cased extension, which an upper-case file name does not end with. | `Song.MP3` without a title tag. | The title is `Song`. | not executed | Scanner.AsWrittenKeepsUpperCaseExtension | Scanner.FallbackTitle |
| frontend/src/context/AudioContext.jsx:23-62 | The `ended` listener is installed by an effect that reruns only when repeat changes. It calls the `skipToNext` of the render that installed it, which reads that render's queue: the empty queue at mount. | A queue of two or more songs is played, repeat is never toggled, and a track ends. | The player moves on to the next track, as `skipToNext` on the live state does. | not executed | PlayerProps.StaleListenerDoesNotAdvance | PlayerProps.FreshListenerIsTrackEnded |
| backend/routes/playlists.js:55 | The create route answers with the user's whole list of playlists and no `_id`. The newer page reads `response._id` and sends every add to `/playlists/undefined`, which answers 404. | A playlist is created with a non-empty selection. | The new playlist holds the selected songs. | not executed | CreateFlow.AsWrittenPagesAddNothing | CreateFlow.CorrectedAddsAll |
