/**
 * The pages and cards that show a collection of songs (an album, the liked
 * songs, a playlist, the search results): how each decides that "its"
 * collection is the one in the player, what its play-all button asks the
 * player to do, and the loading logic around them. Service responses are
 * inputs.
 */
module CollectionViews {
  import opened Wrappers
  import opened Seqs
  import opened Text
  import opened Songs
  import opened Player
  import opened Selection

  // ------------------------------------------------------------ id matching

  /** `queueIds.length === ids.length && queueIds.every((id, i) => id === ids[i])`. */
  function SameIdsInOrder(queue: seq<Song>, list: seq<Song>): (b: bool)
    ensures b <==> Ids(queue) == Ids(list)
  {
    var result := |queue| == |list| && forall k :: 0 <= k < |queue| ==> queue[k].id == list[k].id;
    assert result ==> Ids(queue) == Ids(list);
    assert Ids(queue) == Ids(list) ==> forall k :: 0 <= k < |queue| ==> Ids(queue)[k] == Ids(list)[k];
    result
  }

  /** `queueIds.length === ids.length && queueIds.every(id => ids.includes(id))`. */
  predicate SameIdsAnyOrder(queue: seq<Song>, list: seq<Song>) {
    |queue| == |list| && forall k :: 0 <= k < |queue| ==> HasId(list, queue[k].id)
  }

  /** The ordered check implies the unordered one. */
  lemma InOrderImpliesAnyOrder(queue: seq<Song>, list: seq<Song>)
    requires SameIdsInOrder(queue, list)
    ensures SameIdsAnyOrder(queue, list)
  {
    forall k | 0 <= k < |queue|
      ensures HasId(list, queue[k].id)
    {
      assert Ids(queue)[k] == Ids(list)[k];
    }
  }

  /** Reordering the queue never changes the unordered check. */
  lemma AnyOrderIgnoresPermutation(queue: seq<Song>, reordered: seq<Song>, list: seq<Song>)
    requires multiset(reordered) == multiset(queue)
    ensures SameIdsAnyOrder(reordered, list) == SameIdsAnyOrder(queue, list)
  {
    assert |reordered| == |multiset(reordered)| == |multiset(queue)| == |queue|;
    if SameIdsAnyOrder(queue, list) {
      forall k | 0 <= k < |reordered|
        ensures HasId(list, reordered[k].id)
      {
        assert reordered[k] in multiset(queue);
        var j :| 0 <= j < |queue| && queue[j] == reordered[k];
      }
    }
    if SameIdsAnyOrder(reordered, list) {
      forall k | 0 <= k < |queue|
        ensures HasId(list, queue[k].id)
      {
        assert queue[k] in multiset(reordered);
        var j :| 0 <= j < |reordered| && reordered[j] == queue[k];
      }
    }
  }

  /** The unordered check does not notice a repeated id: a queue playing one
      song twice matches a two-song album whose other song it never plays. */
  lemma AnyOrderMissesRepeats(a: Song, b: Song)
    requires a.id != b.id
    ensures SameIdsAnyOrder([a, a], [a, b])
    ensures !SameIdsInOrder([a, a], [a, b])
  {
    assert [a, b][0].id == a.id;
    assert Ids([a, a])[1] != Ids([a, b])[1];
  }

  // ------------------------------------------------------------ "is playing"

  /** `isAlbumPlaying` of the albums page and `isCurrentPlaylist` of the
      playlist card: a current song, a non-empty queue and collection, and the
      same ids in any order. */
  predicate QueuedAnyOrder(s: PlayerState, songs: seq<Song>) {
    s.currentSong.Some? && |s.queue| > 0 && |songs| > 0 && SameIdsAnyOrder(s.queue, songs)
  }

  /** `isCurrentPlaylist` of the liked-songs and playlist pages: the same, but
      position by position. */
  predicate QueuedInOrder(s: PlayerState, songs: seq<Song>) {
    s.currentSong.Some? && |s.queue| > 0 && |songs| > 0 && SameIdsInOrder(s.queue, songs)
  }

  /** `isSearchResultsPlaying`: no current-song check, but the player must be
      playing. */
  predicate ResultsArePlaying(s: PlayerState, results: seq<Song>) {
    |results| > 0 && |s.queue| > 0 && s.isPlaying && SameIdsInOrder(s.queue, results)
  }

  // ------------------------------------------------------------ play buttons

  /** What a play button asks of the player. */
  datatype Command = Nothing | Pause | PlayFromStart(songs: seq<Song>)

  /** Carries out a command; `rolls` and `started` are those of `playQueue`. */
  function Apply(s: PlayerState, c: Command, rolls: seq<nat>, started: bool): (r: PlayerState)
    ensures c.Nothing? ==> r == s
    ensures c.Pause? ==> r == PauseSong(s)
    ensures c.PlayFromStart? ==> r == PlayQueue(s, c.songs, 0, rolls, started)
  {
    match c
    case Nothing => s
    case Pause => PauseSong(s)
    case PlayFromStart(songs) => PlayQueue(s, songs, 0, rolls, started)
  }

  /** `handleAlbumPlayPause`: pause when the album is queued and playing,
      otherwise play the album's songs as fetched from the server; a failed
      fetch (`None`) only shows a message. */
  function AlbumPlayPause(s: PlayerState, albumSongs: seq<Song>, fetched: Option<seq<Song>>): (c: Command)
    ensures c.Pause? <==> QueuedAnyOrder(s, albumSongs) && s.isPlaying
    ensures !c.Pause? && fetched.Some? ==> c == PlayFromStart(fetched.value)
    ensures !c.Pause? && fetched.None? ==> c == Nothing
  {
    if QueuedAnyOrder(s, albumSongs) && s.isPlaying then Pause
    else if fetched.Some? then PlayFromStart(fetched.value)
    else Nothing
  }

  /** `handlePlayPause` of the playlist card: the same rule on its own songs. */
  function CardPlayPause(s: PlayerState, songs: seq<Song>): (c: Command)
    ensures c.Pause? <==> QueuedAnyOrder(s, songs) && s.isPlaying
    ensures !c.Pause? ==> c == PlayFromStart(songs)
  {
    AlbumPlayPause(s, songs, Some(songs))
  }

  /** `handlePlayAll` of the liked-songs and playlist pages. */
  function PlayAll(s: PlayerState, songs: seq<Song>): (c: Command)
    ensures |songs| == 0 <==> c.Nothing?
    ensures c.Pause? <==> |songs| > 0 && QueuedInOrder(s, songs) && s.isPlaying
    ensures c.PlayFromStart? ==> c.songs == songs
  {
    if |songs| == 0 then Nothing
    else if QueuedInOrder(s, songs) && s.isPlaying then Pause
    else PlayFromStart(songs)
  }

  /** `handlePlayAll` of the search page. */
  function SearchPlayAll(s: PlayerState, results: seq<Song>): (c: Command)
    ensures |results| == 0 <==> c.Nothing?
    ensures c.Pause? <==> ResultsArePlaying(s, results)
    ensures c.PlayFromStart? ==> c.songs == results
  {
    if |results| == 0 then Nothing
    else if ResultsArePlaying(s, results) then Pause
    else PlayFromStart(results)
  }

  /** With shuffle off, pressing play-all on a non-empty list leaves that
      list the current one, in order, and the button then does the opposite:
      after starting playback it pauses, after pausing it plays again. */
  lemma PlayAllToggles(s: PlayerState, songs: seq<Song>, rolls: seq<nat>)
    requires |songs| > 0 && !s.isShuffle
    ensures QueuedInOrder(Apply(s, PlayAll(s, songs), rolls, true), songs)
    ensures PlayAll(Apply(s, PlayAll(s, songs), rolls, true), songs)
            == (if PlayAll(s, songs).Pause? then PlayFromStart(songs) else Pause)
  {
    var c := PlayAll(s, songs);
    if c.PlayFromStart? {
      var r := PlayQueue(s, songs, 0, rolls, true);
      assert r.queue == songs;
      assert SameIdsInOrder(r.queue, songs);
    } else {
      assert QueuedInOrder(s, songs);
      assert QueuedInOrder(PauseSong(s), songs);
    }
  }

  /** With shuffle on, an album started from the albums page is still
      recognised as playing, since the check ignores order. */
  lemma ShuffledAlbumIsRecognised(s: PlayerState, songs: seq<Song>, rolls: seq<nat>)
    requires |songs| > 0
    ensures QueuedAnyOrder(PlayQueue(s, songs, 0, rolls, true), songs)
  {
    var r := PlayQueue(s, songs, 0, rolls, true);
    SubsequenceOfItself(songs);
    assert SameIdsAnyOrder(songs, songs) by {
      forall k | 0 <= k < |songs|
        ensures HasId(songs, songs[k].id)
      {
      }
    }
    AnyOrderIgnoresPermutation(songs, r.queue, songs);
  }

  /** Turning shuffle on keeps an album or card recognised as playing. */
  lemma ShuffleKeepsAnyOrderMatch(s: PlayerState, songs: seq<Song>, rolls: seq<nat>)
    requires !s.isShuffle && QueuedAnyOrder(s, songs)
    ensures QueuedAnyOrder(ToggleShuffle(s, rolls), songs)
  {
    AnyOrderIgnoresPermutation(s.queue, ToggleShuffle(s, rolls).queue, songs);
  }

  /** Whereas the liked-songs and playlist pages can stop recognising their
      list: a two-song queue with no current entry may be reversed. */
  lemma ShuffleCanEndInOrderMatch(a: Song, b: Song)
    requires a.id != b.id
    ensures ShuffleQueue([a, b], [0]) == [b, a]
    ensures !SameIdsInOrder([b, a], [a, b])
  {
    assert Roll([0], 0) == 0;
    assert Swap([a, b], 1, 0) == [b, a];
    assert Ids([b, a])[0] != Ids([a, b])[0];
  }

  // ------------------------------------------------------------ loading

  /** What `await songService.getFavorites()` may yield as the liked-songs
      page handles it: a list, another value, or a rejection with a status.
      The service as written yields only lists (see `GetFavorites`). */
  datatype FavoritesResponse = FavoritesList(songs: seq<Song>) | NotAList | FetchFailed(status: nat)

  /** What `GET /api/songs/favorites` answers: a body, which is an array of
      songs or not, or an error status. */
  datatype FavoritesAnswer = FavoritesBody(list: Option<seq<Song>>) | FavoritesError(status: nat)

  /** `songService.getFavorites()`: without a stored token no request is
      made and the list is empty; a body that is not an array and every
      error, a 401 included, also give the empty list. It never rejects. */
  function GetFavorites(hasStoredToken: bool, answer: FavoritesAnswer): (r: FavoritesResponse)
    ensures r.FavoritesList?
    ensures hasStoredToken && answer.FavoritesBody? && answer.list.Some? ==> r.songs == answer.list.value
    ensures !(hasStoredToken && answer.FavoritesBody? && answer.list.Some?) ==> r.songs == []
  {
    if !hasStoredToken then FavoritesList([])
    else
      match answer
      case FavoritesBody(list) => FavoritesList(if list.Some? then list.value else [])
      case FavoritesError(_) => FavoritesList([])
  }

  /** Without an album service the album button can pause, but never plays. */
  lemma AlbumButtonNeverPlays(s: PlayerState, albumSongs: seq<Song>)
    ensures !AlbumPlayPause(s, albumSongs, None).PlayFromStart?
    ensures AlbumPlayPause(s, albumSongs, None) == (if QueuedAnyOrder(s, albumSongs) && s.isPlaying then Pause else Nothing)
  {
  }

  datatype LikedPage = LikedPage(liked: seq<Song>, error: Option<string>, loading: bool)

  const LogInToView: string := "Please log in to view your liked songs"
  const SessionExpired: string := "You need to log in to view your liked songs"
  const LoadFailed: string := "Failed to load liked songs. Please try again later."

  /** `fetchLikedSongs`, given whether a token is stored and what the
      request would answer; without a token no request is made. */
  function FetchLiked(page: LikedPage, hasToken: bool, response: FavoritesResponse): (r: LikedPage)
    ensures !r.loading
    ensures !hasToken ==> r == page.(loading := false, error := Some(LogInToView))
    ensures hasToken && response.FavoritesList? ==> r.liked == response.songs && r.error.None?
    ensures hasToken && response.NotAList? ==> r.liked == [] && r.error == page.error
    ensures hasToken && response.FetchFailed? ==>
              r.liked == [] && r.error == Some(if response.status == 401 then SessionExpired else LoadFailed)
  {
    if !hasToken then page.(loading := false, error := Some(LogInToView))
    else
      match response
      case FavoritesList(songs) => LikedPage(songs, None, false)
      case NotAList => LikedPage([], page.error, false)
      case FetchFailed(status) =>
        LikedPage([], Some(if status == 401 then SessionExpired else LoadFailed), false)
  }

  /** With the service as written, a logged-in visit never shows the 401 or
      the generic error: a failed or malformed fetch shows an empty list and
      no error, exactly like a user with no liked songs. */
  lemma LikedPageHidesFetchErrors(page: LikedPage, hasStoredToken: bool, answer: FavoritesAnswer)
    ensures FetchLiked(page, true, GetFavorites(hasStoredToken, answer)).error.None?
    ensures answer.FavoritesError? ==>
              FetchLiked(page, true, GetFavorites(hasStoredToken, answer)) == FetchLiked(page, true, FavoritesList([]))
    ensures FetchLiked(page, true, GetFavorites(hasStoredToken, answer)).liked != [] ==>
              hasStoredToken && answer.FavoritesBody? && answer.list.Some?
  {
  }

  /** A populated playlist as the playlist page receives it. */
  datatype PlaylistDoc = PlaylistDoc(id: string, name: string, songs: seq<Song>)

  /** The position of the first playlist with the id, or -1. */
  function PlaylistIndex(docs: seq<PlaylistDoc>, id: string): (r: int)
    ensures -1 <= r < |docs|
    ensures r >= 0 ==> docs[r].id == id
    ensures forall k :: 0 <= k < |docs| && (r == -1 || k < r) ==> docs[k].id != id
  {
    IndexOfKey(docs, DocId, id)
  }

  function DocId(d: PlaylistDoc): string {
    d.id
  }

  /** `response.find(p => p._id === id)`: the first playlist with the id. */
  function FindPlaylist(docs: seq<PlaylistDoc>, id: string): (r: Option<PlaylistDoc>)
    ensures r.None? <==> forall k :: 0 <= k < |docs| ==> docs[k].id != id
    ensures r.Some? ==> exists k :: 0 <= k < |docs| && docs[k] == r.value && r.value.id == id &&
                          forall j :: 0 <= j < k ==> docs[j].id != id
  {
    var i := PlaylistIndex(docs, id);
    if i >= 0 then Some(docs[i]) else None
  }

  datatype PlaylistPage = PlaylistPage(playlist: Option<PlaylistDoc>, error: Option<string>)

  const PlaylistNotFound: string := "Playlist not found"

  const PlaylistLoadFailed: string := "Failed to load playlist"

  /** The playlist page's fetch, given the user's playlists or `None` when
      `getAllPlaylists` rejects: the matching playlist, or an error (not
      found, or the failed load) with whatever was shown before kept. */
  function LoadPlaylist(page: PlaylistPage, docs: Option<seq<PlaylistDoc>>, id: string): (r: PlaylistPage)
    ensures docs.None? ==> r == page.(error := Some(PlaylistLoadFailed))
    ensures docs.Some? ==> (r.error.None? <==> exists k :: 0 <= k < |docs.value| && docs.value[k].id == id)
    ensures docs.Some? && r.error.Some? ==> r == page.(error := Some(PlaylistNotFound))
    ensures r.error.None? ==> r.playlist.Some? && r.playlist.value.id == id
  {
    match docs
    case None => page.(error := Some(PlaylistLoadFailed))
    case Some(ds) =>
      match FindPlaylist(ds, id)
      case Some(p) => PlaylistPage(Some(p), None)
      case None => page.(error := Some(PlaylistNotFound))
  }

  /** The search page after `handleSearch(query)`: the results, and whether
      the library was fetched. */
  datatype SearchPage = SearchPage(results: seq<Song>, fetched: bool)

  /** `handleSearch`: a blank query empties the results without a request;
      otherwise the library (`None` when the request fails, which keeps the
      old results) is filtered with the query as typed. */
  function HandleSearch(previous: seq<Song>, query: string, library: Option<seq<Song>>): (r: SearchPage)
    ensures AllSpace(query) ==> r == SearchPage([], false)
    ensures !AllSpace(query) ==> r.fetched
    ensures !AllSpace(query) && library.None? ==> r.results == previous
    ensures !AllSpace(query) && library.Some? ==>
              && (forall s :: s in r.results <==> s in library.value && Matches(s, query))
              && IsSubsequence(r.results, library.value)
  {
    if Trim(query) == "" then SearchPage([], false)
    else
      match library
      case None => SearchPage(previous, true)
      case Some(songs) => SearchPage(FilterSongs(songs, query), true)
  }

  // ------------------------------------------------------------ card collage

  const UploadsUrl: string := "http://localhost:5000/uploads/"

  /** The collage picture of one song: its uploaded cover, if it has one. */
  function CollageCover(song: Song): Option<string> {
    if song.coverImage != "" then Some(UploadsUrl + song.coverImage) else None
  }

  /** `coverImages` of the playlist card: the covers of the first four songs,
      padded with `null` up to four entries. */
  method CoverImages(songs: seq<Song>) returns (covers: seq<Option<string>>)
    ensures |covers| == 4
    ensures forall i :: 0 <= i < 4 && i < |songs| ==> covers[i] == CollageCover(songs[i])
    ensures forall i :: |songs| <= i < 4 ==> covers[i].None?
  {
    var firstFour := if |songs| > 4 then songs[..4] else songs;
    covers := seq(|firstFour|, i requires 0 <= i < |firstFour| => CollageCover(firstFour[i]));
    while |covers| < 4
      invariant |firstFour| <= |covers| <= 4
      invariant forall i :: 0 <= i < |firstFour| ==> covers[i] == CollageCover(songs[i])
      invariant forall i :: |firstFour| <= i < |covers| ==> covers[i].None?
      decreases 4 - |covers|
    {
      covers := covers + [None];
    }
  }
}
