/**
 * The widgets that show one song: the table row, the card, and the menu
 * adding a song to one of the user's playlists. Each click becomes an action
 * on the player or a service call whose outcome is an input.
 */
module SongWidgets {
  import opened Wrappers
  import opened Text
  import opened Songs
  import opened Player
  import opened CollectionViews

  /** `currentSong && currentSong._id === song._id`. */
  predicate IsCurrentSong(s: PlayerState, song: Song) {
    s.currentSong.Some? && s.currentSong.value.id == song.id
  }

  // ------------------------------------------------------------ the row

  /** What a click on a row asks of the player. */
  datatype RowAction =
    | PauseRow
    | PlaySongCall(arg: Option<Song>)
    | PlayList(songs: seq<Song>, start: nat)

  function ApplyRow(s: PlayerState, a: RowAction, rolls: seq<nat>, started: bool): (r: PlayerState)
    ensures a.PauseRow? ==> r == PauseSong(s)
    ensures a.PlaySongCall? ==> r == PlaySong(s, a.arg, started)
    ensures a.PlayList? ==> r == PlayQueue(s, a.songs, a.start, rolls, started)
  {
    match a
    case PauseRow => PauseSong(s)
    case PlaySongCall(arg) => PlaySong(s, arg, started)
    case PlayList(songs, start) => PlayQueue(s, songs, start, rolls, started)
  }

  /** `handlePlay` as the row writes it: a paused current row calls
      `playSong()` without an argument. */
  function HandlePlayAsWritten(s: PlayerState, song: Song, index: nat, playlist: Option<seq<Song>>): (a: RowAction)
    ensures IsCurrentSong(s, song) && s.isPlaying <==> a.PauseRow?
    ensures IsCurrentSong(s, song) && !s.isPlaying <==> a == PlaySongCall(None)
    ensures !IsCurrentSong(s, song) ==> a == (if playlist.Some? then PlayList(playlist.value, index) else PlayList([song], 0))
  {
    if IsCurrentSong(s, song) && s.isPlaying then PauseRow
    else if IsCurrentSong(s, song) then PlaySongCall(None)
    else if playlist.Some? then PlayList(playlist.value, index)
    else PlayList([song], 0)
  }

  /** `handlePlay` as evidently meant: a paused current row resumes it. */
  function HandlePlay(s: PlayerState, song: Song, index: nat, playlist: Option<seq<Song>>): (a: RowAction)
    ensures IsCurrentSong(s, song) && s.isPlaying <==> a.PauseRow?
    ensures IsCurrentSong(s, song) && !s.isPlaying <==> a == PlaySongCall(s.currentSong)
    ensures !IsCurrentSong(s, song) ==> a == HandlePlayAsWritten(s, song, index, playlist)
  {
    if IsCurrentSong(s, song) && !s.isPlaying then PlaySongCall(s.currentSong)
    else HandlePlayAsWritten(s, song, index, playlist)
  }

  /** Clicking the paused current row, as written, changes nothing at all. */
  lemma PausedRowClickDoesNothing(s: PlayerState, song: Song, index: nat, playlist: Option<seq<Song>>, rolls: seq<nat>, started: bool)
    requires IsCurrentSong(s, song) && !s.isPlaying
    ensures ApplyRow(s, HandlePlayAsWritten(s, song, index, playlist), rolls, started) == s
  {
  }

  /** The corrected click resumes the same song from where it was paused. */
  lemma PausedRowClickResumes(s: PlayerState, song: Song, index: nat, playlist: Option<seq<Song>>, rolls: seq<nat>)
    requires IsCurrentSong(s, song) && !s.isPlaying
    ensures ApplyRow(s, HandlePlay(s, song, index, playlist), rolls, true) == s.(isPlaying := true)
  {
  }

  /** A click on another row of a list plays the clicked song, when the list
      is played in order and the row's index is its position. */
  lemma RowClickPlaysThatSong(s: PlayerState, song: Song, index: nat, list: seq<Song>, rolls: seq<nat>, started: bool)
    requires !IsCurrentSong(s, song) && !s.isShuffle
    requires index < |list| && list[index] == song
    ensures IsCurrentSong(ApplyRow(s, HandlePlay(s, song, index, Some(list)), rolls, started), song)
    ensures ApplyRow(s, HandlePlay(s, song, index, Some(list)), rolls, started).queue == list
  {
  }

  /** The row's liked flag: the favorites response, when it is a list, holds
      the song's id. */
  function IsFavorite(favorites: Option<seq<Song>>, song: Song): (b: bool)
    ensures b <==> favorites.Some? && HasId(favorites.value, song.id)
  {
    if favorites.None? then false
    else
      IndexOfIdFound(favorites.value, song.id);
      IndexOfId(favorites.value, song.id) >= 0
  }

  /** A favorites response as the row reads it: a list, or nothing usable. */
  function ListOf(response: FavoritesResponse): Option<seq<Song>> {
    if response.FavoritesList? then Some(response.songs) else None
  }

  /** The liked-songs page and a row read the same answer alike: the page
      lists a song exactly when its row shows it liked. */
  lemma LikedPageAgreesWithRows(page: LikedPage, response: FavoritesResponse, song: Song)
    requires !response.FetchFailed?
    ensures HasId(FetchLiked(page, true, response).liked, song.id) <==> IsFavorite(ListOf(response), song)
  {
  }

  /** The `{ success }` the favorites service resolves with; it never throws. */
  datatype LikeResult = LikeResult(success: bool)

  /** What `/api/songs` answers: `backend/routes/songs.js` defines only
      `GET /`, whose status (200, or 500 when the query fails) is given, and
      Express answers every other request there with 404. */
  function SongsStatus(verb: string, path: string, listStatus: nat): (status: nat)
    ensures verb == "GET" && path == "/" ==> status == listStatus
    ensures !(verb == "GET" && path == "/") ==> status == NotFound
  {
    if verb == "GET" && path == "/" then listStatus else NotFound
  }

  /** `addToFavorites` and `removeFromFavorites`: success exactly when the
      request answers with a 2xx status; any other status is caught. */
  function FavoritesCall(status: nat): (r: LikeResult)
    ensures r.success <==> 200 <= status < 300
  {
    LikeResult(200 <= status < 300)
  }

  /** The row's `toggleLike` as written: the flag is flipped whatever the
      service reports. */
  function RowToggleLikeAsWritten(liked: bool, result: LikeResult): (r: bool)
    ensures r == !liked
  {
    !liked
  }

  /** The row's `toggleLike` as evidently meant: flipped only on success. */
  function RowToggleLike(liked: bool, result: LikeResult): (r: bool)
    ensures result.success ==> r == !liked
    ensures !result.success ==> r == liked
  {
    if result.success then !liked else liked
  }

  /** The user's favourites on the server, as a set of song ids, after the
      service asks to add (`adding`) or remove the song: a successful call
      makes the song a favourite or not, a failed one changes nothing, and
      no other song is affected. */
  function ServerAfter(favorites: set<string>, id: string, adding: bool, result: LikeResult): (f: set<string>)
    ensures result.success ==> (id in f <==> adding)
    ensures !result.success ==> f == favorites
    ensures forall other :: other != id ==> (other in f <==> other in favorites)
  {
    if !result.success then favorites
    else if adding then favorites + {id}
    else favorites - {id}
  }

  /** As written, a failed call leaves the row showing the opposite of the
      server's state, although it agreed with it before the click. */
  lemma RowDisagreesAfterFailure(favorites: set<string>, song: Song, liked: bool)
    requires liked <==> song.id in favorites
    ensures RowToggleLikeAsWritten(liked, LikeResult(false))
              != (song.id in ServerAfter(favorites, song.id, !liked, LikeResult(false)))
  {
  }

  /** Corrected, a row that agreed with the server before the click agrees
      with it after the call, whatever the call's outcome. */
  lemma RowTracksServer(favorites: set<string>, song: Song, liked: bool, result: LikeResult)
    requires liked <==> song.id in favorites
    ensures RowToggleLike(liked, result) <==> song.id in ServerAfter(favorites, song.id, !liked, result)
  {
  }

  // ------------------------------------------------------------ row cover

  const MusicUrl: string := "http://localhost:5000/music/"
  const DefaultCover: string := "default-cover.jpg"

  /** `filePath.split('/').slice(0, -1).join('/')`: the folder part of the
      path, empty for a bare file name. */
  function FolderOf(filePath: string): string {
    var parts := Split(filePath, '/');
    Join(parts[..|parts| - 1], '/')
  }

  /** The picture a row shows, `None` for the placeholder: a cover that is
      set and not the default is used as an absolute URL, else as the
      `cover.jpg` next to the song's file, else as an upload. */
  function RowCoverUrl(song: Song): (r: Option<string>)
    ensures r.None? <==> song.coverImage == "" || song.coverImage == DefaultCover
    ensures r.Some? && StartsWith(song.coverImage, "http") ==> r.value == song.coverImage
    ensures r.Some? && !StartsWith(song.coverImage, "http") && song.filePath != "" ==>
              r.value == MusicUrl + FolderOf(song.filePath) + "/cover.jpg"
    ensures r.Some? && !StartsWith(song.coverImage, "http") && song.filePath == "" ==>
              r.value == UploadsUrl + song.coverImage
  {
    if song.coverImage == "" || song.coverImage == DefaultCover then None
    else if StartsWith(song.coverImage, "http") then Some(song.coverImage)
    else if song.filePath != "" then Some(MusicUrl + FolderOf(song.filePath) + "/cover.jpg")
    else Some(UploadsUrl + song.coverImage)
  }

  lemma {:induction false} JoinSnoc(parts: seq<string>, last: string, c: char)
    requires |parts| > 0
    ensures Join(parts + [last], c) == Join(parts, c) + [c] + last
    decreases |parts|
  {
    if |parts| == 1 {
      assert (parts + [last])[1..] == [last];
    } else {
      assert (parts + [last])[1..] == parts[1..] + [last];
      JoinSnoc(parts[1..], last, c);
    }
  }

  lemma {:induction false} SplitOfPlain(s: string, c: char)
    ensures |Split(s, c)| == 1 <==> Lacks(s, c)
    decreases |s|
  {
    var i := FirstIndexOf(s, c);
    if i < |s| {
      assert !Lacks(s, c) by {
        assert s[i] == c;
      }
      assert |Split(s, c)| >= 2;
    } else {
      assert s[..i] == s;
    }
  }

  /** The folder followed by a slash and the file name is the stored path;
      a path without a slash has an empty folder. */
  lemma FolderAndName(filePath: string)
    ensures Lacks(filePath, '/') ==> FolderOf(filePath) == ""
    ensures !Lacks(filePath, '/') ==>
              exists name :: Lacks(name, '/') && FolderOf(filePath) + "/" + name == filePath
  {
    var parts := Split(filePath, '/');
    SplitOfPlain(filePath, '/');
    JoinSplit(filePath, '/');
    if !Lacks(filePath, '/') {
      var init := parts[..|parts| - 1];
      var name := parts[|parts| - 1];
      assert parts == init + [name];
      JoinSnoc(init, name, '/');
      assert FolderOf(filePath) + "/" + name == filePath;
    }
  }

  // ------------------------------------------------------------ the card

  /** `handlePlayPause` of the card: pause when current and playing,
      otherwise play the song on its own. */
  function SongCardPlayPause(s: PlayerState, song: Song): (c: Command)
    ensures c == Pause <==> IsCurrentSong(s, song) && s.isPlaying
    ensures c != Pause ==> c == PlayFromStart([song])
  {
    if IsCurrentSong(s, song) && s.isPlaying then Pause else PlayFromStart([song])
  }

  /** A card click on a song not playing makes it the current, playing song. */
  lemma CardClickPlays(s: PlayerState, song: Song, rolls: seq<nat>)
    requires !(IsCurrentSong(s, song) && s.isPlaying)
    ensures IsCurrentSong(Apply(s, SongCardPlayPause(s, song), rolls, true), song)
    ensures Apply(s, SongCardPlayPause(s, song), rolls, true).isPlaying
  {
    assert ShuffleQueue([song], rolls) == [song];
  }

  /** The card's `toggleLike`: the liked flag shown while the request runs,
      the one shown after it, whether the service was called and whether
      `onLike` ran. */
  datatype CardLike = CardLike(optimistic: bool, liked: bool, called: bool, notified: bool)

  function CardToggleLike(loggedIn: bool, liked: bool, result: LikeResult): (r: CardLike)
    ensures !loggedIn ==> r == CardLike(liked, liked, false, false)
    ensures loggedIn ==> r.called && r.notified && r.optimistic == !liked
    ensures loggedIn && result.success ==> r.liked == !liked
    ensures loggedIn && !result.success ==> r.liked == liked
  {
    if !loggedIn then CardLike(liked, liked, false, false)
    else CardLike(!liked, if result.success then !liked else liked, true, true)
  }

  /** With no favorites route, no row or card ever starts liked, every like
      call fails and the server's favourites never change; the row as written
      nevertheless shows the song liked after a click, and the card does not. */
  lemma EveryLikeFailsWithoutRoute(hasStoredToken: bool, listStatus: nat, favorites: set<string>, song: Song)
    ensures !IsFavorite(ListOf(GetFavorites(hasStoredToken, FavoritesError(SongsStatus("GET", "/favorites", listStatus)))), song)
    ensures FavoritesCall(SongsStatus("POST", "/favorites/" + song.id, listStatus)) == LikeResult(false)
    ensures FavoritesCall(SongsStatus("DELETE", "/favorites/" + song.id, listStatus)) == LikeResult(false)
    ensures ServerAfter(favorites, song.id, true, FavoritesCall(SongsStatus("POST", "/favorites/" + song.id, listStatus))) == favorites
    ensures RowToggleLikeAsWritten(false, FavoritesCall(SongsStatus("POST", "/favorites/" + song.id, listStatus)))
    ensures !CardToggleLike(true, false, FavoritesCall(SongsStatus("POST", "/favorites/" + song.id, listStatus))).liked
  {
    assert |"/favorites/" + song.id| > |"/"|;
  }

  /** The card shows the server's state after every call, like the corrected row. */
  lemma CardTracksServer(favorites: set<string>, song: Song, liked: bool, result: LikeResult)
    requires liked <==> song.id in favorites
    ensures CardToggleLike(true, liked, result).liked <==> song.id in ServerAfter(favorites, song.id, !liked, result)
    ensures CardToggleLike(true, liked, result).liked == RowToggleLike(liked, result)
  {
  }

  // ------------------------------------------------------------ add-to-playlist menu

  /** Some playlist of `docs` has the id. */
  ghost predicate ListsPlaylist(docs: seq<PlaylistDoc>, id: string) {
    exists k :: 0 <= k < |docs| && docs[k].id == id
  }

  /** No later playlist of `docs` has the id of the `k`-th. */
  predicate LastWithId(docs: seq<PlaylistDoc>, k: nat)
    requires k < |docs|
  {
    forall j :: k < j < |docs| ==> docs[j].id != docs[k].id
  }

  /** `m` has a key for every listed playlist and no other, and the value
      of the last playlist with a given id says whether it holds the song. */
  ghost predicate Records(m: map<string, bool>, docs: seq<PlaylistDoc>, song: Song) {
    (forall id :: id in m <==> ListsPlaylist(docs, id)) &&
    (forall k :: 0 <= k < |docs| && LastWithId(docs, k) ==>
       docs[k].id in m && m[docs[k].id] == HasId(docs[k].songs, song.id))
  }

  /** `songInPlaylistMap`: playlist id to whether it holds the song; a later
      playlist with the same id overwrites an earlier one. */
  function Membership(docs: seq<PlaylistDoc>, song: Song): (m: map<string, bool>)
    ensures Records(m, docs, song)
    decreases |docs|
  {
    if |docs| == 0 then map[]
    else
      var init, last := docs[..|docs| - 1], docs[|docs| - 1];
      var m := Membership(init, song);
      assert docs == init + [last];
      MembershipStep(init, last, song, m);
      m[last.id := HasId(last.songs, song.id)]
  }

  lemma MembershipStep(init: seq<PlaylistDoc>, last: PlaylistDoc, song: Song, m: map<string, bool>)
    requires Records(m, init, song)
    ensures Records(m[last.id := HasId(last.songs, song.id)], init + [last], song)
  {
    var docs := init + [last];
    var n := |init|;
    var r := m[last.id := HasId(last.songs, song.id)];
    forall id
      ensures id in r <==> ListsPlaylist(docs, id)
    {
      if ListsPlaylist(docs, id) {
        var k :| 0 <= k < |docs| && docs[k].id == id;
        if k < n {
          assert init[k].id == id;
        }
      }
      if id in m {
        var k :| 0 <= k < |init| && init[k].id == id;
        assert docs[k].id == id;
      }
      if id == last.id {
        assert docs[n].id == id;
      }
    }
    forall k | 0 <= k < |docs| && LastWithId(docs, k)
      ensures docs[k].id in r && r[docs[k].id] == HasId(docs[k].songs, song.id)
    {
      if k < n {
        assert docs[n].id != docs[k].id;
        assert init[k] == docs[k];
        assert LastWithId(init, k) by {
          forall j | k < j < |init|
            ensures init[j].id != init[k].id
          {
            assert init[j] == docs[j];
          }
        }
      }
    }
  }

  datatype Menu = Menu(member: map<string, bool>, error: Option<string>, fetched: bool)

  const FetchPlaylistsFailed: string := "Could not fetch your playlists"

  /** The menu's fetch on opening: nothing while closed; `None` for a failed
      request. */
  function OpenMenu(menu: Menu, isOpen: bool, song: Song, response: Option<seq<PlaylistDoc>>): (r: Menu)
    ensures !isOpen ==> r == menu
    ensures isOpen ==> r.fetched
    ensures isOpen && response.Some? ==> r.member == Membership(response.value, song) && r.error == menu.error
    ensures isOpen && response.None? ==> r.member == menu.member && r.error == Some(FetchPlaylistsFailed)
  {
    if !isOpen then menu
    else
      match response
      case Some(docs) => menu.(member := Membership(docs, song), fetched := true)
      case None => menu.(error := Some(FetchPlaylistsFailed), fetched := true)
  }

  predicate MarkedMember(m: map<string, bool>, id: string) {
    id in m && m[id]
  }

  /** `addToPlaylist(id)`: the new map and whether the service was called. A
      playlist already marked is left alone; a successful add marks it. */
  function AddToPlaylist(m: map<string, bool>, id: string, success: bool): (r: (map<string, bool>, bool))
    ensures r.1 <==> !MarkedMember(m, id)
    ensures !r.1 || !success ==> r.0 == m
    ensures r.1 && success ==> MarkedMember(r.0, id)
    ensures forall other :: other != id ==> (other in r.0 <==> other in m) && (other in m ==> r.0[other] == m[other])
  {
    if MarkedMember(m, id) then (m, false)
    else if success then (m[id := true], true)
    else (m, true)
  }

  /** Once the menu has fetched the playlists, it calls the add service for
      a listed playlist exactly when that playlist does not hold the song. */
  lemma OpenedMenuCallsOnlyForMissing(menu: Menu, song: Song, docs: seq<PlaylistDoc>, k: nat, success: bool)
    requires k < |docs| && LastWithId(docs, k)
    ensures AddToPlaylist(OpenMenu(menu, true, song, Some(docs)).member, docs[k].id, success).1
            <==> !HasId(docs[k].songs, song.id)
  {
  }

  /** After a successful add, adding again makes no call. */
  lemma AddTwiceCallsOnce(m: map<string, bool>, id: string, success: bool)
    requires !MarkedMember(m, id)
    ensures !AddToPlaylist(AddToPlaylist(m, id, true).0, id, success).1
  {
  }
}
