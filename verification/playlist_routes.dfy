/**
 * The playlist routes of the backend as transformers of one user's list of
 * playlists. A missing user is `None`; each handler answers either the new
 * list or the HTTP status it replies with. Persistence is left out: a
 * successful handler's list is what it saves.
 */
module PlaylistRoutes {
  import opened Wrappers
  import opened Seqs

  /** A stored playlist: its `_id`, its name and the ids of its songs. */
  datatype Playlist = Playlist(id: string, name: string, songs: seq<string>)

  /** The name of the playlist that may not be deleted. */
  const FavoritesName: string := "Favorites"

  predicate NameTaken(playlists: seq<Playlist>, name: string) {
    exists i :: 0 <= i < |playlists| && playlists[i].name == name
  }

  /** `findIndex` by `_id`: the first position with that id, or -1. */
  function IndexOfPlaylist(playlists: seq<Playlist>, id: string): (r: int)
    ensures -1 <= r < |playlists|
    ensures r >= 0 ==> playlists[r].id == id
    ensures forall k :: 0 <= k < |playlists| && (r == -1 || k < r) ==> playlists[k].id != id
  {
    IndexOfKey(playlists, PlaylistId, id)
  }

  function PlaylistId(p: Playlist): string {
    p.id
  }

  /** `POST /`: a missing or empty name is refused before the user is looked
      up; an exactly equal existing name is refused; otherwise an empty
      playlist with a fresh id `newId` is appended. */
  function Create(user: Option<seq<Playlist>>, name: Option<string>, newId: string): (r: Result<seq<Playlist>>)
    ensures (name.None? || name.value == "") ==> r == Err(BadRequest)
    ensures name.Some? && name.value != "" && user.None? ==> r == Err(NotFound)
    ensures name.Some? && name.value != "" && user.Some? && NameTaken(user.value, name.value) ==>
      r == Err(BadRequest)
    ensures r.Ok? <==> name.Some? && name.value != "" && user.Some? && !NameTaken(user.value, name.value)
    ensures r.Ok? ==>
      && |r.value| == |user.value| + 1
      && r.value[..|user.value|] == user.value
      && r.value[|user.value|] == Playlist(newId, name.value, [])
  {
    if name.None? || name.value == "" then Err(BadRequest)
    else if user.None? then Err(NotFound)
    else if NameTaken(user.value, name.value) then Err(BadRequest)
    else Ok(user.value + [Playlist(newId, name.value, [])])
  }

  /** `POST /:playlistId/songs/:songId`. The user, the song and the playlist
      are looked up in that order; a song already listed is refused;
      otherwise its id is appended to the first playlist with that id. */
  function AddSong(user: Option<seq<Playlist>>, songExists: bool, playlistId: string, songId: string)
    : (r: Result<seq<Playlist>>)
    ensures user.None? ==> r == Err(NotFound)
    ensures user.Some? && !songExists ==> r == Err(NotFound)
    ensures user.Some? && songExists && IndexOfPlaylist(user.value, playlistId) < 0 ==> r == Err(NotFound)
    ensures user.Some? && songExists && IndexOfPlaylist(user.value, playlistId) >= 0 ==>
      var i := IndexOfPlaylist(user.value, playlistId);
      && (songId in user.value[i].songs ==> r == Err(BadRequest))
      && (songId !in user.value[i].songs ==>
            && r.Ok?
            && |r.value| == |user.value|
            && r.value[i] == user.value[i].(songs := user.value[i].songs + [songId])
            && forall k :: 0 <= k < |user.value| && k != i ==> r.value[k] == user.value[k])
  {
    if user.None? || !songExists then Err(NotFound)
    else
      var ps := user.value;
      var i := IndexOfPlaylist(ps, playlistId);
      if i < 0 then Err(NotFound)
      else if songId in ps[i].songs then Err(BadRequest)
      else Ok(ps[i := ps[i].(songs := ps[i].songs + [songId])])
  }

  /** `DELETE /:playlistId/songs/:songId`: every occurrence of the song is
      removed from the first playlist with that id, even none. */
  function RemoveSong(user: Option<seq<Playlist>>, playlistId: string, songId: string): (r: Result<seq<Playlist>>)
    ensures user.None? ==> r == Err(NotFound)
    ensures user.Some? && IndexOfPlaylist(user.value, playlistId) < 0 ==> r == Err(NotFound)
    ensures user.Some? && IndexOfPlaylist(user.value, playlistId) >= 0 ==>
      var i := IndexOfPlaylist(user.value, playlistId);
      && r.Ok?
      && |r.value| == |user.value|
      && r.value[i].id == user.value[i].id && r.value[i].name == user.value[i].name
      && songId !in r.value[i].songs
      && (forall x :: x in r.value[i].songs <==> x in user.value[i].songs && x != songId)
      && IsSubsequence(r.value[i].songs, user.value[i].songs)
      && multiset(r.value[i].songs) == multiset(user.value[i].songs)[songId := 0]
      && forall k :: 0 <= k < |user.value| && k != i ==> r.value[k] == user.value[k]
  {
    if user.None? then Err(NotFound)
    else
      var ps := user.value;
      var i := IndexOfPlaylist(ps, playlistId);
      if i < 0 then Err(NotFound)
      else
        var kept := Filter(ps[i].songs, x => x != songId);
        FilterIsSubsequence(ps[i].songs, x => x != songId);
        FilterWithout(ps[i].songs, songId);
        Ok(ps[i := ps[i].(songs := kept)])
  }

  /** `DELETE /:playlistId`: refused when no playlist has that id or the
      first one that does is named exactly `Favorites`; otherwise every
      playlist with that id is dropped and the rest keep their order. */
  function Delete(user: Option<seq<Playlist>>, playlistId: string): (r: Result<seq<Playlist>>)
    ensures user.None? ==> r == Err(NotFound)
    ensures user.Some? && IndexOfPlaylist(user.value, playlistId) < 0 ==> r == Err(NotFound)
    ensures user.Some? && IndexOfPlaylist(user.value, playlistId) >= 0 ==>
      (user.value[IndexOfPlaylist(user.value, playlistId)].name == FavoritesName <==> r == Err(BadRequest))
    ensures user.Some? && IndexOfPlaylist(user.value, playlistId) >= 0 ==>
      (user.value[IndexOfPlaylist(user.value, playlistId)].name != FavoritesName <==> r.Ok?)
    ensures r.Ok? ==>
      && (forall p :: p in r.value <==> p in user.value && p.id != playlistId)
      && IsSubsequence(r.value, user.value)
      && |r.value| < |user.value|
  {
    if user.None? then Err(NotFound)
    else
      var ps := user.value;
      var i := IndexOfPlaylist(ps, playlistId);
      if i < 0 then Err(NotFound)
      else if ps[i].name == FavoritesName then Err(BadRequest)
      else
        var kept := Filter(ps, (p: Playlist) => p.id != playlistId);
        FilterIsSubsequence(ps, (p: Playlist) => p.id != playlistId);
        FilterDropsOne(ps, i, (p: Playlist) => p.id != playlistId);
        Ok(kept)
  }

  /** Removing every occurrence of `x` keeps every other id as often as it
      occurred. */
  lemma FilterWithout(s: seq<string>, x: string)
    ensures multiset(Filter(s, y => y != x)) == multiset(s)[x := 0]
  {
    forall y
      ensures multiset(Filter(s, z => z != x))[y] == if y == x then 0 else multiset(s)[y]
    {
      FilterMultiplicity(s, z => z != x, y);
    }
  }

  lemma FilterDropsOne<T(!new)>(s: seq<T>, i: nat, p: T -> bool)
    requires i < |s| && !p(s[i])
    ensures |Filter(s, p)| < |s|
  {
    assert s == s[..i] + [s[i]] + s[i + 1..];
    FilterAppend(s[..i] + [s[i]], s[i + 1..], p);
    FilterAppend(s[..i], [s[i]], p);
    assert Filter([s[i]], p) == [];
  }

  // ------------------------------------------------------------ properties

  /** The lookup by `_id` sees only the ids. */
  lemma {:induction false} IndexOfPlaylistSameIds(a: seq<Playlist>, b: seq<Playlist>, id: string)
    requires |a| == |b| && forall k :: 0 <= k < |a| ==> a[k].id == b[k].id
    ensures IndexOfPlaylist(a, id) == IndexOfPlaylist(b, id)
  {
    if |a| > 0 {
      IndexOfPlaylistSameIds(a[1..], b[1..], id);
    }
  }

  /** A playlist without repeated song ids never gains one by an add. */
  lemma AddKeepsSongsDistinct(user: seq<Playlist>, playlistId: string, songId: string)
    requires forall k :: 0 <= k < |user| ==> Distinct(user[k].songs)
    requires AddSong(Some(user), true, playlistId, songId).Ok?
    ensures forall k :: 0 <= k < |user| ==>
      Distinct(AddSong(Some(user), true, playlistId, songId).value[k].songs)
  {
    var i := IndexOfPlaylist(user, playlistId);
    var after := AddSong(Some(user), true, playlistId, songId).value;
    var t := user[i].songs + [songId];
    assert after[i].songs == t;
    forall a, b | 0 <= a < b < |t|
      ensures t[a] != t[b]
    {
      if b == |t| - 1 {
        assert t[a] in user[i].songs;
      }
    }
  }

  /** Removing a song twice is removing it once. */
  lemma RemoveSongIdempotent(user: seq<Playlist>, playlistId: string, songId: string)
    requires RemoveSong(Some(user), playlistId, songId).Ok?
    ensures var once := RemoveSong(Some(user), playlistId, songId).value;
      RemoveSong(Some(once), playlistId, songId) == Ok(once)
  {
    var i := IndexOfPlaylist(user, playlistId);
    var once := RemoveSong(Some(user), playlistId, songId).value;
    IndexOfPlaylistSameIds(user, once, playlistId);
    FilterKeepsAll(once[i].songs, x => x != songId);
    assert once[i := once[i].(songs := once[i].songs)] == once;
  }

  /** Removing a song just added gives back the playlists before the add. */
  lemma AddThenRemove(user: seq<Playlist>, playlistId: string, songId: string)
    requires AddSong(Some(user), true, playlistId, songId).Ok?
    ensures var added := AddSong(Some(user), true, playlistId, songId).value;
      RemoveSong(Some(added), playlistId, songId) == Ok(user)
  {
    var i := IndexOfPlaylist(user, playlistId);
    var added := AddSong(Some(user), true, playlistId, songId).value;
    IndexOfPlaylistSameIds(user, added, playlistId);
    var songs := user[i].songs;
    FilterAppend(songs, [songId], x => x != songId);
    FilterKeepsAll(songs, x => x != songId);
    assert Filter([songId], x => x != songId) == [];
    assert Filter(songs + [songId], x => x != songId) == songs;
    assert added[i := added[i].(songs := songs)] == user;
  }

  lemma FilterDropsLast<T(!new)>(s: seq<T>, x: T, p: T -> bool)
    requires forall k :: 0 <= k < |s| ==> p(s[k])
    requires !p(x)
    ensures Filter(s + [x], p) == s
  {
    FilterAppend(s, [x], p);
    FilterKeepsAll(s, p);
    assert Filter([x], p) == [];
  }

  /** Deleting a playlist that was just created, under a fresh id and a name
      other than `Favorites`, gives back the playlists before it. */
  lemma CreateThenDelete(user: seq<Playlist>, name: string, newId: string)
    requires Create(Some(user), Some(name), newId).Ok?
    requires name != FavoritesName
    requires forall k :: 0 <= k < |user| ==> user[k].id != newId
    ensures Delete(Some(Create(Some(user), Some(name), newId).value), newId) == Ok(user)
  {
    var made := Playlist(newId, name, []);
    var created := user + [made];
    assert Create(Some(user), Some(name), newId).value == created;
    var i := IndexOfPlaylist(created, newId);
    assert forall k :: 0 <= k < |user| ==> created[k].id != newId;
    assert created[|user|].id == newId;
    assert i == |user|;
    FilterDropsLast(user, made, (p: Playlist) => p.id != newId);
  }

  /** After a successful delete, deleting again answers 404. */
  lemma DeleteTwiceNotFound(user: seq<Playlist>, playlistId: string)
    requires Delete(Some(user), playlistId).Ok?
    ensures Delete(Some(Delete(Some(user), playlistId).value), playlistId) == Err(NotFound)
  {
    var after := Delete(Some(user), playlistId).value;
    forall k | 0 <= k < |after|
      ensures after[k].id != playlistId
    {
      assert after[k] in after;
    }
  }
}
