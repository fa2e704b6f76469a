/**
 * The song record as stored by the Song schema and handed to the frontend.
 * `title`, `artist` and `filePath` are required by the schema; `album` may be
 * null or missing; `coverImage` defaults to `default-cover.jpg` and is empty
 * for scanned files without artwork; a missing duration reads as 0.
 */
module Songs {
  import opened Wrappers
  import opened Text
  import opened Seqs

  datatype Song = Song(
    id: string,
    title: string,
    artist: string,
    album: Option<string>,
    genre: string,
    duration: nat,
    coverImage: string,
    filePath: string)

  /** `songs.map(song => song._id)`. */
  function Ids(songs: seq<Song>): (r: seq<string>)
    ensures |r| == |songs|
    ensures forall i :: 0 <= i < |songs| ==> r[i] == songs[i].id
  {
    seq(|songs|, i requires 0 <= i < |songs| => songs[i].id)
  }

  /** No two songs share an `_id`. */
  predicate UniqueIds(songs: seq<Song>) {
    forall i, j :: 0 <= i < j < |songs| ==> songs[i].id != songs[j].id
  }

  /** `songs.some(song => song._id === id)`. */
  predicate HasId(songs: seq<Song>, id: string) {
    exists i :: 0 <= i < |songs| && songs[i].id == id
  }

  /** `songs.findIndex(song => song._id === id)`: the first match, or -1. */
  function IndexOfId(songs: seq<Song>, id: string): (r: int)
    ensures -1 <= r < |songs|
    ensures r >= 0 ==> songs[r].id == id
    ensures forall k :: 0 <= k < |songs| && (r == -1 || k < r) ==> songs[k].id != id
  {
    IndexOfKey(songs, SongId, id)
  }

  function SongId(song: Song): string {
    song.id
  }

  lemma IndexOfIdFound(songs: seq<Song>, id: string)
    ensures IndexOfId(songs, id) >= 0 <==> HasId(songs, id)
  {
  }

  lemma IndexOfUniqueId(songs: seq<Song>, i: nat)
    requires UniqueIds(songs) && i < |songs|
    ensures IndexOfId(songs, songs[i].id) == i
  {
  }

  /** The search predicate shared by the playlist builder and the search page:
      title, artist or (when present) album contains the term, ignoring case. */
  predicate Matches(song: Song, term: string) {
    var t := Lower(term);
    || Contains(Lower(song.title), t)
    || Contains(Lower(song.artist), t)
    || (song.album.Some? && Contains(Lower(song.album.value), t))
  }

  /** `total + (song.duration || 0)` over the list. */
  function TotalDuration(songs: seq<Song>): (t: nat)
    ensures |songs| > 0 ==> t >= songs[0].duration
  {
    if |songs| == 0 then 0 else songs[0].duration + TotalDuration(songs[1..])
  }

  lemma {:induction false} TotalDurationAppend(a: seq<Song>, b: seq<Song>)
    ensures TotalDuration(a + b) == TotalDuration(a) + TotalDuration(b)
  {
    if |a| > 0 {
      assert (a + b)[1..] == a[1..] + b;
      TotalDurationAppend(a[1..], b);
    } else {
      assert a + b == b;
    }
  }
}
