/**
 * The album routes of the backend as functions over the song collection:
 * the aggregation pipeline behind the albums listing, the singles query and
 * the album-by-name query. The pipeline is written as a single pass that
 * folds each song into its album's entry, and is proved equal to a
 * declarative description of each entry.
 */
module AlbumRoutes {
  import opened Wrappers
  import opened Seqs
  import opened Sorting
  import opened Songs

  /** One element of an entry's `songs` array. */
  datatype TrackRef = TrackRef(id: string, title: string, duration: nat)

  /** One document of the albums listing. */
  datatype AlbumEntry = AlbumEntry(
    albumName: string,
    artist: string,
    coverImage: string,
    genre: string,
    songCount: nat,
    totalDuration: nat,
    songs: seq<TrackRef>)

  /** The `$match` stage: the album is present and none of `Single`,
      `Unknown Album` and the empty string. */
  predicate Listed(s: Song) {
    s.album.Some? && s.album.value != "Single" && s.album.value != "Unknown Album" && s.album.value != ""
  }

  /** Songs whose album field is exactly `name`. */
  function InAlbum(name: string): Song -> bool {
    (s: Song) => s.album == Some(name)
  }

  function Ref(s: Song): TrackRef {
    TrackRef(s.id, s.title, s.duration)
  }

  function Refs(songs: seq<Song>): (r: seq<TrackRef>)
    ensures |r| == |songs|
    ensures forall i :: 0 <= i < |songs| ==> r[i] == Ref(songs[i])
  {
    seq(|songs|, i requires 0 <= i < |songs| => Ref(songs[i]))
  }

  /** The entry the `$group` stage makes of an album's songs `m`, in input
      order: the `$first` fields come from `m[0]`. A group is never empty;
      an empty `m` gives empty fields. */
  function EntryOf(name: string, m: seq<Song>): AlbumEntry {
    if |m| == 0 then AlbumEntry(name, "", "", "", 0, 0, [])
    else AlbumEntry(name, m[0].artist, m[0].coverImage, m[0].genre, |m|, TotalDuration(m), Refs(m))
  }

  /** The declarative description of an album's entry. */
  function Reference(songs: seq<Song>, name: string): AlbumEntry {
    EntryOf(name, Filter(songs, InAlbum(name)))
  }

  /** The listed album names in order of first appearance. */
  function Names(songs: seq<Song>): (r: seq<string>)
    ensures Distinct(r)
    ensures forall n :: n in r <==> exists i :: 0 <= i < |songs| && Listed(songs[i]) && songs[i].album.value == n
  {
    if |songs| == 0 then []
    else
      var pre := songs[..|songs| - 1];
      var x := songs[|songs| - 1];
      var p := Names(pre);
      assert forall i :: 0 <= i < |pre| ==> pre[i] == songs[i];
      if Listed(x) && x.album.value !in p then p + [x.album.value] else p
  }

  /** The position of the entry for `name`, or -1. */
  function IndexOfName(acc: seq<AlbumEntry>, name: string): (r: int)
    ensures -1 <= r < |acc|
    ensures r >= 0 ==> acc[r].albumName == name
    ensures r < 0 ==> forall k :: 0 <= k < |acc| ==> acc[k].albumName != name
  {
    if |acc| == 0 then -1
    else if acc[0].albumName == name then 0
    else
      var r := IndexOfName(acc[1..], name);
      if r < 0 then -1 else r + 1
  }

  /** Adds one more song of the entry's album. */
  function Extend(e: AlbumEntry, x: Song): AlbumEntry {
    e.(songCount := e.songCount + 1, totalDuration := e.totalDuration + x.duration, songs := e.songs + [Ref(x)])
  }

  /** Folds one song into the entries built so far. */
  function Absorb(acc: seq<AlbumEntry>, x: Song): seq<AlbumEntry> {
    if !Listed(x) then acc
    else
      var i := IndexOfName(acc, x.album.value);
      if i < 0 then acc + [EntryOf(x.album.value, [x])]
      else acc[i := Extend(acc[i], x)]
  }

  /** `$match` then `$group`, one song at a time in input order. */
  function Group(songs: seq<Song>): seq<AlbumEntry> {
    if |songs| == 0 then []
    else Absorb(Group(songs[..|songs| - 1]), songs[|songs| - 1])
  }

  // ------------------------------------------------- the fold is the reference

  /** The single pass builds, for each listed album name in order of first
      appearance, exactly its declarative entry. */
  predicate GroupedAs(acc: seq<AlbumEntry>, songs: seq<Song>) {
    && |acc| == |Names(songs)|
    && forall k :: 0 <= k < |acc| ==> acc[k] == Reference(songs, Names(songs)[k])
  }

  lemma FilterSnoc(pre: seq<Song>, x: Song, p: Song -> bool)
    ensures Filter(pre + [x], p) == Filter(pre, p) + (if p(x) then [x] else [])
  {
    FilterAppend(pre, [x], p);
    assert Filter([x], p) == (if p(x) then [x] else []) by {
      assert [x][1..] == [];
    }
  }

  lemma ExtendEntry(name: string, m: seq<Song>, x: Song)
    requires |m| > 0
    ensures Extend(EntryOf(name, m), x) == EntryOf(name, m + [x])
  {
    TotalDurationAppend(m, [x]);
    assert TotalDuration([x]) == x.duration;
    assert Refs(m + [x]) == Refs(m) + [Ref(x)];
  }

  lemma ExtendIsReference(pre: seq<Song>, x: Song, name: string)
    requires x.album == Some(name)
    requires |Filter(pre, InAlbum(name))| > 0
    ensures Extend(Reference(pre, name), x) == Reference(pre + [x], name)
  {
    var m := Filter(pre, InAlbum(name));
    FilterSnoc(pre, x, InAlbum(name));
    assert InAlbum(name)(x);
    assert Filter(pre + [x], InAlbum(name)) == m + [x];
    ExtendEntry(name, m, x);
  }

  lemma OtherAlbumUnchanged(pre: seq<Song>, x: Song, name: string)
    requires x.album != Some(name)
    ensures Reference(pre + [x], name) == Reference(pre, name)
  {
    FilterSnoc(pre, x, InAlbum(name));
    assert !InAlbum(name)(x);
    assert Filter(pre + [x], InAlbum(name)) == Filter(pre, InAlbum(name)) + [];
    assert Filter(pre + [x], InAlbum(name)) == Filter(pre, InAlbum(name));
  }

  lemma NewAlbumIsReference(pre: seq<Song>, x: Song)
    requires Listed(x) && x.album.value !in Names(pre)
    ensures EntryOf(x.album.value, [x]) == Reference(pre + [x], x.album.value)
  {
    var name := x.album.value;
    FilterSnoc(pre, x, InAlbum(name));
    forall i | 0 <= i < |pre|
      ensures !InAlbum(name)(pre[i])
    {
      if Listed(pre[i]) {
        assert pre[i].album.value in Names(pre);
      }
    }
    FilterKeepsNone(pre, InAlbum(name));
    assert Filter(pre + [x], InAlbum(name)) == [x];
  }

  lemma Snoc(pre: seq<Song>, x: Song)
    ensures Group(pre + [x]) == Absorb(Group(pre), x)
    ensures Names(pre + [x]) ==
      if Listed(x) && x.album.value !in Names(pre) then Names(pre) + [x.album.value] else Names(pre)
  {
    assert (pre + [x])[..|pre|] == pre;
  }

  lemma ListedName(songs: seq<Song>, n: string)
    requires n in Names(songs)
    ensures n != "Single" && n != "Unknown Album" && n != ""
  {
  }

  lemma StepUnlisted(pre: seq<Song>, x: Song)
    requires GroupedAs(Group(pre), pre) && !Listed(x)
    ensures GroupedAs(Group(pre + [x]), pre + [x])
  {
    Snoc(pre, x);
    var names := Names(pre);
    forall k | 0 <= k < |names|
      ensures Reference(pre + [x], names[k]) == Reference(pre, names[k])
    {
      ListedName(pre, names[k]);
      OtherAlbumUnchanged(pre, x, names[k]);
    }
  }

  lemma StepNewAlbum(pre: seq<Song>, x: Song)
    requires GroupedAs(Group(pre), pre) && Listed(x) && x.album.value !in Names(pre)
    ensures GroupedAs(Group(pre + [x]), pre + [x])
  {
    Snoc(pre, x);
    var acc := Group(pre);
    var names := Names(pre);
    var name := x.album.value;
    forall k | 0 <= k < |acc|
      ensures acc[k].albumName != name
    {
      assert acc[k].albumName == names[k];
    }
    assert IndexOfName(acc, name) < 0;
    NewAlbumIsReference(pre, x);
    forall k | 0 <= k < |names|
      ensures acc[k] == Reference(pre + [x], names[k])
    {
      OtherAlbumUnchanged(pre, x, names[k]);
    }
    assert Group(pre + [x]) == acc + [EntryOf(name, [x])];
    AppendGrouped(acc, names, pre + [x], EntryOf(name, [x]), name);
  }

  /** An entry for a new album appended to a grouping keeps it a grouping. */
  lemma AppendGrouped(acc: seq<AlbumEntry>, names: seq<string>, songs: seq<Song>, e: AlbumEntry, name: string)
    requires |acc| == |names|
    requires forall k :: 0 <= k < |acc| ==> acc[k] == Reference(songs, names[k])
    requires e == Reference(songs, name)
    ensures forall k :: 0 <= k < |acc| + 1 ==> (acc + [e])[k] == Reference(songs, (names + [name])[k])
  {
    forall k | 0 <= k < |acc| + 1
      ensures (acc + [e])[k] == Reference(songs, (names + [name])[k])
    {
      if k < |acc| {
        assert (acc + [e])[k] == acc[k] && (names + [name])[k] == names[k];
      }
    }
  }

  lemma KnownAlbumHasSongs(pre: seq<Song>, name: string)
    requires name in Names(pre)
    ensures |Filter(pre, InAlbum(name))| > 0
  {
    var j :| 0 <= j < |pre| && Listed(pre[j]) && pre[j].album.value == name;
    assert pre[j] in Filter(pre, InAlbum(name));
  }

  lemma KnownAlbumIndex(pre: seq<Song>, name: string)
    requires GroupedAs(Group(pre), pre) && name in Names(pre)
    ensures 0 <= IndexOfName(Group(pre), name) && Names(pre)[IndexOfName(Group(pre), name)] == name
  {
    var acc := Group(pre);
    var j :| 0 <= j < |Names(pre)| && Names(pre)[j] == name;
    assert acc[j].albumName == name;
  }

  lemma StepKnownAlbum(pre: seq<Song>, x: Song)
    requires GroupedAs(Group(pre), pre) && Listed(x) && x.album.value in Names(pre)
    ensures GroupedAs(Group(pre + [x]), pre + [x])
  {
    Snoc(pre, x);
    var acc := Group(pre);
    var names := Names(pre);
    var name := x.album.value;
    KnownAlbumIndex(pre, name);
    var i := IndexOfName(acc, name);
    KnownAlbumHasSongs(pre, name);
    ExtendIsReference(pre, x, name);
    forall k | 0 <= k < |names| && k != i
      ensures acc[k] == Reference(pre + [x], names[k])
    {
      assert names[k] != names[i];
      OtherAlbumUnchanged(pre, x, names[k]);
    }
    assert Group(pre + [x]) == acc[i := Extend(acc[i], x)];
    UpdateGrouped(acc, names, pre + [x], i, Extend(acc[i], x));
  }

  /** Replacing one entry of a grouping by its up-to-date value keeps it a grouping. */
  lemma UpdateGrouped(acc: seq<AlbumEntry>, names: seq<string>, songs: seq<Song>, i: nat, e: AlbumEntry)
    requires |acc| == |names| && i < |acc|
    requires forall k :: 0 <= k < |acc| && k != i ==> acc[k] == Reference(songs, names[k])
    requires e == Reference(songs, names[i])
    ensures forall k :: 0 <= k < |acc| ==> acc[i := e][k] == Reference(songs, names[k])
  {
  }

  lemma {:induction false} GroupIsReference(songs: seq<Song>)
    ensures GroupedAs(Group(songs), songs)
    decreases |songs|
  {
    if |songs| > 0 {
      var pre := songs[..|songs| - 1];
      var x := songs[|songs| - 1];
      assert songs == pre + [x];
      GroupIsReference(pre);
      if !Listed(x) {
        StepUnlisted(pre, x);
      } else if x.album.value !in Names(pre) {
        StepNewAlbum(pre, x);
      } else {
        StepKnownAlbum(pre, x);
      }
    }
  }

  // ------------------------------------------------------------ the routes

  function AlbumKey(e: AlbumEntry): seq<string> {
    [e.artist, e.albumName]
  }

  function ArtistTitleKey(s: Song): seq<string> {
    [s.artist, s.title]
  }

  function TitleKey(s: Song): seq<string> {
    [s.title]
  }

  /** `GET /`: one entry per listed album, ascending by artist and then by
      album name. */
  function ListAlbums(songs: seq<Song>): (r: seq<AlbumEntry>)
    ensures SortedBy(r, AlbumKey)
    ensures |r| == |Names(songs)|
    ensures forall e :: e in r <==> exists k :: 0 <= k < |Names(songs)| && e == Reference(songs, Names(songs)[k])
  {
    var g := Group(songs);
    var r := SortBy(g, AlbumKey);
    GroupMembers(songs);
    SameMembers(r, g);
    r
  }

  lemma GroupMembers(songs: seq<Song>)
    ensures |Group(songs)| == |Names(songs)|
    ensures forall e :: e in Group(songs) <==>
              exists k :: 0 <= k < |Names(songs)| && e == Reference(songs, Names(songs)[k])
  {
    GroupIsReference(songs);
  }

  lemma SameMembers<T>(r: seq<T>, g: seq<T>)
    requires multiset(r) == multiset(g)
    ensures forall e :: e in r <==> e in g
  {
    forall e
      ensures e in r <==> e in g
    {
      assert e in multiset(r) <==> e in multiset(g);
    }
  }

  lemma EntryShape(songs: seq<Song>, name: string)
    requires name in Names(songs)
    ensures var e := Reference(songs, name);
      && e.albumName == name
      && e.songCount == |e.songs| > 0
      && (forall t :: t in e.songs <==> exists i :: 0 <= i < |songs| && songs[i].album == Some(name) && t == Ref(songs[i]))
      && e.totalDuration == TotalDuration(Filter(songs, InAlbum(name)))
  {
    KnownAlbumHasSongs(songs, name);
    var e := Reference(songs, name);
    forall t
      ensures t in e.songs <==> exists i :: 0 <= i < |songs| && songs[i].album == Some(name) && t == Ref(songs[i])
    {
      AlbumTrack(songs, name, t);
    }
  }

  lemma AlbumTrack(songs: seq<Song>, name: string, t: TrackRef)
    ensures t in Refs(Filter(songs, InAlbum(name))) <==>
              exists i :: 0 <= i < |songs| && songs[i].album == Some(name) && t == Ref(songs[i])
  {
    var m := Filter(songs, InAlbum(name));
    AlbumMembers(songs, name);
    var rs := Refs(m);
    if t in rs {
      var k :| 0 <= k < |rs| && rs[k] == t;
      TrackOfMember(songs, m, name, k);
    }
    if exists i :: 0 <= i < |songs| && songs[i].album == Some(name) && t == Ref(songs[i]) {
      var i :| 0 <= i < |songs| && songs[i].album == Some(name) && t == Ref(songs[i]);
      MemberHasTrack(songs, m, name, i);
    }
  }

  lemma AlbumMembers(songs: seq<Song>, name: string)
    ensures forall x :: x in Filter(songs, InAlbum(name)) <==> x in songs && x.album == Some(name)
  {
  }

  lemma TrackOfMember(songs: seq<Song>, m: seq<Song>, name: string, k: nat)
    requires forall x :: x in m <==> x in songs && x.album == Some(name)
    requires k < |m|
    ensures exists i :: 0 <= i < |songs| && songs[i].album == Some(name) && Refs(m)[k] == Ref(songs[i])
  {
    assert m[k] in m;
    var i :| 0 <= i < |songs| && songs[i] == m[k];
    assert songs[i].album == Some(name) && Refs(m)[k] == Ref(songs[i]);
  }

  lemma MemberHasTrack(songs: seq<Song>, m: seq<Song>, name: string, i: nat)
    requires forall x :: x in m <==> x in songs && x.album == Some(name)
    requires i < |songs| && songs[i].album == Some(name)
    ensures Ref(songs[i]) in Refs(m)
  {
    assert songs[i] in m;
    var k :| 0 <= k < |m| && m[k] == songs[i];
    assert Refs(m)[k] == Ref(songs[i]);
  }

  /** Every entry of the listing describes one listed album completely: its
      songs are exactly the songs with that album field, its count is their
      number and its total their summed durations; excluded album values
      never appear. */
  lemma ListAlbumsEntries(songs: seq<Song>)
    ensures forall e :: e in ListAlbums(songs) ==>
      && e.albumName != "Single" && e.albumName != "Unknown Album" && e.albumName != ""
      && e.songCount == |e.songs| > 0
      && e.totalDuration == TotalDuration(Filter(songs, InAlbum(e.albumName)))
      && (forall t :: t in e.songs <==>
            exists i :: 0 <= i < |songs| && songs[i].album == Some(e.albumName) && t == Ref(songs[i]))
  {
    var r := ListAlbums(songs);
    var names := Names(songs);
    forall e | e in r
      ensures && e.albumName != "Single" && e.albumName != "Unknown Album" && e.albumName != ""
              && e.songCount == |e.songs| > 0
              && e.totalDuration == TotalDuration(Filter(songs, InAlbum(e.albumName)))
              && (forall t :: t in e.songs <==>
                    exists i :: 0 <= i < |songs| && songs[i].album == Some(e.albumName) && t == Ref(songs[i]))
    {
      var k :| 0 <= k < |names| && e == Reference(songs, names[k]);
      ListedName(songs, names[k]);
      EntryShape(songs, names[k]);
    }
  }

  lemma EntryIsReference(songs: seq<Song>, e: AlbumEntry)
    requires e in ListAlbums(songs)
    ensures e == Reference(songs, e.albumName)
  {
    var k :| 0 <= k < |Names(songs)| && e == Reference(songs, Names(songs)[k]);
  }

  /** No two entries of the listing share an album name. */
  lemma ListAlbumsDistinctNames(songs: seq<Song>)
    ensures forall i, j :: 0 <= i < j < |ListAlbums(songs)| ==>
      ListAlbums(songs)[i].albumName != ListAlbums(songs)[j].albumName
  {
    var r := ListAlbums(songs);
    DistinctGroup(songs);
    GroupIsReference(songs);
    DistinctPermutation(r, Group(songs));
    forall i, j | 0 <= i < j < |r|
      ensures r[i].albumName != r[j].albumName
    {
      EntryIsReference(songs, r[i]);
      EntryIsReference(songs, r[j]);
      assert r[i] != r[j];
    }
  }

  /** The grouped entries carry distinct names. */
  lemma DistinctGroup(songs: seq<Song>)
    ensures Distinct(Group(songs))
  {
    GroupIsReference(songs);
    var g := Group(songs);
    forall i, j | 0 <= i < j < |g|
      ensures g[i] != g[j]
    {
      assert g[i].albumName == Names(songs)[i] && g[j].albumName == Names(songs)[j];
    }
  }

  /** A song whose album is `Single`, empty or `Unknown Album`. */
  predicate IsSingle(s: Song) {
    s.album == Some("Single") || s.album == Some("") || s.album == Some("Unknown Album")
  }

  predicate NoAlbum(s: Song) {
    s.album.None?
  }

  /** `GET /singles`, ascending by artist and then title. */
  function Singles(songs: seq<Song>): (r: seq<Song>)
    ensures SortedBy(r, ArtistTitleKey)
    ensures multiset(r) == multiset(Filter(songs, IsSingle))
    ensures forall s :: s in r <==> s in songs && IsSingle(s)
  {
    var f := Filter(songs, IsSingle);
    var r := SortBy(f, ArtistTitleKey);
    assert forall s :: s in r <==> s in f by {
      forall s
        ensures s in r <==> s in f
      {
        assert s in multiset(r) <==> s in multiset(f);
      }
    }
    r
  }

  /** Every song falls in exactly one of three classes: listed under an
      album, a single, or without album; so a song whose album is null
      appears in neither listing. */
  lemma {:induction false} EverySongClassifiedOnce(songs: seq<Song>)
    ensures |Filter(songs, Listed)| + |Filter(songs, IsSingle)| + |Filter(songs, NoAlbum)| == |songs|
  {
    if |songs| > 0 {
      EverySongClassifiedOnce(songs[1..]);
    }
  }

  /** `GET /album/:albumName`: 404 when no song has exactly that album,
      otherwise its songs ascending by title. */
  function AlbumByName(songs: seq<Song>, name: string): (r: Result<seq<Song>>)
    ensures r.Err? <==> forall i :: 0 <= i < |songs| ==> songs[i].album != Some(name)
    ensures r.Err? ==> r.status == NotFound
    ensures r.Ok? ==> SortedBy(r.value, TitleKey)
    ensures r.Ok? ==> multiset(r.value) == multiset(Filter(songs, InAlbum(name)))
  {
    var f := Filter(songs, InAlbum(name));
    if |f| == 0 then
      forall i | 0 <= i < |songs|
        ensures songs[i].album != Some(name)
      {
        assert InAlbum(name)(songs[i]) == (songs[i].album == Some(name));
      }
      Err(NotFound)
    else
      assert f[0] in songs;
      Ok(SortBy(f, TitleKey))
  }

  /** An album of the listing opens on a page with as many songs as its
      entry counts. */
  lemma AlbumPageMatchesEntry(songs: seq<Song>, name: string)
    requires name in Names(songs)
    ensures AlbumByName(songs, name).Ok?
    ensures |AlbumByName(songs, name).value| == Reference(songs, name).songCount
  {
    KnownAlbumHasSongs(songs, name);
    var r := AlbumByName(songs, name);
    var j :| 0 <= j < |songs| && Listed(songs[j]) && songs[j].album.value == name;
    assert songs[j].album == Some(name);
    assert |multiset(r.value)| == |multiset(Filter(songs, InAlbum(name)))|;
  }
}
