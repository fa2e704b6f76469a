/**
 * The per-file decisions of the music-folder scanner that generates the
 * seed data: which directory entries are descended into or kept, which
 * record each kept file yields, and the library statistics printed at the
 * end. The file system and the metadata parser are inputs: a directory is
 * given as the tree of entries its reads would return, each file with the
 * outcome of parsing its metadata and of writing its cover image.
 */
module Scanner {
  import opened Wrappers
  import opened Seqs
  import opened Text

  /** Subdirectories are entered only below this nesting depth. */
  const MaxDepth: nat := 3

  /** The extensions kept, compared after lower-casing. */
  const AudioExtensions: seq<string> := [".mp3", ".m4a", ".wav", ".flac", ".ogg", ".aac"]

  /** The duration recorded when the metadata gives none, or one that rounds to 0. */
  const DefaultDuration: int := 180

  // ------------------------------------------------------------ file names

  predicate EndsWith(s: string, suffix: string) {
    |suffix| <= |s| && s[|s| - |suffix|..] == suffix
  }

  /** The position of the last `c` in `s`, or -1. */
  function LastIndexOf(s: string, c: char): (r: int)
    ensures -1 <= r < |s|
    ensures r >= 0 ==> s[r] == c
    ensures forall i :: r < i < |s| ==> s[i] != c
  {
    if |s| == 0 then -1
    else if s[|s| - 1] == c then |s| - 1
    else LastIndexOf(s[..|s| - 1], c)
  }

  /** `path.extname` of a bare file name: from the last dot to the end,
      unless that dot is the first character or there is none. */
  function Extname(name: string): (r: string)
    ensures r == "" || (r[0] == '.' && EndsWith(name, r) && |r| < |name| && Lacks(r[1..], '.'))
    ensures r == "" <==> forall i :: 0 < i < |name| ==> name[i] != '.'
  {
    var d := LastIndexOf(name, '.');
    if d > 0 then name[d..] else ""
  }

  /** `path.basename(name, ext)` of a bare file name: `ext` is cut off the end
      when the name ends with it, compared exactly, and is not all of it. */
  function Basename(name: string, ext: string): (r: string)
    ensures r == name || (r + ext == name && |ext| > 0)
    ensures |ext| > 0 && EndsWith(name, ext) && name != ext ==> r + ext == name
  {
    if |ext| > 0 && EndsWith(name, ext) && name != ext then name[..|name| - |ext|] else name
  }

  predicate IsAudio(name: string) {
    Lower(Extname(name)) in AudioExtensions
  }

  /** The title given to a file whose metadata names none: the file name as
      the scanner writes it, with the lower-cased extension passed as the
      suffix to cut, so that an upper-case extension is not cut at all. */
  function AsWrittenFallbackTitle(name: string): (r: string)
    ensures r == name || r + Lower(Extname(name)) == name
  {
    Basename(name, Lower(Extname(name)))
  }

  /** The title evidently meant: the file name without its extension, in
      whatever case the extension is written. */
  function FallbackTitle(name: string): (r: string)
    ensures r + Extname(name) == name
    ensures IsAudio(name) ==> |r| < |name|
  {
    var e := Extname(name);
    if e == "" then
      assert name + e == name;
      name
    else
      assert name[..|name| - |e|] + name[|name| - |e|..] == name;
      Basename(name, e)
  }

  /** "Song.MP3" is kept for scanning yet keeps its extension in the title. */
  lemma AsWrittenKeepsUpperCaseExtension()
    ensures IsAudio("Song.MP3")
    ensures AsWrittenFallbackTitle("Song.MP3") == "Song.MP3"
    ensures FallbackTitle("Song.MP3") == "Song"
  {
    var n := "Song.MP3";
    assert LastIndexOf(n, '.') == 4 by {
      assert n[7] != '.' && n[6] != '.' && n[5] != '.' && n[4] == '.';
      assert n[..7][..6][..5][4] == '.';
    }
    assert Extname(n) == ".MP3";
    assert Lower(".MP3") == ".mp3";
    assert !EndsWith(n, ".mp3") by {
      assert n[4..] == ".MP3";
    }
  }

  /** The two titles agree whenever the extension is already in lower case. */
  lemma FallbackTitlesAgree(name: string)
    requires Lower(Extname(name)) == Extname(name)
    ensures AsWrittenFallbackTitle(name) == FallbackTitle(name)
  {
  }

  // ------------------------------------------------------------ metadata

  /** What the metadata parser reports; `None` for an absent field, and the
      format of the first embedded picture if there is one. */
  datatype Metadata = Metadata(
    title: Option<string>,
    artist: Option<string>,
    album: Option<string>,
    genres: seq<string>,
    duration: Option<real>,
    pictureFormat: Option<string>)

  datatype Parse = ParseFailed | Parsed(meta: Metadata)

  /** One entry of the seed data. */
  datatype Record = Record(
    title: string,
    artist: string,
    album: string,
    genre: string,
    duration: int,
    coverImage: string,
    filePath: string)

  /** `value || fallback` on a string that may be absent: the empty string
      counts as absent. */
  function OrDefault(value: Option<string>, fallback: string): (r: string)
    ensures value.Some? && value.value != "" ==> r == value.value
    ensures value.None? || value.value == "" ==> r == fallback
  {
    if value.Some? && value.value != "" then value.value else fallback
  }

  /** `Math.round`: to the nearest integer, halves upwards. */
  function Round(x: real): (r: int)
    ensures x - 0.5 < r as real <= x + 0.5
  {
    (x + 0.5).Floor
  }

  /** `Math.round(duration) || 180`. */
  function RecordedDuration(d: Option<real>): (r: int)
    ensures r != 0
    ensures d.None? ==> r == DefaultDuration
    ensures d.Some? && Round(d.value) != 0 ==> r == Round(d.value)
    ensures d.Some? && -0.5 <= d.value < 0.5 ==> r == DefaultDuration
  {
    if d.None? then DefaultDuration
    else
      var r := Round(d.value);
      if r == 0 then DefaultDuration else r
  }

  predicate IsAlnumAscii(c: char) {
    ('a' <= c <= 'z') || ('A' <= c <= 'Z') || ('0' <= c <= '9')
  }

  /** `s.replace(/[^a-z0-9]/gi, '_')`. */
  function Sanitize(s: string): (r: string)
    ensures |r| == |s|
    ensures forall i :: 0 <= i < |s| ==> (IsAlnumAscii(s[i]) ==> r[i] == s[i]) && (!IsAlnumAscii(s[i]) ==> r[i] == '_')
    ensures forall i :: 0 <= i < |r| ==> IsAlnumAscii(r[i]) || r[i] == '_'
  {
    seq(|s|, i requires 0 <= i < |s| => if IsAlnumAscii(s[i]) then s[i] else '_')
  }

  /** `format.split('/').pop().toLowerCase()`: the lower-cased text after the
      last slash of the MIME type. */
  function CoverExt(format: string): (r: string)
    ensures Lacks(r, '/')
    ensures forall i :: 0 <= i < |r| ==> !IsUpperAscii(r[i])
    ensures Lacks(format, '/') ==> r == Lower(format)
  {
    var pieces := Split(format, '/');
    var last := pieces[|pieces| - 1];
    LowerIsNormalForm(last);
    assert Lacks(Lower(last), '/') by {
      forall i | 0 <= i < |last|
        ensures Lower(last)[i] != '/'
      {
        assert last[i] != '/';
      }
    }
    Lower(last)
  }

  function CoverFileName(artist: string, album: string, format: string): string {
    Sanitize(artist) + "_" + Sanitize(album) + "_cover." + CoverExt(format)
  }

  /** The stored path: relative to the music folder, every backslash turned
      into a slash. */
  function StoredPath(relative: string): (r: string)
    ensures |r| == |relative|
    ensures Lacks(r, '\\')
  {
    ReplaceAll(relative, '\\', '/')
  }

  /** The record a kept file yields: from its metadata with the defaults
      filled in, or the bare fallback record when parsing failed. The cover
      name is kept only when the image was written. */
  function MakeRecord(name: string, parse: Parse, coverWritten: bool, relative: string): (r: Record)
    ensures r.filePath == StoredPath(relative)
    ensures r.duration != 0
    ensures parse.ParseFailed? ==>
      r == Record(AsWrittenFallbackTitle(name), "Unknown Artist", "Unknown Album", "Unknown", DefaultDuration, "", r.filePath)
    ensures parse.Parsed? ==>
      && r.title == OrDefault(parse.meta.title, AsWrittenFallbackTitle(name))
      && r.artist == OrDefault(parse.meta.artist, "Unknown Artist")
      && r.album == OrDefault(parse.meta.album, "Unknown Album")
      && r.genre == (if |parse.meta.genres| > 0 && parse.meta.genres[0] != "" then parse.meta.genres[0] else "Unknown Genre")
      && r.duration == RecordedDuration(parse.meta.duration)
      && (r.coverImage != "" <==> parse.meta.pictureFormat.Some? && coverWritten)
    ensures r.artist != "" && r.album != ""
  {
    var fallbackTitle := AsWrittenFallbackTitle(name);
    var path := StoredPath(relative);
    match parse
    case ParseFailed =>
      Record(fallbackTitle, "Unknown Artist", "Unknown Album", "Unknown", DefaultDuration, "", path)
    case Parsed(m) =>
      var artist := OrDefault(m.artist, "Unknown Artist");
      var album := OrDefault(m.album, "Unknown Album");
      var genre := if |m.genres| > 0 && m.genres[0] != "" then m.genres[0] else "Unknown Genre";
      var cover := if m.pictureFormat.Some? && coverWritten then CoverFileName(artist, album, m.pictureFormat.value) else "";
      Record(OrDefault(m.title, fallbackTitle), artist, album, genre, RecordedDuration(m.duration), cover, path)
  }

  /** Metadata with every field absent. */
  const NoMetadata: Metadata := Metadata(None, None, None, [], None, None)

  /** A file whose metadata parses but names nothing gets the record of a
      failed parse except for the genre, which the two paths of the source
      spell differently; its title is the file name without a lower-case
      extension. */
  lemma MakeRecordDefaults(name: string, coverWritten: bool, relative: string)
    ensures MakeRecord(name, Parsed(NoMetadata), coverWritten, relative)
            == MakeRecord(name, ParseFailed, coverWritten, relative).(genre := "Unknown Genre")
    ensures Lower(Extname(name)) == Extname(name) ==>
              MakeRecord(name, ParseFailed, coverWritten, relative).title + Extname(name) == name
  {
    if Lower(Extname(name)) == Extname(name) {
      FallbackTitlesAgree(name);
    }
  }

  // ------------------------------------------------------------ the walk

  /** `path.join`'s separator on the platform the scanner targets, whose
      music folder is a drive path. */
  const Sep: char := '\\'

  /** A directory entry as `stat` and, for files, the metadata parser and the
      cover write would report it. */
  datatype Entry =
    | FileNode(name: string, parse: Parse, coverWritten: bool)
    | DirNode(name: string, listing: Listing)
    | StatFailed(name: string)

  /** What `readdir` returns for a directory. */
  datatype Listing = Unreadable | Entries(entries: seq<Entry>)

  /** What every record the scanner writes satisfies. */
  predicate Sound(r: Record) {
    Lacks(r.filePath, '\\') && r.duration != 0 && r.artist != "" && r.album != ""
  }

  predicate HasStatFailure(es: seq<Entry>) {
    exists k :: 0 <= k < |es| && es[k].StatFailed?
  }

  /** `scanMusicDirectory(dir, depth)`: the records of the directory, `prefix`
      being its path relative to the music folder. A directory that cannot be
      listed, or one of whose entries cannot be `stat`ed, yields nothing at
      all; a subdirectory is entered only below `MaxDepth`. */
  function ScanDirectory(l: Listing, depth: nat, prefix: string): (r: seq<Record>)
    ensures forall k :: 0 <= k < |r| ==> Sound(r[k])
    ensures l.Unreadable? ==> r == []
    ensures l.Entries? && HasStatFailure(l.entries) ==> r == []
    decreases l, 1
  {
    match l
    case Unreadable => []
    case Entries(es) =>
      match ScanEntries(l, 0, depth, prefix)
      case None => []
      case Some(rs) => rs
  }

  /** The loop over `l.entries[i..]`; `None` when a `stat` fails, which
      abandons the whole directory. */
  function ScanEntries(l: Listing, i: nat, depth: nat, prefix: string): (r: Option<seq<Record>>)
    requires l.Entries? && i <= |l.entries|
    ensures r.None? <==> HasStatFailure(l.entries[i..])
    ensures r.Some? ==> forall k :: 0 <= k < |r.value| ==> Sound(r.value[k])
    decreases l, 0, |l.entries| - i
  {
    if i == |l.entries| then Some([])
    else
      var e := l.entries[i];
      assert l.entries[i..][0] == e;
      assert forall k :: 1 <= k < |l.entries[i..]| ==> l.entries[i..][k] == l.entries[i + 1..][k - 1];
      if e.StatFailed? then None
      else
        var here :=
          if e.DirNode? then
            if depth < MaxDepth then ScanDirectory(e.listing, depth + 1, prefix + e.name + [Sep]) else []
          else if IsAudio(e.name) then [MakeRecord(e.name, e.parse, e.coverWritten, prefix + e.name)]
          else [];
        match ScanEntries(l, i + 1, depth, prefix)
        case None => None
        case Some(rest) => Some(here + rest)
  }

  // ---------------------------------------------- directories without subtrees

  predicate IsAudioFile(e: Entry) {
    e.FileNode? && IsAudio(e.name)
  }

  /** One record per kept file, in listing order. */
  function FileRecords(files: seq<Entry>, prefix: string): (r: seq<Record>)
    requires AllFiles(files)
    ensures |r| == |files|
    ensures forall k :: 0 <= k < |r| ==>
              r[k] == MakeRecord(files[k].name, files[k].parse, files[k].coverWritten, prefix + files[k].name)
  {
    if |files| == 0 then []
    else
      var f := files[0];
      assert AllFiles(files[1..]) by {
        forall k | 0 <= k < |files[1..]|
          ensures files[1..][k].FileNode?
        {
          assert files[1..][k] == files[k + 1];
        }
      }
      [MakeRecord(f.name, f.parse, f.coverWritten, prefix + f.name)] + FileRecords(files[1..], prefix)
  }

  lemma NoStatFailureTail(es: seq<Entry>, i: nat)
    requires i < |es| && !HasStatFailure(es[i..])
    ensures !es[i].StatFailed? && !HasStatFailure(es[i + 1..])
  {
    assert es[i..][0] == es[i];
    forall k | i + 1 <= k < |es|
      ensures !es[k].StatFailed?
    {
      assert es[k] == es[i..][k - i];
    }
  }

  lemma FileRecordsCons(x: Entry, files: seq<Entry>, prefix: string)
    requires x.FileNode? && AllFiles(files)
    ensures AllFiles([x] + files)
    ensures FileRecords([x] + files, prefix) == [MakeRecord(x.name, x.parse, x.coverWritten, prefix + x.name)] + FileRecords(files, prefix)
  {
    forall k | 1 <= k < |[x] + files|
      ensures ([x] + files)[k].FileNode?
    {
      assert ([x] + files)[k] == files[k - 1];
    }
    assert ([x] + files)[1..] == files;
  }

  lemma FilterStep(es: seq<Entry>, i: nat)
    requires i < |es|
    ensures Filter(es[i..], IsAudioFile)
            == (if IsAudioFile(es[i]) then [es[i]] else []) + Filter(es[i + 1..], IsAudioFile)
  {
    assert es[i..][0] == es[i] && es[i..][1..] == es[i + 1..];
  }

  /** The records one entry other than a failed `stat` adds to its directory. */
  function EntryRecords(e: Entry, depth: nat, prefix: string): seq<Record>
    requires !e.StatFailed?
  {
    if e.DirNode? then
      if depth < MaxDepth then ScanDirectory(e.listing, depth + 1, prefix + e.name + [Sep]) else []
    else if IsAudio(e.name) then [MakeRecord(e.name, e.parse, e.coverWritten, prefix + e.name)]
    else []
  }

  lemma ScanEntriesStep(l: Listing, i: nat, depth: nat, prefix: string, rest: seq<Record>)
    requires l.Entries? && i < |l.entries| && !l.entries[i].StatFailed?
    requires ScanEntries(l, i + 1, depth, prefix) == Some(rest)
    ensures ScanEntries(l, i, depth, prefix) == Some(EntryRecords(l.entries[i], depth, prefix) + rest)
  {
  }

  predicate AllFiles(fs: seq<Entry>) {
    forall k :: 0 <= k < |fs| ==> fs[k].FileNode?
  }

  lemma AudioStep(e: Entry, tail: seq<Entry>, depth: nat, prefix: string)
    requires IsAudioFile(e) && AllFiles(tail)
    ensures AllFiles([e] + tail)
    ensures EntryRecords(e, depth, prefix) + FileRecords(tail, prefix) == FileRecords([e] + tail, prefix)
  {
    FileRecordsCons(e, tail, prefix);
  }

  lemma SilentStep(e: Entry, tail: seq<Entry>, depth: nat, prefix: string)
    requires !e.StatFailed? && (depth >= MaxDepth || !e.DirNode?) && !IsAudioFile(e) && AllFiles(tail)
    ensures EntryRecords(e, depth, prefix) + FileRecords(tail, prefix) == FileRecords(tail, prefix)
  {
    assert EntryRecords(e, depth, prefix) == [];
  }

  lemma {:induction false} ShallowEntries(l: Listing, i: nat, depth: nat, prefix: string)
    requires l.Entries? && i <= |l.entries|
    requires !HasStatFailure(l.entries[i..])
    requires depth >= MaxDepth || forall k :: i <= k < |l.entries| ==> !l.entries[k].DirNode?
    ensures ScanEntries(l, i, depth, prefix) == Some(FileRecords(Filter(l.entries[i..], IsAudioFile), prefix))
    decreases |l.entries| - i
  {
    if i < |l.entries| {
      var e := l.entries[i];
      NoStatFailureTail(l.entries, i);
      ShallowEntries(l, i + 1, depth, prefix);
      var tail := Filter(l.entries[i + 1..], IsAudioFile);
      ScanEntriesStep(l, i, depth, prefix, FileRecords(tail, prefix));
      FilterStep(l.entries, i);
      if IsAudioFile(e) {
        AudioStep(e, tail, depth, prefix);
      } else {
        SilentStep(e, tail, depth, prefix);
      }
    }
  }

  /** A directory with no subdirectory to enter, because it has none or sits
      at the depth limit, yields exactly one record per audio file it lists,
      in listing order, unless one of its entries cannot be `stat`ed. */
  lemma ScanShallowDirectory(es: seq<Entry>, depth: nat, prefix: string)
    requires !HasStatFailure(es)
    requires depth >= MaxDepth || forall k :: 0 <= k < |es| ==> !es[k].DirNode?
    ensures ScanDirectory(Entries(es), depth, prefix) == FileRecords(Filter(es, IsAudioFile), prefix)
  {
    assert es[0..] == es;
    ShallowEntries(Entries(es), 0, depth, prefix);
  }

  // ---------------------------------------------- whole trees

  /** The number of audio files the scan reaches from a listing: those a
      readable directory lists, and those of its subdirectories while the
      depth is below `MaxDepth`. */
  function AudioFilesWithin(l: Listing, depth: nat): nat
    decreases l, 1
  {
    match l
    case Unreadable => 0
    case Entries(es) => AudioFilesFrom(l, 0, depth)
  }

  function AudioFilesFrom(l: Listing, i: nat, depth: nat): nat
    requires l.Entries? && i <= |l.entries|
    decreases l, 0, |l.entries| - i
  {
    if i == |l.entries| then 0
    else
      EntryAudioFiles(l.entries[i], depth) + AudioFilesFrom(l, i + 1, depth)
  }

  /** The audio files one entry contributes. */
  function EntryAudioFiles(e: Entry, depth: nat): nat
    decreases e
  {
    if e.DirNode? then (if depth < MaxDepth then AudioFilesWithin(e.listing, depth + 1) else 0)
    else if IsAudioFile(e) then 1
    else 0
  }

  /** Every `stat` succeeds in every directory the scan lists. */
  predicate StatsSucceed(l: Listing, depth: nat)
    decreases l, 1
  {
    match l
    case Unreadable => true
    case Entries(es) => StatsSucceedFrom(l, 0, depth)
  }

  predicate StatsSucceedFrom(l: Listing, i: nat, depth: nat)
    requires l.Entries? && i <= |l.entries|
    decreases l, 0, |l.entries| - i
  {
    if i == |l.entries| then true
    else
      var e := l.entries[i];
      && !e.StatFailed?
      && (e.DirNode? && depth < MaxDepth ==> StatsSucceed(e.listing, depth + 1))
      && StatsSucceedFrom(l, i + 1, depth)
  }

  /** In a tree where every `stat` succeeds, the scan yields one record per
      audio file reachable within the depth bound, at any nesting. */
  lemma {:induction false} ScanCount(l: Listing, depth: nat, prefix: string)
    requires StatsSucceed(l, depth)
    ensures |ScanDirectory(l, depth, prefix)| == AudioFilesWithin(l, depth)
    decreases l, 1
  {
    if l.Entries? {
      EntriesCount(l, 0, depth, prefix);
    }
  }

  lemma {:induction false} EntriesCount(l: Listing, i: nat, depth: nat, prefix: string)
    requires l.Entries? && i <= |l.entries|
    requires StatsSucceedFrom(l, i, depth)
    ensures ScanEntries(l, i, depth, prefix).Some?
    ensures |ScanEntries(l, i, depth, prefix).value| == AudioFilesFrom(l, i, depth)
    decreases l, 0, |l.entries| - i
  {
    if i < |l.entries| {
      var e := l.entries[i];
      EntriesCount(l, i + 1, depth, prefix);
      var rest := ScanEntries(l, i + 1, depth, prefix).value;
      ScanEntriesStep(l, i, depth, prefix, rest);
      EntryCount(e, depth, prefix);
    }
  }

  lemma {:induction false} EntryCount(e: Entry, depth: nat, prefix: string)
    requires !e.StatFailed?
    requires e.DirNode? && depth < MaxDepth ==> StatsSucceed(e.listing, depth + 1)
    ensures |EntryRecords(e, depth, prefix)| == EntryAudioFiles(e, depth)
    decreases e
  {
    if e.DirNode? && depth < MaxDepth {
      ScanCount(e.listing, depth + 1, prefix + e.name + [Sep]);
    }
  }

  // ---------------------------------------------- a failing subdirectory

  lemma {:induction false} SameEntries(a: Listing, i: nat, b: Listing, j: nat, depth: nat, prefix: string)
    requires a.Entries? && b.Entries? && i <= |a.entries| && j <= |b.entries|
    requires a.entries[i..] == b.entries[j..]
    ensures ScanEntries(a, i, depth, prefix) == ScanEntries(b, j, depth, prefix)
    decreases |a.entries| - i
  {
    if i < |a.entries| {
      assert a.entries[i] == a.entries[i..][0] == b.entries[j];
      assert a.entries[i + 1..] == a.entries[i..][1..] == b.entries[j..][1..] == b.entries[j + 1..];
      SameEntries(a, i + 1, b, j + 1, depth, prefix);
    }
  }

  lemma {:induction false} SkipEntry(es: seq<Entry>, j: nat, i: nat, depth: nat, prefix: string)
    requires i <= j < |es| && es[j].DirNode? && es[j].listing.Unreadable?
    ensures ScanEntries(Entries(es), i, depth, prefix) == ScanEntries(Entries(es[..j] + es[j + 1..]), i, depth, prefix)
    decreases j - i
  {
    var rest := es[..j] + es[j + 1..];
    if i == j {
      assert es[j + 1..] == rest[j..];
      match ScanEntries(Entries(es), j + 1, depth, prefix)
      case None =>
      case Some(tail) => assert [] + tail == tail;
      SameEntries(Entries(es), j + 1, Entries(rest), j, depth, prefix);
    } else {
      assert rest[i] == es[i];
      SkipEntry(es, j, i + 1, depth, prefix);
    }
  }

  /** A subdirectory that cannot be listed contributes nothing, and unlike an
      entry that cannot be `stat`ed it costs its siblings nothing: the
      directory yields what it would without that subdirectory. */
  lemma UnreadableSubdirectoryIsSkipped(es: seq<Entry>, j: nat, depth: nat, prefix: string)
    requires j < |es| && es[j].DirNode? && es[j].listing.Unreadable?
    ensures ScanDirectory(Entries(es), depth, prefix) == ScanDirectory(Entries(es[..j] + es[j + 1..]), depth, prefix)
  {
    SkipEntry(es, j, 0, depth, prefix);
  }

  // ---------------------------------------------------------- depth bound

  predicate IsSeparator(c: char) {
    c == '/' || c == '\\'
  }

  /** The number of path separators in `s`. */
  function Separators(s: string): nat {
    if |s| == 0 then 0 else Separators(s[..|s| - 1]) + (if IsSeparator(s[|s| - 1]) then 1 else 0)
  }

  lemma {:induction false} SeparatorsAppend(a: string, b: string)
    ensures Separators(a + b) == Separators(a) + Separators(b)
    decreases |b|
  {
    if |b| > 0 {
      assert (a + b)[..|a + b| - 1] == a + b[..|b| - 1];
      SeparatorsAppend(a, b[..|b| - 1]);
    } else {
      assert a + b == a;
    }
  }

  lemma {:induction false} SeparatorsOfStoredPath(s: string)
    ensures Separators(StoredPath(s)) == Separators(s)
    decreases |s|
  {
    if |s| > 0 {
      var t := StoredPath(s);
      assert t[..|t| - 1] == StoredPath(s[..|s| - 1]);
      SeparatorsOfStoredPath(s[..|s| - 1]);
    }
  }

  /** A name a file system can hand back: no separator inside it. */
  predicate PlainName(name: string) {
    forall k :: 0 <= k < |name| ==> !IsSeparator(name[k])
  }

  lemma {:induction false} SeparatorsOfPlainName(name: string)
    requires PlainName(name)
    ensures Separators(name) == 0
    decreases |name|
  {
    if |name| > 0 {
      SeparatorsOfPlainName(name[..|name| - 1]);
    }
  }

  /** Every name in the tree is plain. */
  predicate PlainNames(l: Listing)
    decreases l
  {
    l.Entries? ==>
      forall k :: 0 <= k < |l.entries| ==>
        PlainName(l.entries[k].name) && (l.entries[k].DirNode? ==> PlainNames(l.entries[k].listing))
  }

  /** Since directories are entered only below `MaxDepth`, no stored path of a
      record has more than `MaxDepth` separators, all of them slashes. */
  lemma {:induction false} DirectoryDepth(l: Listing, depth: nat, prefix: string)
    requires PlainNames(l) && Separators(prefix) <= depth <= MaxDepth
    ensures WithinDepth(ScanDirectory(l, depth, prefix))
    decreases l, 1
  {
    if l.Entries? {
      EntriesDepth(l, 0, depth, prefix);
    }
  }

  lemma SubdirectoryPrefix(prefix: string, name: string, depth: nat)
    requires PlainName(name) && Separators(prefix) <= depth
    ensures Separators(prefix + name + [Sep]) <= depth + 1
  {
    SeparatorsOfPlainName(name);
    SeparatorsAppend(prefix, name);
    SeparatorsAppend(prefix + name, [Sep]);
    assert [Sep][..0] == [];
  }

  lemma FileDepth(prefix: string, name: string, depth: nat)
    requires PlainName(name) && Separators(prefix) <= depth
    ensures Separators(StoredPath(prefix + name)) <= depth
  {
    SeparatorsOfPlainName(name);
    SeparatorsAppend(prefix, name);
    SeparatorsOfStoredPath(prefix + name);
  }

  /** No stored path has more than `MaxDepth` separators. */
  predicate WithinDepth(rs: seq<Record>) {
    forall k :: 0 <= k < |rs| ==> Separators(rs[k].filePath) <= MaxDepth
  }

  lemma WithinDepthAppend(a: seq<Record>, b: seq<Record>)
    requires WithinDepth(a) && WithinDepth(b)
    ensures WithinDepth(a + b)
  {
    forall k | 0 <= k < |a + b|
      ensures Separators((a + b)[k].filePath) <= MaxDepth
    {
      if k >= |a| {
        assert (a + b)[k] == b[k - |a|];
      }
    }
  }

  lemma {:induction false} EntryDepth(l: Listing, i: nat, depth: nat, prefix: string)
    requires l.Entries? && i < |l.entries| && !l.entries[i].StatFailed?
    requires PlainNames(l) && Separators(prefix) <= depth <= MaxDepth
    ensures WithinDepth(EntryRecords(l.entries[i], depth, prefix))
    decreases l, 0, |l.entries| - i, 0
  {
    var e := l.entries[i];
    if e.DirNode? && depth < MaxDepth {
      SubdirectoryPrefix(prefix, e.name, depth);
      DirectoryDepth(e.listing, depth + 1, prefix + e.name + [Sep]);
    } else if e.FileNode? && IsAudio(e.name) {
      FileDepth(prefix, e.name, depth);
    }
  }

  lemma {:induction false} EntriesDepth(l: Listing, i: nat, depth: nat, prefix: string)
    requires l.Entries? && i <= |l.entries|
    requires PlainNames(l) && Separators(prefix) <= depth <= MaxDepth
    ensures ScanEntries(l, i, depth, prefix).Some? ==> WithinDepth(ScanEntries(l, i, depth, prefix).value)
    decreases l, 0, |l.entries| - i, 1
  {
    if i < |l.entries| && !l.entries[i].StatFailed? && ScanEntries(l, i + 1, depth, prefix).Some? {
      var rest := ScanEntries(l, i + 1, depth, prefix).value;
      EntriesDepth(l, i + 1, depth, prefix);
      ScanEntriesStep(l, i, depth, prefix, rest);
      EntryDepth(l, i, depth, prefix);
      WithinDepthAppend(EntryRecords(l.entries[i], depth, prefix), rest);
    }
  }

  // ---------------------------------------------------------- statistics

  /** The distinct values of `xs` other than `unknown`. */
  function Known(xs: seq<string>, unknown: string): set<string> {
    set k | 0 <= k < |xs| && xs[k] != unknown :: xs[k]
  }

  lemma {:induction false} KnownBound(xs: seq<string>, unknown: string)
    ensures |Known(xs, unknown)| <= |xs|
    decreases |xs|
  {
    if |xs| > 0 {
      var init := xs[..|xs| - 1];
      var last := xs[|xs| - 1];
      KnownBound(init, unknown);
      forall x | x in Known(xs, unknown)
        ensures x in Known(init, unknown) || x == last
      {
        var k :| 0 <= k < |xs| && xs[k] != unknown && xs[k] == x;
        if k < |xs| - 1 {
          assert init[k] == x;
        }
      }
      forall x | x in Known(init, unknown)
        ensures x in Known(xs, unknown)
      {
        var k :| 0 <= k < |init| && init[k] != unknown && init[k] == x;
        assert xs[k] == x;
      }
      if last == unknown {
        assert Known(xs, unknown) == Known(init, unknown);
      } else {
        assert Known(xs, unknown) == Known(init, unknown) + {last};
      }
    }
  }

  /** The `albumCount` of the statistics: the distinct albums other than
      "Unknown Album"; none exactly when every record's album is unknown. */
  function AlbumCount(records: seq<Record>): (n: nat)
    ensures n <= |records|
    ensures n == 0 <==> forall k :: 0 <= k < |records| ==> records[k].album == "Unknown Album"
    ensures exists names: set<string> :: |names| == n &&
              forall a :: a in names <==> a != "Unknown Album" && exists k :: 0 <= k < |records| && records[k].album == a
  {
    var albums := seq(|records|, k requires 0 <= k < |records| => records[k].album);
    KnownBound(albums, "Unknown Album");
    forall k | 0 <= k < |records| && records[k].album != "Unknown Album"
      ensures records[k].album in Known(albums, "Unknown Album")
    {
      assert albums[k] == records[k].album;
    }
    forall a | a in Known(albums, "Unknown Album")
      ensures exists k :: 0 <= k < |records| && records[k].album == a
    {
      var k :| 0 <= k < |albums| && albums[k] != "Unknown Album" && albums[k] == a;
      assert records[k].album == a;
    }
    |Known(albums, "Unknown Album")|
  }

  /** The `artistCount` of the statistics: the distinct artists other than
      "Unknown Artist"; none exactly when every record's artist is unknown. */
  function ArtistCount(records: seq<Record>): (n: nat)
    ensures n <= |records|
    ensures n == 0 <==> forall k :: 0 <= k < |records| ==> records[k].artist == "Unknown Artist"
    ensures exists names: set<string> :: |names| == n &&
              forall a :: a in names <==> a != "Unknown Artist" && exists k :: 0 <= k < |records| && records[k].artist == a
  {
    var artists := seq(|records|, k requires 0 <= k < |records| => records[k].artist);
    KnownBound(artists, "Unknown Artist");
    forall k | 0 <= k < |records| && records[k].artist != "Unknown Artist"
      ensures records[k].artist in Known(artists, "Unknown Artist")
    {
      assert artists[k] == records[k].artist;
    }
    forall a | a in Known(artists, "Unknown Artist")
      ensures exists k :: 0 <= k < |records| && records[k].artist == a
    {
      var k :| 0 <= k < |artists| && artists[k] != "Unknown Artist" && artists[k] == a;
      assert records[k].artist == a;
    }
    |Known(artists, "Unknown Artist")|
  }

  /** Files whose metadata could not be read never add to either count. */
  lemma UnparsedFilesCountNothing(files: seq<Entry>, prefix: string)
    requires forall k :: 0 <= k < |files| ==> files[k].FileNode? && files[k].parse.ParseFailed?
    ensures AlbumCount(FileRecords(files, prefix)) == 0
    ensures ArtistCount(FileRecords(files, prefix)) == 0
  {
  }
}
