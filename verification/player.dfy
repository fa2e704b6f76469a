/**
 * The audio player's queue and transport state machine (the audio context
 * provider of the frontend). Every transition is a pure function from the
 * state before to the state after. The asynchronous `play()` promise of the
 * media element is represented by a flag `started` saying whether it
 * resolved; the random draws of the shuffle by a sequence `rolls`.
 */
module Player {
  import opened Wrappers
  import opened Songs

  datatype PlayerState = PlayerState(
    currentSong: Option<Song>,
    isPlaying: bool,
    currentTime: real,
    volume: real,
    isMuted: bool,
    queue: seq<Song>,
    queueIndex: nat,
    originalQueue: seq<Song>,
    isRepeat: bool,
    isShuffle: bool)

  /** The state when the provider mounts. */
  const Initial := PlayerState(None, false, 0.0, 0.7, false, [], 0, [], false, false)

  // ------------------------------------------------------------ shuffle

  /** The `k`-th draw of `Math.random()`, already scaled to an index. */
  function Roll(rolls: seq<nat>, k: nat): nat {
    if k < |rolls| then rolls[k] else 0
  }

  function Swap<T>(a: seq<T>, i: nat, j: nat): (r: seq<T>)
    requires i < |a| && j < |a|
    ensures |r| == |a| && multiset(r) == multiset(a)
    ensures r[i] == a[j] && r[j] == a[i]
    ensures forall k :: 0 <= k < |a| && k != i && k != j ==> r[k] == a[k]
  {
    a[i := a[j]][j := a[i]]
  }

  /** Iterations `i, i - 1, ..., 1` of the Fisher-Yates loop; iteration number
      `k` swaps position `i` with `j = rolls[k] mod (i + 1)`, i.e. with any
      position in `[0, i]`, as `Math.floor(Math.random() * (i + 1))` does. */
  function ShuffleFrom<T>(a: seq<T>, i: nat, rolls: seq<nat>, k: nat): (r: seq<T>)
    requires i < |a|
    ensures |r| == |a| && multiset(r) == multiset(a)
    decreases i
  {
    if i == 0 then a
    else ShuffleFrom(Swap(a, i, Roll(rolls, k) % (i + 1)), i - 1, rolls, k + 1)
  }

  /** `shuffleQueue`: a Fisher-Yates shuffle of a copy of `songs`. */
  function ShuffleQueue<T>(songs: seq<T>, rolls: seq<nat>): (r: seq<T>)
    ensures |r| == |songs| && multiset(r) == multiset(songs)
  {
    if |songs| == 0 then [] else ShuffleFrom(songs, |songs| - 1, rolls, 0)
  }

  /** Shuffles every entry except the one at `index`, which stays in place:
      it is spliced out, the rest shuffled, and it is spliced back in. An
      `index` past the end shuffles the whole queue (see `ShuffleAsWritten`
      for what the source does there). */
  function ShuffleAround<T>(q: seq<T>, index: nat, rolls: seq<nat>): (r: seq<T>)
    ensures |r| == |q| && multiset(r) == multiset(q)
    ensures index < |q| ==> r[index] == q[index]
  {
    if index < |q| then
      var rest := ShuffleQueue(q[..index] + q[index + 1..], rolls);
      SpliceOutMultiset(q, index);
      SpliceInMultiset(rest, index, q[index]);
      rest[..index] + [q[index]] + rest[index..]
    else
      ShuffleQueue(q, rolls)
  }

  lemma SpliceOutMultiset<T>(q: seq<T>, i: nat)
    requires i < |q|
    ensures multiset(q) == multiset(q[..i] + q[i + 1..]) + multiset{q[i]}
  {
    assert q == q[..i] + [q[i]] + q[i + 1..];
  }

  lemma SpliceInMultiset<T>(a: seq<T>, i: nat, x: T)
    requires i <= |a|
    ensures multiset(a[..i] + [x] + a[i..]) == multiset(a) + multiset{x}
    ensures (a[..i] + [x] + a[i..])[i] == x
  {
    assert a == a[..i] + a[i..];
  }

  // ------------------------------------------------------------ transport

  /** `playSong(song)`: a new `_id` becomes the current song from position 0;
      the same `_id` keeps the current song and position. The queue and the
      cursor are never touched. */
  function PlaySong(s: PlayerState, song: Option<Song>, started: bool): (r: PlayerState)
    ensures song.None? ==> r == s
    ensures song.Some? ==> r.currentSong.Some? && r.currentSong.value.id == song.value.id
    ensures song.Some? && (s.currentSong.None? || s.currentSong.value.id != song.value.id) ==>
      r.currentSong == song && r.currentTime == 0.0
    ensures song.Some? && s.currentSong.Some? && s.currentSong.value.id == song.value.id ==>
      r.currentSong == s.currentSong && r.currentTime == s.currentTime
    ensures song.Some? ==> r.isPlaying == (started || s.isPlaying)
    ensures r == s.(currentSong := r.currentSong, currentTime := r.currentTime, isPlaying := r.isPlaying)
  {
    match song
    case None => s
    case Some(x) =>
      var loaded :=
        if s.currentSong.None? || s.currentSong.value.id != x.id
        then s.(currentSong := song, currentTime := 0.0)
        else s;
      if started then loaded.(isPlaying := true) else loaded
  }

  /** `pauseSong`. */
  function PauseSong(s: PlayerState): (r: PlayerState)
    ensures !r.isPlaying
    ensures r == s.(isPlaying := false)
  {
    s.(isPlaying := false)
  }

  /** `togglePlayPause`. */
  function TogglePlayPause(s: PlayerState, started: bool): (r: PlayerState)
    ensures s.isPlaying ==> r == PauseSong(s)
    ensures !s.isPlaying && s.currentSong.None? ==> r == s
    ensures !s.isPlaying && s.currentSong.Some? ==>
      r == s.(isPlaying := started)
  {
    if s.isPlaying then PauseSong(s)
    else if s.currentSong.Some? then PlaySong(s, s.currentSong, started)
    else s
  }

  /** `seekTo(time)`: the position is set as given, without clamping. */
  function SeekTo(s: PlayerState, time: real): (r: PlayerState)
    ensures r.currentTime == time
    ensures r == s.(currentTime := time)
  {
    s.(currentTime := time)
  }

  /** The media element's `timeupdate` event: the state follows the element's
      position exactly as a seek to that position would set it. */
  function TimeUpdate(s: PlayerState, time: real): (r: PlayerState)
    ensures r == SeekTo(s, time)
  {
    s.(currentTime := time)
  }

  /** The media element's `error` event: the state is left as `pauseSong`
      leaves it. */
  function MediaError(s: PlayerState): (r: PlayerState)
    ensures r == PauseSong(s)
  {
    s.(isPlaying := false)
  }

  // ------------------------------------------------------------ volume

  /** `Math.min(1, Math.max(0, v))`. */
  function Clamp01(v: real): real {
    if v < 0.0 then 0.0 else if v > 1.0 then 1.0 else v
  }

  /** The volume the media element plays at. */
  function OutputVolume(s: PlayerState): real {
    if s.isMuted then 0.0 else s.volume
  }

  /** `setVolume`: stores the clamped volume; muted exactly when it is 0. */
  function SetVolume(s: PlayerState, v: real): (r: PlayerState)
    ensures 0.0 <= r.volume <= 1.0
    ensures 0.0 <= v <= 1.0 ==> r.volume == v
    ensures v < 0.0 ==> r.volume == 0.0
    ensures v > 1.0 ==> r.volume == 1.0
    ensures r.isMuted <==> r.volume == 0.0
    ensures OutputVolume(r) == r.volume
    ensures r == s.(volume := r.volume, isMuted := r.isMuted)
  {
    var c := Clamp01(v);
    s.(volume := c, isMuted := c == 0.0)
  }

  /** `toggleMute`: flips the muted flag and never changes the stored volume. */
  function ToggleMute(s: PlayerState): (r: PlayerState)
    ensures r.isMuted == !s.isMuted
    ensures r.volume == s.volume
    ensures OutputVolume(r) == (if s.isMuted then s.volume else 0.0)
    ensures r == s.(isMuted := r.isMuted)
  {
    s.(isMuted := !s.isMuted)
  }

  /** `toggleRepeat`. */
  function ToggleRepeat(s: PlayerState): (r: PlayerState)
    ensures r.isRepeat == !s.isRepeat
    ensures r == s.(isRepeat := r.isRepeat)
  {
    s.(isRepeat := !s.isRepeat)
  }

  // ------------------------------------------------------------ queue

  /** `toggleShuffle`. Enabling remembers the queue and shuffles it around the
      current entry; disabling restores the remembered queue (when there is
      one) and moves the cursor to the first entry with the current `_id`. */
  function ToggleShuffle(s: PlayerState, rolls: seq<nat>): (r: PlayerState)
    ensures r.isShuffle == !s.isShuffle
    ensures r.currentSong == s.currentSong && r.isPlaying == s.isPlaying
    ensures r.currentTime == s.currentTime && r.volume == s.volume && r.isMuted == s.isMuted
    ensures r.isRepeat == s.isRepeat
    // enabling
    ensures !s.isShuffle ==> r.originalQueue == s.queue
    ensures !s.isShuffle ==> multiset(r.queue) == multiset(s.queue) && |r.queue| == |s.queue|
    ensures !s.isShuffle ==> r.queueIndex == s.queueIndex
    ensures !s.isShuffle && s.currentSong.Some? && s.queueIndex < |s.queue| ==>
      r.queue[s.queueIndex] == s.queue[s.queueIndex]
    // disabling
    ensures s.isShuffle ==> r.originalQueue == s.originalQueue
    ensures s.isShuffle && |s.originalQueue| == 0 ==> r.queue == s.queue && r.queueIndex == s.queueIndex
    ensures s.isShuffle && |s.originalQueue| > 0 ==>
      && r.queue == s.originalQueue
      && r.queueIndex < |r.queue|
      && (s.currentSong.Some? && HasId(r.queue, s.currentSong.value.id) ==>
            && r.queue[r.queueIndex].id == s.currentSong.value.id
            && forall k :: 0 <= k < r.queueIndex ==> r.queue[k].id != s.currentSong.value.id)
      && (s.currentSong.None? || !HasId(r.queue, s.currentSong.value.id) ==> r.queueIndex == 0)
  {
    if !s.isShuffle then
      var shuffled :=
        if s.currentSong.Some? then ShuffleAround(s.queue, s.queueIndex, rolls)
        else ShuffleQueue(s.queue, rolls);
      s.(isShuffle := true, originalQueue := s.queue, queue := shuffled)
    else if |s.originalQueue| > 0 then
      s.(isShuffle := false, queue := s.originalQueue, queueIndex := RestoredIndex(s.originalQueue, s.currentSong))
    else
      s.(isShuffle := false)
  }

  /** The index shuffle-off restores: the first entry with the current
      song's id, or 0 when there is no current song or no such entry. */
  function RestoredIndex(original: seq<Song>, current: Option<Song>): (i: nat)
    requires |original| > 0
    ensures i < |original|
    ensures current.Some? && HasId(original, current.value.id) ==>
      && original[i].id == current.value.id
      && forall k :: 0 <= k < i ==> original[k].id != current.value.id
    ensures current.None? || !HasId(original, current.value.id) ==> i == 0
  {
    if current.None? then 0
    else
      var found := IndexOfId(original, current.value.id);
      IndexOfIdFound(original, current.value.id);
      if found < 0 then 0 else found
  }

  /** `playQueue(songs, startIndex)`: an empty list changes nothing; otherwise
      the list is remembered, played in order or shuffled, the cursor set to
      `startIndex` and the entry there, if any, played. */
  function PlayQueue(s: PlayerState, songs: seq<Song>, startIndex: nat, rolls: seq<nat>, started: bool): (r: PlayerState)
    ensures |songs| == 0 ==> r == s
    ensures |songs| > 0 ==> r.originalQueue == songs && r.queueIndex == startIndex
    ensures |songs| > 0 ==> multiset(r.queue) == multiset(songs) && |r.queue| == |songs|
    ensures |songs| > 0 && !s.isShuffle ==> r.queue == songs
    ensures |songs| > 0 && startIndex < |songs| ==>
      r.currentSong.Some? && r.currentSong.value.id == r.queue[startIndex].id
    ensures |songs| > 0 && startIndex < |songs| ==> r.isPlaying == (started || s.isPlaying)
    ensures |songs| > 0 && startIndex < |songs| &&
            (s.currentSong.None? || s.currentSong.value.id != r.queue[startIndex].id) ==>
      r.currentSong == Some(r.queue[startIndex]) && r.currentTime == 0.0
    ensures |songs| > 0 && startIndex < |songs| &&
            s.currentSong.Some? && s.currentSong.value.id == r.queue[startIndex].id ==>
      r.currentSong == s.currentSong && r.currentTime == s.currentTime
    ensures |songs| > 0 && startIndex >= |songs| ==> r.currentTime == s.currentTime
    ensures |songs| > 0 && startIndex >= |songs| ==>
      r.currentSong == s.currentSong && r.isPlaying == s.isPlaying
    ensures r.isShuffle == s.isShuffle && r.isRepeat == s.isRepeat
    ensures r.volume == s.volume && r.isMuted == s.isMuted
  {
    if |songs| == 0 then s
    else
      var toPlay := if s.isShuffle then ShuffleQueue(songs, rolls) else songs;
      var s1 := s.(originalQueue := songs, queue := toPlay, queueIndex := startIndex);
      PlaySong(s1, if startIndex < |toPlay| then Some(toPlay[startIndex]) else None, started)
  }

  /** `skipToNext`: always wraps from the last entry to the first, whether or
      not repeat is on. */
  function SkipToNext(s: PlayerState, started: bool): (r: PlayerState)
    ensures |s.queue| == 0 ==> r == s
    ensures |s.queue| > 0 ==> r.queueIndex == (s.queueIndex + 1) % |s.queue|
    ensures |s.queue| > 0 && s.queueIndex + 1 == |s.queue| ==> r.queueIndex == 0
    ensures |s.queue| > 0 ==> r.currentSong.Some? && r.currentSong.value.id == s.queue[r.queueIndex].id
    ensures r.queue == s.queue && r.originalQueue == s.originalQueue
    ensures r.isRepeat == s.isRepeat && r.isShuffle == s.isShuffle
    ensures r.volume == s.volume && r.isMuted == s.isMuted
  {
    if |s.queue| == 0 then s
    else
      var next := (s.queueIndex + 1) % |s.queue|;
      PlaySong(s.(queueIndex := next), Some(s.queue[next]), started)
  }

  /** `skipToPrevious`: past the first three seconds it rewinds the current
      track; otherwise it steps back one entry, wrapping to the last. */
  function SkipToPrevious(s: PlayerState, started: bool): (r: PlayerState)
    ensures |s.queue| == 0 ==> r == s
    ensures |s.queue| > 0 && s.currentTime > 3.0 ==> r == s.(currentTime := 0.0)
    ensures |s.queue| > 0 && s.currentTime <= 3.0 ==>
      && r.queueIndex == (s.queueIndex + |s.queue| - 1) % |s.queue|
      && r.currentSong.Some? && r.currentSong.value.id == s.queue[r.queueIndex].id
    ensures |s.queue| > 0 && s.currentTime <= 3.0 && s.queueIndex == 0 ==> r.queueIndex == |s.queue| - 1
    ensures r.queue == s.queue && r.originalQueue == s.originalQueue
    ensures r.isRepeat == s.isRepeat && r.isShuffle == s.isShuffle
  {
    if |s.queue| == 0 then s
    else if s.currentTime > 3.0 then SeekTo(s, 0.0)
    else
      var prev := (s.queueIndex + |s.queue| - 1) % |s.queue|;
      PlaySong(s.(queueIndex := prev), Some(s.queue[prev]), started)
  }

  /** The media element's `ended` event: with repeat on the same track starts
      again from 0; otherwise it is exactly `skipToNext`. */
  function TrackEnded(s: PlayerState, started: bool): (r: PlayerState)
    ensures s.isRepeat ==> r == s.(currentTime := 0.0)
    ensures !s.isRepeat ==> r == SkipToNext(s, started)
  {
    if s.isRepeat then s.(currentTime := 0.0) else SkipToNext(s, started)
  }

  /** The `ended` listener as written. It is installed by an effect that runs
      again only when repeat changes, so it sees `isRepeat`, the queue, the
      cursor and the current song of the render `installed` that last ran
      that effect, while the state setters act on the live state `s`. */
  function TrackEndedAsWritten(s: PlayerState, installed: PlayerState, started: bool): (r: PlayerState)
    ensures installed.isRepeat ==> r == s.(currentTime := 0.0)
    ensures !installed.isRepeat && |installed.queue| == 0 ==> r == s
    ensures !installed.isRepeat && |installed.queue| > 0 ==>
      && r.queueIndex == (installed.queueIndex + 1) % |installed.queue|
      && (installed.currentSong.None? || installed.currentSong.value.id != installed.queue[r.queueIndex].id ==>
            r.currentSong == Some(installed.queue[r.queueIndex]) && r.currentTime == 0.0)
      && (installed.currentSong.Some? && installed.currentSong.value.id == installed.queue[r.queueIndex].id ==>
            r.currentSong == s.currentSong && r.currentTime == s.currentTime)
    ensures r.queue == s.queue && r.originalQueue == s.originalQueue
  {
    if installed.isRepeat then s.(currentTime := 0.0)
    else if |installed.queue| == 0 then s
    else
      var next := (installed.queueIndex + 1) % |installed.queue|;
      var song := installed.queue[next];
      var moved := s.(queueIndex := next);
      var loaded :=
        if installed.currentSong.None? || installed.currentSong.value.id != song.id
        then moved.(currentSong := Some(song), currentTime := 0.0)
        else moved;
      if started then loaded.(isPlaying := true) else loaded
  }
}
