/** Properties relating several transitions of the player. */
module PlayerProps {
  import opened Wrappers
  import opened Songs
  import opened Player

  /** Turning shuffle on and then off gives back the queue as it was before.
      When the current song sits at the cursor and `_id`s are unique, the
      cursor comes back too. */
  lemma ShuffleOnOffRestoresQueue(s: PlayerState, rollsOn: seq<nat>, rollsOff: seq<nat>)
    requires !s.isShuffle && |s.queue| > 0
    ensures ToggleShuffle(ToggleShuffle(s, rollsOn), rollsOff).queue == s.queue
    ensures !ToggleShuffle(ToggleShuffle(s, rollsOn), rollsOff).isShuffle
    ensures s.currentSong.Some? && s.queueIndex < |s.queue| && UniqueIds(s.queue)
            && s.currentSong.value.id == s.queue[s.queueIndex].id ==>
      ToggleShuffle(ToggleShuffle(s, rollsOn), rollsOff).queueIndex == s.queueIndex
  {
    var on := ToggleShuffle(s, rollsOn);
    var off := ToggleShuffle(on, rollsOff);
    if s.currentSong.Some? && s.queueIndex < |s.queue| && UniqueIds(s.queue)
       && s.currentSong.value.id == s.queue[s.queueIndex].id {
      assert HasId(s.queue, s.currentSong.value.id);
      IndexOfUniqueId(s.queue, s.queueIndex);
    }
  }

  lemma ModBelow(x: int, n: int)
    requires 0 <= x < n
    ensures x % n == x
  {
  }

  lemma ModPlusLength(x: int, n: int)
    requires 0 <= x < n
    ensures (x + n) % n == x
  {
  }

  /** Stepping forward and then back returns to the same entry, provided the
      step back is not swallowed by the three-second rewind rule. */
  lemma SkipNextThenPrevious(s: PlayerState, started1: bool, started2: bool)
    requires 0 < |s.queue| && s.queueIndex < |s.queue|
    requires s.currentTime <= 3.0
    ensures SkipToPrevious(SkipToNext(s, started1), started2).queueIndex == s.queueIndex
  {
    var n := |s.queue|;
    var t := SkipToNext(s, started1);
    assert t.currentTime == 0.0 || t.currentTime == s.currentTime;
    if s.queueIndex + 1 < n {
      ModBelow(s.queueIndex + 1, n);
      ModPlusLength(s.queueIndex, n);
    } else {
      ModPlusLength(0, n);
      ModBelow(n - 1, n);
    }
  }

  /** `k` consecutive `skipToNext` calls. */
  function SkipNextTimes(s: PlayerState, k: nat, started: bool): PlayerState
    decreases k
  {
    if k == 0 then s else SkipNextTimes(SkipToNext(s, started), k - 1, started)
  }

  /** Up to one full round, `k` skips advance the cursor by `k` modulo the
      queue length; `|queue|` skips bring it back where it started. */
  lemma {:induction false} SkipNextCycles(s: PlayerState, k: nat, started: bool)
    requires 0 < |s.queue| && s.queueIndex < |s.queue| && k <= |s.queue|
    ensures SkipNextTimes(s, k, started).queue == s.queue
    ensures SkipNextTimes(s, k, started).queueIndex ==
      (if s.queueIndex + k < |s.queue| then s.queueIndex + k else s.queueIndex + k - |s.queue|)
    ensures SkipNextTimes(s, k, started).queueIndex == (s.queueIndex + k) % |s.queue|
    ensures k == |s.queue| ==> SkipNextTimes(s, k, started).queueIndex == s.queueIndex
    decreases k
  {
    var n := |s.queue|;
    if k > 0 {
      var t := SkipToNext(s, started);
      if s.queueIndex + 1 < n {
        ModBelow(s.queueIndex + 1, n);
      } else {
        ModPlusLength(0, n);
      }
      SkipNextCycles(t, k - 1, started);
    }
    var i := SkipNextTimes(s, k, started).queueIndex;
    if s.queueIndex + k < n {
      ModBelow(s.queueIndex + k, n);
    } else {
      ModPlusLength(i, n);
    }
  }

  /** Pausing twice is pausing once. */
  lemma PauseIdempotent(s: PlayerState)
    ensures PauseSong(PauseSong(s)) == PauseSong(s)
  {
  }

  /** Muting and unmuting restores the output volume. */
  lemma ToggleMuteTwice(s: PlayerState)
    ensures ToggleMute(ToggleMute(s)) == s
    ensures OutputVolume(ToggleMute(ToggleMute(s))) == OutputVolume(s)
  {
  }

  /** Setting the volume to 0 overwrites the stored volume, so unmuting
      afterwards stays silent: the earlier non-zero volume is not remembered. */
  lemma UnmuteAfterZeroVolumeIsSilent(s: PlayerState)
    ensures SetVolume(s, 0.0).isMuted
    ensures OutputVolume(ToggleMute(SetVolume(s, 0.0))) == 0.0
  {
  }

  /** With shuffle on, `playQueue(songs, 0)` plays whatever lands at index 0 of
      the shuffled list, which need not be `songs[0]`. */
  lemma ShuffledPlayQueueMayStartElsewhere(a: Song, b: Song, s: PlayerState)
    requires a.id != b.id
    requires s.isShuffle
    ensures PlayQueue(s, [a, b], 0, [0], true).currentSong.Some?
    ensures PlayQueue(s, [a, b], 0, [0], true).currentSong.value.id == b.id != a.id
  {
    var q := [a, b];
    assert Swap(q, 1, Roll([0], 0) % 2) == [b, a];
    assert ShuffleFrom(q, 1, [0], 0) == ShuffleFrom([b, a], 0, [0], 1) == [b, a];
    assert ShuffleQueue(q, [0]) == [b, a];
  }

  /** Clicking an entry of the queue (`playSong(song)`) never moves the cursor
      or changes the queue. */
  lemma PlaySongKeepsQueue(s: PlayerState, song: Song, started: bool)
    ensures PlaySong(s, Some(song), started).queueIndex == s.queueIndex
    ensures PlaySong(s, Some(song), started).queue == s.queue
  {
  }

  /** A position update is a seek, and a media error is a pause. */
  lemma MediaEventsAreTransportCalls(s: PlayerState, time: real)
    ensures TimeUpdate(s, time) == SeekTo(s, time)
    ensures MediaError(s) == PauseSong(s)
    ensures MediaError(s).currentSong == s.currentSong && MediaError(s).currentTime == s.currentTime
  {
  }

  /** Toggling repeat twice restores the state. */
  lemma ToggleRepeatTwice(s: PlayerState)
    ensures ToggleRepeat(ToggleRepeat(s)) == s
  {
  }

  /** Pausing a playing song with a current song and resuming it, when
      `play()` starts, returns to the same state: same song, same position. */
  lemma PauseThenResume(s: PlayerState, started: bool)
    requires s.isPlaying && s.currentSong.Some?
    ensures TogglePlayPause(TogglePlayPause(s, started), true) == s
  {
  }

  /** A later seek overrides an earlier one, and restarting a track from
      `skipToPrevious` past three seconds is a seek to 0. */
  lemma SeekOverrides(s: PlayerState, a: real, b: real, started: bool)
    ensures SeekTo(SeekTo(s, a), b) == SeekTo(s, b)
    ensures |s.queue| > 0 && s.currentTime > 3.0 ==> SkipToPrevious(s, started) == SeekTo(s, 0.0)
  {
  }

  /** The `ended` listener as written keeps the render of the effect's last
      run: until repeat is toggled that is the first render, whose queue is
      empty, so a track that ends does not advance even when the live queue
      has several entries, while `TrackEnded` moves to the next one. */
  lemma StaleListenerDoesNotAdvance(s: PlayerState, installed: PlayerState, started: bool)
    requires !installed.isRepeat && |installed.queue| == 0
    requires !s.isRepeat && |s.queue| >= 2 && s.queueIndex < |s.queue|
    ensures TrackEndedAsWritten(s, installed, started) == s
    ensures TrackEnded(s, started).queueIndex != s.queueIndex
  {
    if s.queueIndex + 1 < |s.queue| {
      assert (s.queueIndex + 1) % |s.queue| == s.queueIndex + 1;
    } else {
      assert (s.queueIndex + 1) % |s.queue| == 0;
    }
  }

  /** A listener that sees the live state, as one re-installed on every
      render would, behaves as `TrackEnded`. */
  lemma FreshListenerIsTrackEnded(s: PlayerState, started: bool)
    ensures TrackEndedAsWritten(s, s, started) == TrackEnded(s, started)
  {
  }
}
