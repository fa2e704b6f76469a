/**
 * The queue panel of the player. It keeps its own copy of the queue, which
 * is refreshed only from a non-empty queue; it shows the entry at the cursor
 * of the live queue as "now playing" and lists the copy from just after the
 * cursor to the end, then from the start up to the cursor, as "next up".
 */
module QueueView {
  import opened Wrappers
  import opened Seqs
  import opened Songs
  import opened Player
  import opened PlayerProps

  datatype Panel =
    | EmptyPanel
    | Listing(nowPlaying: Option<Song>, nextUp: seq<Song>)

  /** The effect that copies the queue into the panel's own state. */
  function Refresh(copy: seq<Song>, queue: seq<Song>): (r: seq<Song>)
    ensures |queue| > 0 ==> r == queue
    ensures |queue| == 0 ==> r == copy
  {
    if |queue| > 0 then queue else copy
  }

  /** The copy after the queue has taken the values `queues` in turn: once
      it holds something it never becomes empty again. */
  function RefreshAll(copy: seq<Song>, queues: seq<seq<Song>>): (r: seq<Song>)
    ensures |r| == 0 ==> |copy| == 0 && forall i :: 0 <= i < |queues| ==> |queues[i]| == 0
    decreases |queues|
  {
    if |queues| == 0 then copy else RefreshAll(Refresh(copy, queues[0]), queues[1..])
  }

  /** The copy is the last non-empty queue seen, or the initial copy if
      there was none. */
  lemma {:induction false} RefreshAllIsLastNonEmpty(copy: seq<Song>, queues: seq<seq<Song>>, i: nat)
    requires i < |queues| && |queues[i]| > 0
    requires forall j :: i < j < |queues| ==> |queues[j]| == 0
    ensures RefreshAll(copy, queues) == queues[i]
    decreases |queues|
  {
    if i == 0 {
      RefreshAllOfEmpties(queues[0], queues[1..]);
    } else {
      RefreshAllIsLastNonEmpty(Refresh(copy, queues[0]), queues[1..], i - 1);
    }
  }

  lemma {:induction false} RefreshAllOfEmpties(copy: seq<Song>, queues: seq<seq<Song>>)
    requires forall j :: 0 <= j < |queues| ==> |queues[j]| == 0
    ensures RefreshAll(copy, queues) == copy
    decreases |queues|
  {
    if |queues| > 0 {
      RefreshAllOfEmpties(copy, queues[1..]);
    }
  }

  /** `slice(i + 1)` followed by `slice(0, i)`. */
  function NextUp(copy: seq<Song>, i: nat): (r: seq<Song>)
    ensures i < |copy| ==> |r| == |copy| - 1
    ensures i < |copy| ==> forall k :: 0 <= k < |r| ==> r[k] == copy[(i + 1 + k) % |copy|]
    ensures i < |copy| ==> multiset(r) + multiset{copy[i]} == multiset(copy)
    ensures i >= |copy| ==> r == copy
  {
    var r := SliceFrom(copy, i + 1) + SliceTo(copy, i);
    if i < |copy| then
      NextUpAt(copy, i, r);
      assert copy == copy[..i] + [copy[i]] + copy[i + 1..];
      r
    else
      r
  }

  lemma NextUpAt(copy: seq<Song>, i: nat, r: seq<Song>)
    requires i < |copy| && r == copy[i + 1..] + copy[..i]
    ensures forall k :: 0 <= k < |r| ==> r[k] == copy[(i + 1 + k) % |copy|]
  {
    var n := |copy|;
    forall k | 0 <= k < |r|
      ensures r[k] == copy[(i + 1 + k) % n]
    {
      if i + 1 + k < n {
        ModBelow(i + 1 + k, n);
      } else {
        ModPlusLength(i + 1 + k - n, n);
      }
    }
  }

  /** The panel: an empty copy shows only "Queue is empty"; otherwise the
      now-playing entry appears only while the cursor lies inside the live
      queue, and next-up is taken from the copy. */
  function Render(queue: seq<Song>, queueIndex: nat, copy: seq<Song>): (r: Panel)
    ensures |copy| == 0 <==> r.EmptyPanel?
    ensures r.Listing? ==> (r.nowPlaying.Some? <==> queueIndex < |queue|)
    ensures r.Listing? && queueIndex < |queue| ==> r.nowPlaying.value == queue[queueIndex]
    ensures r.Listing? && queueIndex < |copy| ==> |r.nextUp| == |copy| - 1
    ensures r.Listing? && queueIndex >= |copy| ==> r.nextUp == copy
  {
    if |copy| == 0 then EmptyPanel
    else Listing(if queueIndex < |queue| then Some(queue[queueIndex]) else None, NextUp(copy, queueIndex))
  }

  /** The current entry followed by next-up is the queue rotated left by the
      cursor. */
  lemma NowPlayingThenNextUpIsRotation(queue: seq<Song>, i: nat)
    requires i < |queue|
    ensures Render(queue, i, queue).Listing?
    ensures [Render(queue, i, queue).nowPlaying.value] + Render(queue, i, queue).nextUp
            == queue[i..] + queue[..i]
  {
    assert queue[i..] == [queue[i]] + queue[i + 1..];
  }

  /** With distinct entries, next-up holds every entry but the current one. */
  lemma NextUpOmitsOnlyCurrent(copy: seq<Song>, i: nat, x: Song)
    requires i < |copy| && Distinct(copy)
    ensures x in NextUp(copy, i) <==> x in copy && x != copy[i]
  {
    assert NextUp(copy, i) == copy[i + 1..] + copy[..i];
    RotationMembers(copy, i, x);
    if x in copy && x != copy[i] {
      var j :| 0 <= j < |copy| && copy[j] == x;
    }
    if x in NextUp(copy, i) {
      var j :| 0 <= j < |copy| && j != i && copy[j] == x;
      assert copy[j] != copy[i] by {
        if j < i {
          assert copy[j] != copy[i];
        } else {
          assert copy[i] != copy[j];
        }
      }
    }
  }

  /** The entries after `i` followed by those before it are the entries at
      every position but `i`. */
  lemma RotationMembers(copy: seq<Song>, i: nat, x: Song)
    requires i < |copy|
    ensures x in copy[i + 1..] + copy[..i] <==> exists j :: 0 <= j < |copy| && j != i && copy[j] == x
  {
    var r := copy[i + 1..] + copy[..i];
    if exists j :: 0 <= j < |copy| && j != i && copy[j] == x {
      var j :| 0 <= j < |copy| && j != i && copy[j] == x;
      if j < i {
        assert r[|copy| - 1 - i + j] == x;
      } else {
        assert r[j - i - 1] == x;
      }
    }
    if x in r {
      var j :| 0 <= j < |r| && r[j] == x;
      if j < |copy| - 1 - i {
        assert copy[i + 1 + j] == x;
      } else {
        assert copy[j - (|copy| - 1 - i)] == x;
      }
    }
  }

  /** Clicking a next-up entry plays it through `playSong`, which leaves the
      cursor and the queue where they are. */
  function ClickNextUp(s: PlayerState, song: Song, started: bool): (r: PlayerState)
    ensures r.queueIndex == s.queueIndex && r.queue == s.queue
    ensures r.currentSong.Some? && r.currentSong.value.id == song.id
  {
    PlaySong(s, Some(song), started)
  }
}
