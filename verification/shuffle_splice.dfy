/**
 * The queue that enabling shuffle builds, as the audio context writes it
 * with `Array.prototype.splice`. Splicing out at a position past the end
 * removes nothing and yields `undefined`, which the second splice then
 * inserts; so a cursor past the end of the queue leaves an `undefined`
 * entry in the shuffled queue. `Player.ShuffleAround` is the corrected
 * operation the rest of the model uses.
 */
module ShuffleSplice {
  import opened Songs
  import opened Player

  /** An array slot: a song object or JavaScript's `undefined`. */
  datatype Slot = Entry(song: Song) | Undefined

  /** `a.splice(start, 1)` on a copy of `a`: the array left and the first
      removed element (`undefined` when nothing was removed). */
  function SpliceOut(a: seq<Slot>, start: nat): (r: (seq<Slot>, Slot))
    ensures start < |a| ==> |r.0| + 1 == |a| && r.1 == a[start]
    ensures start < |a| ==> multiset(r.0) + multiset{r.1} == multiset(a)
    ensures start < |a| ==> r.0[..start] == a[..start] && r.0[start..] == a[start + 1..]
    ensures start >= |a| ==> r.0 == a && r.1 == Undefined
  {
    if start < |a| then
      assert a == a[..start] + [a[start]] + a[start + 1..];
      (a[..start] + a[start + 1..], a[start])
    else (a, Undefined)
  }

  /** `a.splice(start, 0, x)`: inserts `x` at `start`, or at the end when
      `start` is past it. */
  function SpliceIn(a: seq<Slot>, start: nat, x: Slot): (r: seq<Slot>)
    ensures |r| == |a| + 1
    ensures multiset(r) == multiset(a) + multiset{x}
    ensures start <= |a| ==> r[start] == x && r[..start] == a[..start] && r[start + 1..] == a[start..]
    ensures start > |a| ==> r == a + [x]
  {
    var p := if start <= |a| then start else |a|;
    assert a == a[..p] + a[p..];
    a[..p] + [x] + a[p..]
  }

  /** The enabling branch of `toggleShuffle` with a current song, as written. */
  function ShuffleAsWritten(q: seq<Slot>, index: nat, rolls: seq<nat>): (r: seq<Slot>)
    ensures index < |q| ==> |r| == |q| && multiset(r) == multiset(q) && r[index] == q[index]
    ensures index >= |q| ==> |r| == |q| + 1 && r[|q|] == Undefined
    ensures index >= |q| ==> multiset(r) == multiset(q) + multiset{Undefined}
  {
    var (rest, item) := SpliceOut(q, index);
    SpliceIn(ShuffleQueue(rest, rolls), index, item)
  }

  /** With the cursor inside the queue the code as written builds exactly the
      queue `Player.ShuffleAround` describes. */
  lemma AsWrittenAgreesInRange(q: seq<Slot>, index: nat, rolls: seq<nat>)
    requires index < |q|
    ensures ShuffleAsWritten(q, index, rolls) == ShuffleAround(q, index, rolls)
  {
  }

  /** With the cursor past the end the two differ: the code as written has one
      entry more, an `undefined`. */
  lemma AsWrittenDiffersPastEnd(q: seq<Slot>, index: nat, rolls: seq<nat>)
    requires index >= |q|
    ensures ShuffleAsWritten(q, index, rolls) != ShuffleAround(q, index, rolls)
    ensures Undefined !in q ==> Undefined !in ShuffleAround(q, index, rolls)
  {
    assert |ShuffleAsWritten(q, index, rolls)| != |ShuffleAround(q, index, rolls)|;
    if Undefined !in q {
      assert multiset(ShuffleAround(q, index, rolls))[Undefined] == 0;
    }
  }

  /** A song playing on its own (nothing queued, cursor 0): enabling shuffle
      as written leaves a queue holding a single `undefined`, where
      `Player.ShuffleAround` leaves it empty. */
  lemma AsWrittenEmptyQueue(rolls: seq<nat>)
    ensures ShuffleAsWritten([], 0, rolls) == [Undefined]
    ensures ShuffleAround<Slot>([], 0, rolls) == []
  {
  }
}
