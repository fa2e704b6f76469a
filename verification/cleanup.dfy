/**
 * The one-off maintenance script that removes the "Favorites" playlist of
 * every user (the liked-songs list replaced it). Names are compared after
 * lower-casing; other favourite-like playlists are only reported.
 */
module Cleanup {
  import opened Seqs
  import opened Text
  import opened PlaylistRoutes

  /** A playlist whose lower-cased name is exactly `favorites`. */
  predicate IsFavorites(p: Playlist) {
    Lower(p.name) == "favorites"
  }

  predicate Kept(p: Playlist) {
    !IsFavorites(p)
  }

  /** A favourite-like playlist other than `favorites` itself. */
  predicate IsVariant(p: Playlist) {
    var name := Lower(p.name);
    (Contains(name, "favorite") || Contains(name, "favourite") || Contains(name, "liked"))
    && name != "favorites"
  }

  /** What the script does for one user: the playlists it leaves, the
      variants it reports, and whether it saves the user. */
  datatype Outcome = Outcome(playlists: seq<Playlist>, variants: seq<Playlist>, saved: bool)

  function CleanupUser(ps: seq<Playlist>): (r: Outcome)
    ensures r.saved <==> exists i :: 0 <= i < |ps| && IsFavorites(ps[i])
    ensures forall i :: 0 <= i < |r.playlists| ==> !IsFavorites(r.playlists[i])
    ensures forall p :: p in r.playlists <==> p in ps && !IsFavorites(p)
    ensures IsSubsequence(r.playlists, ps)
    ensures !r.saved ==> r.playlists == ps
    ensures forall p :: p in r.variants <==> p in ps && IsVariant(p)
    ensures IsSubsequence(r.variants, ps)
    ensures forall p :: p in r.variants ==> p in r.playlists
  {
    var variants := Filter(ps, IsVariant);
    FilterIsSubsequence(ps, IsVariant);
    if exists i :: 0 <= i < |ps| && IsFavorites(ps[i]) then
      FilterIsSubsequence(ps, Kept);
      Outcome(Filter(ps, Kept), variants, true)
    else
      SubsequenceOfItself(ps);
      Outcome(ps, variants, false)
  }

  /** Every user in turn: afterwards no user has a `favorites` playlist,
      each keeps exactly their other playlists, and a user is saved exactly
      when they had one. */
  function CleanupAll(users: seq<seq<Playlist>>): (r: seq<Outcome>)
    ensures |r| == |users|
    ensures forall i, k :: 0 <= i < |r| && 0 <= k < |r[i].playlists| ==> !IsFavorites(r[i].playlists[k])
    ensures forall i :: 0 <= i < |r| ==>
              (r[i].saved <==> exists k :: 0 <= k < |users[i]| && IsFavorites(users[i][k]))
    ensures forall i, p :: 0 <= i < |r| ==> (p in r[i].playlists <==> p in users[i] && !IsFavorites(p))
    ensures forall i :: 0 <= i < |r| && !r[i].saved ==> r[i].playlists == users[i]
  {
    seq(|users|, i requires 0 <= i < |users| => CleanupUser(users[i]))
  }

  /** A second run over all users saves nobody and changes no playlist. */
  lemma CleanupAllIdempotent(users: seq<seq<Playlist>>)
    ensures forall i :: 0 <= i < |users| ==> !CleanupAll(Lefts(CleanupAll(users)))[i].saved
    ensures Lefts(CleanupAll(Lefts(CleanupAll(users)))) == Lefts(CleanupAll(users))
  {
    var once := Lefts(CleanupAll(users));
    forall i | 0 <= i < |users|
      ensures !CleanupAll(once)[i].saved
    {
      assert !CleanupAll(once)[i].saved <==> !exists k :: 0 <= k < |once[i]| && IsFavorites(once[i][k]);
    }
  }

  /** The playlists each user is left with. */
  function Lefts(r: seq<Outcome>): (ps: seq<seq<Playlist>>)
    ensures |ps| == |r| && forall i :: 0 <= i < |r| ==> ps[i] == r[i].playlists
  {
    seq(|r|, i requires 0 <= i < |r| => r[i].playlists)
  }

  /** The playlists stored after a run that throws while handling user
      `stop`, through a failed save or a playlist without a name: one `try`
      holds the whole loop, so the users before `stop` are cleaned and every
      user from `stop` on keeps what was stored. A `stop` at or past the end
      is a run that does not throw. */
  function CleanupRun(users: seq<seq<Playlist>>, stop: nat): (r: seq<seq<Playlist>>)
    ensures |r| == |users|
    ensures forall i, k :: 0 <= i < |r| && i < stop && 0 <= k < |r[i]| ==> !IsFavorites(r[i][k])
    ensures forall i, p :: 0 <= i < |r| && i < stop ==> (p in r[i] <==> p in users[i] && !IsFavorites(p))
    ensures forall i :: stop <= i < |r| ==> r[i] == users[i]
  {
    seq(|users|, i requires 0 <= i < |users| => if i < stop then CleanupUser(users[i]).playlists else users[i])
  }

  /** A run that does not throw stores what `CleanupAll` leaves. */
  lemma CompleteRunIsCleanupAll(users: seq<seq<Playlist>>, stop: nat)
    requires stop >= |users|
    ensures CleanupRun(users, stop) == Lefts(CleanupAll(users))
  {
  }

  /** Running the script again after a run that threw finishes the job: the
      playlists stored are those of one run that did not throw. */
  lemma RerunCompletes(users: seq<seq<Playlist>>, stop: nat)
    ensures Lefts(CleanupAll(CleanupRun(users, stop))) == Lefts(CleanupAll(users))
  {
    var first := CleanupRun(users, stop);
    forall i | 0 <= i < |users|
      ensures Lefts(CleanupAll(first))[i] == Lefts(CleanupAll(users))[i]
    {
      if i < stop {
        CleanupIdempotent(users[i]);
      }
    }
  }

  /** Running the script a second time removes and saves nothing and reports
      the same variants. */
  lemma CleanupIdempotent(ps: seq<Playlist>)
    ensures CleanupUser(CleanupUser(ps).playlists).playlists == CleanupUser(ps).playlists
    ensures !CleanupUser(CleanupUser(ps).playlists).saved
    ensures CleanupUser(CleanupUser(ps).playlists).variants == CleanupUser(ps).variants
  {
    var once := CleanupUser(ps);
    if once.saved {
      FilterNarrower(ps, Kept, IsVariant);
    }
  }
}
