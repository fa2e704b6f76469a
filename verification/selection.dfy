/**
 * The two playlist-builder pages: the song selection (toggle, remove,
 * add-all), the library filter, the cover-image checks, the validation run
 * before anything is sent, and the loop that adds the selected songs to the
 * new playlist. The outcome of each service call is an input.
 */
module Selection {
  import opened Wrappers
  import opened Seqs
  import opened Text
  import opened Songs

  // ------------------------------------------------------------ selection

  /** `handleSongToggle`: a song whose id is selected is taken out (its first
      entry); any other song is appended. */
  function Toggle(selected: seq<Song>, song: Song): (r: seq<Song>)
    ensures !HasId(selected, song.id) ==> r == selected + [song]
    ensures HasId(selected, song.id) ==> |r| == |selected| - 1 && IsSubsequence(r, selected)
    ensures forall id :: id != song.id ==> (HasId(r, id) <==> HasId(selected, id))
    ensures UniqueIds(selected) ==> UniqueIds(r)
    ensures UniqueIds(selected) ==> (HasId(r, song.id) <==> !HasId(selected, song.id))
  {
    IndexOfIdFound(selected, song.id);
    var i := IndexOfId(selected, song.id);
    if i != -1 then
      RemoveAtFacts(selected, i);
      selected[..i] + selected[i + 1..]
    else
      AppendFacts(selected, song);
      selected + [song]
  }

  lemma RemoveAtIndex<T>(s: seq<T>, i: nat)
    requires i < |s|
    ensures |s[..i] + s[i + 1..]| == |s| - 1
    ensures forall k :: 0 <= k < i ==> (s[..i] + s[i + 1..])[k] == s[k]
    ensures forall k :: i < k < |s| ==> (s[..i] + s[i + 1..])[k - 1] == s[k]
  {
  }

  lemma RemoveAtFacts(s: seq<Song>, i: nat)
    requires i < |s|
    ensures IsSubsequence(s[..i] + s[i + 1..], s)
    ensures forall id :: id != s[i].id ==> (HasId(s[..i] + s[i + 1..], id) <==> HasId(s, id))
    ensures UniqueIds(s) ==> UniqueIds(s[..i] + s[i + 1..]) && !HasId(s[..i] + s[i + 1..], s[i].id)
  {
    var r := s[..i] + s[i + 1..];
    RemoveOneIsSubsequence(s, i);
    RemoveAtIndex(s, i);
    forall id | id != s[i].id && HasId(s, id)
      ensures HasId(r, id)
    {
      var k :| 0 <= k < |s| && s[k].id == id;
      if k < i {
        assert r[k].id == id;
      } else {
        assert r[k - 1].id == id;
      }
    }
    forall id | HasId(r, id)
      ensures HasId(s, id)
    {
      var k :| 0 <= k < |r| && r[k].id == id;
      if k < i {
        assert s[k].id == id;
      } else {
        assert s[k + 1].id == id;
      }
    }
    if UniqueIds(s) {
      RemovedUnique(s, i);
    }
  }

  lemma RemovedUnique(s: seq<Song>, i: nat)
    requires i < |s| && UniqueIds(s)
    ensures UniqueIds(s[..i] + s[i + 1..]) && !HasId(s[..i] + s[i + 1..], s[i].id)
  {
    var r := s[..i] + s[i + 1..];
    RemoveAtIndex(s, i);
    forall a, b | 0 <= a < b < |r|
      ensures r[a].id != r[b].id
    {
      var a' := if a < i then a else a + 1;
      var b' := if b < i then b else b + 1;
      assert r[a] == s[a'] && r[b] == s[b'];
    }
    forall k | 0 <= k < |r|
      ensures r[k].id != s[i].id
    {
      var k' := if k < i then k else k + 1;
      assert r[k] == s[k'];
    }
  }

  lemma {:induction false} RemoveOneIsSubsequence<T>(s: seq<T>, i: nat)
    requires i < |s|
    ensures IsSubsequence(s[..i] + s[i + 1..], s)
    decreases i
  {
    var r := s[..i] + s[i + 1..];
    if i == 0 {
      assert r == s[1..];
      SubsequenceOfItself(s[1..]);
    } else {
      RemoveOneIsSubsequence(s[1..], i - 1);
      assert r[0] == s[0];
      assert r[1..] == s[1..][..i - 1] + s[1..][i..];
    }
  }

  lemma AppendFacts(s: seq<Song>, song: Song)
    requires !HasId(s, song.id)
    ensures forall id :: id != song.id ==> (HasId(s + [song], id) <==> HasId(s, id))
    ensures HasId(s + [song], song.id)
    ensures UniqueIds(s) ==> UniqueIds(s + [song])
  {
    var r := s + [song];
    assert r[|s|] == song;
    forall id | HasId(s, id)
      ensures HasId(r, id)
    {
      var k :| 0 <= k < |s| && s[k].id == id;
      assert r[k] == s[k];
    }
  }

  /** Toggling a song that is not selected, twice, gives back the selection. */
  lemma ToggleTwice(selected: seq<Song>, song: Song)
    requires !HasId(selected, song.id)
    ensures Toggle(Toggle(selected, song), song) == selected
  {
    var once := selected + [song];
    IndexOfIdFound(selected, song.id);
    assert IndexOfId(once, song.id) == |selected| by {
      forall k | 0 <= k < |selected|
        ensures once[k].id != song.id
      {
        assert once[k] == selected[k];
      }
      IndexOfIdFound(once, song.id);
      assert once[|selected|].id == song.id;
    }
    assert once[..|selected|] + once[|selected| + 1..] == selected;
  }

  /** `isSongSelected`: scans the selection for the id. */
  method IsSelected(selected: seq<Song>, id: string) returns (found: bool)
    ensures found <==> HasId(selected, id)
  {
    found := false;
    var k := 0;
    while k < |selected| && !found
      invariant 0 <= k <= |selected|
      invariant found <==> exists j :: 0 <= j < k && selected[j].id == id
    {
      found := selected[k].id == id;
      k := k + 1;
    }
  }

  /** The predicate `s._id !== id`. */
  function OtherThan(id: string): Song -> bool {
    (s: Song) => s.id != id
  }

  /** `removeSongFromSelection`: every entry with the id goes, the rest stay
      in order. */
  function RemoveFromSelection(selected: seq<Song>, id: string): (r: seq<Song>)
    ensures !HasId(r, id)
    ensures IsSubsequence(r, selected)
    ensures forall s :: s in r <==> s in selected && s.id != id
    ensures UniqueIds(selected) ==> UniqueIds(r)
    ensures forall s :: multiset(r)[s] == if s.id == id then 0 else multiset(selected)[s]
  {
    var r := Filter(selected, OtherThan(id));
    FilterIsSubsequence(selected, OtherThan(id));
    SubsequenceKeepsUniqueIds(r, selected);
    forall s
      ensures multiset(r)[s] == if s.id == id then 0 else multiset(selected)[s]
    {
      FilterMultiplicity(selected, OtherThan(id), s);
    }
    r
  }

  lemma {:induction false} SubsequenceKeepsUniqueIds(a: seq<Song>, b: seq<Song>)
    requires IsSubsequence(a, b)
    ensures UniqueIds(b) ==> UniqueIds(a)
    decreases |b|
  {
    if |b| > 0 && UniqueIds(b) {
      assert UniqueIds(b[1..]) by {
        forall i, j | 0 <= i < j < |b[1..]|
          ensures b[1..][i].id != b[1..][j].id
        {
          assert b[1..][i] == b[i + 1] && b[1..][j] == b[j + 1];
        }
      }
      if |a| > 0 && a[0] == b[0] && IsSubsequence(a[1..], b[1..]) {
        SubsequenceKeepsUniqueIds(a[1..], b[1..]);
        SubsequenceMembers(a[1..], b[1..]);
        forall j | 0 < j < |a|
          ensures a[0].id != a[j].id
        {
          assert a[j] == a[1..][j - 1];
          var m :| 0 <= m < |b[1..]| && b[1..][m] == a[j];
          assert b[m + 1] == a[j];
        }
        forall i, j | 0 <= i < j < |a|
          ensures a[i].id != a[j].id
        {
          if i > 0 {
            assert a[i] == a[1..][i - 1] && a[j] == a[1..][j - 1];
          }
        }
      } else {
        SubsequenceKeepsUniqueIds(a, b[1..]);
      }
    }
  }

  lemma {:induction false} SubsequenceMembers<T>(a: seq<T>, b: seq<T>)
    requires IsSubsequence(a, b)
    ensures forall j :: 0 <= j < |a| ==> exists m :: 0 <= m < |b| && b[m] == a[j]
    decreases |b|
  {
    if |b| > 0 {
      if |a| > 0 && a[0] == b[0] && IsSubsequence(a[1..], b[1..]) {
        SubsequenceMembers(a[1..], b[1..]);
        forall j | 0 <= j < |a|
          ensures exists m :: 0 <= m < |b| && b[m] == a[j]
        {
          if j == 0 {
            assert b[0] == a[0];
          } else {
            assert a[j] == a[1..][j - 1];
            var m :| 0 <= m < |b[1..]| && b[1..][m] == a[j];
            assert b[m + 1] == a[j];
          }
        }
      } else {
        SubsequenceMembers(a, b[1..]);
        forall j | 0 <= j < |a|
          ensures exists m :: 0 <= m < |b| && b[m] == a[j]
        {
          var m :| 0 <= m < |b[1..]| && b[1..][m] == a[j];
          assert b[m + 1] == a[j];
        }
      }
    }
  }

  /** The predicate `!isSongSelected(song._id)` against a fixed selection. */
  function NotSelected(selected: seq<Song>): Song -> bool {
    (s: Song) => !HasId(selected, s.id)
  }

  /** `addAllFilteredSongs`: the listed songs not yet selected are appended, in
      listed order, after the unchanged selection. */
  function AddAllFiltered(selected: seq<Song>, listed: seq<Song>): (r: seq<Song>)
    ensures |r| >= |selected| && r[..|selected|] == selected
    ensures r[|selected|..] == Filter(listed, NotSelected(selected))
    ensures forall s :: s in listed ==> HasId(r, s.id)
    ensures forall k :: |selected| <= k < |r| ==> !HasId(selected, r[k].id)
  {
    var added := Filter(listed, NotSelected(selected));
    var r := selected + added;
    forall s | s in listed
      ensures HasId(r, s.id)
    {
      if HasId(selected, s.id) {
        var k :| 0 <= k < |selected| && selected[k].id == s.id;
        assert r[k] == selected[k];
      } else {
        assert NotSelected(selected)(s);
        var k :| 0 <= k < |added| && added[k] == s;
        assert r[|selected| + k] == s;
      }
    }
    forall k | |selected| <= k < |r|
      ensures !HasId(selected, r[k].id)
    {
      assert r[k] == added[k - |selected|];
      assert NotSelected(selected)(added[k - |selected|]);
    }
    r
  }

  /** With a library of distinct ids, adding all listed songs keeps the
      selection's ids distinct. */
  lemma AddAllKeepsUniqueIds(selected: seq<Song>, listed: seq<Song>)
    requires UniqueIds(selected) && UniqueIds(listed)
    ensures UniqueIds(AddAllFiltered(selected, listed))
  {
    var r := AddAllFiltered(selected, listed);
    var added := Filter(listed, NotSelected(selected));
    FilterIsSubsequence(listed, NotSelected(selected));
    SubsequenceKeepsUniqueIds(added, listed);
    assert r == selected + added;
    forall i, j | 0 <= i < j < |r|
      ensures r[i].id != r[j].id
    {
      if j < |selected| {
        assert r[i] == selected[i] && r[j] == selected[j];
      } else if i < |selected| {
        assert r[i] == selected[i];
        assert !HasId(selected, r[j].id);
      } else {
        assert r[i] == added[i - |selected|] && r[j] == added[j - |selected|];
      }
    }
  }

  /** The search predicate over a fixed term. */
  function MatchesTerm(term: string): Song -> bool {
    (s: Song) => Matches(s, term)
  }

  /** `filteredSongs`: the library songs whose title, artist or album contains
      the term, ignoring case, in library order. */
  function FilterSongs(library: seq<Song>, term: string): (r: seq<Song>)
    ensures forall s :: s in r <==> s in library && Matches(s, term)
    ensures IsSubsequence(r, library)
  {
    FilterIsSubsequence(library, MatchesTerm(term));
    Filter(library, MatchesTerm(term))
  }

  /** An empty search term lists the whole library. */
  lemma EmptyTermListsAll(library: seq<Song>)
    ensures FilterSongs(library, "") == library
  {
    forall s | s in library
      ensures MatchesTerm("")(s)
    {
      EmptyIsContained(Lower(s.title));
    }
    FilterKeepsAll(library, MatchesTerm(""));
  }

  // ------------------------------------------------------------ cover image

  /** What the browser reports of a chosen file. */
  datatype ImageFile = ImageFile(mimeType: string, size: nat)

  /** 5 MiB, the largest cover accepted. */
  const MaxCoverBytes: nat := 5 * 1024 * 1024

  datatype ImageCheck = NoFile | NotAnImage | TooLarge | Accepted(file: ImageFile)

  /** `handleImageChange`: no file does nothing; the MIME type is checked
      before the size. */
  function CheckImage(file: Option<ImageFile>): (r: ImageCheck)
    ensures file.None? <==> r.NoFile?
    ensures r.Accepted? <==> file.Some? && StartsWith(file.value.mimeType, "image/") && file.value.size <= MaxCoverBytes
    ensures r.TooLarge? ==> StartsWith(file.value.mimeType, "image/")
    ensures r.Accepted? ==> r.file == file.value
  {
    match file
    case None => NoFile
    case Some(f) =>
      if !StartsWith(f.mimeType, "image/") then NotAnImage
      else if f.size > MaxCoverBytes then TooLarge
      else Accepted(f)
  }

  /** The cover held by the page after a file is chosen. */
  function ChooseCover(cover: Option<ImageFile>, file: Option<ImageFile>): (r: Option<ImageFile>)
    ensures CheckImage(file).Accepted? ==> r == file
    ensures !CheckImage(file).Accepted? ==> r == cover
  {
    match CheckImage(file)
    case Accepted(f) => Some(f)
    case _ => cover
  }

  /** The limit itself is allowed; one byte more is not. */
  lemma CoverLimitIsInclusive(mimeType: string)
    requires StartsWith(mimeType, "image/")
    ensures CheckImage(Some(ImageFile(mimeType, 5242880))).Accepted?
    ensures CheckImage(Some(ImageFile(mimeType, 5242881))) == TooLarge
  {
  }

  // ------------------------------------------------------------ validation

  datatype CreateCheck = NameMissing | SelectionEmpty | Valid(name: string)

  /** The checks `handleCreatePlaylist` runs on both pages before any call: a
      name that is blank after trimming, then an empty selection. */
  function ValidateCreate(name: string, selected: seq<Song>): (r: CreateCheck)
    ensures r.NameMissing? <==> AllSpace(name)
    ensures r.SelectionEmpty? <==> !AllSpace(name) && |selected| == 0
    ensures r.Valid? ==> r.name == Trim(name) && r.name != "" && Contains(name, r.name)
  {
    if Trim(name) == "" then NameMissing
    else if |selected| == 0 then SelectionEmpty
    else Valid(Trim(name))
  }

  /** The body the new page posts: name and description, both trimmed. */
  datatype NewPlaylist = NewPlaylist(name: string, description: string, isPublic: bool)

  function CreateRequest(name: string, description: string, isPublic: bool, selected: seq<Song>): (r: Option<NewPlaylist>)
    ensures r.Some? <==> ValidateCreate(name, selected).Valid?
    ensures r.Some? ==> r.value.name == Trim(name) && r.value.description == Trim(description)
    ensures r.Some? ==> Trim(r.value.name) == r.value.name && Trim(r.value.description) == r.value.description
  {
    TrimIdempotent(name);
    TrimIdempotent(description);
    match ValidateCreate(name, selected)
    case Valid(n) => Some(NewPlaylist(n, Trim(description), isPublic))
    case _ => None
  }

  /** Trimming the inputs before submitting changes nothing: the request is
      built from the trimmed text either way. */
  lemma CreateRequestOfTrimmed(name: string, description: string, isPublic: bool, selected: seq<Song>)
    ensures CreateRequest(Trim(name), Trim(description), isPublic, selected) == CreateRequest(name, description, isPublic, selected)
  {
    TrimIdempotent(description);
    ValidateOfTrimmed(name, selected);
  }

  lemma ValidateOfTrimmed(name: string, selected: seq<Song>)
    ensures ValidateCreate(Trim(name), selected) == ValidateCreate(name, selected)
  {
    TrimIdempotent(name);
    ValidateSameTrim(Trim(name), name, selected);
  }

  /** Validation looks at the name only through its trimmed form. */
  lemma ValidateSameTrim(a: string, b: string, selected: seq<Song>)
    requires Trim(a) == Trim(b)
    ensures ValidateCreate(a, selected) == ValidateCreate(b, selected)
  {
  }

  /** The save button's `disabled` condition. */
  predicate SaveDisabled(saving: bool, selected: seq<Song>, name: string) {
    saving || |selected| == 0 || Trim(name) == ""
  }

  /** An enabled button never leads to a validation message, and when nothing
      is being saved the button is enabled exactly when validation passes. */
  lemma EnabledMeansValid(saving: bool, selected: seq<Song>, name: string)
    ensures !SaveDisabled(saving, selected, name) ==> ValidateCreate(name, selected).Valid?
    ensures !saving ==> (SaveDisabled(saving, selected, name) <==> !ValidateCreate(name, selected).Valid?)
  {
  }

  // ------------------------------------------------------------ adding songs

  /** The ids whose add succeeds: those at positions not in `fails`. */
  function Succeeded(ids: seq<string>, fails: set<nat>, from: nat): (r: seq<string>)
    requires from <= |ids|
    ensures IsSubsequence(r, ids[from..])
    decreases |ids| - from
  {
    if from == |ids| then []
    else
      var rest := Succeeded(ids, fails, from + 1);
      assert ids[from..][1..] == ids[from + 1..];
      if from in fails then rest else [ids[from]] + rest
  }

  /** The new page's loop: every selected id is sent in order and a failure
      is swallowed. */
  method AddSelectionSwallowing(ids: seq<string>, fails: set<nat>) returns (calls: seq<string>, added: seq<string>)
    ensures calls == ids
    ensures added == Succeeded(ids, fails, 0)
    ensures IsSubsequence(added, ids)
  {
    calls := [];
    var acc: seq<string> := [];
    var k := |ids|;
    while k > 0
      invariant 0 <= k <= |ids|
      invariant acc == Succeeded(ids, fails, k)
    {
      k := k - 1;
      if k !in fails {
        acc := [ids[k]] + acc;
      }
    }
    added := acc;
    calls := ids;
    assert ids[0..] == ids;
  }

  /** The position of the first failing add, or `|ids|` when none fails. */
  function FirstFailure(ids: seq<string>, fails: set<nat>): (r: nat)
    ensures r <= |ids|
    ensures r < |ids| ==> r in fails
    ensures forall k :: 0 <= k < r ==> k !in fails
  {
    FirstFailureFrom(ids, fails, 0)
  }

  function FirstFailureFrom(ids: seq<string>, fails: set<nat>, from: nat): (r: nat)
    requires from <= |ids|
    ensures from <= r <= |ids|
    ensures r < |ids| ==> r in fails
    ensures forall k :: from <= k < r ==> k !in fails
    decreases |ids| - from
  {
    if from == |ids| || from in fails then from else FirstFailureFrom(ids, fails, from + 1)
  }

  /** The ids before the first failure all succeed, so the older page's
      additions are a prefix of the newer page's; with no failure both add
      every id. */
  lemma {:induction false} SucceededFromFirstFailure(ids: seq<string>, fails: set<nat>, from: nat)
    requires from <= |ids|
    ensures ids[from..FirstFailureFrom(ids, fails, from)] <= Succeeded(ids, fails, from)
    ensures (forall k :: from <= k < |ids| ==> k !in fails) ==> Succeeded(ids, fails, from) == ids[from..]
    decreases |ids| - from
  {
    if from < |ids| {
      SucceededFromFirstFailure(ids, fails, from + 1);
      if from !in fails {
        assert ids[from..FirstFailureFrom(ids, fails, from)]
            == [ids[from]] + ids[from + 1..FirstFailureFrom(ids, fails, from + 1)];
        assert ids[from..] == [ids[from]] + ids[from + 1..];
      }
    }
  }

  lemma AbortingAddsPrefixOfSwallowing(ids: seq<string>, fails: set<nat>)
    ensures ids[..FirstFailure(ids, fails)] <= Succeeded(ids, fails, 0)
    ensures (forall k :: 0 <= k < |ids| ==> k !in fails) ==> Succeeded(ids, fails, 0) == ids
  {
    SucceededFromFirstFailure(ids, fails, 0);
    assert ids[0..] == ids;
    assert ids[0..FirstFailure(ids, fails)] == ids[..FirstFailure(ids, fails)];
  }

  /** When every add fails, the newer page adds nothing and the older one
      stops at the first id. */
  lemma AllFailing(ids: seq<string>, fails: set<nat>)
    requires forall k :: 0 <= k < |ids| ==> k in fails
    ensures Succeeded(ids, fails, 0) == []
    ensures FirstFailure(ids, fails) == 0
  {
    NoneSucceed(ids, fails, 0);
  }

  lemma {:induction false} NoneSucceed(ids: seq<string>, fails: set<nat>, from: nat)
    requires from <= |ids|
    requires forall k :: from <= k < |ids| ==> k in fails
    ensures Succeeded(ids, fails, from) == []
    decreases |ids| - from
  {
    if from < |ids| {
      NoneSucceed(ids, fails, from + 1);
    }
  }

  /** The older page's loop: ids are sent in order and the first failure
      aborts the rest, so exactly the ids before it are added and the
      creation is reported as failed. */
  method AddSelectionAborting(ids: seq<string>, fails: set<nat>) returns (calls: seq<string>, added: seq<string>, failed: bool)
    ensures failed <==> exists k :: 0 <= k < |ids| && k in fails
    ensures added == ids[..FirstFailure(ids, fails)]
    ensures calls == if failed then ids[..FirstFailure(ids, fails) + 1] else ids
  {
    calls := [];
    added := [];
    failed := false;
    var k := 0;
    while k < |ids| && !failed
      invariant 0 <= k <= |ids|
      invariant forall j :: 0 <= j < k - (if failed then 1 else 0) ==> j !in fails
      invariant failed ==> k >= 1 && k - 1 in fails
      invariant calls == ids[..k]
      invariant added == ids[..if failed then k - 1 else k]
    {
      calls := calls + [ids[k]];
      if k in fails {
        failed := true;
      } else {
        added := added + [ids[k]];
      }
      k := k + 1;
    }
    var f := FirstFailure(ids, fails);
    if failed {
      assert f == k - 1;
    } else {
      assert k == |ids|;
      assert f == |ids|;
      assert ids[..k] == ids;
    }
  }
}
