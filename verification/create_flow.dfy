/**
 * Creating a playlist from a selection, end to end: the pages create the
 * playlist, take its id from the reply, and add the selected songs one by
 * one through the add-song route. The reply of the create route holds the
 * user's whole list of playlists and no `_id` of its own, so the id the
 * pages read is missing and is written into the URL as `undefined`.
 */
module CreateFlow {
  import opened Wrappers
  import opened PlaylistRoutes
  import opened Text
  import Selection

  /** The body `POST /api/playlists` answers with on success. */
  datatype CreateReply = CreateReply(message: string, playlists: seq<Playlist>)

  /** The reply of a successful create: the list after the push. */
  function Reply(created: seq<Playlist>): CreateReply {
    CreateReply("Playlist created successfully", created)
  }

  /** `response._id` as both pages read it: the reply has no such field. */
  function ReplyIdAsWritten(reply: CreateReply): Option<string> {
    None
  }

  /** The id of the playlist the route pushed: the last one of the reply. */
  function ReplyIdCorrected(reply: CreateReply): (r: Option<string>)
    ensures r.Some? <==> |reply.playlists| > 0
    ensures r.Some? ==> r.value == reply.playlists[|reply.playlists| - 1].id
  {
    if |reply.playlists| == 0 then None else Some(reply.playlists[|reply.playlists| - 1].id)
  }

  /** A template literal writes a missing id as `undefined`. */
  function UrlId(id: Option<string>): (r: string)
    ensures id.Some? ==> r == id.value
    ensures id.None? ==> r == "undefined"
  {
    if id.Some? then id.value else "undefined"
  }

  /** The positions of `s` moved one further. */
  function Shift(s: set<nat>): (r: set<nat>)
    ensures forall k: nat :: k + 1 in r <==> k in s
    ensures 0 !in r
  {
    set k | k in s :: k + 1
  }

  /** The adds a page sends in turn for the ids of the selection, each
      against the playlists the previous one left (every song exists): the
      final playlists and the positions whose add was refused. */
  function AddEach(ps: seq<Playlist>, playlistId: string, ids: seq<string>): (r: (seq<Playlist>, set<nat>))
    ensures forall k :: k in r.1 ==> k < |ids|
    decreases |ids|
  {
    if |ids| == 0 then (ps, {})
    else
      match AddSong(Some(ps), true, playlistId, ids[0])
      case Ok(next) =>
        var rest := AddEach(next, playlistId, ids[1..]);
        (rest.0, Shift(rest.1))
      case Err(_) =>
        var rest := AddEach(ps, playlistId, ids[1..]);
        (rest.0, {0} + Shift(rest.1))
  }

  /** No playlist has the id `undefined`, as no Mongo object id is. */
  predicate NoUndefinedId(ps: seq<Playlist>) {
    forall k :: 0 <= k < |ps| ==> ps[k].id != "undefined"
  }

  /** Every add sent to a playlist id nobody has is refused, and nothing
      changes. */
  lemma {:induction false} AddEachUnknown(ps: seq<Playlist>, playlistId: string, ids: seq<string>)
    requires forall k :: 0 <= k < |ps| ==> ps[k].id != playlistId
    ensures AddEach(ps, playlistId, ids).0 == ps
    ensures forall k :: 0 <= k < |ids| ==> k in AddEach(ps, playlistId, ids).1
    decreases |ids|
  {
    if |ids| > 0 {
      assert IndexOfPlaylist(ps, playlistId) < 0;
      AddEachUnknown(ps, playlistId, ids[1..]);
      var rest := AddEach(ps, playlistId, ids[1..]);
      forall k | 0 < k < |ids|
        ensures k in AddEach(ps, playlistId, ids).1
      {
        assert k - 1 in rest.1;
        assert (k - 1) + 1 in Shift(rest.1);
      }
    }
  }

  /** As written, after a successful create every add of the selection is
      refused: the new playlist stays empty. */
  lemma AsWrittenAddsNothing(user: seq<Playlist>, name: string, newId: string, ids: seq<string>)
    requires NoUndefinedId(user) && newId != "undefined"
    requires Create(Some(user), Some(name), newId).Ok?
    ensures var created := Create(Some(user), Some(name), newId).value;
      && AddEach(created, UrlId(ReplyIdAsWritten(Reply(created))), ids).0 == created
      && created[|user|].songs == []
      && forall k :: 0 <= k < |ids| ==> k in AddEach(created, UrlId(ReplyIdAsWritten(Reply(created))), ids).1
  {
    var created := Create(Some(user), Some(name), newId).value;
    assert created == user + [Playlist(newId, name, [])];
    AddEachUnknown(created, "undefined", ids);
  }

  /** The first playlist with `id` is the one appended, when no earlier one
      has that id. */
  lemma {:induction false} IndexOfAppended(ps: seq<Playlist>, p: Playlist)
    requires forall k :: 0 <= k < |ps| ==> ps[k].id != p.id
    ensures IndexOfPlaylist(ps + [p], p.id) == |ps|
    decreases |ps|
  {
    if |ps| > 0 {
      assert (ps + [p])[1..] == ps[1..] + [p];
      IndexOfAppended(ps[1..], p);
    }
  }

  /** Adds of distinct ids not yet listed, sent to the last playlist, all
      succeed and append the ids in order. */
  lemma {:induction false} AddEachToLast(user: seq<Playlist>, id: string, name: string, pre: seq<string>, ids: seq<string>)
    requires forall k :: 0 <= k < |user| ==> user[k].id != id
    requires forall i, j :: 0 <= i < j < |ids| ==> ids[i] != ids[j]
    requires forall i :: 0 <= i < |ids| ==> ids[i] !in pre
    ensures AddEach(user + [Playlist(id, name, pre)], id, ids) == (user + [Playlist(id, name, pre + ids)], {})
    decreases |ids|
  {
    var ps := user + [Playlist(id, name, pre)];
    if |ids| == 0 {
      assert pre + ids == pre;
    } else {
      AddToLast(user, id, name, pre, ids[0]);
      forall i | 0 <= i < |ids[1..]|
        ensures ids[1..][i] !in pre + [ids[0]]
      {
        assert ids[1..][i] == ids[i + 1];
      }
      AddEachToLast(user, id, name, pre + [ids[0]], ids[1..]);
      assert pre + [ids[0]] + ids[1..] == pre + ids;
      assert Shift({}) == {};
    }
  }

  /** One add of a song not yet listed, sent to the last playlist. */
  lemma AddToLast(user: seq<Playlist>, id: string, name: string, pre: seq<string>, x: string)
    requires forall k :: 0 <= k < |user| ==> user[k].id != id
    requires x !in pre
    ensures AddSong(Some(user + [Playlist(id, name, pre)]), true, id, x) == Ok(user + [Playlist(id, name, pre + [x])])
  {
    var ps := user + [Playlist(id, name, pre)];
    IndexOfAppended(user, Playlist(id, name, pre));
    assert ps[|user| := ps[|user|].(songs := pre + [x])] == user + [Playlist(id, name, pre + [x])];
  }

  /** Corrected, reading the id of the playlist just pushed, every add of a
      selection of distinct ids succeeds and the new playlist holds exactly
      the selection, in order. */
  lemma CorrectedAddsAll(user: seq<Playlist>, name: string, newId: string, ids: seq<string>)
    requires forall k :: 0 <= k < |user| ==> user[k].id != newId
    requires forall i, j :: 0 <= i < j < |ids| ==> ids[i] != ids[j]
    requires Create(Some(user), Some(name), newId).Ok?
    ensures var created := Create(Some(user), Some(name), newId).value;
      AddEach(created, UrlId(ReplyIdCorrected(Reply(created))), ids) == (user + [Playlist(newId, name, ids)], {})
  {
    var created := Create(Some(user), Some(name), newId).value;
    assert created == user + [Playlist(newId, name, [])];
    assert UrlId(ReplyIdCorrected(Reply(created))) == newId;
    AddEachToLast(user, newId, name, [], ids);
    assert [] + ids == ids;
  }

  /** As written, the newer page's loop, which swallows each refusal, adds
      none of the selection. The older page's loop would stop at its first
      add, but that page never gets that far (`OlderPageFailsAtCreate`). */
  lemma AsWrittenPagesAddNothing(user: seq<Playlist>, name: string, newId: string, ids: seq<string>)
    requires NoUndefinedId(user) && newId != "undefined"
    requires Create(Some(user), Some(name), newId).Ok?
    ensures var created := Create(Some(user), Some(name), newId).value;
      var fails := AddEach(created, UrlId(ReplyIdAsWritten(Reply(created))), ids).1;
      Selection.Succeeded(ids, fails, 0) == [] && Selection.FirstFailure(ids, fails) == 0
  {
    var created := Create(Some(user), Some(name), newId).value;
    AsWrittenAddsNothing(user, name, newId, ids);
    Selection.AllFailing(ids, AddEach(created, UrlId(ReplyIdAsWritten(Reply(created))), ids).1);
  }

  // ------------------------------------------------------------ the older page

  /** What the server's error handler answers when a middleware throws. */
  const ServerError: nat := 500

  /** The body axios sends for `createPlaylist(playlistName)`, which the
      older page calls with the bare name instead of an object: the text
      itself when it already parses as JSON, otherwise its JSON quotation,
      which opens with `"`. */
  datatype RequestBody = Verbatim(text: string) | Quoted(value: string)

  function BareStringBody(name: string, isJsonText: bool): RequestBody {
    if isJsonText then Verbatim(name) else Quoted(name)
  }

  /** White space as JSON defines it. */
  predicate IsJsonBlank(c: char) {
    c == ' ' || c == '\t' || c == '\n' || c == '\r'
  }

  /** The first character of `text` that is not JSON white space. */
  function FirstNonBlank(text: string): (r: Option<char>)
    ensures r.None? <==> forall k :: 0 <= k < |text| ==> IsJsonBlank(text[k])
    ensures r.Some? ==> !IsJsonBlank(r.value)
    ensures r.Some? ==>
      exists k :: 0 <= k < |text| && text[k] == r.value && forall j :: 0 <= j < k ==> IsJsonBlank(text[j])
  {
    if |text| == 0 then None
    else if !IsJsonBlank(text[0]) then Some(text[0])
    else
      var rest := FirstNonBlank(text[1..]);
      assert forall k :: 1 <= k < |text| ==> text[k] == text[1..][k - 1];
      rest
  }

  /** Whether `express.json()`, strict by default, parses a body: an empty
      body reads as an empty object, and otherwise only a body whose first
      non-blank character opens an object or an array is parsed. Any other
      body is refused before the route runs. */
  predicate StrictAccepts(b: RequestBody) {
    b.Verbatim? && (b.text == "" || FirstNonBlank(b.text) == Some('{') || FirstNonBlank(b.text) == Some('['))
  }

  /** The older page's create call. When the body is parsed, `parsedName` is
      the `name` member of what it parses to, if any; JSON parsing itself is
      not modelled. A refused body is answered with 500. */
  function OlderCreate(user: seq<Playlist>, name: string, isJsonText: bool, parsedName: Option<string>, newId: string): (r: Result<seq<Playlist>>)
    ensures r.Ok? ==> isJsonText && (name == "" || FirstNonBlank(name) == Some('{') || FirstNonBlank(name) == Some('['))
    ensures r.Ok? ==> parsedName.Some? && r.value == user + [Playlist(newId, parsedName.value, [])]
    ensures !StrictAccepts(BareStringBody(name, isJsonText)) ==> r == Err(ServerError)
  {
    if StrictAccepts(BareStringBody(name, isJsonText)) then Create(Some(user), parsedName, newId)
    else Err(ServerError)
  }

  /** The adds the older page sends in turn, each awaited, until one is
      refused: the final playlists, the ids whose add was sent, and whether
      none was refused. */
  function AddUntilRefused(ps: seq<Playlist>, playlistId: string, ids: seq<string>): (r: (seq<Playlist>, seq<string>, bool))
    ensures r.1 <= ids
    ensures r.2 ==> r.1 == ids
    ensures !r.2 ==> |r.1| > 0
    ensures |ids| > 0 && IndexOfPlaylist(ps, playlistId) < 0 ==> r == (ps, [ids[0]], false)
    decreases |ids|
  {
    if |ids| == 0 then (ps, [], true)
    else
      match AddSong(Some(ps), true, playlistId, ids[0])
      case Err(_) => (ps, [ids[0]], false)
      case Ok(next) =>
        var rest := AddUntilRefused(next, playlistId, ids[1..]);
        assert ids == [ids[0]] + ids[1..];
        (rest.0, [ids[0]] + rest.1, rest.2)
  }

  /** What the older page's save leaves: the stored playlists, the ids whose
      add was sent, and whether it reported success. */
  datatype OlderSave = OlderSave(playlists: seq<Playlist>, addsSent: seq<string>, succeeded: bool)

  /** The older page's save once its checks pass: the create call, then, only
      when it answers, the adds to the id read from the reply, stopping at
      the first refusal, which lands in the same `catch`. */
  function OlderPageSave(user: seq<Playlist>, name: string, isJsonText: bool, parsedName: Option<string>, newId: string, ids: seq<string>): (r: OlderSave)
    ensures OlderCreate(user, name, isJsonText, parsedName, newId).Err? ==> r == OlderSave(user, [], false)
    ensures r.addsSent <= ids
    ensures r.succeeded ==> r.addsSent == ids
  {
    match OlderCreate(user, name, isJsonText, parsedName, newId)
    case Err(_) => OlderSave(user, [], false)
    case Ok(created) =>
      var sent := AddUntilRefused(created, UrlId(ReplyIdAsWritten(Reply(created))), ids);
      OlderSave(sent.0, sent.1, sent.2)
  }

  /** As written, the older page never creates a playlist: for any name its
      checks let through, other than one that is itself the JSON text of an
      object or an array, the bare-string body is refused. No add is sent,
      nothing is stored, and the page reports failure. */
  lemma OlderPageFailsAtCreate(user: seq<Playlist>, name: string, isJsonText: bool, parsedName: Option<string>, newId: string, ids: seq<string>)
    requires !AllSpace(name)
    requires FirstNonBlank(name) != Some('{') && FirstNonBlank(name) != Some('[')
    ensures OlderCreate(user, name, isJsonText, parsedName, newId) == Err(ServerError)
    ensures OlderPageSave(user, name, isJsonText, parsedName, newId, ids) == OlderSave(user, [], false)
  {
    assert name != "";
  }
}
