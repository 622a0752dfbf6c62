/** The `/daily` handler after the history is fetched: rank the plays, walk
    the ranked candidates, resolve each one through the catalog search, pick
    the first resolved track not yet in the playlist, and add it. */
module Selection {
  import opened Seqs
  import opened Ranking

  /** A catalog track as the search returns it. */
  datatype Track = Track(name: string, uri: string)

  /** A selected candidate: its position in the ranking and its resolved track. */
  datatype Pick = Pick(index: nat, track: Track)

  /** The handler's JSON response. */
  datatype Response =
    | Added                        // { success: true }
    | AllInPlaylist(message: string) // { success: false, message }
    | Failed(error: string)        // { error: error.message } from the catch
    | EmptyHistory                 // the catch's response to the TypeError on an empty ranking

  const AllInPlaylistMessage := "All songs are already in the playlist"
  const AddFailedMessage := "Failed to add song to playlist"
  /** The status code the add call reports on success. */
  const Created := 201

  /** The search text sent for a candidate. */
  function Query(c: Entry): string
  {
    "track:" + c.song + " artist:" + c.artist
  }

  /** The search texts for a run of candidates, in order. */
  function Queries(cs: seq<Entry>): seq<string>
  {
    seq(|cs|, i requires 0 <= i < |cs| => Query(cs[i]))
  }

  /** The first search result whose name is exactly the candidate's name. */
  function Resolve(results: seq<Track>, name: string): (r: Option<Track>)
    ensures r.None? <==> forall k :: 0 <= k < |results| ==> results[k].name != name
    ensures r.Some? ==> r.value.name == name
    ensures r.Some? ==>
      exists k :: 0 <= k < |results| && results[k] == r.value && forall j :: 0 <= j < k ==> results[j].name != name
  {
    Find(results, (t: Track) => t.name == name)
  }

  /** Whether some playlist item has the track name `name`. */
  function InPlaylist(playlist: seq<string>, name: string): (b: bool)
    ensures b <==> name in playlist
  {
    Find(playlist, (n: string) => n == name).Some?
  }

  /** The candidate resolves to a track whose name is not in the playlist. */
  predicate Eligible(c: Entry, search: string -> seq<Track>, playlist: seq<string>)
  {
    var t := Resolve(search(Query(c)), c.song);
    t.Some? && !InPlaylist(playlist, t.value.name)
  }

  /** The first eligible candidate, with its resolved track. */
  function FirstEligible(cs: seq<Entry>, search: string -> seq<Track>, playlist: seq<string>): (r: Option<Pick>)
    ensures r.None? <==> forall j :: 0 <= j < |cs| ==> !Eligible(cs[j], search, playlist)
    ensures r.Some? ==>
      && r.value.index < |cs|
      && Resolve(search(Query(cs[r.value.index])), cs[r.value.index].song) == Some(r.value.track)
      && r.value.track.name !in playlist
      && forall j :: 0 <= j < r.value.index ==> !Eligible(cs[j], search, playlist)
  {
    var i := IndexWhere(cs, (c: Entry) => Eligible(c, search, playlist));
    if i < |cs| then Some(Pick(i, Resolve(search(Query(cs[i])), cs[i].song).value)) else None
  }

  /** A pick is the first eligible candidate when every candidate before it
      is ineligible and it resolves to a track absent from the playlist. */
  lemma FirstEligibleAt(cs: seq<Entry>, search: string -> seq<Track>, playlist: seq<string>, i: nat, t: Track)
    requires i < |cs|
    requires forall j :: 0 <= j < i ==> !Eligible(cs[j], search, playlist)
    requires Resolve(search(Query(cs[i])), cs[i].song) == Some(t) && !InPlaylist(playlist, t.name)
    ensures FirstEligible(cs, search, playlist) == Some(Pick(i, t))
  {
    var f := (c: Entry) => Eligible(c, search, playlist);
    assert f(cs[i]);
    assert IndexWhere(cs, f) == i;
  }

  /** The selection loop: for each candidate in ranked order, search for it,
      skip it when no result has its exact name, skip it when the track's
      name is already in the playlist, and otherwise select it and stop.
      `queries` are the searches issued, in order. */
  method SelectTrack(candidates: seq<Entry>, search: string -> seq<Track>, playlist: seq<string>)
    returns (songToAdd: Option<Track>, queries: seq<string>)
    ensures match FirstEligible(candidates, search, playlist)
      case None => songToAdd == None && queries == Queries(candidates)
      case Some(p) => songToAdd == Some(p.track) && queries == Queries(candidates[..p.index + 1])
  {
    songToAdd := None;
    queries := [];
    var i := 0;
    while i < |candidates|
      invariant 0 <= i <= |candidates|
      invariant songToAdd == None
      invariant queries == Queries(candidates[..i])
      invariant forall j :: 0 <= j < i ==> !Eligible(candidates[j], search, playlist)
    {
      var q := Query(candidates[i]);
      queries := queries + [q];
      assert queries == Queries(candidates[..i + 1]);
      var song := Resolve(search(q), candidates[i].song);
      if song == None {
        i := i + 1;
        continue;
      }
      if !InPlaylist(playlist, song.value.name) {
        FirstEligibleAt(candidates, search, playlist, i, song.value);
        songToAdd := song;
        break;
      }
      i := i + 1;
    }
    if songToAdd == None {
      assert candidates[..i] == candidates;
    }
  }

  /** The `/daily` handler from the ranking on. `addStatus` is the status the
      add call would report; `queries` are the searches issued and `added`
      the track uris sent to the add call. */
  method Daily(plays: seq<Play>, search: string -> seq<Track>, playlist: seq<string>, addStatus: int)
    returns (response: Response, queries: seq<string>, added: seq<string>)
    ensures plays == [] ==> response == EmptyHistory && queries == [] && added == []
    ensures plays != [] ==> match FirstEligible(Rank(plays), search, playlist)
      case None =>
        && response == AllInPlaylist(AllInPlaylistMessage)
        && queries == Queries(Rank(plays))
        && added == []
      case Some(p) =>
        && queries == Queries(Rank(plays)[..p.index + 1])
        && added == [p.track.uri]
        && response == (if addStatus == Created then Added else Failed(AddFailedMessage))
  {
    var sortedSongs := Rank(plays);
    RankEmpty(plays);
    if |sortedSongs| == 0 {
      return EmptyHistory, [], [];
    }
    var songToAdd;
    songToAdd, queries := SelectTrack(sortedSongs, search, playlist);
    if songToAdd == None {
      return AllInPlaylist(AllInPlaylistMessage), queries, [];
    }
    added := [songToAdd.value.uri];
    if addStatus != Created {
      return Failed(AddFailedMessage), queries, added;
    }
    response := Added;
  }
}
