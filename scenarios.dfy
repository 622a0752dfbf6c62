/** Worked cases of the ranking and the selection. */
module Scenarios {
  import opened Seqs
  import opened Ranking
  import opened Selection

  function TwoSongs(): seq<Play>
  {
    [Play(1, "ArtistA", "Song1", "AlbumA", "u1"), Play(2, "ArtistA", "Song1", "AlbumA", "u2"), Play(3, "ArtistB", "Song2", "AlbumB", "u3")]
  }

  lemma TallyTwoSongs()
    ensures Tally(TwoSongs()) == [("Song1", 2), ("Song2", 1)]
  {
    var p := TwoSongs();
    var a, b := p[0], p[1];
    assert p[..2] == [a, b] && [a, b][..1] == [a] && [a][..0] == [];
    assert Tally([a]) == [("Song1", 1)];
    assert Tally([a, b]) == Bump([("Song1", 1)], "Song1") == [("Song1", 2)];
    assert Tally(p) == Bump([("Song1", 2)], "Song2") == [("Song1", 2), ("Song2", 1)];
  }

  lemma EntriesTwoSongs()
    ensures Entries(TwoSongs(), Tally(TwoSongs()))
         == [Entry("Song1", "ArtistA", "AlbumA", "u1", 2), Entry("Song2", "ArtistB", "AlbumB", "u3", 1)]
  {
    var p := TwoSongs();
    TallyTwoSongs();
    var es := Entries(p, Tally(p));
    assert |es| == 2;
    assert es[0] == Describe(p, "Song1", 2) && es[1] == Describe(p, "Song2", 1);
    assert FirstIndexOf(p, "Song1") == 0 by { assert p[0].name == "Song1"; }
    assert FirstIndexOf(p, "Song2") == 2 by { assert p[2].name == "Song2"; }
  }

  /** Two plays of Song1 and one of Song2 rank Song1 first with count 2. */
  lemma RankTwoSongs()
    ensures Rank(TwoSongs()) == [Entry("Song1", "ArtistA", "AlbumA", "u1", 2), Entry("Song2", "ArtistB", "AlbumB", "u3", 1)]
  {
    EntriesTwoSongs();
    SortTwo(Entry("Song1", "ArtistA", "AlbumA", "u1", 2), Entry("Song2", "ArtistB", "AlbumB", "u3", 1));
  }

  /** Two entries already in order, or tied, stay as they are. */
  lemma SortTwo(e1: Entry, e2: Entry)
    requires e1.count >= e2.count
    ensures SortByCount([e1, e2]) == [e1, e2]
  {
    assert [e1, e2][1..] == [e2] && [e2][1..] == [];
    assert SortByCount([e2]) == [e2];
  }

  function TieSongs(): seq<Play>
  {
    [Play(1, "ArtistB", "Song2", "AlbumB", "u1"), Play(2, "ArtistA", "Song1", "AlbumA", "u2")]
  }

  lemma TallyTieSongs()
    ensures Tally(TieSongs()) == [("Song2", 1), ("Song1", 1)]
  {
    var p := TieSongs();
    var a := p[0];
    assert p[..1] == [a] && [a][..0] == [];
    assert Tally([a]) == [("Song2", 1)];
    assert Tally(p) == Bump([("Song2", 1)], "Song1") == [("Song2", 1), ("Song1", 1)];
  }

  lemma EntriesTieSongs()
    ensures Entries(TieSongs(), Tally(TieSongs()))
         == [Entry("Song2", "ArtistB", "AlbumB", "u1", 1), Entry("Song1", "ArtistA", "AlbumA", "u2", 1)]
  {
    var p := TieSongs();
    TallyTieSongs();
    var es := Entries(p, Tally(p));
    assert |es| == 2;
    assert es[0] == Describe(p, "Song2", 1) && es[1] == Describe(p, "Song1", 1);
    assert FirstIndexOf(p, "Song2") == 0 by { assert p[0].name == "Song2"; }
    assert FirstIndexOf(p, "Song1") == 1 by { assert p[1].name == "Song1"; }
  }

  /** Equal counts keep first-encounter order: Song2 was played first. */
  lemma RankTieKeepsFirstEncounter()
    ensures Rank(TieSongs()) == [Entry("Song2", "ArtistB", "AlbumB", "u1", 1), Entry("Song1", "ArtistA", "AlbumA", "u2", 1)]
  {
    EntriesTieSongs();
    SortTwo(Entry("Song2", "ArtistB", "AlbumB", "u1", 1), Entry("Song1", "ArtistA", "AlbumA", "u2", 1));
  }

  function Candidates(): seq<Entry>
  {
    [Entry("Song1", "ArtistA", "", "", 2), Entry("Song2", "ArtistB", "", "", 1)]
  }

  /** A catalog in which every search returns both tracks. */
  function Catalog(q: string): seq<Track>
  {
    [Track("Song1", "uri1"), Track("Song2", "uri2")]
  }

  /** Each name resolves to its own track in the catalog. */
  lemma CatalogResolves(q: string)
    ensures Resolve(Catalog(q), "Song1") == Some(Track("Song1", "uri1"))
    ensures Resolve(Catalog(q), "Song2") == Some(Track("Song2", "uri2"))
  {
    var ts := Catalog(q);
    assert ts[0].name == "Song1" && ts[1].name == "Song2";
  }

  /** Song1 resolves but is already in the playlist. */
  lemma PresentIneligible()
    ensures !Eligible(Candidates()[0], Catalog, ["Song1"])
  {
    var c := Candidates()[0];
    CatalogResolves(Query(c));
    assert InPlaylist(["Song1"], "Song1");
  }

  /** Song2 resolves and is missing from the playlist. */
  lemma MissingResolves()
    ensures Resolve(Catalog(Query(Candidates()[1])), Candidates()[1].song) == Some(Track("Song2", "uri2"))
    ensures !InPlaylist(["Song1"], "Song2")
  {
    CatalogResolves(Query(Candidates()[1]));
    assert ["Song1"][0] != "Song2";
  }

  /** Song1 is already in the playlist, so the second candidate, Song2, is the
      first eligible one. */
  lemma SelectSkipsPresent()
    ensures FirstEligible(Candidates(), Catalog, ["Song1"]) == Some(Pick(1, Track("Song2", "uri2")))
  {
    PresentIneligible();
    MissingResolves();
    assert forall j :: 0 <= j < 1 ==> !Eligible(Candidates()[j], Catalog, ["Song1"]) by {
      forall j | 0 <= j < 1 ensures !Eligible(Candidates()[j], Catalog, ["Song1"]) {
        assert j == 0;
      }
    }
    FirstEligibleAt(Candidates(), Catalog, ["Song1"], 1, Track("Song2", "uri2"));
  }

  /** A candidate whose search has no exact-name result is never selected. */
  lemma SelectUnresolvable()
    ensures FirstEligible([Entry("Song1", "ArtistA", "", "", 1)], (q: string) => [Track("Song1 (Live)", "uri1")], []) == None
  {
  }
}
