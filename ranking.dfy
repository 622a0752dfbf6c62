/** The ranking of the day's plays (`getMostListenedSongs`): count the plays
    of each track name, describe each name by its first play, and order the
    names by play count, highest first. */
module Ranking {
  import opened Seqs

  /** One play record as the history reader maps it. */
  datatype Play = Play(date: int, artist: string, name: string, album: string, url: string)

  /** One ranked candidate: a distinct track name with its play count. */
  datatype Entry = Entry(song: string, artist: string, album: string, url: string, count: nat)

  /** The counting dictionary: track name to play count, keys in the order
      they were first inserted. */
  type Counts = seq<(string, nat)>

  // ---------------------------------------------------------------------
  // Reference notions over the input

  /** The distinct track names among the plays. */
  function NameSet(plays: seq<Play>): set<string>
  {
    set k | 0 <= k < |plays| :: plays[k].name
  }

  /** How many plays carry the track name `name`. */
  function Occurrences(plays: seq<Play>, name: string): nat
  {
    if |plays| == 0 then 0
    else Occurrences(plays[..|plays| - 1], name) + (if plays[|plays| - 1].name == name then 1 else 0)
  }

  /** Index of the first play named `name`, or `|plays|` when there is none. */
  function FirstIndexOf(plays: seq<Play>, name: string): (r: nat)
    ensures r <= |plays|
    ensures r < |plays| ==> plays[r].name == name
    ensures forall k :: 0 <= k < r ==> plays[k].name != name
    ensures r < |plays| <==> name in NameSet(plays)
  {
    IndexWhere(plays, (p: Play) => p.name == name)
  }

  // ---------------------------------------------------------------------
  // The counting dictionary

  predicate DistinctKeys(acc: Counts)
  {
    forall i, j :: 0 <= i < j < |acc| ==> acc[i].0 != acc[j].0
  }

  function KeySet(acc: Counts): set<string>
  {
    set i | 0 <= i < |acc| :: acc[i].0
  }

  /** Sum of the counts held in the dictionary. */
  function Total(acc: Counts): nat
  {
    if acc == [] then 0 else acc[0].1 + Total(acc[1..])
  }

  /** `acc[name] = (acc[name] || 0) + 1` on the dictionary. */
  function Bump(acc: Counts, name: string): (r: Counts)
    ensures |r| == if name in KeySet(acc) then |acc| else |acc| + 1
  {
    if acc == [] then [(name, 1)]
    else if acc[0].0 == name then [(name, acc[0].1 + 1)] + acc[1..]
    else [acc[0]] + Bump(acc[1..], name)
  }

  /** An existing key keeps its place and gains one play; a new key goes
      last with count 1. */
  lemma {:induction false} BumpShape(acc: Counts, name: string)
    requires DistinctKeys(acc)
    ensures name in KeySet(acc) ==>
      |Bump(acc, name)| == |acc| &&
      forall i :: 0 <= i < |acc| ==> Bump(acc, name)[i] == (if acc[i].0 == name then (name, acc[i].1 + 1) else acc[i])
    ensures name !in KeySet(acc) ==> Bump(acc, name) == acc + [(name, 1)]
  {
    if acc != [] && acc[0].0 != name {
      assert DistinctKeys(acc[1..]);
      BumpShape(acc[1..], name);
      assert name in KeySet(acc) <==> name in KeySet(acc[1..]) by {
        assert forall i :: 0 <= i < |acc[1..]| ==> acc[1..][i] == acc[i + 1];
        if name in KeySet(acc) {
          var i :| 0 <= i < |acc| && acc[i].0 == name;
          assert acc[1..][i - 1].0 == name;
        }
      }
    } else if acc != [] {
      assert name in KeySet(acc);
    }
  }

  /** Bumping keeps the keys distinct and adds `name` to them. */
  lemma BumpKeys(acc: Counts, name: string)
    requires DistinctKeys(acc)
    ensures DistinctKeys(Bump(acc, name))
    ensures KeySet(Bump(acc, name)) == KeySet(acc) + {name}
  {
    BumpShape(acc, name);
    var r := Bump(acc, name);
    if name in KeySet(acc) {
      forall i | 0 <= i < |acc| ensures r[i].0 == acc[i].0 {
        assert r[i] == (if acc[i].0 == name then (name, acc[i].1 + 1) else acc[i]);
      }
      SameKeys(acc, r);
    } else {
      AppendKey(acc, name);
    }
  }

  /** Two dictionaries with the same key at every position have the same
      key set, and one has distinct keys when the other does. */
  lemma SameKeys(a: Counts, b: Counts)
    requires |a| == |b| && forall i :: 0 <= i < |a| ==> a[i].0 == b[i].0
    ensures KeySet(a) == KeySet(b)
    ensures DistinctKeys(a) ==> DistinctKeys(b)
  {
  }

  /** Appending a new key keeps the keys distinct and adds it to the key set. */
  lemma AppendKey(acc: Counts, name: string)
    requires DistinctKeys(acc) && name !in KeySet(acc)
    ensures DistinctKeys(acc + [(name, 1)])
    ensures KeySet(acc + [(name, 1)]) == KeySet(acc) + {name}
  {
    var r := acc + [(name, 1)];
    forall i | 0 <= i < |acc| ensures r[i] == acc[i] && acc[i].0 in KeySet(acc) { }
    assert r[|acc|].0 == name;
    forall x | x in KeySet(r) ensures x in KeySet(acc) + {name} {
      var i :| 0 <= i < |r| && r[i].0 == x;
    }
  }

  /** Each bump adds exactly one play to the dictionary's total. */
  lemma {:induction false} BumpTotal(acc: Counts, name: string)
    ensures Total(Bump(acc, name)) == Total(acc) + 1
  {
    if acc != [] && acc[0].0 != name {
      BumpTotal(acc[1..], name);
      assert Bump(acc, name)[1..] == Bump(acc[1..], name);
    } else if acc != [] {
      assert Bump(acc, name)[1..] == acc[1..];
    }
  }

  /** The `reduce` over the plays that fills the counting dictionary: the
      keys are distinct and are exactly the names played. */
  function Tally(plays: seq<Play>): (r: Counts)
    ensures DistinctKeys(r)
    ensures KeySet(r) == NameSet(plays)
  {
    if |plays| == 0 then []
    else
      var prefix := plays[..|plays| - 1];
      assert NameSet(plays) == NameSet(prefix) + {plays[|plays| - 1].name} by {
        assert forall k :: 0 <= k < |prefix| ==> prefix[k] == plays[k];
      }
      BumpKeys(Tally(prefix), plays[|plays| - 1].name);
      Bump(Tally(prefix), plays[|plays| - 1].name)
  }

  // ---------------------------------------------------------------------
  // Facts about the reference notions

  /** A name is played at all exactly when it has a positive count. */
  lemma {:induction false} OccurrencesPositive(plays: seq<Play>, name: string)
    ensures Occurrences(plays, name) > 0 <==> name in NameSet(plays)
  {
    if |plays| > 0 {
      var prefix := plays[..|plays| - 1];
      OccurrencesPositive(prefix, name);
      assert NameSet(plays) == NameSet(prefix) + {plays[|plays| - 1].name} by {
        assert forall k :: 0 <= k < |prefix| ==> prefix[k] == plays[k];
      }
    }
  }

  /** Appending a play leaves the first index of an already played name
      alone and gives a newly played name the position of the new play. */
  lemma FirstIndexExtend(prefix: seq<Play>, x: Play, name: string)
    ensures name in NameSet(prefix) ==> FirstIndexOf(prefix + [x], name) == FirstIndexOf(prefix, name)
    ensures name !in NameSet(prefix) && name == x.name ==> FirstIndexOf(prefix + [x], name) == |prefix|
  {
    var p := prefix + [x];
    var a, b := FirstIndexOf(prefix, name), FirstIndexOf(p, name);
    if name in NameSet(prefix) {
      assert p[a] == prefix[a];
    } else if name == x.name {
      assert p[|prefix|] == x;
    }
  }

  // ---------------------------------------------------------------------
  // Facts about the counting dictionary

  /** Each key's count is the number of plays with that name. */
  lemma {:induction false} TallyCounts(plays: seq<Play>)
    ensures forall i :: 0 <= i < |Tally(plays)| ==> Tally(plays)[i].1 == Occurrences(plays, Tally(plays)[i].0)
  {
    if |plays| > 0 {
      var prefix, x := plays[..|plays| - 1], plays[|plays| - 1];
      var acc := Tally(prefix);
      TallyCounts(prefix);
      BumpShape(acc, x.name);
      var r := Tally(plays);
      assert r == Bump(acc, x.name);
      if x.name !in KeySet(acc) {
        OccurrencesPositive(prefix, x.name);
        assert r[|acc|] == (x.name, 1);
      }
    }
  }

  /** The dictionary's keys are in first-encounter order. */
  lemma {:induction false} TallyOrder(plays: seq<Play>)
    ensures forall i, j :: 0 <= i < j < |Tally(plays)| ==>
      FirstIndexOf(plays, Tally(plays)[i].0) < FirstIndexOf(plays, Tally(plays)[j].0)
  {
    if |plays| > 0 {
      var prefix, x := plays[..|plays| - 1], plays[|plays| - 1];
      assert plays == prefix + [x];
      var acc := Tally(prefix);
      TallyOrder(prefix);
      forall i | 0 <= i < |acc|
        ensures FirstIndexOf(plays, acc[i].0) == FirstIndexOf(prefix, acc[i].0) < |prefix|
      {
        assert acc[i].0 in KeySet(acc);
        FirstIndexExtend(prefix, x, acc[i].0);
      }
      if x.name !in KeySet(acc) {
        FirstIndexExtend(prefix, x, x.name);
      }
      var f := (n: string) => FirstIndexOf(plays, n);
      BumpKeyOrder(acc, x.name, f);
      assert Tally(plays) == Bump(acc, x.name);
    }
  }

  /** A bump keeps the keys in increasing order of `f` when a new key is
      above all the others. */
  lemma BumpKeyOrder(acc: Counts, name: string, f: string -> int)
    requires DistinctKeys(acc)
    requires forall i, j :: 0 <= i < j < |acc| ==> f(acc[i].0) < f(acc[j].0)
    requires name !in KeySet(acc) ==> forall i :: 0 <= i < |acc| ==> f(acc[i].0) < f(name)
    ensures forall i, j :: 0 <= i < j < |Bump(acc, name)| ==> f(Bump(acc, name)[i].0) < f(Bump(acc, name)[j].0)
  {
    BumpShape(acc, name);
    var r := Bump(acc, name);
    forall i, j | 0 <= i < j < |r| ensures f(r[i].0) < f(r[j].0) {
      if j < |acc| {
        assert r[i].0 == acc[i].0 && r[j].0 == acc[j].0;
      } else {
        assert r[i].0 == acc[i].0 && r[j].0 == name;
      }
    }
  }

  /** The counts in the dictionary add up to the number of plays. */
  lemma {:induction false} TallyTotal(plays: seq<Play>)
    ensures Total(Tally(plays)) == |plays|
  {
    if |plays| > 0 {
      TallyTotal(plays[..|plays| - 1]);
      BumpTotal(Tally(plays[..|plays| - 1]), plays[|plays| - 1].name);
    }
  }

  // ---------------------------------------------------------------------
  // Entries and the sort

  /** The entry for `song`: artist, album and url of its first play
      (`songs.find((s) => s.name === song)`), with the given count. */
  function Describe(plays: seq<Play>, song: string, count: nat): (e: Entry)
    requires song in NameSet(plays)
    ensures e.song == song && e.count == count
    ensures var k := FirstIndexOf(plays, song);
      e.artist == plays[k].artist && e.album == plays[k].album && e.url == plays[k].url
  {
    var first := Find(plays, (s: Play) => s.name == song);
    var k := FirstIndexOf(plays, song);
    assert first == Some(plays[k]) by {
      var j :| 0 <= j < |plays| && plays[j] == first.value && forall i :: 0 <= i < j ==> plays[i].name != song;
      assert j == k;
    }
    Entry(song, first.value.artist, first.value.album, first.value.url, count)
  }

  /** `Object.entries(counts).map(...)`: one entry per dictionary key, in
      key order. */
  function Entries(plays: seq<Play>, counts: Counts): (r: seq<Entry>)
    requires KeySet(counts) <= NameSet(plays)
    ensures |r| == |counts|
    ensures forall i :: 0 <= i < |r| ==> r[i].song == counts[i].0 && r[i].count == counts[i].1
  {
    seq(|counts|, i requires 0 <= i < |counts| =>
      assert counts[i].0 in KeySet(counts);
      Describe(plays, counts[i].0, counts[i].1))
  }

  /** Sum of the counts of the entries. */
  function TotalCount(s: seq<Entry>): nat
  {
    if s == [] then 0 else s[0].count + TotalCount(s[1..])
  }

  /** Never increasing in count from one entry to any later one. */
  predicate SortedByCount(s: seq<Entry>)
  {
    forall i, j :: 0 <= i < j < |s| ==> s[i].count >= s[j].count
  }

  /** Entries of equal count appear in the order of their names' first plays. */
  predicate TiesInOrder(plays: seq<Play>, s: seq<Entry>)
  {
    forall i, j :: 0 <= i < j < |s| && s[i].count == s[j].count ==>
      FirstIndexOf(plays, s[i].song) < FirstIndexOf(plays, s[j].song)
  }

  /** No two entries share a track name. */
  predicate DistinctSongs(s: seq<Entry>)
  {
    forall i, j :: 0 <= i < j < |s| ==> s[i].song != s[j].song
  }

  /** One step of a stable sort, highest count first: `e` goes in front of
      the first entry whose count does not exceed its own. */
  function Insert(e: Entry, s: seq<Entry>): (r: seq<Entry>)
    ensures multiset(r) == multiset(s) + multiset{e}
  {
    if s == [] || s[0].count <= e.count then [e] + s
    else
      assert s == [s[0]] + s[1..];
      [s[0]] + Insert(e, s[1..])
  }

  /** Where insertion puts `e`: after the leading entries of higher count,
      before the first entry whose count does not exceed its own. */
  lemma {:induction false} InsertSplit(e: Entry, s: seq<Entry>) returns (k: nat)
    ensures k <= |s| && |Insert(e, s)| == |s| + 1
    ensures forall i {:trigger Insert(e, s)[i]} :: 0 <= i <= |s| ==>
      Insert(e, s)[i] == (if i < k then s[i] else if i == k then e else s[i - 1])
    ensures forall j :: 0 <= j < k ==> s[j].count > e.count
    ensures k < |s| ==> s[k].count <= e.count
  {
    k := InsertCut(e, s);
    var r := Insert(e, s);
    forall i | 0 <= i <= |s| ensures r[i] == (if i < k then s[i] else if i == k then e else s[i - 1]) {
      if i < k { assert r[i] == s[..k][i]; }
      else if i > k { assert r[i] == s[k..][i - k - 1]; }
    }
  }

  /** Cutting after one more leading element commutes with prepending it. */
  lemma CutCons(s: seq<Entry>, e: Entry, k: nat)
    requires 0 < |s| && k <= |s| - 1
    ensures s[..k + 1] + [e] + s[k + 1..] == [s[0]] + (s[1..][..k] + [e] + s[1..][k..])
  {
    assert s[..k + 1] == [s[0]] + s[1..][..k];
    assert s[k + 1..] == s[1..][k..];
  }

  /** `Insert` cuts its input at one place and puts the entry there: after
      the entries that outrank it and before the first that does not. */
  lemma {:induction false} InsertCut(e: Entry, s: seq<Entry>) returns (k: nat)
    ensures k <= |s| && Insert(e, s) == s[..k] + [e] + s[k..]
    ensures forall j :: 0 <= j < k ==> s[j].count > e.count
    ensures k < |s| ==> s[k].count <= e.count
  {
    if s == [] || s[0].count <= e.count {
      k := 0;
      assert Insert(e, s) == [e] + s;
      assert s[..0] == [] && s[0..] == s;
    } else {
      var tail := s[1..];
      var k' := InsertCut(e, tail);
      k := k' + 1;
      assert Insert(e, s) == [s[0]] + Insert(e, tail);
      CutCons(s, e, k');
      forall j | 0 <= j < k ensures s[j].count > e.count {
        if j > 0 { assert s[j] == tail[j - 1]; }
      }
    }
  }

  /** Inserting into a sorted sequence keeps it sorted. */
  lemma InsertSorted(e: Entry, s: seq<Entry>)
    requires SortedByCount(s)
    ensures SortedByCount(Insert(e, s))
  {
    var k := InsertSplit(e, s);
    var r := Insert(e, s);
    forall i, j | 0 <= i < j < |r| ensures r[i].count >= r[j].count {
      if i == k { assert r[j] == s[j - 1] && s[k].count >= s[j - 1].count; }
    }
  }

  /** Equal-count entries appear in increasing order of `key`. */
  predicate TiesOrderedBy(s: seq<Entry>, key: Entry -> int)
  {
    forall i, j :: 0 <= i < j < |s| && s[i].count == s[j].count ==> key(s[i]) < key(s[j])
  }

  /** Insertion is stable: `e`, whose key is below every other key, precedes
      every entry of equal count. */
  lemma InsertTiesOrdered(e: Entry, s: seq<Entry>, key: Entry -> int)
    requires TiesOrderedBy(s, key)
    requires forall x :: x in s ==> key(e) < key(x)
    ensures TiesOrderedBy(Insert(e, s), key)
  {
    var k := InsertSplit(e, s);
    var r := Insert(e, s);
    forall i, j | 0 <= i < j < |r| && r[i].count == r[j].count ensures key(r[i]) < key(r[j]) {
      if j < k { assert r[i] == s[i] && r[j] == s[j]; }
      else if j == k { }
      else if i < k { assert r[i] == s[i] && r[j] == s[j - 1]; }
      else if i == k { assert r[j] == s[j - 1] && s[j - 1] in s; }
      else { assert r[i] == s[i - 1] && r[j] == s[j - 1]; }
    }
  }

  /** Insertion keeps the track names distinct when `e`'s name is new. */
  lemma InsertDistinct(e: Entry, s: seq<Entry>)
    requires DistinctSongs(s)
    requires forall x :: x in s ==> x.song != e.song
    ensures DistinctSongs(Insert(e, s))
  {
    var k := InsertSplit(e, s);
    var r := Insert(e, s);
    forall i, j | 0 <= i < j < |r| ensures r[i].song != r[j].song {
      if j < k { assert r[i] == s[i] && r[j] == s[j]; }
      else if j == k { assert r[i] == s[i] && s[i] in s; }
      else if i < k { assert r[i] == s[i] && r[j] == s[j - 1]; }
      else if i == k { assert r[j] == s[j - 1] && s[j - 1] in s; }
      else { assert r[i] == s[i - 1] && r[j] == s[j - 1]; }
    }
  }

  /** `.sort((a, b) => b.count - a.count)`: a stable sort, highest count
      first. */
  function SortByCount(s: seq<Entry>): (r: seq<Entry>)
    ensures multiset(r) == multiset(s)
    ensures SortedByCount(r)
  {
    if s == [] then []
    else
      assert s == [s[0]] + s[1..];
      InsertSorted(s[0], SortByCount(s[1..]));
      Insert(s[0], SortByCount(s[1..]))
  }

  /** `getMostListenedSongs`. */
  function Rank(plays: seq<Play>): (r: seq<Entry>)
    ensures |r| == |NameSet(plays)|
    ensures SortedByCount(r)
  {
    SortMembers(Entries(plays, Tally(plays)));
    DistinctKeysCard(Tally(plays));
    SortByCount(Entries(plays, Tally(plays)))
  }

  // ---------------------------------------------------------------------
  // Facts about the sort

  /** What is in the sorted sequence is what was in its input. */
  lemma SortMembers(s: seq<Entry>)
    ensures |SortByCount(s)| == |s|
    ensures forall x :: x in SortByCount(s) <==> x in s
  {
    var r := SortByCount(s);
    assert |r| == |multiset(r)| == |multiset(s)| == |s|;
    forall x ensures x in r <==> x in s {
      assert x in r <==> x in multiset(r);
      assert x in s <==> x in multiset(s);
    }
  }

  /** The tail's sorted entries all come from the tail. */
  lemma SortTailMember(s: seq<Entry>, x: Entry)
    requires s != [] && x in SortByCount(s[1..])
    ensures exists k :: 1 <= k < |s| && s[k] == x
  {
    SortMembers(s[1..]);
    var k :| 0 <= k < |s[1..]| && s[1..][k] == x;
    assert s[k + 1] == x;
  }

  /** The sort is stable: for input in increasing `key` order, equal-count
      entries come out in increasing `key` order. */
  lemma {:induction false} SortTiesOrdered(s: seq<Entry>, key: Entry -> int)
    requires forall i, j :: 0 <= i < j < |s| ==> key(s[i]) < key(s[j])
    ensures TiesOrderedBy(SortByCount(s), key)
  {
    if s != [] {
      SortTiesOrdered(s[1..], key);
      forall x | x in SortByCount(s[1..]) ensures key(s[0]) < key(x) {
        SortTailMember(s, x);
      }
      InsertTiesOrdered(s[0], SortByCount(s[1..]), key);
    }
  }

  /** Entries in first-encounter order come out of the sort with ties in
      first-encounter order. */
  lemma SortTiesInOrder(plays: seq<Play>, s: seq<Entry>)
    requires forall i, j :: 0 <= i < j < |s| ==> FirstIndexOf(plays, s[i].song) < FirstIndexOf(plays, s[j].song)
    ensures TiesInOrder(plays, SortByCount(s))
  {
    var key := (x: Entry) => FirstIndexOf(plays, x.song);
    SortTiesOrdered(s, key);
  }

  /** Sorting keeps the track names distinct. */
  lemma {:induction false} SortDistinct(s: seq<Entry>)
    requires DistinctSongs(s)
    ensures DistinctSongs(SortByCount(s))
  {
    if s != [] {
      assert DistinctSongs(s[1..]);
      SortDistinct(s[1..]);
      forall x | x in SortByCount(s[1..]) ensures x.song != s[0].song {
        SortTailMember(s, x);
      }
      InsertDistinct(s[0], SortByCount(s[1..]));
    }
  }

  /** Sorting does not change the sum of the counts. */
  lemma {:induction false} SortTotal(s: seq<Entry>)
    ensures TotalCount(SortByCount(s)) == TotalCount(s)
  {
    if s != [] {
      SortTotal(s[1..]);
      InsertTotal(s[0], SortByCount(s[1..]));
    }
  }

  lemma {:induction false} InsertTotal(e: Entry, s: seq<Entry>)
    ensures TotalCount(Insert(e, s)) == e.count + TotalCount(s)
  {
    if s != [] && s[0].count > e.count {
      InsertTotal(e, s[1..]);
      assert Insert(e, s)[1..] == Insert(e, s[1..]);
    } else {
      assert Insert(e, s)[1..] == s;
    }
  }

  /** Building the entries does not change the sum of the counts. */
  lemma {:induction false} EntriesTotal(plays: seq<Play>, counts: Counts)
    requires KeySet(counts) <= NameSet(plays)
    ensures TotalCount(Entries(plays, counts)) == Total(counts)
  {
    if counts != [] {
      assert KeySet(counts[1..]) <= KeySet(counts) by {
        forall x | x in KeySet(counts[1..]) ensures x in KeySet(counts) {
          var i :| 0 <= i < |counts[1..]| && counts[1..][i].0 == x;
          assert counts[i + 1].0 == x;
        }
      }
      EntriesTotal(plays, counts[1..]);
      assert Entries(plays, counts)[1..] == Entries(plays, counts[1..]);
    }
  }

  // ---------------------------------------------------------------------
  // What a ranking is, and that `Rank` produces the one ranking

  /** An entry carries the artist, album and url of the first play of its
      track name. */
  predicate Attributed(plays: seq<Play>, e: Entry)
  {
    var k := FirstIndexOf(plays, e.song);
    k < |plays| && e.artist == plays[k].artist && e.album == plays[k].album && e.url == plays[k].url
  }

  /** `r` is a ranking of `plays`: one entry per distinct track name played,
      each with that name's play count and first-play attribution, highest
      count first, ties in first-encounter order. */
  ghost predicate IsRanking(plays: seq<Play>, r: seq<Entry>)
  {
    && DistinctSongs(r)
    && (forall n :: n in NameSet(plays) ==> exists i :: 0 <= i < |r| && r[i].song == n)
    && (forall i :: 0 <= i < |r| ==> r[i].count == Occurrences(plays, r[i].song) && Attributed(plays, r[i]))
    && SortedByCount(r)
    && TiesInOrder(plays, r)
  }

  /** The entries built from the dictionary, before sorting, describe every
      name once, in first-encounter order. */
  lemma EntriesFacts(plays: seq<Play>)
    ensures var es := Entries(plays, Tally(plays));
      && DistinctSongs(es)
      && (forall n :: n in NameSet(plays) ==> exists i :: 0 <= i < |es| && es[i].song == n)
      && (forall i :: 0 <= i < |es| ==> es[i].count == Occurrences(plays, es[i].song) && Attributed(plays, es[i]))
      && (forall i, j :: 0 <= i < j < |es| ==> FirstIndexOf(plays, es[i].song) < FirstIndexOf(plays, es[j].song))
  {
    EntriesCover(plays);
    EntriesCounts(plays);
    TallyOrder(plays);
  }

  /** Every name played has an entry before sorting. */
  lemma EntriesCover(plays: seq<Play>)
    ensures var es := Entries(plays, Tally(plays));
      forall n :: n in NameSet(plays) ==> exists i :: 0 <= i < |es| && es[i].song == n
  {
    var counts := Tally(plays);
    var es := Entries(plays, counts);
    forall n | n in NameSet(plays) ensures exists i :: 0 <= i < |es| && es[i].song == n {
      assert n in KeySet(counts);
      var i :| 0 <= i < |counts| && counts[i].0 == n;
      assert es[i].song == n;
    }
    assert es == Entries(plays, Tally(plays));
  }

  /** Before sorting, each entry carries its name's play count and first-play
      attribution. */
  lemma EntriesCounts(plays: seq<Play>)
    ensures var es := Entries(plays, Tally(plays));
      forall i :: 0 <= i < |es| ==> es[i].count == Occurrences(plays, es[i].song) && Attributed(plays, es[i])
  {
    var counts := Tally(plays);
    var es := Entries(plays, counts);
    TallyCounts(plays);
    forall i | 0 <= i < |es| ensures es[i].count == Occurrences(plays, es[i].song) && Attributed(plays, es[i]) {
      assert counts[i].0 in KeySet(counts);
    }
  }

  /** `Rank` produces a ranking. */
  lemma RankIsRanking(plays: seq<Play>)
    ensures IsRanking(plays, Rank(plays))
  {
    var es := Entries(plays, Tally(plays));
    EntriesFacts(plays);
    SortDistinct(es);
    SortTiesInOrder(plays, es);
    RankCovers(plays);
    RankCounts(plays);
  }

  /** Every name played has an entry in the ranking. */
  lemma RankCovers(plays: seq<Play>)
    ensures forall n :: n in NameSet(plays) ==> exists i :: 0 <= i < |Rank(plays)| && Rank(plays)[i].song == n
  {
    var es := Entries(plays, Tally(plays));
    var r := Rank(plays);
    EntriesFacts(plays);
    SortMembers(es);
    forall n | n in NameSet(plays) ensures exists i :: 0 <= i < |r| && r[i].song == n {
      var i :| 0 <= i < |es| && es[i].song == n;
      assert es[i] in r;
    }
  }

  /** Every ranked entry carries its name's play count and first-play
      attribution. */
  lemma RankCounts(plays: seq<Play>)
    ensures forall i :: 0 <= i < |Rank(plays)| ==>
      Rank(plays)[i].count == Occurrences(plays, Rank(plays)[i].song) && Attributed(plays, Rank(plays)[i])
  {
    var es := Entries(plays, Tally(plays));
    var r := Rank(plays);
    EntriesFacts(plays);
    SortMembers(es);
    forall i | 0 <= i < |r| ensures r[i].count == Occurrences(plays, r[i].song) && Attributed(plays, r[i]) {
      assert r[i] in es;
    }
  }

  /** The strict order of a ranking: higher count first, then earlier first
      play. */
  predicate Before(plays: seq<Play>, a: Entry, b: Entry)
  {
    a.count > b.count || (a.count == b.count && FirstIndexOf(plays, a.song) < FirstIndexOf(plays, b.song))
  }

  /** Every earlier entry of a ranking is strictly before every later one. */
  lemma RankingStrict(plays: seq<Play>, r: seq<Entry>)
    requires IsRanking(plays, r)
    ensures forall i, j :: 0 <= i < j < |r| ==> Before(plays, r[i], r[j])
  {
  }

  /** Two sequences strictly ordered by `Before` with the same members are
      equal. */
  lemma {:induction false} StrictlyOrderedUnique(plays: seq<Play>, a: seq<Entry>, b: seq<Entry>)
    requires forall i, j :: 0 <= i < j < |a| ==> Before(plays, a[i], a[j])
    requires forall i, j :: 0 <= i < j < |b| ==> Before(plays, b[i], b[j])
    requires forall x :: x in a <==> x in b
    ensures a == b
  {
    assert a != [] ==> a[0] in b;
    assert b != [] ==> b[0] in a;
    if a != [] {
      var k :| 0 <= k < |b| && b[k] == a[0];
      var m :| 0 <= m < |a| && a[m] == b[0];
      assert a[0] == b[0];
      forall x ensures x in a[1..] <==> x in b[1..] {
        if x in a[1..] {
          var i :| 0 <= i < |a[1..]| && a[1..][i] == x;
          assert Before(plays, a[0], a[i + 1]);
          assert x in b;
        }
        if x in b[1..] {
          var i :| 0 <= i < |b[1..]| && b[1..][i] == x;
          assert Before(plays, b[0], b[i + 1]);
          assert x in a;
        }
      }
      StrictlyOrderedUnique(plays, a[1..], b[1..]);
      assert a == [a[0]] + a[1..] && b == [b[0]] + b[1..];
    }
  }

  /** Every entry of one ranking is an entry of any other ranking of the
      same history: an entry is fixed by its track name. */
  lemma RankingMembers(plays: seq<Play>, r: seq<Entry>, q: seq<Entry>, x: Entry)
    requires IsRanking(plays, r) && IsRanking(plays, q)
    requires x in r
    ensures x in q
  {
    var i :| 0 <= i < |r| && r[i] == x;
    assert x.song in NameSet(plays);
    var j :| 0 <= j < |q| && q[j].song == x.song;
    assert q[j] == x;
  }

  /** The ranking of a history is unique, so `Rank` is the ranking. */
  lemma RankingUnique(plays: seq<Play>, r: seq<Entry>)
    requires IsRanking(plays, r)
    ensures r == Rank(plays)
  {
    var q := Rank(plays);
    RankIsRanking(plays);
    RankingStrict(plays, r);
    RankingStrict(plays, q);
    forall x ensures x in r <==> x in q {
      if x in r { RankingMembers(plays, r, q, x); }
      if x in q { RankingMembers(plays, q, r, x); }
    }
    StrictlyOrderedUnique(plays, r, q);
  }

  /** The ranked counts add up to the number of plays. */
  lemma RankTotal(plays: seq<Play>)
    ensures TotalCount(Rank(plays)) == |plays|
  {
    var es := Entries(plays, Tally(plays));
    SortTotal(es);
    EntriesTotal(plays, Tally(plays));
    TallyTotal(plays);
  }

  /** Distinct keys: as many keys as entries. */
  lemma {:induction false} DistinctKeysCard(acc: Counts)
    requires DistinctKeys(acc)
    ensures |KeySet(acc)| == |acc|
  {
    if acc != [] {
      assert DistinctKeys(acc[1..]);
      DistinctKeysCard(acc[1..]);
      KeySetCons(acc);
    }
  }

  /** The key set of a non-empty dictionary with distinct keys is its first
      key, which the rest does not hold, plus the rest's keys. */
  lemma KeySetCons(acc: Counts)
    requires acc != [] && DistinctKeys(acc)
    ensures KeySet(acc) == {acc[0].0} + KeySet(acc[1..])
    ensures acc[0].0 !in KeySet(acc[1..])
  {
    var tail := acc[1..];
    forall i | 0 <= i < |tail| ensures tail[i] == acc[i + 1] && acc[i + 1].0 in KeySet(acc) { }
    forall x | x in KeySet(acc) ensures x in {acc[0].0} + KeySet(tail) {
      var i :| 0 <= i < |acc| && acc[i].0 == x;
      if i > 0 { assert tail[i - 1].0 == x; }
    }
  }

  /** The ranking is empty exactly when the history is. */
  lemma RankEmpty(plays: seq<Play>)
    ensures Rank(plays) == [] <==> plays == []
  {
    if plays != [] { assert plays[0].name in NameSet(plays); }
  }
}
