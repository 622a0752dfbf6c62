# Daily most-listened track: a Dafny model

This project models the decision logic of a small scheduled job. Once a day,
the job reads the listener's plays from the last 24 hours. It ranks the track
names by how often they were played. Then it appends the highest-ranked track
that the streaming catalog can find and that the target playlist does not yet
hold. The model covers two parts of `index.js`:

- **The ranking** (`getMostListenedSongs`), in module `Ranking`. These are pure
  functions. The counting `reduce` is `Tally`. Its dictionary is an
  association list whose keys stay in insertion order, and `Bump` is one
  `acc[name] = (acc[name] || 0) + 1`. Each entry takes its artist, album and
  url from the first play of its name (`Describe`). The entries are then
  sorted with a stable sort, highest count first (`SortByCount`). `Rank` is
  the whole function. `IsRanking` describes a ranking on its own terms: one
  entry per distinct name, the right count and attribution, counts never
  increasing, and ties in first-encounter order. `RankIsRanking` and
  `RankingUnique` show that `Rank` computes exactly that ranking and nothing
  else.
- **The selection** in the `/daily` handler, in module `Selection`. The
  method `SelectTrack` is the `for` loop with its `continue` and `break`.
  It is proved against the function `FirstEligible`, the first candidate whose
  search has an exact-name result that is absent from the playlist. `SelectTrack`
  also returns the search texts it issued, so the contract states that no
  search happens after the selected candidate. `Daily` is the handler from the
  ranking to the JSON response: the empty-ranking crash, the "all songs are
  already in the playlist" answer, the add call, and the error raised when the
  add status is not 201.

Module `Seqs` holds `Find`, the `Array.prototype.find` searches at
index.js:51-53, 171 and 181, and `IndexWhere`, the position `Find` takes.
Module `Scenarios` works through a few concrete cases.

External calls are inputs:

- The catalog search is a total function from the query text
  (`track:<name> artist:<artist>`) to a list of tracks.
- The playlist is the list of its items' track names.
- The add call's result is its status code.
- The play history is a `seq<Play>`.

On an empty history, the log line at `index.js:160` reads `sortedSongs[0].song`, which throws
on an empty ranking, so the handler answers with the caught error before any
search. `Daily` returns `EmptyHistory` in that case, and its contract says no
search and no add happen.

## Model

| member | source | states |
|---|---|---|
| `Seqs.IndexWhere` | index.js:168-190 | the position behind `find` in the exact-name resolve and the first-eligible pick of the loop, and in the attribution searches at index.js:51-53: the result is the first position whose element satisfies the predicate, or the length when none does |
| `Seqs.Find` | index.js:171 | `None` exactly when no element satisfies the predicate; otherwise the value satisfies it and sits at a position before which none does |
| `Ranking.FirstIndexOf` | index.js:51-53 | the position of the first play with the name, which is below the length exactly when the name was played |
| `Ranking.Bump` | index.js:44 | one `acc[name] = (acc[name] \|\| 0) + 1`: the dictionary keeps its length when the name is already a key and grows by exactly one entry otherwise; its shape, keys and total are stated by `BumpShape`, `BumpKeys` and `BumpTotal` |
| `Ranking.BumpShape` | index.js:44 | with distinct keys, an existing key keeps its place and its count grows by one, and every other key is unchanged; a new key is appended with count 1 |
| `Ranking.BumpKeys` | index.js:44 | bumping keeps the dictionary's keys distinct and adds the bumped name to them |
| `Ranking.AppendKey` | index.js:44 | adding a name the dictionary lacks keeps the keys distinct and adds exactly that name to the key set |
| `Ranking.BumpKeyOrder` | index.js:44 | a bump keeps the keys in increasing order of any measure under which a newly added name lies above every present key |
| `Ranking.BumpTotal` | index.js:44 | each bump raises the sum of the counts by exactly one |
| `Ranking.Tally` | index.js:43-46 | the counting dictionary has distinct keys, and they are exactly the names played |
| `Ranking.TallyCounts` | index.js:43-46 | each key's count is the number of plays with that exact name |
| `Ranking.TallyOrder` | index.js:43-48 | the keys are in first-encounter order, that is, in increasing order of each name's first play |
| `Ranking.TallyTotal` | index.js:43-46 | the counts in the dictionary add up to the number of plays |
| `Ranking.OccurrencesPositive` | index.js:44 | a name has a positive count exactly when it was played |
| `Ranking.FirstIndexExtend` | index.js:43-46 | appending a play does not move an earlier name's first play; a name first seen in the new play has its first play there |
| `Ranking.Describe` | index.js:49-55 | an entry has the given name and count, plus the artist, album and url of the first play with that name |
| `Ranking.Entries` | index.js:48-55 | `Object.entries(counts).map(...)`: one entry per dictionary pair, in the dictionary's order, with that pair's name and count; coverage, attribution and order are stated by `EntriesFacts`, the total by `EntriesTotal` |
| `Ranking.EntriesFacts` | index.js:48-55 | before sorting, the entries name each played track exactly once, carry its play count and first-play attribution, and follow first-encounter order |
| `Ranking.EntriesCover` | index.js:48-55 | every name played has an entry before sorting |
| `Ranking.EntriesCounts` | index.js:48-55 | before sorting, each entry carries its name's play count and the artist, album and url of its first play |
| `Ranking.EntriesTotal` | index.js:48-55 | building the entries keeps the sum of the counts |
| `Ranking.Insert` | index.js:56 | one insertion step returns the input plus the inserted entry, as a multiset |
| `Ranking.InsertCut` | index.js:56 | insertion cuts its input in one place and puts the entry there: every entry before the cut has a higher count, and the entry after it does not |
| `Ranking.InsertSplit` | index.js:56 | position by position, the insertion result is the input's entries before the cut, then the new entry, then the rest of the input shifted by one |
| `Ranking.InsertDistinct` | index.js:56 | inserting an entry with a new name keeps the names distinct |
| `Ranking.InsertTotal` | index.js:56 | insertion adds the new entry's count to the sum of the counts |
| `Ranking.InsertSorted` | index.js:56 | inserting into a sequence sorted by count, highest first, keeps it sorted |
| `Ranking.InsertTiesOrdered` | index.js:56 | inserting an entry whose key is below every other entry's key into a sequence whose equal-count entries are in key order keeps them in key order |
| `Ranking.SortByCount` | index.js:56 | the sort returns a permutation of its input whose counts never increase from any entry to a later one |
| `Ranking.SortMembers` | index.js:56 | the sort keeps the length and the members of its input |
| `Ranking.SortTailMember` | index.js:56 | a member of the sorted rest of a sequence sits at some position after the first |
| `Ranking.SortTiesOrdered` | index.js:56 | sorting input in strictly increasing key order leaves equal-count entries in increasing key order |
| `Ranking.SortTiesInOrder` | index.js:56 | the sort is stable: input in first-encounter order gives equal-count entries in first-encounter order |
| `Ranking.SortDistinct` | index.js:56 | sorting keeps the track names distinct |
| `Ranking.SortTotal` | index.js:56 | sorting keeps the sum of the counts |
| `Ranking.Rank` | index.js:42-59 | `getMostListenedSongs`: the ranking has one entry per distinct name played, and its counts never increase; the full ranking property is `RankIsRanking`, with `RankingUnique`, `RankTotal` and `RankEmpty` |
| `Ranking.RankIsRanking` | index.js:42-59 | the ranked output has one entry per distinct name played, each with that name's count and first-play artist, album and url; counts never increase, and ties keep first-encounter order |
| `Ranking.RankCovers` | index.js:42-59 | every name played has an entry in the ranking |
| `Ranking.RankCounts` | index.js:42-59 | every ranked entry has its name's play count and first-play artist, album and url |
| `Ranking.RankingStrict` | index.js:56 | in a ranking, every entry has a higher count than every later entry, or an equal count and an earlier first play |
| `Ranking.StrictlyOrderedUnique` | index.js:56 | two sequences strictly ordered by count, then by first play, that have the same members are equal |
| `Ranking.RankingMembers` | index.js:42-59 | any two rankings of one history have the same entries, because an entry is fixed by its name |
| `Ranking.RankingUnique` | index.js:42-59 | every sequence that satisfies the ranking description equals the ranked output, so the output is fully determined |
| `Ranking.RankTotal` | index.js:43-56 | the counts across all ranked entries add up to the number of plays |
| `Ranking.DistinctKeysCard` | index.js:43-48 | a dictionary with distinct keys has as many keys as entries |
| `Ranking.KeySetCons` | index.js:43-48 | a dictionary's key set is its first key, absent from the rest, together with the rest's keys |
| `Ranking.RankEmpty` | index.js:43-48 | the ranking is empty exactly when the play history is empty |
| `Selection.Query` | index.js:170 | the search text `track:<song> artist:<artist>` for one candidate; no contract of its own: `SelectTrack` and `Daily` state by it which searches are issued |
| `Selection.Queries` | index.js:168-170 | the search texts of a candidate list, one per candidate in rank order; no contract of its own: `SelectTrack` and `Daily` state the searches issued as `Queries` of a prefix of the ranking |
| `Selection.Resolve` | index.js:171 | the resolved track is the first search result whose name equals the candidate's name exactly; it is `None` exactly when no result has that name |
| `Selection.InPlaylist` | index.js:181 | true exactly when some playlist item has the track's name |
| `Selection.Eligible` | index.js:173-189 | a candidate is kept when its search resolves to a track and that track's name is not in the playlist; no contract of its own: `FirstEligible` states the pick in terms of it |
| `Selection.FirstEligible` | index.js:167-190 | `None` exactly when no candidate both resolves and has a name absent from the playlist; otherwise it gives the first such candidate's position and resolved track, and every earlier candidate is ineligible |
| `Selection.FirstEligibleAt` | index.js:173-186 | a candidate that resolves to a track missing from the playlist, after only ineligible candidates, is the first eligible one |
| `Selection.SelectTrack` | index.js:167-190 | the loop selects the first eligible candidate's resolved track and issues searches for exactly the candidates up to and including it; with no eligible candidate it selects nothing after searching every candidate, in rank order |
| `Selection.Daily` | index.js:158-209 | empty history: the error response, with no search and no add; no eligible candidate: the "All songs are already in the playlist" response and no add; otherwise it adds exactly the selected track's uri, and the run succeeds exactly when the add status is 201 and otherwise fails with "Failed to add song to playlist" |
| `Scenarios.RankTwoSongs` | index.js:42-59 | two plays of Song1 and one of Song2 rank Song1 (count 2), then Song2 (count 1), each with its first play's details |
| `Scenarios.TallyTwoSongs` | index.js:43-46 | two plays of Song1 and one of Song2 count to Song1: 2, then Song2: 1 |
| `Scenarios.EntriesTwoSongs` | index.js:48-55 | those counts become entries carrying the first play's artist, album and url |
| `Scenarios.SortTwo` | index.js:56 | two entries whose counts do not increase, ties included, stay in their order |
| `Scenarios.TallyTieSongs` | index.js:43-46 | one play of Song2 and then one of Song1 count to Song2: 1, then Song1: 1 |
| `Scenarios.EntriesTieSongs` | index.js:48-55 | those counts become entries in first-encounter order with each play's details |
| `Scenarios.RankTieKeepsFirstEncounter` | index.js:56 | two names played once each keep the order in which they were first played |
| `Scenarios.CatalogResolves` | index.js:171 | in a catalog that returns both tracks, each name resolves to its own track |
| `Scenarios.PresentIneligible` | index.js:171-190 | a candidate that resolves to a track already in the playlist is skipped |
| `Scenarios.MissingResolves` | index.js:171-181 | Song2 resolves to its track, and the playlist holding only Song1 lacks it |
| `Scenarios.SelectSkipsPresent` | index.js:167-190 | when Song1 is already in the playlist and both candidates resolve, Song2 is selected |
| `Scenarios.SelectUnresolvable` | index.js:171-177 | a candidate whose search has no exact-name result yields no selection |

## Left out

- Fetching the play history (index.js:19-40): paging over the third-party reader, the 24-hour window and the record mapping are I/O. The model takes the mapped plays as a `seq<Play>`.
- The OAuth flow (index.js:61-72, 103-130, 213-243): token refresh, the authorization-code grant and the authorize URL are foreign library calls on shared mutable token state. Token persistence to `token.json` (index.js:114, 216, 227) is file I/O.
- The Express routes and server start (index.js:146-150, 213), the self-request `dailyRequest` (index.js:74-101) and the cron schedule (index.js:245-251) are network plumbing and scheduling. The readline prompt (index.js:132-144) is console I/O. `console.log` output is left out too.
- The playlist fetch (index.js:164) is an input. The handler checks only the items in the single page that `getPlaylist` returns (index.js:181), and the model's playlist is those names, so a track listed past that page counts as absent, as it does in the code.
- Failures of the search, playlist and add calls as rejected promises are not modelled. The handler's catch (index.js:207-209) would turn them into an error response. The model covers only the add call's status code.
- The search is a pure function of the query text, so the same text always gives the same results. Each candidate is searched once, with no retry. Two candidates whose search texts coincide, which a name or artist containing ` artist:` can cause (a play of "A artist:B" by "C" and one of "A" by "B artist:C" both search `track:A artist:B artist:C`), get identical results in the model, while the two real searches could differ.
- JavaScript plain-object key quirks in the counting dictionary are not modelled. Integer-like names such as "1999" enumerate before other keys. A play named `__proto__` is silently dropped. A name inherited from `Object.prototype`, such as "constructor" or "toString", makes `acc[song.name] || 0` (index.js:44) yield a function, so its count becomes a string and the comparison at index.js:56 yields NaN. The model keeps every name with a numeric count, in first-encounter order.
- The empty-history crash at index.js:160 is not modelled as an exception carrying the engine's `TypeError` message. `Daily` returns `EmptyHistory` for it.
- The log lines read `song.artists[0].name` (index.js:180-205) and would throw on a track with no artists. Tracks carry no artist list here, so this path is not modelled.
- A playlist item whose `track` is null makes `playlistSong.track.name` throw at index.js:181, and the handler answers with the caught error. The model's playlist is a list of names, so this error path is not modelled.
- The three identical `songs.find` calls (index.js:51-53) are one search in the model, because all three return the same play.
