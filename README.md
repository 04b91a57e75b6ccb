# Commander Tracker: statistics and match recording

A Dafny model of the two pieces of logic in the Commander Tracker dashboard
(`app.py`, a Streamlit page over a Supabase database that tracks Magic:
The Gathering Commander games):

- **Dashboard statistics.** The history view has one row per seat of a match.
  The model filters it by year ("Todos" keeps every row) and computes the three
  headline counts: distinct matches, distinct players and distinct decks. It
  then builds the win-rate ranking: group by player, count games as distinct
  match ids and wins as rows marked won, keep players with at least 5 games,
  sort by rate descending and take the top 10. Last comes the colour-identity
  table: an empty identity counts as "Incolor", counts are sorted descending
  and the top 10 are kept.
- **Deck list for the form.** Each deck is shown as "deck name (owner name)".
  The owner is looked up by player id through a `dict(zip(...))` player map,
  and the list is sorted by that display name.
- **Match recording.** The procedure keeps the filled seats and refuses fewer
  than two. It then inserts the match row and takes its new id. Next it
  resolves each seat's player name and deck display name to ids, taking the
  first match. It builds one participant row per seat, with rank 1 for the
  winner and 0 otherwise, inserts them as one batch and clears the read cache.
  The store is a class with the two tables as sequence fields, so the order of
  the writes is visible. If a seat cannot be resolved, the match row stays
  behind with no participants.

Files: `wrappers.dfy` (Option, Result), `seqs.dfy` (first-match lookup,
distinct values, counts, `head`), `sorting.dfy` (sorting by a total
preorder, standing for pandas' `sort_values`), `decks.dfy`, `stats.dfy`,
`registration.dfy`.

The model follows what the code does, in particular:
- A name that matches several players or decks resolves to the first one
  (`.values[0]`); it is not rejected as ambiguous.
- The match row is inserted *before* the names are resolved, so a resolution
  failure leaves an orphan match.
- A deck whose owner id is not a known player shows the owner as `nan`. That
  is what `astype(str)` makes of the missing value; there is no "unknown
  owner" text.
- The order of players with equal win rates, and of categories with equal
  counts, is left open. pandas' default sort is not stable, and the model
  does not promise any tie order.

The model also shows something about the source. A player may fill two seats
of one match, because nothing in the form prevents it. If both of those seats
are marked as winners, the history has two winning rows for one game, so the
player's wins can exceed their games and the win rate can pass 100. Five
matches all won, one of them from two seats, give a player who qualifies for
the ranking with a rate of 120 (`Stats.WinRateCanExceed100`). The 0–100 bound holds when each player holds at
most one seat per match (`Stats.WinRateIsPercentage`).

## Model

| member | source | states |
|---|---|---|
| `Seqs.FirstIndex` | app.py:232-233 | the result is the first index whose element satisfies the predicate; none exactly when no element does |
| `Seqs.Distinct` | app.py:111-114 | every value of the input appears, nothing else does, and no value appears twice |
| `Seqs.Head` | app.py:118 | `head(n)` returns a prefix of at most n elements, and all of them when there are fewer |
| `Seqs.PermutationKeepsNoDuplicates` | app.py:118 | helper for `Stats.RankingIsOrdered` and `Stats.ColourFrequencyEntries`: reordering a sequence without duplicates cannot create duplicates |
| `Seqs.OccurrencesPositiveIffPresent` | app.py:128 | a value is counted a positive number of times exactly when it occurs |
| `Sorting.Insert` | app.py:118 | inserting into a sorted sequence keeps it sorted and adds exactly the new element |
| `Sorting.Sort` | app.py:118 | the result is sorted by the given order and is a permutation of the input |
| `Sorting.HeadKeepsTop` | app.py:118 | after `sort_values(...).head(n)`, every element cut away ranks no earlier than the last one kept |
| `Decks.PlayerNamesIsLastWins` | app.py:61 | the player map has exactly the ids of the player list as keys, and each maps to the name of the last player with that id |
| `Decks.PlayerNames` | app.py:61 | the `dict(zip(...))` player map; its contract is `Decks.PlayerNamesIsLastWins` |
| `Decks.OwnerName` | app.py:62-63 | a deck's owner name is the name the player map gives its owner id, or `nan` when the id is unknown |
| `Decks.DisplayName` | app.py:63 | the "deck (owner)" text; its contract is `Decks.DisplayNameSeparatesDecksOfOneOwner` and `Decks.DisplayNameCanBeAmbiguous` |
| `Decks.DisplayNameSeparatesDecksOfOneOwner` | app.py:63 | two decks of the same owner get the same display name exactly when their names are equal |
| `Decks.DisplayNameCanBeAmbiguous` | app.py:63 | two different (deck, owner) pairs can produce the same display name |
| `Decks.Annotated` | app.py:62-63 | a listed deck carries its deck, its owner's name, and the display name "deck (owner)" |
| `Decks.StrLeTotal` | app.py:64 | helper for `Decks.DisplayLeIsTotalPreorder`: any two strings are comparable in Python's code-point order |
| `Decks.StrLeTransitive` | app.py:64 | helper for `Decks.DisplayLeIsTotalPreorder`: Python's code-point order on strings is transitive |
| `Decks.DisplayLeIsTotalPreorder` | app.py:64 | ordering decks by display name is a total preorder, so they can be sorted by it |
| `Decks.DeckListing` | app.py:59-64 | there is a list only when both the deck and the player tables are non-empty; it has the same number of entries as there are decks, is a permutation of the annotated decks, and is sorted by display name |
| `Decks.ListingEntries` | app.py:61-64 | every listed entry is an input deck, shown with its owner's name as "deck (owner)" |
| `Decks.ListingKeepsEveryDeck` | app.py:64 | every input deck appears in the list |
| `Stats.FilterByPeriod` | app.py:88-90 | "Todos" returns the rows unchanged; a year keeps every row of that year, each as many times as it occurs, and no other row |
| `Stats.TotalMatches` | app.py:93 | `nunique` of match ids; bounded by `Stats.HeadlineCountsBounded`, narrowed by `Stats.FilterNarrowsHeadlineCounts` |
| `Stats.ActivePlayers` | app.py:99 | `nunique` of player names; bounded by `Stats.HeadlineCountsBounded`, narrowed by `Stats.FilterNarrowsHeadlineCounts` |
| `Stats.DecksUsed` | app.py:100 | `nunique` of deck names; bounded by `Stats.HeadlineCountsBounded`, narrowed by `Stats.FilterNarrowsHeadlineCounts` |
| `Stats.DistinctCountBounds` | app.py:93-100 | a distinct count is at most the number of rows, and at least one when there are rows |
| `Stats.HeadlineCountsBounded` | app.py:93-100 | total matches, active players and decks used never exceed the filtered row count, and are positive when there are rows |
| `Stats.SubsetCardinality` | app.py:88-100 | helper for `Stats.FilterNarrowsHeadlineCounts` and `Stats.WinRateIsPercentage`: a subset has no more elements than its superset |
| `Stats.FilterNarrowsHeadlineCounts` | app.py:88-100 | restricting to one year never raises any of the three headline counts |
| `Stats.Games` | app.py:112 | a player's games are the distinct match ids of the player's rows; related to wins by `Stats.WinsAreDistinctMatches` and `Stats.WinRateIsPercentage` |
| `Stats.Wins` | app.py:113 | a player's wins are the player's rows marked won; see `Stats.WinsAreDistinctMatches` and `Stats.WinRateCanExceed100` |
| `Stats.Tallies` | app.py:111-114 | one group per distinct player name, carrying that player's games and wins |
| `Stats.Qualified` | app.py:116-117 | keeps exactly the groups with at least 5 games, each with win rate `100 * wins / games`, and adds no duplicates |
| `Stats.TalliesHaveNoDuplicates` | app.py:111-114 | no player has two groups |
| `Stats.SortedByRate` | app.py:118 | the qualified players, reordered by win rate from highest to lowest |
| `Stats.Ranking` | app.py:118 | the top 10 of the rate-sorted qualified players; its contract is `Stats.RankingEntriesAreExact`, `Stats.RankingIsOrdered` and `Stats.RankingIsTop` |
| `Stats.RankingEntriesAreExact` | app.py:111-118 | at most 10 entries; each has at least 5 games, its games are the player's distinct match ids, its wins are the player's won rows, and its rate is `100 * wins / games` |
| `Stats.RankingIsOrdered` | app.py:111-118 | no player is listed twice, and win rates never increase down the table |
| `Stats.QualifiedPlayerIsRated` | app.py:111-118 | every player with at least 5 games is among the sorted, rated players |
| `Stats.RankingIsTop` | app.py:116-118 | a player with at least 5 games is listed, or else 10 players are listed and each has a rate at least as high |
| `Stats.WinsAreDistinctMatches` | app.py:111-113 | with one seat per player per match, a player's wins equal the number of distinct matches the player won |
| `Stats.WinRateIsPercentage` | app.py:117 | with one seat per player per match, the win rate is between 0 and 100 |
| `Stats.WinRateCanExceed100` | app.py:111-117 | five matches all won, one of them from two winning seats of the same player, give 5 games (enough for the ranking), 6 wins and a rate of 120 |
| `Stats.RatioAtMostOne` | app.py:117 | helper for `Stats.WinRateIsPercentage`: `wins / games * 100` lies between 0 and 100 whenever wins do not exceed games |
| `Stats.Category` | app.py:128 | an empty identity becomes "Incolor", a non-empty identity is its own category, and the category is never empty |
| `Stats.Tally` | app.py:128 | one count per key, equal to the number of rows of that category |
| `Stats.ColourTable` | app.py:128 | `value_counts()` gives every category with its count, largest first, as a permutation of the per-category counts |
| `Stats.SumCountsOfConcat` | app.py:128 | helper for `Stats.SumCountsOfPermutation`: the total of two tables side by side is the sum of their totals |
| `Stats.SumCountsOfPermutation` | app.py:128 | reordering the colour table does not change its total |
| `Stats.TallyOfOneMoreRow` | app.py:128 | one more row raises the total of a tally by one if the tally counts its category, and by nothing otherwise |
| `Stats.TallyOfDistinctCoversAll` | app.py:128 | counting every distinct category accounts for each row exactly once |
| `Stats.ColourTableCoversEveryRow` | app.py:128 | before the top-10 cut, the category counts sum to the number of filtered rows |
| `Stats.ColourCountsHaveNoDuplicates` | app.py:128 | no category is counted twice |
| `Stats.ColourFrequency` | app.py:128 | the top 10 of `value_counts()`; its contract is `Stats.ColourFrequencyEntries` and `Stats.ColourFrequencyIsTop` |
| `Stats.ColourFrequencyEntries` | app.py:128 | at most 10 categories; none is the empty identity; each count is the number of rows of that category and at least 1; no category repeats; counts never increase |
| `Stats.CategoryIsCounted` | app.py:128 | every category present in the rows is in the full table with its count |
| `Stats.ColourFrequencyIsTop` | app.py:128 | a category present in the rows is shown, or else 10 categories are shown, each with at least its count |
| `Stats.DashboardFor` | app.py:77-128 | no statistics exactly when the history is empty; otherwise the three counts, the ranking and the colour table are those of the rows in the selected period, the counts are within that row count, both tables have at most 10 entries, and with "Todos" all three counts are positive |
| `Registration.FilledSeats` | app.py:209 | keeps exactly the seats with a player name and a deck display name, each as many times as it occurs, and never more seats than there were |
| `Registration.FilledSeatsOfConcat` | app.py:209 | filtering seat lists joined end to end gives the two filtered lists joined in the same order, so seat order is kept |
| `Registration.FilledSeatsOfOne` | app.py:209 | a single seat is kept exactly when it is filled |
| `Registration.FilledSeatsOfTable` | app.py:189-209 | on the form's four seats, each seat is kept or dropped on its own, in seat order |
| `Registration.PlayerIdFor` | app.py:232 | the id of the first player with that name; none exactly when no player has it |
| `Registration.DeckIdFor` | app.py:233 | the id of the first listed deck with that display name; none exactly when no deck has it |
| `Registration.SharedDisplayNameResolvesToEarlier` | app.py:233 | when two listed decks share a display name (one owner with two decks of one name, or two players of one name), the name resolves to a deck listed no later than the first of them; which deck that is depends on the listing's order, which the sort leaves open |
| `Registration.ResolveSeatRow` | app.py:232-242 | a seat resolves exactly when its player and its deck are both found, and fails on the player first; its row has the match id, both ids, the seat's winner flag and turn, and rank 1 for a winner and 0 otherwise |
| `Registration.ResolveSeat` | app.py:232-242 | one seat's participant row or the first lookup error; its contract is `Registration.ResolveSeatRow` |
| `Registration.ResolveAll` | app.py:230-242 | the loop over the seats; its contract is `Registration.ResolveAllSuccess`, `Registration.ResolveAllFailure` and `Registration.ParticipantRows` |
| `Registration.ResolveAllSuccess` | app.py:230-242 | on success there is one row per seat, in seat order, each the row of its seat |
| `Registration.ResolveAllFailure` | app.py:230-233 | on failure the error is that of the first seat that does not resolve, and every earlier seat resolves |
| `Registration.ParticipantRows` | app.py:227-242 | one participant row per valid seat in seat order, each with the new match id, the first matching player and deck, the seat's crown and non-negative turn, and rank 1 exactly for winners |
| `Registration.ResolvedRowsCarryMatchId` | app.py:236 | every resolved row carries the id of the match being recorded |
| `Registration.ResolveAllFailureSticks` | app.py:230-233 | once a seat fails, the rest of the loop does not run and the whole resolution fails with that seat's error |
| `Registration.BuildParticipants` | app.py:227-242 | the loop's result is exactly the seat-by-seat resolution: every seat's row, or the first failing seat's error |
| `Registration.Store.InsertMatch` | app.py:217-224 | the new match row is appended with an id no stored match has; participants and cache are untouched |
| `Registration.Store.InsertParticipants` | app.py:245 | the rows are appended to the participants table; every row must name a stored match |
| `Registration.Store.ClearCache` | app.py:249 | the read cache is marked cleared |
| `Registration.Store.RecordMatch` | app.py:207-252 | with fewer than 2 filled seats it refuses and writes nothing. Otherwise the match row is always appended with a fresh id. It succeeds exactly when every filled seat resolves, and then appends the resolved rows and clears the cache. Failing, it leaves the new match with no participants and the cache untouched |

## Left out

- Page layout, widgets, sidebar navigation, messages and balloons (app.py:8-13, 67-76, 79-82, 97-98, 101-110, 126, 137-139, 148-157, 170-205, 247-248, 254-262) are user interface. The seats arrive as a parameter; the turn is a `nat` because its input widget has `min_value=0`.
- The Plotly charts (app.py:120-123, 130-131) are calls into a charting library.
- The Supabase client, its secrets and the queries (app.py:15-53, 221, 245) are network I/O. The store is an in-memory class whose ids count up from 1, like the database's auto-increment.
- Registration.Store.RecordMatch: both store inserts are assumed to succeed. The source's two other error outcomes are not described: "match insert failed, nothing written" (app.py:221) and "match inserted, participant insert failed" (app.py:245). Both are reported by the handler at app.py:251-252.
- `st.cache_data` with its 10-minute expiry, and `st.cache_resource` (app.py:25, 36), are time-based framework caching. Clearing the cache after a successful recording is a boolean field.
- The shared password check (app.py:168-172) is a plain string comparison.
- The history search (app.py:144-146): pandas `str.contains` reads the search text as a regular expression, which is not modelled.
- Date parsing (app.py:84, 90) is replaced by an integer year on each row. The year list offered by the selector is not modelled; any year can be selected.
- The column-presence checks (app.py:83, 127) always pass here, because every model row has those fields.
- pandas missing values: only a missing owner is modelled, as the text `nan`.
- The win rate is an exact `real`, not a floating-point value.
- Sorting.Sort: promises sortedness and a permutation, not an order among equal keys, because pandas' default sort does not fix one (app.py:64, 118, 128).
- Stats.Tallies: the groups come in order of first appearance, not in pandas' key order. The sort that follows leaves ties open anyway.
- The unused `total_vitorias` and `ranking_count` (app.py:95, 228).
- Concurrent submissions from several sessions.
