/**
 * The dashboard's statistics (app.py:84-128): a year filter over the match
 * history, three distinct counts, a win-rate ranking and a colour-identity
 * frequency table, all computed from the flat history view (one row per
 * seat of a match).
 */
module Stats {
  import opened Wrappers
  import opened Seqs
  import opened Sorting

  /** One row of the history view; the calendar year stands for the parsed date. */
  datatype HistoryRow = HistoryRow(
    matchId: int,
    playerName: string,
    deckName: string,
    colorIdentity: string,
    year: int,
    isWinner: bool)

  /** The year selector: "Todos" or one year. */
  datatype Period = AllYears | InYear(year: int)

  predicate InPeriod(row: HistoryRow, period: Period) {
    period.AllYears? || row.year == period.year
  }

  // ---------------------------------------------------------------------------
  // Year filter (app.py:88-90)
  // ---------------------------------------------------------------------------

  /** Keeps the rows of the selected year, in their order; "all years" keeps every row. */
  function FilterByPeriod(rows: seq<HistoryRow>, period: Period): (r: seq<HistoryRow>)
    ensures period.AllYears? ==> r == rows
    ensures forall x :: multiset(r)[x] == if InPeriod(x, period) then multiset(rows)[x] else 0
    ensures forall i :: 0 <= i < |r| ==> InPeriod(r[i], period)
  {
    if rows == [] then []
    else
      var n := |rows| - 1;
      assert rows == rows[..n] + [rows[n]];
      var kept := FilterByPeriod(rows[..n], period);
      if InPeriod(rows[n], period) then kept + [rows[n]] else kept
  }

  // ---------------------------------------------------------------------------
  // Headline counts (app.py:93, 99, 100)
  // ---------------------------------------------------------------------------

  /** The distinct values a column takes over the rows (`unique`). */
  function Column<U>(rows: seq<HistoryRow>, f: HistoryRow -> U): set<U> {
    set r | r in rows :: f(r)
  }

  function MatchIdOf(r: HistoryRow): int { r.matchId }
  function PlayerOf(r: HistoryRow): string { r.playerName }
  function DeckOf(r: HistoryRow): string { r.deckName }

  /** "Total de Partidas": the number of distinct match ids. */
  function TotalMatches(rows: seq<HistoryRow>): nat {
    |Column(rows, MatchIdOf)|
  }

  /** "Jogadores Ativos": the number of distinct player names. */
  function ActivePlayers(rows: seq<HistoryRow>): nat {
    |Column(rows, PlayerOf)|
  }

  /** "Decks Diferentes Usados": the number of distinct deck names. */
  function DecksUsed(rows: seq<HistoryRow>): nat {
    |Column(rows, DeckOf)|
  }

  /** A distinct count never exceeds the number of rows, and is positive when there are rows. */
  lemma {:induction false} DistinctCountBounds<U>(rows: seq<HistoryRow>, f: HistoryRow -> U)
    ensures |Column(rows, f)| <= |rows|
    ensures rows != [] ==> |Column(rows, f)| >= 1
  {
    if rows != [] {
      var n := |rows| - 1;
      DistinctCountBounds(rows[..n], f);
      assert rows == rows[..n] + [rows[n]];
      assert Column(rows, f) == Column(rows[..n], f) + {f(rows[n])};
    }
  }

  lemma HeadlineCountsBounded(rows: seq<HistoryRow>)
    ensures TotalMatches(rows) <= |rows| && ActivePlayers(rows) <= |rows| && DecksUsed(rows) <= |rows|
    ensures rows != [] ==> TotalMatches(rows) >= 1 && ActivePlayers(rows) >= 1 && DecksUsed(rows) >= 1
  {
    DistinctCountBounds(rows, MatchIdOf);
    DistinctCountBounds(rows, PlayerOf);
    DistinctCountBounds(rows, DeckOf);
  }

  lemma {:induction false} SubsetCardinality<U>(a: set<U>, b: set<U>)
    requires a <= b
    ensures |a| <= |b|
  {
    if a != {} {
      var x :| x in a;
      SubsetCardinality(a - {x}, b - {x});
    }
  }

  /** Narrowing to one year never raises a headline count. */
  lemma FilterNarrowsHeadlineCounts(rows: seq<HistoryRow>, period: Period)
    ensures TotalMatches(FilterByPeriod(rows, period)) <= TotalMatches(rows)
    ensures ActivePlayers(FilterByPeriod(rows, period)) <= ActivePlayers(rows)
    ensures DecksUsed(FilterByPeriod(rows, period)) <= DecksUsed(rows)
  {
    var kept := FilterByPeriod(rows, period);
    assert forall x :: x in kept ==> x in rows by {
      forall x | x in kept ensures x in rows {
        assert multiset(kept)[x] > 0;
      }
    }
    SubsetCardinality(Column(kept, MatchIdOf), Column(rows, MatchIdOf));
    SubsetCardinality(Column(kept, PlayerOf), Column(rows, PlayerOf));
    SubsetCardinality(Column(kept, DeckOf), Column(rows, DeckOf));
  }

  // ---------------------------------------------------------------------------
  // Win-rate ranking (app.py:111-118)
  // ---------------------------------------------------------------------------

  /** A player needs at least this many games in the period to be ranked. */
  const MinGames: nat := 5

  /** How many entries the ranking and the colour table show (`head(10)`). */
  const TopCount: nat := 10

  /** The player's games: the distinct match ids of the player's rows. */
  function Games(rows: seq<HistoryRow>, name: string): nat {
    |set r | r in rows && r.playerName == name :: r.matchId|
  }

  /** The player's wins: the player's rows marked as won (the sum of a boolean column). */
  function Wins(rows: seq<HistoryRow>, name: string): nat {
    if rows == [] then 0
    else
      var last := rows[|rows| - 1];
      Wins(rows[..|rows| - 1], name) + (if last.playerName == name && last.isWinner then 1 else 0)
  }

  /** `vitorias / jogos * 100`, exactly. */
  function WinRate(wins: nat, games: nat): real
    requires games > 0
  {
    (wins as real / games as real) * 100.0
  }

  /** One group of `groupby('player_name')`. */
  datatype PlayerTally = PlayerTally(playerName: string, games: nat, wins: nat)

  /** One row of the ranking. */
  datatype RankEntry = RankEntry(playerName: string, games: nat, wins: nat, winRate: real)

  function TallyFor(rows: seq<HistoryRow>, name: string): PlayerTally {
    PlayerTally(name, Games(rows, name), Wins(rows, name))
  }

  function PlayerColumn(rows: seq<HistoryRow>): (names: seq<string>)
    ensures |names| == |rows|
    ensures forall i :: 0 <= i < |rows| ==> names[i] == rows[i].playerName
  {
    seq(|rows|, i requires 0 <= i < |rows| => rows[i].playerName)
  }

  /** One tally per distinct player name. */
  function Tallies(rows: seq<HistoryRow>): (r: seq<PlayerTally>)
    ensures |r| == |Distinct(PlayerColumn(rows))|
    ensures forall i :: 0 <= i < |r| ==> r[i] == TallyFor(rows, Distinct(PlayerColumn(rows))[i])
  {
    var names := Distinct(PlayerColumn(rows));
    seq(|names|, i requires 0 <= i < |names| => TallyFor(rows, names[i]))
  }

  function Rated(t: PlayerTally): RankEntry
    requires t.games > 0
  {
    RankEntry(t.playerName, t.games, t.wins, WinRate(t.wins, t.games))
  }

  /** Drops the tallies below the minimum and attaches the win rate to the others. */
  function Qualified(tallies: seq<PlayerTally>): (r: seq<RankEntry>)
    ensures forall i :: 0 <= i < |r| ==>
              && r[i].games >= MinGames
              && r[i].winRate == WinRate(r[i].wins, r[i].games)
              && PlayerTally(r[i].playerName, r[i].games, r[i].wins) in tallies
    ensures forall i :: 0 <= i < |tallies| && tallies[i].games >= MinGames ==> Rated(tallies[i]) in r
    ensures NoDuplicates(tallies) ==> NoDuplicates(r)
  {
    if tallies == [] then []
    else
      var n := |tallies| - 1;
      var t := tallies[n];
      var kept := Qualified(tallies[..n]);
      assert forall i :: 0 <= i < n ==> tallies[..n][i] == tallies[i];
      assert forall x :: x in tallies[..n] ==> x in tallies;
      if t.games >= MinGames then
        RatedIsNew(tallies, kept);
        kept + [Rated(t)]
      else kept
  }

  /** The last tally, rated, is not among the entries kept from the tallies before it. */
  lemma RatedIsNew(tallies: seq<PlayerTally>, kept: seq<RankEntry>)
    requires tallies != [] && tallies[|tallies| - 1].games > 0
    requires forall i :: 0 <= i < |kept| ==>
               PlayerTally(kept[i].playerName, kept[i].games, kept[i].wins) in tallies[..|tallies| - 1]
    ensures NoDuplicates(tallies) ==> Rated(tallies[|tallies| - 1]) !in kept
  {
    var n := |tallies| - 1;
    if NoDuplicates(tallies) {
      forall i | 0 <= i < |kept|
        ensures kept[i] != Rated(tallies[n])
      {
        var u := PlayerTally(kept[i].playerName, kept[i].games, kept[i].wins);
        var j :| 0 <= j < n && tallies[..n][j] == u;
        assert tallies[j] == u;
        assert tallies[j] != tallies[n];
      }
    }
  }

  /** The ranking order: by win rate, highest first. */
  predicate RateAtLeast(a: RankEntry, b: RankEntry) {
    a.winRate >= b.winRate
  }

  lemma RateAtLeastIsTotalPreorder()
    ensures TotalPreorder(RateAtLeast)
  {
  }

  /** `sort_values('win_rate', ascending=False)` over the qualified players. */
  function SortedByRate(rows: seq<HistoryRow>): (r: seq<RankEntry>)
    ensures multiset(r) == multiset(Qualified(Tallies(rows)))
    ensures SortedBy(r, RateAtLeast)
  {
    RateAtLeastIsTotalPreorder();
    Sort(Qualified(Tallies(rows)), RateAtLeast)
  }

  /** The "Top Win Rate" table: the ten best rates among players with enough games. */
  function Ranking(rows: seq<HistoryRow>): seq<RankEntry> {
    Head(SortedByRate(rows), TopCount)
  }

  lemma TalliesHaveNoDuplicates(rows: seq<HistoryRow>)
    ensures NoDuplicates(Tallies(rows))
  {
    var names := Distinct(PlayerColumn(rows));
    var t := Tallies(rows);
    forall i, j | 0 <= i < j < |t| ensures t[i] != t[j] {
      assert t[i].playerName == names[i] && t[j].playerName == names[j];
    }
  }

  /** Every ranked player has enough games, and its numbers are those of its rows. */
  lemma {:induction false} RankingEntriesAreExact(rows: seq<HistoryRow>)
    ensures |Ranking(rows)| <= TopCount
    ensures forall e :: e in Ranking(rows) ==>
              && e.games >= MinGames
              && e.games == Games(rows, e.playerName)
              && e.wins == Wins(rows, e.playerName)
              && e.winRate == WinRate(e.wins, e.games)
  {
    var sorted := SortedByRate(rows);
    var tallies := Tallies(rows);
    forall e | e in Ranking(rows)
      ensures e.games >= MinGames && e.games == Games(rows, e.playerName)
      ensures e.wins == Wins(rows, e.playerName) && e.winRate == WinRate(e.wins, e.games)
    {
      assert e in sorted;
      assert e in multiset(Qualified(tallies));
      var i :| 0 <= i < |Qualified(tallies)| && Qualified(tallies)[i] == e;
      var k :| 0 <= k < |tallies| && tallies[k] == PlayerTally(e.playerName, e.games, e.wins);
    }
  }

  /** No player is listed twice, and rates never increase down the table. */
  lemma {:induction false} RankingIsOrdered(rows: seq<HistoryRow>)
    ensures forall i, j :: 0 <= i < j < |Ranking(rows)| ==> Ranking(rows)[i].playerName != Ranking(rows)[j].playerName
    ensures forall i, j :: 0 <= i < j < |Ranking(rows)| ==> Ranking(rows)[i].winRate >= Ranking(rows)[j].winRate
  {
    var r := Ranking(rows);
    var sorted := SortedByRate(rows);
    TalliesHaveNoDuplicates(rows);
    PermutationKeepsNoDuplicates(Qualified(Tallies(rows)), sorted);
    RankingEntriesAreExact(rows);
    forall i, j | 0 <= i < j < |r|
      ensures r[i].playerName != r[j].playerName && r[i].winRate >= r[j].winRate
    {
      assert r[i] == sorted[i] && r[j] == sorted[j];
      assert r[i] in r && r[j] in r;
    }
  }

  /** A player with enough games is among the rated and sorted players. */
  lemma {:induction false} QualifiedPlayerIsRated(rows: seq<HistoryRow>, name: string)
    requires Games(rows, name) >= MinGames
    ensures Rated(TallyFor(rows, name)) in SortedByRate(rows)
  {
    var tallies := Tallies(rows);
    var names := Distinct(PlayerColumn(rows));
    var ids := set x | x in rows && x.playerName == name :: x.matchId;
    var id :| id in ids;
    var p :| 0 <= p < |rows| && rows[p].playerName == name && rows[p].matchId == id;
    assert PlayerColumn(rows)[p] == name;
    var k :| 0 <= k < |names| && names[k] == name;
    assert tallies[k] == TallyFor(rows, name);
    assert Rated(tallies[k]) in multiset(Qualified(tallies));
  }

  /**
   * The table is a top ten: a player with enough games who is not listed
   * only misses out because ten players are listed, each with a rate at
   * least as high.
   */
  lemma {:induction false} RankingIsTop(rows: seq<HistoryRow>, name: string)
    requires Games(rows, name) >= MinGames
    ensures (exists i :: 0 <= i < |Ranking(rows)| && Ranking(rows)[i].playerName == name)
            || (|Ranking(rows)| == TopCount
                && forall i :: 0 <= i < TopCount ==>
                     Ranking(rows)[i].winRate >= WinRate(Wins(rows, name), Games(rows, name)))
  {
    var r := Ranking(rows);
    var sorted := SortedByRate(rows);
    var x := Rated(TallyFor(rows, name));
    QualifiedPlayerIsRated(rows, name);
    if x in r {
      var i :| 0 <= i < |r| && r[i] == x;
    } else {
      HeadKeepsTop(sorted, RateAtLeast, TopCount, x);
      assert r == sorted[..TopCount];
      assert forall i :: 0 <= i < TopCount ==> RateAtLeast(sorted[i], sorted[TopCount - 1]);
    }
  }

  /** The group's games may only be fewer than its wins if a player held two seats in one match. */
  predicate OneSeatPerPlayer(rows: seq<HistoryRow>) {
    forall i, j :: 0 <= i < j < |rows| && rows[i].matchId == rows[j].matchId ==> rows[i].playerName != rows[j].playerName
  }

  lemma {:induction false} WinsAreDistinctMatches(rows: seq<HistoryRow>, name: string)
    requires OneSeatPerPlayer(rows)
    ensures Wins(rows, name) == |set r | r in rows && r.playerName == name && r.isWinner :: r.matchId|
  {
    if rows != [] {
      var n := |rows| - 1;
      var init := rows[..n];
      var last := rows[n];
      assert rows == init + [last];
      OneSeatPerPlayerOfPrefix(rows);
      WinsAreDistinctMatches(init, name);
      assert forall j :: 0 <= j < |init| && init[j].matchId == last.matchId ==> init[j].playerName != last.playerName by {
        forall j | 0 <= j < |init| && init[j].matchId == last.matchId
          ensures init[j].playerName != last.playerName
        {
          assert init[j] == rows[j];
        }
      }
      WonMatchesOfOneMore(init, last, name);
    }
  }

  lemma OneSeatPerPlayerOfPrefix(rows: seq<HistoryRow>)
    requires rows != []
    requires OneSeatPerPlayer(rows)
    ensures OneSeatPerPlayer(rows[..|rows| - 1])
  {
    var init := rows[..|rows| - 1];
    forall i, j | 0 <= i < j < |init| && init[i].matchId == init[j].matchId
      ensures init[i].playerName != init[j].playerName
    {
      assert init[i] == rows[i] && init[j] == rows[j];
    }
  }

  /** A new row adds a won match exactly when it is a win for that player, and its match is new to the player. */
  lemma WonMatchesOfOneMore(init: seq<HistoryRow>, last: HistoryRow, name: string)
    requires forall j :: 0 <= j < |init| && init[j].matchId == last.matchId ==> init[j].playerName != last.playerName
    ensures |set r | r in init + [last] && r.playerName == name && r.isWinner :: r.matchId|
            == |set r | r in init && r.playerName == name && r.isWinner :: r.matchId|
               + (if last.playerName == name && last.isWinner then 1 else 0)
  {
    var before := set r | r in init && r.playerName == name && r.isWinner :: r.matchId;
    var after := set r | r in init + [last] && r.playerName == name && r.isWinner :: r.matchId;
    if last.playerName == name && last.isWinner {
      forall r | r in init && r.playerName == name && r.isWinner
        ensures r.matchId != last.matchId
      {
        var j :| 0 <= j < |init| && init[j] == r;
      }
      assert last.matchId !in before;
      assert after == before + {last.matchId};
    } else {
      assert after == before;
    }
  }

  /** With one seat per player per match, a win rate lies between 0 and 100. */
  lemma WinRateIsPercentage(rows: seq<HistoryRow>, name: string)
    requires OneSeatPerPlayer(rows)
    requires Games(rows, name) > 0
    ensures 0.0 <= WinRate(Wins(rows, name), Games(rows, name)) <= 100.0
  {
    var won := set r | r in rows && r.playerName == name && r.isWinner :: r.matchId;
    var played := set r | r in rows && r.playerName == name :: r.matchId;
    WinsAreDistinctMatches(rows, name);
    SubsetCardinality(won, played);
    var w, g := Wins(rows, name), Games(rows, name);
    assert w == |won| <= |played| == g;
    RatioAtMostOne(w, g);
  }

  /** A share of at most the whole is between 0 and 100 per cent. */
  lemma RatioAtMostOne(w: nat, g: nat)
    requires 0 < g
    requires w <= g
    ensures 0.0 <= WinRate(w, g) <= 100.0
  {
    var q := w as real / g as real;
    assert q * g as real == w as real;
    assert q <= 1.0 by {
      if q > 1.0 {
        assert q * g as real > 1.0 * g as real;
      }
    }
    assert 0.0 <= q;
  }

  /**
   * Nothing in the registration form stops one player from filling two seats
   * of a match. Five matches all won, one of them from two winning seats,
   * give a player who qualifies for the ranking with 5 games, 6 wins and a
   * rate of 120.
   */
  /** Five matches won by "Ana"; she holds two winning seats of match 1. */
  function DoubledSeatHistory(): (rows: seq<HistoryRow>)
    ensures |rows| == 6
  {
    seq(6, i requires 0 <= i < 6 => HistoryRow(if i == 0 then 1 else i, "Ana", "Atraxa", "WUBG", 2026, true))
  }

  lemma WinRateCanExceed100()
    ensures && Games(DoubledSeatHistory(), "Ana") == 5 >= MinGames
            && Wins(DoubledSeatHistory(), "Ana") == 6
            && WinRate(6, 5) == 120.0
  {
    var rows := DoubledSeatHistory();
    WinsWhenEveryRowIsWon(rows, "Ana");
    var ids := set r | r in rows && r.playerName == "Ana" :: r.matchId;
    forall m | 1 <= m <= 5
      ensures m in ids
    {
      assert rows[m] in rows;
    }
    forall m | m in ids
      ensures 1 <= m <= 5
    {
      var r :| r in rows && r.playerName == "Ana" && r.matchId == m;
      var i :| 0 <= i < |rows| && rows[i] == r;
    }
    assert ids == {1, 2, 3, 4, 5};
  }

  /** When every row is a win for the player, each row counts as one win. */
  lemma {:induction false} WinsWhenEveryRowIsWon(rows: seq<HistoryRow>, name: string)
    requires forall i :: 0 <= i < |rows| ==> rows[i].playerName == name && rows[i].isWinner
    ensures Wins(rows, name) == |rows|
  {
    if rows != [] {
      WinsWhenEveryRowIsWon(rows[..|rows| - 1], name);
    }
  }

  // ---------------------------------------------------------------------------
  // Colour-identity frequency (app.py:128)
  // ---------------------------------------------------------------------------

  /** The category an empty colour identity is reported under. */
  const Colorless: string := "Incolor"

  /** `replace('', 'Incolor')`: the category a row is counted under. */
  function Category(identity: string): (c: string)
    ensures c != ""
    ensures identity != "" ==> c == identity
    ensures identity == "" ==> c == Colorless
  {
    if identity == "" then Colorless else identity
  }

  function CategoryColumn(rows: seq<HistoryRow>): (cats: seq<string>)
    ensures |cats| == |rows|
    ensures forall i :: 0 <= i < |rows| ==> cats[i] == Category(rows[i].colorIdentity)
  {
    seq(|rows|, i requires 0 <= i < |rows| => Category(rows[i].colorIdentity))
  }

  /** One row of `value_counts()`. */
  datatype ColourCount = ColourCount(identity: string, count: nat)

  /** The count of each key among `cats`, in the order of `keys`. */
  function Tally(keys: seq<string>, cats: seq<string>): (r: seq<ColourCount>)
    ensures |r| == |keys|
    ensures forall i :: 0 <= i < |keys| ==> r[i] == ColourCount(keys[i], Occurrences(cats, keys[i]))
  {
    if keys == [] then []
    else Tally(keys[..|keys| - 1], cats) + [ColourCount(keys[|keys| - 1], Occurrences(cats, keys[|keys| - 1]))]
  }

  /** One count per category present in the rows. */
  function ColourCounts(rows: seq<HistoryRow>): seq<ColourCount> {
    Tally(Distinct(CategoryColumn(rows)), CategoryColumn(rows))
  }

  /** The `value_counts()` order: by count, largest first. */
  predicate CountAtLeast(a: ColourCount, b: ColourCount) {
    a.count >= b.count
  }

  lemma CountAtLeastIsTotalPreorder()
    ensures TotalPreorder(CountAtLeast)
  {
  }

  /** `value_counts()`: every category with its count, largest count first. */
  function ColourTable(rows: seq<HistoryRow>): (r: seq<ColourCount>)
    ensures multiset(r) == multiset(ColourCounts(rows))
    ensures SortedBy(r, CountAtLeast)
  {
    CountAtLeastIsTotalPreorder();
    Sort(ColourCounts(rows), CountAtLeast)
  }

  /** The "Cores Mais Jogadas" chart: the ten most played categories. */
  function ColourFrequency(rows: seq<HistoryRow>): seq<ColourCount> {
    Head(ColourTable(rows), TopCount)
  }

  function SumCounts(s: seq<ColourCount>): nat {
    if s == [] then 0 else SumCounts(s[..|s| - 1]) + s[|s| - 1].count
  }

  lemma {:induction false} SumCountsOfConcat(a: seq<ColourCount>, b: seq<ColourCount>)
    ensures SumCounts(a + b) == SumCounts(a) + SumCounts(b)
  {
    if b == [] {
      assert a + b == a;
    } else {
      var n := |b| - 1;
      assert a + b == (a + b[..n]) + [b[n]];
      SumCountsOfConcat(a, b[..n]);
    }
  }

  /** Reordering the table does not change its total. */
  lemma {:induction false} SumCountsOfPermutation(a: seq<ColourCount>, b: seq<ColourCount>)
    requires multiset(a) == multiset(b)
    ensures SumCounts(a) == SumCounts(b)
  {
    if a != [] {
      var n := |a| - 1;
      var x := a[n];
      assert a == a[..n] + [x];
      assert x in multiset(b);
      var k :| 0 <= k < |b| && b[k] == x;
      assert b == b[..k] + [x] + b[k + 1..];
      var rest := b[..k] + b[k + 1..];
      assert multiset(rest) == multiset(b) - multiset{x};
      SumCountsOfPermutation(a[..n], rest);
      SumCountsOfConcat(b[..k] + [x], b[k + 1..]);
      SumCountsOfConcat(b[..k], b[k + 1..]);
      assert SumCounts(b[..k] + [x]) == SumCounts(b[..k]) + x.count;
    }
  }

  /** Adding one more categorised row raises the tally's total by one if its category is tallied. */
  lemma {:induction false} TallyOfOneMoreRow(keys: seq<string>, cats: seq<string>, k: string)
    requires NoDuplicates(keys)
    ensures SumCounts(Tally(keys, cats + [k])) == SumCounts(Tally(keys, cats)) + (if k in keys then 1 else 0)
  {
    if keys != [] {
      var n := |keys| - 1;
      assert keys == keys[..n] + [keys[n]];
      TallyOfOneMoreRow(keys[..n], cats, k);
      assert (cats + [k])[..|cats|] == cats;
    }
  }

  /** Counting every distinct category accounts for every row once. */
  lemma {:induction false} TallyOfDistinctCoversAll(cats: seq<string>)
    ensures SumCounts(Tally(Distinct(cats), cats)) == |cats|
  {
    if cats != [] {
      var n := |cats| - 1;
      var init := cats[..n];
      var k := cats[n];
      assert cats == init + [k];
      TallyOfDistinctCoversAll(init);
      var d := Distinct(init);
      TallyOfOneMoreRow(d, init, k);
      if k !in d {
        assert Distinct(cats) == d + [k];
        assert (d + [k])[..|d|] == d;
        OccurrencesPositiveIffPresent(init, k);
      }
    }
  }

  /** Before the top-ten cut, the counts add up to the number of rows. */
  lemma ColourTableCoversEveryRow(rows: seq<HistoryRow>)
    ensures SumCounts(ColourTable(rows)) == |rows|
  {
    TallyOfDistinctCoversAll(CategoryColumn(rows));
    SumCountsOfPermutation(ColourCounts(rows), ColourTable(rows));
  }

  lemma ColourCountsHaveNoDuplicates(rows: seq<HistoryRow>)
    ensures NoDuplicates(ColourCounts(rows))
  {
    var keys := Distinct(CategoryColumn(rows));
    var c := ColourCounts(rows);
    forall i, j | 0 <= i < j < |c| ensures c[i] != c[j] {
      assert c[i].identity == keys[i] && c[j].identity == keys[j];
    }
  }

  /**
   * Each shown category is a non-empty identity (an empty one shows as
   * "Incolor") with the number of rows counted under it, no category is
   * shown twice, and counts never increase down the table.
   */
  lemma {:induction false} ColourFrequencyEntries(rows: seq<HistoryRow>)
    ensures |ColourFrequency(rows)| <= TopCount
    ensures forall e :: e in ColourFrequency(rows) ==>
              && e.identity != ""
              && e.count == Occurrences(CategoryColumn(rows), e.identity)
              && e.count >= 1
    ensures forall i, j :: 0 <= i < j < |ColourFrequency(rows)| ==>
              && ColourFrequency(rows)[i].identity != ColourFrequency(rows)[j].identity
              && ColourFrequency(rows)[i].count >= ColourFrequency(rows)[j].count
  {
    var cats := CategoryColumn(rows);
    var keys := Distinct(cats);
    var table := ColourTable(rows);
    var r := ColourFrequency(rows);
    forall e | e in table
      ensures e.identity != "" && e.count == Occurrences(cats, e.identity) && e.count >= 1
    {
      assert e in multiset(ColourCounts(rows));
      var i :| 0 <= i < |keys| && ColourCounts(rows)[i] == e;
      var p :| 0 <= p < |cats| && cats[p] == keys[i];
      OccurrencesPositiveIffPresent(cats, e.identity);
    }
    ColourCountsHaveNoDuplicates(rows);
    PermutationKeepsNoDuplicates(ColourCounts(rows), table);
    forall i, j | 0 <= i < j < |r|
      ensures r[i].identity != r[j].identity && r[i].count >= r[j].count
    {
      assert r[i] == table[i] && r[j] == table[j];
      assert r[i] in table && r[j] in table;
    }
  }

  /** Every category present in the rows is in the full table, with its count. */
  lemma {:induction false} CategoryIsCounted(rows: seq<HistoryRow>, c: string)
    requires c in CategoryColumn(rows)
    ensures ColourCount(c, Occurrences(CategoryColumn(rows), c)) in ColourTable(rows)
  {
    var keys := Distinct(CategoryColumn(rows));
    var k :| 0 <= k < |keys| && keys[k] == c;
    assert ColourCounts(rows)[k] in multiset(ColourCounts(rows));
  }

  /** A category present in the rows is shown, unless ten categories with at least its count are. */
  lemma {:induction false} ColourFrequencyIsTop(rows: seq<HistoryRow>, c: string)
    requires c in CategoryColumn(rows)
    ensures (exists i :: 0 <= i < |ColourFrequency(rows)| && ColourFrequency(rows)[i].identity == c)
            || (|ColourFrequency(rows)| == TopCount
                && forall i :: 0 <= i < TopCount ==>
                     ColourFrequency(rows)[i].count >= Occurrences(CategoryColumn(rows), c))
  {
    var table := ColourTable(rows);
    var r := ColourFrequency(rows);
    var x := ColourCount(c, Occurrences(CategoryColumn(rows), c));
    CategoryIsCounted(rows, c);
    if x in r {
      var i :| 0 <= i < |r| && r[i] == x;
    } else {
      HeadKeepsTop(table, CountAtLeast, TopCount, x);
      assert r == table[..TopCount];
      assert forall i :: 0 <= i < TopCount ==> CountAtLeast(table[i], table[TopCount - 1]);
    }
  }

  // ---------------------------------------------------------------------------
  // The dashboard tab (app.py:77-128)
  // ---------------------------------------------------------------------------

  datatype Dashboard = Dashboard(
    totalMatches: nat,
    activePlayers: nat,
    decksUsed: nat,
    ranking: seq<RankEntry>,
    colours: seq<ColourCount>)

  /**
   * The dashboard for the selected period; an empty history shows a warning
   * instead (app.py:77-78), which is `None` here.
   */
  function DashboardFor(history: seq<HistoryRow>, period: Period): (r: Option<Dashboard>)
    ensures r.None? <==> history == []
    ensures r.Some? ==>
              var rows := FilterByPeriod(history, period);
              && r.value.totalMatches == TotalMatches(rows)
              && r.value.activePlayers == ActivePlayers(rows)
              && r.value.decksUsed == DecksUsed(rows)
              && r.value.ranking == Ranking(rows)
              && r.value.colours == ColourFrequency(rows)
              && r.value.totalMatches <= |rows|
              && r.value.activePlayers <= |rows|
              && r.value.decksUsed <= |rows|
    ensures r.Some? ==>
              && r.value.totalMatches <= |history|
              && r.value.activePlayers <= |history|
              && r.value.decksUsed <= |history|
              && |r.value.ranking| <= TopCount
              && |r.value.colours| <= TopCount
    ensures r.Some? && period.AllYears? ==>
              r.value.totalMatches >= 1 && r.value.activePlayers >= 1 && r.value.decksUsed >= 1
  {
    if history == [] then None
    else
      var rows := FilterByPeriod(history, period);
      HeadlineCountsBounded(rows);
      FilterNarrowsHeadlineCounts(history, period);
      HeadlineCountsBounded(history);
      RankingEntriesAreExact(rows);
      ColourFrequencyEntries(rows);
      Some(Dashboard(TotalMatches(rows), ActivePlayers(rows), DecksUsed(rows), Ranking(rows), ColourFrequency(rows)))
  }
}
