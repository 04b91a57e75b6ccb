/**
 * Recording a match from the registration form (app.py:186-252): keep the
 * filled seats, refuse fewer than two, insert the match, resolve each seat's
 * player and deck names to ids by first match, insert one participant row per
 * seat, then clear the read cache. The two inserts are separate store calls,
 * so a seat that cannot be resolved leaves the match row behind with no
 * participants.
 */
module Registration {
  import opened Wrappers
  import opened Seqs
  import opened Decks

  /** One seat of the form: a player, a deck display name, the crown box and the elimination turn. */
  datatype Seat = Seat(playerName: string, deckDisplay: string, isWinner: bool, turn: nat)

  /** The form has four seats; at least two must be filled. */
  const TableSeats: nat := 4
  const MinPlayers: nat := 2

  datatype MatchRow = MatchRow(matchId: int, date: string, notes: string)

  datatype ParticipantRow = ParticipantRow(
    matchId: int,
    playerId: int,
    deckId: int,
    isWinner: bool,
    turnEliminated: nat,
    rank: int)

  datatype RecordError =
    | TooFewPlayers
    | UnknownPlayer(name: string)
    | UnknownDeck(displayName: string)

  // ---------------------------------------------------------------------------
  // Seat validation (app.py:209-212)
  // ---------------------------------------------------------------------------

  predicate IsFilled(s: Seat) {
    s.playerName != "" && s.deckDisplay != ""
  }

  /** The seats with both a player and a deck chosen, in seat order. */
  function FilledSeats(seats: seq<Seat>): (r: seq<Seat>)
    ensures |r| <= |seats|
    ensures forall x :: multiset(r)[x] == if IsFilled(x) then multiset(seats)[x] else 0
  {
    if seats == [] then []
    else
      var n := |seats| - 1;
      var kept := FilledSeats(seats[..n]);
      assert seats == seats[..n] + [seats[n]];
      if IsFilled(seats[n]) then kept + [seats[n]] else kept
  }

  /** Filtering works seat by seat and keeps their order. */
  lemma {:induction false} FilledSeatsOfConcat(a: seq<Seat>, b: seq<Seat>)
    ensures FilledSeats(a + b) == FilledSeats(a) + FilledSeats(b)
  {
    if b == [] {
      assert a + b == a;
    } else {
      var n := |b| - 1;
      assert a + b == (a + b[..n]) + [b[n]];
      assert (a + b)[..|a + b| - 1] == a + b[..n];
      FilledSeatsOfConcat(a, b[..n]);
    }
  }

  lemma FilledSeatsOfOne(s: Seat)
    ensures FilledSeats([s]) == if IsFilled(s) then [s] else []
  {
    assert [s][..0] == [];
  }

  function IfFilled(s: Seat): seq<Seat> {
    if IsFilled(s) then [s] else []
  }

  /** The form's four seats: each is kept or dropped on its own, in seat order. */
  lemma FilledSeatsOfTable(a: Seat, b: Seat, c: Seat, d: Seat)
    ensures FilledSeats([a, b, c, d]) == IfFilled(a) + IfFilled(b) + IfFilled(c) + IfFilled(d)
  {
    FilledSeatsOfOne(a);
    FilledSeatsOfOne(b);
    FilledSeatsOfOne(c);
    FilledSeatsOfOne(d);
    assert [a] + [b] == [a, b];
    FilledSeatsOfConcat([a], [b]);
    assert [a, b] + [c] == [a, b, c];
    FilledSeatsOfConcat([a, b], [c]);
    assert [a, b, c] + [d] == [a, b, c, d];
    FilledSeatsOfConcat([a, b, c], [d]);
  }

  // ---------------------------------------------------------------------------
  // Name resolution and participant rows (app.py:227-242)
  // ---------------------------------------------------------------------------

  /** `df_players[df_players['name'] == name]['player_id'].values[0]`. */
  function PlayerIdFor(players: seq<Player>, name: string): (r: Option<int>)
    ensures r.None? <==> forall i :: 0 <= i < |players| ==> players[i].name != name
    ensures r.Some? ==> exists i :: 0 <= i < |players| && players[i].name == name && players[i].id == r.value
                          && forall j :: 0 <= j < i ==> players[j].name != name
  {
    match FirstIndex(players, (p: Player) => p.name == name)
    case None => None
    case Some(i) => Some(players[i].id)
  }

  /** `df_decks[df_decks['display_name'] == display]['deck_id'].values[0]`, over the sorted list. */
  function DeckIdFor(decks: seq<ListedDeck>, display: string): (r: Option<int>)
    ensures r.None? <==> forall i :: 0 <= i < |decks| ==> decks[i].displayName != display
    ensures r.Some? ==> exists i :: 0 <= i < |decks| && decks[i].displayName == display && decks[i].deck.id == r.value
                          && forall j :: 0 <= j < i ==> decks[j].displayName != display
  {
    match FirstIndex(decks, (d: ListedDeck) => d.displayName == display)
    case None => None
    case Some(i) => Some(decks[i].deck.id)
  }

  /**
   * Two listed decks can share a display name (one owner holding two decks of
   * the same name, or two players of the same name). The name then always
   * resolves to the deck listed first, never to a later one: which of the two
   * that is depends on the order of the listing, which its sort leaves open.
   */
  lemma {:induction false} SharedDisplayNameResolvesToEarlier(decks: seq<ListedDeck>, i: nat, j: nat)
    requires i < j < |decks|
    requires decks[i].displayName == decks[j].displayName
    ensures exists k :: 0 <= k <= i && DeckIdFor(decks, decks[j].displayName) == Some(decks[k].deck.id)
  {
    var r := DeckIdFor(decks, decks[j].displayName);
    var k :| 0 <= k < |decks| && decks[k].displayName == decks[j].displayName && decks[k].deck.id == r.value
             && forall m :: 0 <= m < k ==> decks[m].displayName != decks[j].displayName;
    assert k <= i;
  }

  /** The participant row for one seat; the player is looked up before the deck. */
  function ResolveSeat(seat: Seat, matchId: int, players: seq<Player>, decks: seq<ListedDeck>)
    : Result<ParticipantRow, RecordError>
  {
    match PlayerIdFor(players, seat.playerName)
    case None => Failure(UnknownPlayer(seat.playerName))
    case Some(pid) =>
      match DeckIdFor(decks, seat.deckDisplay)
      case None => Failure(UnknownDeck(seat.deckDisplay))
      case Some(did) => Success(ParticipantRow(matchId, pid, did, seat.isWinner, seat.turn, if seat.isWinner then 1 else 0))
  }

  /**
   * A seat resolves exactly when both its names are found; its row then
   * carries the match id, the first matching player and deck, the seat's
   * result and turn, and rank 1 for the winner and 0 for everyone else.
   */
  lemma ResolveSeatRow(seat: Seat, matchId: int, players: seq<Player>, decks: seq<ListedDeck>)
    ensures var r := ResolveSeat(seat, matchId, players, decks);
      && (r.Success? <==> PlayerIdFor(players, seat.playerName).Some? && DeckIdFor(decks, seat.deckDisplay).Some?)
      && (PlayerIdFor(players, seat.playerName).None? ==> r == Failure(UnknownPlayer(seat.playerName)))
      && ((PlayerIdFor(players, seat.playerName).Some? && DeckIdFor(decks, seat.deckDisplay).None?)
            ==> r == Failure(UnknownDeck(seat.deckDisplay)))
      && (r.Success? ==>
            && r.value.matchId == matchId
            && r.value.playerId == PlayerIdFor(players, seat.playerName).value
            && r.value.deckId == DeckIdFor(decks, seat.deckDisplay).value
            && r.value.isWinner == seat.isWinner
            && r.value.turnEliminated == seat.turn
            && r.value.rank == (if seat.isWinner then 1 else 0))
  {
  }

  /** The rows of all seats, in seat order, or the failure of the first seat that does not resolve. */
  function ResolveAll(seats: seq<Seat>, matchId: int, players: seq<Player>, decks: seq<ListedDeck>)
    : Result<seq<ParticipantRow>, RecordError>
  {
    if seats == [] then Success([])
    else
      var n := |seats| - 1;
      match ResolveAll(seats[..n], matchId, players, decks)
      case Failure(e) => Failure(e)
      case Success(rows) =>
        match ResolveSeat(seats[n], matchId, players, decks)
        case Failure(e) => Failure(e)
        case Success(row) => Success(rows + [row])
  }

  /** On success there is exactly one row per seat, the seat's own, in seat order. */
  lemma {:induction false} ResolveAllSuccess(seats: seq<Seat>, matchId: int, players: seq<Player>, decks: seq<ListedDeck>)
    requires ResolveAll(seats, matchId, players, decks).Success?
    ensures |ResolveAll(seats, matchId, players, decks).value| == |seats|
    ensures forall i :: 0 <= i < |seats| ==>
              ResolveSeat(seats[i], matchId, players, decks) == Success(ResolveAll(seats, matchId, players, decks).value[i])
  {
    if seats != [] {
      var n := |seats| - 1;
      var init := seats[..n];
      var prefix := ResolveAll(init, matchId, players, decks);
      var lastSeat := ResolveSeat(seats[n], matchId, players, decks);
      assert prefix.Success? && lastSeat.Success?;
      var rows, row := prefix.value, lastSeat.value;
      ResolveAllSuccess(init, matchId, players, decks);
      var all := rows + [row];
      assert ResolveAll(seats, matchId, players, decks).value == all;
      forall i | 0 <= i < |seats|
        ensures ResolveSeat(seats[i], matchId, players, decks) == Success(all[i])
      {
        if i < n {
          assert init[i] == seats[i] && all[i] == rows[i];
        } else {
          assert all[i] == row;
        }
      }
    }
  }

  /** On failure the error is that of the first seat that does not resolve. */
  lemma {:induction false} ResolveAllFailure(seats: seq<Seat>, matchId: int, players: seq<Player>, decks: seq<ListedDeck>)
    requires ResolveAll(seats, matchId, players, decks).Failure?
    ensures exists k :: 0 <= k < |seats|
              && ResolveSeat(seats[k], matchId, players, decks) == Failure(ResolveAll(seats, matchId, players, decks).error)
              && forall j :: 0 <= j < k ==> ResolveSeat(seats[j], matchId, players, decks).Success?
  {
    var n := |seats| - 1;
    var init := seats[..n];
    assert forall i :: 0 <= i < n ==> init[i] == seats[i];
    if ResolveAll(init, matchId, players, decks).Failure? {
      ResolveAllFailure(init, matchId, players, decks);
      var k :| 0 <= k < n
        && ResolveSeat(init[k], matchId, players, decks) == Failure(ResolveAll(init, matchId, players, decks).error)
        && forall j :: 0 <= j < k ==> ResolveSeat(init[j], matchId, players, decks).Success?;
      assert ResolveSeat(seats[k], matchId, players, decks) == Failure(ResolveAll(seats, matchId, players, decks).error);
    } else {
      ResolveAllSuccess(init, matchId, players, decks);
      assert forall j :: 0 <= j < n ==> ResolveSeat(seats[j], matchId, players, decks).Success?;
    }
  }

  /**
   * The participant rows of a successful recording: one per seat in seat
   * order, each with the new match id, the first player and deck matching the
   * seat's names, the seat's crown and turn, and rank 1 exactly for winners.
   */
  lemma {:induction false} ParticipantRows(seats: seq<Seat>, matchId: int, players: seq<Player>, decks: seq<ListedDeck>)
    requires ResolveAll(seats, matchId, players, decks).Success?
    ensures var rows := ResolveAll(seats, matchId, players, decks).value;
      && |rows| == |seats|
      && forall i :: 0 <= i < |seats| ==>
           && rows[i].matchId == matchId
           && Some(rows[i].playerId) == PlayerIdFor(players, seats[i].playerName)
           && Some(rows[i].deckId) == DeckIdFor(decks, seats[i].deckDisplay)
           && rows[i].isWinner == seats[i].isWinner
           && rows[i].turnEliminated == seats[i].turn
           && rows[i].rank == (if seats[i].isWinner then 1 else 0)
  {
    var rows := ResolveAll(seats, matchId, players, decks).value;
    ResolveAllSuccess(seats, matchId, players, decks);
    forall i | 0 <= i < |seats|
      ensures rows[i].matchId == matchId
      ensures Some(rows[i].playerId) == PlayerIdFor(players, seats[i].playerName)
      ensures Some(rows[i].deckId) == DeckIdFor(decks, seats[i].deckDisplay)
      ensures rows[i].isWinner == seats[i].isWinner && rows[i].turnEliminated == seats[i].turn
      ensures rows[i].rank == (if seats[i].isWinner then 1 else 0)
    {
      ResolveSeatRow(seats[i], matchId, players, decks);
    }
  }

  /** Every row resolved for a match carries that match's id. */
  lemma {:induction false} ResolvedRowsCarryMatchId(seats: seq<Seat>, matchId: int, players: seq<Player>, decks: seq<ListedDeck>)
    requires ResolveAll(seats, matchId, players, decks).Success?
    ensures forall k :: 0 <= k < |ResolveAll(seats, matchId, players, decks).value| ==>
              ResolveAll(seats, matchId, players, decks).value[k].matchId == matchId
  {
    if seats != [] {
      ResolvedRowsCarryMatchId(seats[..|seats| - 1], matchId, players, decks);
    }
  }

  /** Once a prefix of the seats fails, the whole resolution fails the same way. */
  lemma {:induction false} ResolveAllFailureSticks(seats: seq<Seat>, k: nat, matchId: int, players: seq<Player>, decks: seq<ListedDeck>)
    requires k <= |seats|
    requires ResolveAll(seats[..k], matchId, players, decks).Failure?
    ensures ResolveAll(seats, matchId, players, decks) == ResolveAll(seats[..k], matchId, players, decks)
  {
    if k < |seats| {
      var n := |seats| - 1;
      assert seats[..n][..k] == seats[..k];
      ResolveAllFailureSticks(seats[..n], k, matchId, players, decks);
    } else {
      assert seats[..k] == seats;
    }
  }

  /** The loop of app.py:230-242: resolve seat after seat, stopping at the first failure. */
  method BuildParticipants(seats: seq<Seat>, matchId: int, players: seq<Player>, decks: seq<ListedDeck>)
    returns (r: Result<seq<ParticipantRow>, RecordError>)
    ensures r == ResolveAll(seats, matchId, players, decks)
  {
    var rows: seq<ParticipantRow> := [];
    var i := 0;
    while i < |seats|
      invariant 0 <= i <= |seats|
      invariant ResolveAll(seats[..i], matchId, players, decks) == Success(rows)
    {
      assert seats[..i + 1][..i] == seats[..i];
      var pid := PlayerIdFor(players, seats[i].playerName);
      if pid.None? {
        ResolveAllFailureSticks(seats, i + 1, matchId, players, decks);
        return Failure(UnknownPlayer(seats[i].playerName));
      }
      var did := DeckIdFor(decks, seats[i].deckDisplay);
      if did.None? {
        ResolveAllFailureSticks(seats, i + 1, matchId, players, decks);
        return Failure(UnknownDeck(seats[i].deckDisplay));
      }
      var rank := if seats[i].isWinner then 1 else 0;
      rows := rows + [ParticipantRow(matchId, pid.value, did.value, seats[i].isWinner, seats[i].turn, rank)];
      i := i + 1;
    }
    assert seats[..i] == seats;
    r := Success(rows);
  }

  // ---------------------------------------------------------------------------
  // The store and the recording procedure (app.py:207-252)
  // ---------------------------------------------------------------------------

  /**
   * The two tables the procedure writes, the id the next inserted match gets
   * (the database's auto-increment) and whether the read cache was cleared.
   */
  class Store {
    var matches: seq<MatchRow>
    var participants: seq<ParticipantRow>
    var nextMatchId: int
    var cacheCleared: bool

    /**
     * The database numbers matches 1, 2, 3, ... in insertion order, so the
     * stored ids are exactly those below the next one; every participant row
     * names a stored match.
     */
    ghost predicate Valid()
      reads this
    {
      && nextMatchId == |matches| + 1
      && (forall i :: 0 <= i < |matches| ==> matches[i].matchId == i + 1)
      && (forall k :: 0 <= k < |participants| ==> Stored(participants[k].matchId))
    }

    predicate Stored(id: int)
      reads this
    {
      1 <= id < nextMatchId
    }

    constructor ()
      ensures Valid()
      ensures matches == [] && participants == [] && !cacheCleared
    {
      matches := [];
      participants := [];
      nextMatchId := 1;
      cacheCleared := false;
    }

    /** `insert` into matches: the new row gets an id no stored match has. */
    method InsertMatch(date: string, notes: string) returns (id: int)
      requires Valid()
      modifies this
      ensures Valid()
      ensures id == old(nextMatchId)
      ensures forall i :: 0 <= i < |old(matches)| ==> old(matches)[i].matchId != id
      ensures matches == old(matches) + [MatchRow(id, date, notes)]
      ensures participants == old(participants) && cacheCleared == old(cacheCleared)
    {
      id := nextMatchId;
      matches := matches + [MatchRow(id, date, notes)];
      nextMatchId := nextMatchId + 1;
    }

    /** The batch `insert` into match_participants. */
    method InsertParticipants(rows: seq<ParticipantRow>)
      requires Valid()
      requires forall k :: 0 <= k < |rows| ==> Stored(rows[k].matchId)
      modifies this`participants
      ensures Valid()
      ensures participants == old(participants) + rows
    {
      participants := participants + rows;
    }

    /** `st.cache_data.clear()`. */
    method ClearCache()
      requires Valid()
      modifies this`cacheCleared
      ensures Valid()
      ensures cacheCleared
    {
      cacheCleared := true;
    }

    /**
     * The submit handler. Too few filled seats is refused before anything is
     * written; otherwise the match row is inserted first, and only when every
     * seat resolves are the participant rows inserted and the cache cleared.
     */
    method RecordMatch(date: string, notes: string, seats: seq<Seat>, players: seq<Player>, decks: seq<ListedDeck>)
      returns (r: Result<int, RecordError>)
      requires Valid()
      modifies this
      ensures Valid()
      ensures |FilledSeats(seats)| < MinPlayers ==>
                && r == Failure(TooFewPlayers)
                && matches == old(matches) && participants == old(participants)
                && cacheCleared == old(cacheCleared)
      ensures |FilledSeats(seats)| >= MinPlayers ==>
                && matches == old(matches) + [MatchRow(old(nextMatchId), date, notes)]
                && forall i :: 0 <= i < |old(matches)| ==> old(matches)[i].matchId != old(nextMatchId)
      ensures r.Success? <==>
                |FilledSeats(seats)| >= MinPlayers
                && ResolveAll(FilledSeats(seats), old(nextMatchId), players, decks).Success?
      ensures r.Success? ==>
                && r.value == old(nextMatchId)
                && participants == old(participants) + ResolveAll(FilledSeats(seats), r.value, players, decks).value
                && cacheCleared
      ensures r.Failure? && |FilledSeats(seats)| >= MinPlayers ==>
                && r == Failure(ResolveAll(FilledSeats(seats), old(nextMatchId), players, decks).error)
                && participants == old(participants)
                && cacheCleared == old(cacheCleared)
                && forall k :: 0 <= k < |participants| ==> participants[k].matchId != old(nextMatchId)
    {
      var filled := FilledSeats(seats);
      if |filled| < MinPlayers {
        return Failure(TooFewPlayers);
      }
      var id := InsertMatch(date, notes);
      var built := BuildParticipants(filled, id, players, decks);
      match built
      case Failure(e) =>
        r := Failure(e);
      case Success(rows) =>
        ResolvedRowsCarryMatchId(filled, id, players, decks);
        InsertParticipants(rows);
        ClearCache();
        r := Success(id);
    }
  }
}
