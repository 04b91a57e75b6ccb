/**
 * Players, decks and the deck list offered by the registration form
 * (app.py:59-64): each deck is shown as "deck name (owner name)", the owner
 * being looked up by player id, and the list is sorted by that display name.
 */
module Decks {
  import opened Wrappers
  import opened Sorting

  datatype Player = Player(id: int, name: string)

  datatype Deck = Deck(id: int, name: string, ownerId: int, colorIdentity: string)

  /** A deck together with the owner name and display name computed for the form. */
  datatype ListedDeck = ListedDeck(deck: Deck, ownerName: string, displayName: string)

  /** What `astype(str)` makes of an owner id that is not in the player map (a NaN). */
  const MissingOwner: string := "nan"

  /**
   * `dict(zip(player ids, player names))`: every id of the list is a key, and
   * when an id repeats, the later player's name wins.
   */
  function PlayerNames(players: seq<Player>): map<int, string> {
    if players == [] then map[]
    else
      var last := players[|players| - 1];
      PlayerNames(players[..|players| - 1])[last.id := last.name]
  }

  /** The name recorded for `id` is that of the last player carrying it. */
  predicate LastWithId(players: seq<Player>, i: int, id: int) {
    0 <= i < |players| && players[i].id == id && forall j :: i < j < |players| ==> players[j].id != id
  }

  lemma {:induction false} PlayerNamesIsLastWins(players: seq<Player>, id: int)
    ensures id in PlayerNames(players) <==> exists i :: 0 <= i < |players| && players[i].id == id
    ensures forall i :: LastWithId(players, i, id) ==> id in PlayerNames(players) && PlayerNames(players)[id] == players[i].name
  {
    if players != [] {
      var n := |players| - 1;
      var init := players[..n];
      PlayerNamesIsLastWins(init, id);
      assert forall i :: 0 <= i < n ==> init[i] == players[i];
      if players[n].id != id {
        forall i | LastWithId(players, i, id)
          ensures LastWithId(init, i, id)
        {
        }
      }
    }
  }

  /** The owner name the deck list shows for an owner id. */
  function OwnerName(players: seq<Player>, ownerId: int): (name: string)
    ensures (exists i :: 0 <= i < |players| && players[i].id == ownerId) || name == MissingOwner
    ensures forall i :: LastWithId(players, i, ownerId) ==> name == players[i].name
  {
    PlayerNamesIsLastWins(players, ownerId);
    var m := PlayerNames(players);
    if ownerId in m then m[ownerId] else MissingOwner
  }

  /** "deck name (owner name)". */
  function DisplayName(deckName: string, ownerName: string): string {
    deckName + " (" + ownerName + ")"
  }

  /** Decks of one owner are told apart by their display names exactly when their names differ. */
  lemma {:induction false} DisplayNameSeparatesDecksOfOneOwner(d1: string, d2: string, owner: string)
    ensures DisplayName(d1, owner) == DisplayName(d2, owner) <==> d1 == d2
  {
    var tail := " (" + owner + ")";
    assert DisplayName(d1, owner) == d1 + tail;
    assert DisplayName(d2, owner) == d2 + tail;
    if d1 + tail == d2 + tail {
      assert |d1| == |d2|;
      assert forall i :: 0 <= i < |d1| ==> d1[i] == (d1 + tail)[i] == (d2 + tail)[i] == d2[i];
    }
  }

  /**
   * Display names are not unique in general: two different (deck name, owner
   * name) pairs can produce the same text, and then the form cannot tell them apart.
   */
  lemma DisplayNameCanBeAmbiguous()
    ensures DisplayName("A (B)", "C") == DisplayName("A", "B) (C")
  {
    assert DisplayName("A (B)", "C") == "A (B) (C)";
    assert DisplayName("A", "B) (C") == "A (B) (C)";
  }

  /** A deck with its owner and display name filled in (app.py:62-63). */
  function Annotated(players: seq<Player>, d: Deck): (e: ListedDeck)
    ensures e.deck == d
    ensures e.displayName == d.name + " (" + e.ownerName + ")"
    ensures e.ownerName == OwnerName(players, d.ownerId)
  {
    var owner := OwnerName(players, d.ownerId);
    ListedDeck(d, owner, DisplayName(d.name, owner))
  }

  function AnnotateAll(players: seq<Player>, decks: seq<Deck>): (r: seq<ListedDeck>)
    ensures |r| == |decks|
    ensures forall i :: 0 <= i < |decks| ==> r[i] == Annotated(players, decks[i])
  {
    seq(|decks|, i requires 0 <= i < |decks| => Annotated(players, decks[i]))
  }

  /** Code-point lexicographic order on strings, as Python compares `str` values. */
  predicate StrLe(a: string, b: string) {
    |a| == 0 || (|b| > 0 && (a[0] < b[0] || (a[0] == b[0] && StrLe(a[1..], b[1..]))))
  }

  lemma {:induction false} StrLeTotal(a: string, b: string)
    ensures StrLe(a, b) || StrLe(b, a)
  {
    if |a| > 0 && |b| > 0 && a[0] == b[0] {
      StrLeTotal(a[1..], b[1..]);
    }
  }

  lemma {:induction false} StrLeTransitive(a: string, b: string, c: string)
    requires StrLe(a, b) && StrLe(b, c)
    ensures StrLe(a, c)
  {
    if |a| > 0 && a[0] == b[0] && b[0] == c[0] {
      StrLeTransitive(a[1..], b[1..], c[1..]);
    }
  }

  predicate DisplayLe(a: ListedDeck, b: ListedDeck) {
    StrLe(a.displayName, b.displayName)
  }

  lemma DisplayLeIsTotalPreorder()
    ensures TotalPreorder(DisplayLe)
  {
    forall a: ListedDeck, b: ListedDeck
      ensures DisplayLe(a, b) || DisplayLe(b, a)
    {
      StrLeTotal(a.displayName, b.displayName);
    }
    forall a: ListedDeck, b: ListedDeck, c: ListedDeck | DisplayLe(a, b) && DisplayLe(b, c)
      ensures DisplayLe(a, c)
    {
      StrLeTransitive(a.displayName, b.displayName, c.displayName);
    }
  }

  /**
   * The deck list of the registration form. It is only built when both the
   * deck and the player tables are non-empty (app.py:59); otherwise the decks
   * get no display names and there is no list.
   */
  function DeckListing(players: seq<Player>, decks: seq<Deck>): (r: Option<seq<ListedDeck>>)
    ensures r.None? <==> |decks| == 0 || |players| == 0
    ensures r.Some? ==> |r.value| == |decks|
    ensures r.Some? ==> multiset(r.value) == multiset(AnnotateAll(players, decks))
    ensures r.Some? ==> SortedBy(r.value, DisplayLe)
  {
    if |decks| == 0 || |players| == 0 then None
    else
      DisplayLeIsTotalPreorder();
      Some(Sort(AnnotateAll(players, decks), DisplayLe))
  }

  /** Every listed entry is one of the input decks, shown with its owner's name. */
  lemma {:induction false} ListingEntries(players: seq<Player>, decks: seq<Deck>, e: ListedDeck)
    requires DeckListing(players, decks).Some?
    requires e in DeckListing(players, decks).value
    ensures e.deck in decks
    ensures e.ownerName == OwnerName(players, e.deck.ownerId)
    ensures e.displayName == e.deck.name + " (" + e.ownerName + ")"
  {
    var all := AnnotateAll(players, decks);
    assert e in multiset(all);
    var i :| 0 <= i < |all| && all[i] == e;
    assert decks[i] == e.deck;
  }

  /** Every input deck is listed, once per occurrence. */
  lemma {:induction false} ListingKeepsEveryDeck(players: seq<Player>, decks: seq<Deck>, i: nat)
    requires |players| > 0
    requires i < |decks|
    ensures Annotated(players, decks[i]) in DeckListing(players, decks).value
  {
    var all := AnnotateAll(players, decks);
    assert all[i] == Annotated(players, decks[i]);
    assert all[i] in multiset(all);
  }
}
