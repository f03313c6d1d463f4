/** One room of the game: the GameRoom object and its commands, each proved to do what the matching step of
    Engine says and to keep the room consistent. */
module Room {
  import opened Wrappers
  import opened Cards
  import opened Piles
  import opened Markers
  import opened Players
  import opened Engine

  /** The cards 2..99 pushed in increasing order. */
  method OrderedDeck() returns (cards: seq<int>)
    ensures |cards| == DECK_SIZE && forall k :: 0 <= k < |cards| ==> cards[k] == LOWEST_CARD + k
    ensures multiset(cards) == FullDeck()
  {
    cards := [];
    var i := LOWEST_CARD;
    while i <= HIGHEST_CARD
      invariant LOWEST_CARD <= i <= HIGHEST_CARD + 1
      invariant cards == Range(LOWEST_CARD, i)
    {
      cards := cards + [i];
      i := i + 1;
    }
    RangeIsCards(i);
  }

  /** The inner loop of dealCards: up to n cards popped one by one off the deck's end, fewer once it is empty. */
  method DealHand(deck: seq<int>, n: nat) returns (hand: seq<int>, left: seq<int>)
    ensures var m := Min(n, |deck|); hand == Popped(deck, m) && left == deck[..|deck| - m]
  {
    hand, left := [], deck;
    var i := 0;
    while i < n
      invariant 0 <= i <= n
      invariant left == deck[..|deck| - Min(i, |deck|)] && hand == Popped(deck, Min(i, |deck|))
    {
      if |left| > 0 {
        hand := hand + [left[|left| - 1]];
        left := left[..|left| - 1];
      }
      i := i + 1;
    }
  }

  /** The draw loop of endTurn: up to count cards popped off the deck's end onto the hand, fewer once the
      deck is empty. */
  method DrawOnto(hand: seq<int>, deck: seq<int>, count: nat) returns (held: seq<int>, left: seq<int>)
    ensures var m := Min(count, |deck|); held == hand + Popped(deck, m) && left == deck[..|deck| - m]
  {
    held, left := hand, deck;
    var i := 0;
    while i < count && |left| > 0
      invariant 0 <= i <= count && i <= |deck|
      invariant left == deck[..|deck| - i] && held == hand + Popped(deck, i)
    {
      assert Popped(deck, i + 1) == Popped(deck, i) + [left[|left| - 1]];
      held := held + [left[|left| - 1]];
      left := left[..|left| - 1];
      i := i + 1;
    }
  }

  /** The outer loop of dealCards: each seat in order gets a fresh hand, sorted. */
  method DealHands(ps: seq<Player>, deck: seq<int>, n: nat) returns (dealt: seq<Player>, left: seq<int>)
    ensures (dealt, left) == Dealt(ps, deck, n)
  {
    ghost var target := Dealt(ps, deck, n);
    dealt, left := [], deck;
    var todo := ps;
    while todo != []
      invariant dealt + Dealt(todo, left, n).0 == target.0 && Dealt(todo, left, n).1 == target.1
      decreases |todo|
    {
      ghost var before := left;
      var hand;
      hand, left := DealHand(left, n);
      var seat := todo[0].(hand := SortAsc(hand));
      ghost var rest := Dealt(todo[1..], left, n);
      assert Dealt(todo, before, n) == ([seat] + rest.0, rest.1);
      assert (dealt + [seat]) + rest.0 == dealt + ([seat] + rest.0);
      dealt := dealt + [seat];
      todo := todo[1..];
    }
    assert dealt + [] == dealt;
  }

  /** The scan inside getGameStateForPlayer: every card of the hand, once for each pile (in display
      order) on which it would be a backwards jump. */
  method ScanGoodMoves(piles: map<PileId, seq<int>>, hand: seq<int>) returns (cards: seq<int>)
    requires WellFormed(piles)
    ensures cards == RawGoodMoves(piles, hand)
  {
    cards := [];
    var i := 0;
    while i < |hand|
      invariant 0 <= i <= |hand|
      invariant cards == RawGoodMoves(piles, hand[..i])
    {
      var card := hand[i];
      var j := 0;
      while j < |PILE_ORDER|
        invariant 0 <= j <= |PILE_ORDER|
        invariant cards == RawGoodMoves(piles, hand[..i]) + HitsOn(piles, card, PILE_ORDER[..j])
      {
        var pileType := PILE_ORDER[j];
        var topCard := Top(piles, pileType);
        if JumpsBack(pileType, topCard, card) {
          cards := cards + [card];
        }
        assert PILE_ORDER[..j + 1][..j] == PILE_ORDER[..j];
        j := j + 1;
      }
      assert PILE_ORDER[..j] == PILE_ORDER;
      assert hand[..i + 1][..i] == hand[..i];
      i := i + 1;
    }
    assert hand[..i] == hand;
  }

  class GameRoom {
    const roomId: string
    var players: seq<Player>
    var started: bool
    var ended: bool
    var won: bool
    var deck: seq<int>
    var piles: map<PileId, seq<int>>
    var cardsRemaining: int
    var currentPlayerIndex: nat
    var cardsPlayedThisTurn: nat
    var warnings: map<PileId, seq<Marker>>
    var intentions: map<PileId, seq<Marker>>
    /** The hands that left the game (a departing player's, or a hand replaced by a new deal). */
    ghost var discarded: multiset<int>

    /** The room's fields as one value. */
    ghost function Snapshot(): State
      reads this
    {
      State(players, started, ended, won, deck, piles, cardsRemaining, currentPlayerIndex, cardsPlayedThisTurn,
            warnings, intentions, discarded)
    }

    ghost predicate Valid()
      reads this
    {
      Consistent(Snapshot())
    }

    /** A room with no one seated, the four piles at their sentinels, no markers, and the 98 cards shuffled. */
    constructor(roomId: string)
      ensures Valid() && this.roomId == roomId
      ensures Snapshot() == Initial(deck) && multiset(deck) == FullDeck() && |deck| == DECK_SIZE
    {
      this.roomId := roomId;
      players := [];
      started, ended, won := false, false, false;
      deck := [];
      piles := InitialPiles();
      cardsRemaining := 0;
      currentPlayerIndex, cardsPlayedThisTurn := 0, 0;
      warnings, intentions := EmptyTable(), EmptyTable();
      discarded := multiset{};
      new;
      InitializeDeck();
      InitialConsistent(deck);
    }

    /** Builds the deck 2..99 in order, shuffles it, and counts it. */
    method InitializeDeck()
      modifies this`deck, this`cardsRemaining
      ensures multiset(deck) == FullDeck() && |deck| == DECK_SIZE && cardsRemaining == DECK_SIZE
    {
      deck := OrderedDeck();
      ShuffleDeck();
      cardsRemaining := |deck|;
    }

    /** Fisher-Yates from the end: position i swaps with an arbitrary j <= i. The random choice is left
        open, so what is proved holds for every sequence of choices. */
    method ShuffleDeck()
      modifies this`deck
      ensures |deck| == |old(deck)| && multiset(deck) == multiset(old(deck))
    {
      var i := |deck| - 1;
      while i > 0
        invariant i < |deck| && |deck| == |old(deck)| && multiset(deck) == multiset(old(deck))
      {
        var j :| 0 <= j <= i;
        deck := Swap(deck, i, j);
        i := i - 1;
      }
    }

    method UpdateGameState()
      requires Valid()
      modifies this`cardsRemaining, this`ended, this`won
      ensures Valid() && Snapshot() == Updated(old(Snapshot()))
    {
      UpdatedKeepsConsistent(Snapshot());
      cardsRemaining := |deck| + HandCount(players);
      if cardsRemaining == 0 {
        ended := true;
        won := true;
        return;
      }
    }

    method CheckDefeatCondition() returns (defeated: bool)
      requires Valid()
      modifies this`ended, this`won
      ensures Valid() && (Snapshot(), defeated) == DefeatChecked(old(Snapshot()))
    {
      DefeatCheckedKeepsConsistent(Snapshot());
      if started && |players| > 0 && !ended {
        if currentPlayerIndex < |players| {
          var currentPlayer := players[currentPlayerIndex];
          var minRequired := MinRequired(deck);
          if cardsPlayedThisTurn < minRequired {
            var canCurrentPlayerPlay := AnyPlayable(piles, currentPlayer.hand);
            if !canCurrentPlayerPlay {
              ended := true;
              won := false;
              return true;
            }
          }
        }
      }
      return false;
    }

    method AddPlayer(id: string, name: string) returns (r: Outcome<Error>)
      requires Valid()
      modifies this`players
      ensures Valid() && (Snapshot(), r) == Joined(old(Snapshot()), id, name)
    {
      JoinedKeepsConsistent(Snapshot(), id, name);
      if |players| >= MAX_PLAYERS {
        return Fail(Refused(RoomFull));
      }
      if started {
        return Fail(Refused(AlreadyStarted));
      }
      if FindPlayer(players, id) >= 0 {
        return Fail(Refused(AlreadyJoined));
      }
      players := players + [Player(id, name, [], false)];
      return Pass;
    }

    /** The playerReady handler's toggle. */
    method SetReady(id: string) returns (found: bool)
      requires Valid()
      modifies this`players
      ensures Valid() && (Snapshot(), found) == ReadyToggled(old(Snapshot()), id)
    {
      ReadyToggledKeepsConsistent(Snapshot(), id);
      var k := FindPlayer(players, id);
      if k < 0 {
        return false;
      }
      players := players[k := players[k].(ready := !players[k].ready)];
      return true;
    }

    method RemovePlayer(id: string) returns (r: Option<Departure>)
      requires Valid()
      modifies this`players, this`currentPlayerIndex, this`cardsPlayedThisTurn, this`ended, this`won, this`discarded
      ensures Valid() && (Snapshot(), r) == Left(old(Snapshot()), id)
    {
      var playerIndex := FindPlayer(players, id);
      if playerIndex == -1 {
        return None;
      }
      VacatedKeepsConsistent(Snapshot(), id);
      var wasCurrentPlayer := playerIndex == currentPlayerIndex;
      Vacate(id, playerIndex);
      if wasCurrentPlayer && started && |players| > 0 {
        var defeated := CheckDefeatCondition();
        return Some(Departure(true, Some(players[currentPlayerIndex])));
      }
      return Some(Departure(false, None));
    }

    /** Takes the seat out and discards its hand; the roster and turn index become what removePlayer's
        branches give (LeaveAsWritten), and the count restarts when the leaver was on turn in a started
        game that still has players. */
    method Vacate(id: string, playerIndex: nat)
      requires playerIndex < |players| && FindPlayer(players, id) == playerIndex
      modifies this`players, this`currentPlayerIndex, this`cardsPlayedThisTurn, this`discarded
      ensures Snapshot() == Vacated(old(Snapshot()), id, playerIndex)
    {
      ghost var before := Snapshot();
      var (rest, index) := LeaveAsWritten(players, currentPlayerIndex, started, id);
      var count := if playerIndex == currentPlayerIndex && started && |rest| > 0 then 0 else cardsPlayedThisTurn;
      players, discarded, currentPlayerIndex, cardsPlayedThisTurn :=
        rest, discarded + multiset(players[playerIndex].hand), index, count;
      VacatedByFields(before, Snapshot(), id, playerIndex);
    }

    method StartGame() returns (ok: bool)
      requires Valid()
      modifies this`started, this`currentPlayerIndex, this`players, this`deck, this`cardsRemaining,
               this`discarded, this`ended, this`won
      ensures Valid() && (Snapshot(), ok) == Started(old(Snapshot()))
    {
      if |players| < 2 {
        return false;
      }
      StartingKeepsConsistent(Snapshot());
      started := true;
      currentPlayerIndex := 0;
      DealCards();
      var defeated := CheckDefeatCondition();
      return true;
    }

    /** The startGame handler: starts only when every seat is ready and there are at least two. */
    method RequestStart() returns (ok: bool)
      requires Valid()
      modifies this`started, this`currentPlayerIndex, this`players, this`deck, this`cardsRemaining,
               this`discarded, this`ended, this`won
      ensures Valid() && (Snapshot(), ok) == StartRequested(old(Snapshot()))
    {
      var allReady := forall i :: 0 <= i < |players| ==> players[i].ready;
      if allReady && |players| >= 2 {
        ok := StartGame();
      } else {
        ok := false;
      }
    }

    /** Deals each seat in order a fresh hand popped card by card off the deck's end, sorts it, and recounts. */
    method DealCards()
      requires Valid() && started
      modifies this`players, this`deck, this`cardsRemaining, this`discarded
      ensures Valid() && Snapshot() == AfterDeal(old(Snapshot()))
    {
      DealKeepsConsistent(Snapshot());
      var handSize := HandSize(|players|);
      DealRound(handSize);
    }

    /** The dealing loop of dealCards for a given hand size. */
    method DealRound(handSize: nat)
      modifies this`players, this`deck, this`cardsRemaining, this`discarded
      ensures Snapshot() == DealtWith(old(Snapshot()), handSize)
    {
      var hands, left := DealHands(players, deck, handSize);
      players, deck, cardsRemaining, discarded := hands, left, |left| + HandCount(hands), discarded + HandsOf(players);
    }

    method PlayCard(id: string, card: int, pileName: string) returns (r: Result<Placement, Error>)
      requires Valid()
      modifies this`players, this`piles, this`cardsPlayedThisTurn, this`cardsRemaining, this`ended, this`won
      ensures Valid() && (Snapshot(), r) == Placed(old(Snapshot()), id, card, pileName)
    {
      var playerIndex := FindPlayer(players, id);
      if playerIndex < 0 || card !in players[playerIndex].hand {
        return Err(InvalidCard);
      }
      if playerIndex != currentPlayerIndex {
        return Err(NotYourTurn);
      }
      if !CanPlace(piles, card, pileName) {
        return Err(CannotPlace);
      }
      var p := PileOf(pileName).value;
      var previousCard := Top(piles, p);
      MovedKeepsConsistent(Snapshot(), playerIndex, p, card);
      Move(playerIndex, p, card);
      var isPoopMove := IsPoopMove(card, previousCard);
      UpdateGameState();
      var isDefeated := CheckDefeatCondition();
      return Ok(Placement(previousCard, isPoopMove, isDefeated));
    }

    /** The placement itself: the card leaves the hand, goes on top of the pile and counts for the turn. */
    method Move(playerIndex: nat, p: PileId, card: int)
      requires playerIndex < |players| && p in piles
      modifies this`players, this`piles, this`cardsPlayedThisTurn
      ensures Snapshot() == Moved(old(Snapshot()), playerIndex, p, card)
    {
      players, piles, cardsPlayedThisTurn :=
        players[playerIndex := players[playerIndex].(hand := Without(players[playerIndex].hand, card))],
        piles[p := piles[p] + [card]], cardsPlayedThisTurn + 1;
    }

    method EndTurn(id: string) returns (r: Result<bool, Error>)
      requires Valid()
      modifies this`players, this`deck, this`currentPlayerIndex, this`cardsPlayedThisTurn, this`cardsRemaining,
               this`ended, this`won
      ensures Valid() && (Snapshot(), r) == TurnEnded(old(Snapshot()), id)
    {
      var playerIndex := FindPlayer(players, id);
      if playerIndex != currentPlayerIndex {
        return Err(NotYourTurn);
      }
      var minRequired := MinRequired(deck);
      if cardsPlayedThisTurn < minRequired {
        return Err(TooFewCards(minRequired));
      }
      ghost var s := Snapshot();
      DrawnKeepsConsistent(s, playerIndex);
      DrawAndPass(playerIndex);
      UpdateGameState();
      var isDefeated := CheckDefeatCondition();
      return Ok(isDefeated);
    }

    /** The middle of endTurn: the player on turn draws what they placed (as far as the deck lasts), the
        hand is sorted, and the turn passes to the next seat. */
    method DrawAndPass(playerIndex: nat)
      requires playerIndex < |players|
      modifies this`players, this`deck, this`currentPlayerIndex, this`cardsPlayedThisTurn
      ensures Snapshot() == Drawn(old(Snapshot()), playerIndex)
    {
      var hand, left := DrawOnto(players[playerIndex].hand, deck, cardsPlayedThisTurn);
      players, deck, currentPlayerIndex, cardsPlayedThisTurn :=
        players[playerIndex := players[playerIndex].(hand := SortAsc(hand))], left, (currentPlayerIndex + 1) % |players|, 0;
    }

    method CanPlayerEndTurn(id: string) returns (r: bool)
      ensures r == CanEnd(Snapshot(), id)
    {
      var playerIndex := FindPlayer(players, id);
      if playerIndex != currentPlayerIndex {
        return false;
      }
      var minRequired := MinRequired(deck);
      return cardsPlayedThisTurn >= minRequired;
    }

    method SetWarning(id: string, pile: PileId) returns (r: Result<Signal, Error>)
      requires Valid()
      modifies this`warnings
      ensures Valid() && (Snapshot(), r) == WarningToggled(old(Snapshot()), id, pile)
    {
      WarningToggledSpec(Snapshot(), id, pile);
      var playerIndex := FindPlayer(players, id);
      if playerIndex < 0 {
        return Err(PlayerNotFound);
      }
      var player := players[playerIndex];
      TableEntry(warnings, pile);
      var warningArray := warnings[pile];
      var existingIndex := FindMarker(warningArray, id);
      if existingIndex != -1 {
        warningArray := warningArray[..existingIndex] + warningArray[existingIndex + 1..];
      } else {
        warningArray := warningArray + [Marker(id, player.name)];
      }
      warnings := warnings[pile := warningArray];
      return Ok(Signal(id, pile, player.name));
    }

    method SetIntention(id: string, pile: PileId) returns (r: Result<Signal, Error>)
      requires Valid()
      modifies this`intentions
      ensures Valid() && (Snapshot(), r) == IntentionToggled(old(Snapshot()), id, pile)
    {
      IntentionToggledSpec(Snapshot(), id, pile);
      var playerIndex := FindPlayer(players, id);
      if playerIndex < 0 {
        return Err(PlayerNotFound);
      }
      var player := players[playerIndex];
      TableEntry(intentions, pile);
      var intentionArray := intentions[pile];
      var existingIndex := FindMarker(intentionArray, id);
      if existingIndex != -1 {
        intentionArray := intentionArray[..existingIndex] + intentionArray[existingIndex + 1..];
      } else {
        intentionArray := intentionArray + [Marker(id, player.name)];
      }
      intentions := intentions[pile := intentionArray];
      return Ok(Signal(id, pile, player.name));
    }

    /** Builds the caller's view; the hint is collected by visiting every held card on every pile in table
        order, then de-duplicated. */
    method GetGameStateForPlayer(id: string) returns (v: View)
      requires Valid()
      ensures v == ViewFor(Snapshot(), id)
    {
      var playerIndex := FindPlayer(players, id);
      var goodMoveCards: seq<int> := [];
      if playerIndex >= 0 {
        goodMoveCards := ScanGoodMoves(piles, players[playerIndex].hand);
      }
      var canEndTurn := CanPlayerEndTurn(id);
      v := View(started, ended, won, deck, piles, cardsRemaining, currentPlayerIndex, cardsPlayedThisTurn,
                warnings, intentions,
                Seats(players, currentPlayerIndex),
                if playerIndex >= 0 then players[playerIndex].hand else [],
                playerIndex == currentPlayerIndex,
                canEndTurn,
                if currentPlayerIndex < |players| then players[currentPlayerIndex].name else "",
                Dedup(goodMoveCards));
    }
  }
}
