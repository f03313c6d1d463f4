/** The room's rules on values: a snapshot of everything a GameRoom holds, the invariant every command keeps,
    and one function per command saying what the command does to the snapshot and what it answers. */
module Engine {
  import opened Wrappers
  import opened Cards
  import opened Piles
  import opened Markers
  import opened Players

  /** Everything one room holds. discarded collects the hands that left the game (a departing player's, or
      the hands a repeated deal replaces), so every card stays accounted for. */
  datatype State = State(
    players: seq<Player>, started: bool, ended: bool, won: bool, deck: seq<int>,
    piles: map<PileId, seq<int>>, cardsRemaining: int, currentPlayerIndex: nat, cardsPlayedThisTurn: nat,
    warnings: map<PileId, seq<Marker>>, intentions: map<PileId, seq<Marker>>, discarded: multiset<int>)

  datatype Error =
    | Refused(reason: JoinError)
    | InvalidCard
    | NotYourTurn
    | CannotPlace
    | TooFewCards(minRequired: nat)
    | PlayerNotFound

  /** What a successful placement reports: the card it covered, the cosmetic 20-jump flag, and whether
      the defeat check fired. */
  datatype Placement = Placement(previousCard: int, isPoopMove: bool, isDefeated: bool)

  /** What a departure reports when the id was seated: whether the turn was handed on, and to whom. */
  datatype Departure = Departure(wasCurrentPlayer: bool, newCurrentPlayer: Option<Player>)

  /** What a marker toggle reports. */
  datatype Signal = Signal(playerId: string, pile: PileId, playerName: string)

  /** One seat as every player sees it: the hand itself is hidden, only its size is shown. */
  datatype Seat = Seat(id: string, name: string, handSize: nat, ready: bool, isCurrentPlayer: bool)

  /** The state one player is sent: the room's state plus the derived fields of that player. */
  datatype View = View(
    started: bool, ended: bool, won: bool, deck: seq<int>, piles: map<PileId, seq<int>>,
    cardsRemaining: int, currentPlayerIndex: nat, cardsPlayedThisTurn: nat,
    warnings: map<PileId, seq<Marker>>, intentions: map<PileId, seq<Marker>>,
    seats: seq<Seat>, myHand: seq<int>, isMyTurn: bool, canEndTurn: bool,
    currentPlayerName: string, goodMoveCards: seq<int>)

  // ---------------------------------------------------------------------------------------------------
  // The invariant

  /** Every card of the game wherever it is: deck, hands, piles (sentinels excluded) and discarded hands. */
  ghost function Tally(deck: seq<int>, ps: seq<Player>, piles: map<PileId, seq<int>>, gone: multiset<int>): multiset<int>
    requires Covers(piles)
  {
    multiset(deck) + HandsOf(ps) + PlayedCards(piles) + gone
  }

  /** Each of the cards 2..99 is in exactly one place, and nothing else is anywhere. */
  ghost predicate Accounted(deck: seq<int>, ps: seq<Player>, piles: map<PileId, seq<int>>, gone: multiset<int>)
  {
    Covers(piles) &&
    forall c :: Tally(deck, ps, piles, gone)[c] == if LOWEST_CARD <= c <= HIGHEST_CARD then 1 else 0
  }

  /** Accounted says, card by card, that the tally is the full deck. */
  lemma AccountedIsFullDeck(deck: seq<int>, ps: seq<Player>, piles: map<PileId, seq<int>>, gone: multiset<int>)
    requires Covers(piles)
    ensures Accounted(deck, ps, piles, gone) <==> Tally(deck, ps, piles, gone) == FullDeck()
  {
    var t := Tally(deck, ps, piles, gone);
    if Accounted(deck, ps, piles, gone) {
      forall c ensures t[c] == FullDeck()[c] {
        FullDeckCards(c);
      }
      assert t == FullDeck();
    }
    if t == FullDeck() {
      forall c ensures t[c] == if LOWEST_CARD <= c <= HIGHEST_CARD then 1 else 0 {
        FullDeckCards(c);
      }
    }
  }

  /** Moving cards between places keeps every card accounted for. */
  lemma TallyMoves(a: State, b: State)
    requires Accounted(a.deck, a.players, a.piles, a.discarded) && Covers(b.piles)
    requires Tally(b.deck, b.players, b.piles, b.discarded) == Tally(a.deck, a.players, a.piles, a.discarded)
    ensures Accounted(b.deck, b.players, b.piles, b.discarded)
  {
  }

  /** Ids are distinct, the room holds at most six, the turn index names a seat, and every hand is sorted. */
  predicate RosterOk(ps: seq<Player>, current: nat)
  {
    UniqueIds(ps) && |ps| <= MAX_PLAYERS && TurnInRange(ps, current) && HandsSorted(ps)
  }

  /** Each pile keeps a marker list with at most one marker per player. */
  predicate TableOk(ms: map<PileId, seq<Marker>>)
  {
    Up1 in ms && Up2 in ms && Down1 in ms && Down2 in ms &&
    UniqueMarkers(ms[Up1]) && UniqueMarkers(ms[Up2]) && UniqueMarkers(ms[Down1]) && UniqueMarkers(ms[Down2])
  }

  /** The counters and flags: the remaining count is never below the cards still in deck and hands; a won
      game has no card left; only a started game ends; before the start the turn has not moved, nothing is
      dealt and the deck is whole. */
  predicate FlagsOk(s: State)
  {
    s.cardsRemaining >= |s.deck| + HandCount(s.players) &&
    (s.won ==> s.ended && s.deck == [] && HandCount(s.players) == 0) &&
    (s.ended ==> s.started) &&
    (!s.started ==> s.currentPlayerIndex == 0 && s.cardsPlayedThisTurn == 0 && HandCount(s.players) == 0 &&
                    |s.deck| == DECK_SIZE)
  }

  /** The invariant of a room. */
  ghost predicate Consistent(s: State)
  {
    WellFormed(s.piles) && TableOk(s.warnings) && TableOk(s.intentions) &&
    Accounted(s.deck, s.players, s.piles, s.discarded) &&
    RosterOk(s.players, s.currentPlayerIndex) && FlagsOk(s)
  }

  function EmptyTable(): (ms: map<PileId, seq<Marker>>)
    ensures TableOk(ms)
  {
    map[Up1 := [], Up2 := [], Down1 := [], Down2 := []]
  }

  /** The room the constructor builds around a deck. */
  function Initial(deck: seq<int>): State
  {
    State([], false, false, false, deck, InitialPiles(), |deck|, 0, 0, EmptyTable(), EmptyTable(), multiset{})
  }

  /** A fresh room over any ordering of the 98 cards is consistent. */
  lemma InitialConsistent(deck: seq<int>)
    requires multiset(deck) == FullDeck() && |deck| == DECK_SIZE
    ensures Consistent(Initial(deck))
  {
    var s := Initial(deck);
    InitialPilesOk();
    assert HandsOf([]) == multiset{};
    assert Tally(deck, [], s.piles, multiset{}) == FullDeck();
    AccountedIsFullDeck(deck, [], s.piles, multiset{});
  }

  // ---------------------------------------------------------------------------------------------------
  // updateGameState and checkDefeatCondition

  /** A turn must place two cards, or one once the deck is empty. */
  function MinRequired(deck: seq<int>): nat
  {
    if |deck| == 0 then 1 else 2
  }

  /** updateGameState: recount the cards in deck and hands; with none left the game is won. */
  function Updated(s: State): State
  {
    var remaining := |s.deck| + HandCount(s.players);
    if remaining == 0 then s.(cardsRemaining := 0, ended := true, won := true)
    else s.(cardsRemaining := remaining)
  }

  /** The count is exact after an update, the game is won exactly when no card is left in deck or hands,
      and nothing else changes. */
  lemma UpdatedSpec(s: State)
    ensures var u := Updated(s);
      u.cardsRemaining == |s.deck| + HandCount(s.players) &&
      (|s.deck| + HandCount(s.players) > 0 ==> u.ended == s.ended && u.won == s.won) &&
      u.(cardsRemaining := s.cardsRemaining, ended := s.ended, won := s.won) == s
  {
  }

  /** With the deck empty and every hand empty, the update declares the game won; while any card is left in
      a hand it does not. */
  lemma UpdatedWins(s: State)
    ensures |s.deck| == 0 ==>
      (Updated(s).won && Updated(s).ended <==> (s.won && s.ended) || forall i :: 0 <= i < |s.players| ==> s.players[i].hand == [])
  {
    HandCountZero(s.players);
  }

  /** A started game is consistent after an update (a win needs a started game to have emptied the deck). */
  lemma UpdatedKeepsConsistent(s: State)
    requires Consistent(s)
    ensures Consistent(Updated(s))
  {
  }

  /** The defeat condition: a started game that has not ended, whose current player has not yet met the
      minimum and holds no card that goes on any pile. */
  predicate DefeatDue(s: State)
    requires WellFormed(s.piles)
  {
    s.started && |s.players| > 0 && !s.ended && s.currentPlayerIndex < |s.players| &&
    s.cardsPlayedThisTurn < MinRequired(s.deck) && !AnyPlayable(s.piles, s.players[s.currentPlayerIndex].hand)
  }

  /** checkDefeatCondition: declares the game lost when the defeat condition holds, and says whether it did. */
  function DefeatChecked(s: State): (State, bool)
    requires WellFormed(s.piles)
  {
    if DefeatDue(s) then (s.(ended := true, won := false), true) else (s, false)
  }

  /** Defeat is declared exactly when the player on turn is stuck: the turn cannot be ended yet and no
      held card can be placed on any pile, whatever pile is named. Otherwise, and always once the game has
      ended, nothing changes. */
  lemma DefeatCheckedSpec(s: State)
    requires WellFormed(s.piles)
    ensures var (t, defeated) := DefeatChecked(s);
      (defeated <==>
        s.started && !s.ended && s.currentPlayerIndex < |s.players| && s.cardsPlayedThisTurn < MinRequired(s.deck) &&
        forall c, name :: c in s.players[s.currentPlayerIndex].hand ==> !CanPlace(s.piles, c, name)) &&
      (defeated ==> t == s.(ended := true, won := false)) &&
      (!defeated ==> t == s) &&
      (s.ended ==> !defeated)
  {
    if s.started && !s.ended && s.currentPlayerIndex < |s.players| {
      var hand := s.players[s.currentPlayerIndex].hand;
      if AnyPlayable(s.piles, hand) {
        var c :| c in hand && PlayableSomewhere(s.piles, c);
        var p :| Legal(p, Top(s.piles, p), c);
        PileNameRoundTrip(p);
        assert CanPlace(s.piles, c, PileName(p));
      } else {
        forall c, name | c in hand ensures !CanPlace(s.piles, c, name) {
          assert !PlayableSomewhere(s.piles, c);
        }
      }
    }
  }

  lemma DefeatCheckedKeepsConsistent(s: State)
    requires Consistent(s)
    ensures Consistent(DefeatChecked(s).0)
  {
  }

  /** updateGameState followed by checkDefeatCondition, as playCard and endTurn run them: once deck and
      hands are empty the game is won and no defeat can follow, and a defeat never undoes a win. */
  lemma SettleOutcome(s: State)
    requires WellFormed(s.piles)
    ensures var (t, defeated) := DefeatChecked(Updated(s));
      (|s.deck| + HandCount(s.players) == 0 ==> t.ended && t.won && !defeated) &&
      (s.won && s.ended ==> t.won && !defeated) &&
      (defeated ==> !s.ended && t.ended && !t.won)
  {
  }

  // ---------------------------------------------------------------------------------------------------
  // addPlayer, the ready toggle, removePlayer

  /** addPlayer (with the duplicate-seat check of Players.Join): a new seat at the end, or a refusal that
      changes nothing. */
  function Joined(s: State, id: string, name: string): (State, Outcome<Error>)
  {
    match Join(s.players, s.started, id, name)
    case Ok(ps) => (s.(players := ps), Pass)
    case Err(e) => (s, Fail(Refused(e)))
  }

  /** A refused join changes nothing; an accepted one adds exactly one seat, not ready and holding nothing,
      after the others; a room that has started or holds six refuses. */
  lemma JoinedSpec(s: State, id: string, name: string)
    ensures var (t, r) := Joined(s, id, name);
      (r == Pass <==> |s.players| < MAX_PLAYERS && !s.started && FindPlayer(s.players, id) == -1) &&
      (r == Pass ==> t == s.(players := s.players + [Player(id, name, [], false)])) &&
      (r != Pass ==> t == s) &&
      (|s.players| >= MAX_PLAYERS ==> r == Fail(Refused(RoomFull)))
  {
  }

  lemma JoinedKeepsConsistent(s: State, id: string, name: string)
    requires Consistent(s)
    ensures Consistent(Joined(s, id, name).0)
  {
    JoinKeepsRoster(s.players, s.started, id, name);
    var (t, r) := Joined(s, id, name);
    if r == Pass {
      var p := Player(id, name, [], false);
      HandsAppend(s.players, [p]);
      HandsSingle(p);
      assert HandsOf(t.players) == HandsOf(s.players);
      assert Tally(t.deck, t.players, t.piles, t.discarded) == Tally(s.deck, s.players, s.piles, s.discarded);
      TallyMoves(s, t);
    }
  }

  /** The playerReady handler: the seat with this id flips its readiness. */
  function ReadyToggled(s: State, id: string): (State, bool)
  {
    var k := FindPlayer(s.players, id);
    if k < 0 then (s, false)
    else (s.(players := s.players[k := s.players[k].(ready := !s.players[k].ready)]), true)
  }

  /** Only the caller's readiness changes, and toggling twice restores the room. */
  lemma ReadyToggledSpec(s: State, id: string)
    ensures var (t, found) := ReadyToggled(s, id);
      var k := FindPlayer(s.players, id);
      found == (k >= 0) &&
      |t.players| == |s.players| &&
      (forall i :: 0 <= i < |s.players| ==>
        t.players[i] == if i == k then s.players[i].(ready := !s.players[i].ready) else s.players[i]) &&
      t.(players := s.players) == s &&
      ReadyToggled(t, id).0 == s
  {
    var (t, found) := ReadyToggled(s, id);
    var k := FindPlayer(s.players, id);
    if k >= 0 {
      assert FindPlayer(t.players, id) == k by {
        assert forall i :: 0 <= i < |s.players| ==> t.players[i].id == s.players[i].id;
      }
      assert t.players[k := t.players[k].(ready := !t.players[k].ready)] == s.players;
    }
  }

  /** Replacing a seat by one with the same id keeps the ids distinct. */
  lemma ReplaceKeepsUnique(ps: seq<Player>, k: nat, p: Player)
    requires UniqueIds(ps) && k < |ps| && p.id == ps[k].id
    ensures UniqueIds(ps[k := p])
  {
    var r := ps[k := p];
    forall i, j | 0 <= i < j < |r| ensures r[i].id != r[j].id {
      assert r[i].id == ps[i].id && r[j].id == ps[j].id;
    }
  }

  lemma ReadyToggledKeepsConsistent(s: State, id: string)
    requires Consistent(s)
    ensures Consistent(ReadyToggled(s, id).0)
  {
    var (t, found) := ReadyToggled(s, id);
    if found {
      var k := FindPlayer(s.players, id);
      var p := s.players[k].(ready := !s.players[k].ready);
      assert Accounted(t.deck, t.players, t.piles, t.discarded) by {
        HandsSameHand(s.players, k, p);
        TallyMoves(s, t);
      }
      assert RosterOk(t.players, t.currentPlayerIndex) by {
        ReplaceKeepsUnique(s.players, k, p);
        forall i | 0 <= i < |t.players| ensures IsSorted(t.players[i].hand) {
          assert t.players[i].hand == s.players[i].hand;
        }
      }
      assert FlagsOk(t) by {
        HandsSameHand(s.players, k, p);
      }
    }
  }

  /** removePlayer up to its defeat check: the seats and the turn index become what LeaveAsWritten gives, the
      departing hand is discarded, and when the player on turn leaves a started game the count restarts. */
  function Vacated(s: State, id: string, k: nat): State
    requires k < |s.players| && FindPlayer(s.players, id) == k
  {
    var (rest, index) := LeaveAsWritten(s.players, s.currentPlayerIndex, s.started, id);
    var handed := k == s.currentPlayerIndex && s.started && |rest| > 0;
    s.(players := rest, discarded := s.discarded + multiset(s.players[k].hand), currentPlayerIndex := index,
       cardsPlayedThisTurn := if handed then 0 else s.cardsPlayedThisTurn)
  }

  /** With unique ids, leaving drops exactly the seat found, discards its hand and moves the turn index as
      IndexAfterLeave says; the count restarts exactly when the turn was handed on, and nothing else changes. */
  lemma VacatedFields(s: State, id: string, k: nat)
    requires UniqueIds(s.players) && k < |s.players| && FindPlayer(s.players, id) == k
    ensures var v := Vacated(s, id, k);
      var (i, handed) := IndexAfterLeave(s.currentPlayerIndex, k, |s.players|, s.started);
      v.players == s.players[..k] + s.players[k + 1..] &&
      v.discarded == s.discarded + multiset(s.players[k].hand) &&
      v.currentPlayerIndex == i &&
      v.cardsPlayedThisTurn == (if handed then 0 else s.cardsPlayedThisTurn) &&
      v.(players := s.players, discarded := s.discarded, currentPlayerIndex := s.currentPlayerIndex,
         cardsPlayedThisTurn := s.cardsPlayedThisTurn) == s
  {
    LeaveAsWrittenUnique(s.players, s.currentPlayerIndex, s.started, id);
  }

  /** A state that agrees with Vacated field by field is Vacated. */
  lemma VacatedByFields(s: State, t: State, id: string, k: nat)
    requires k < |s.players| && FindPlayer(s.players, id) == k
    requires (t.players, t.currentPlayerIndex) == LeaveAsWritten(s.players, s.currentPlayerIndex, s.started, id)
    requires t.discarded == s.discarded + multiset(s.players[k].hand)
    requires t.cardsPlayedThisTurn == if k == s.currentPlayerIndex && s.started && |t.players| > 0 then 0 else s.cardsPlayedThisTurn
    requires t.started == s.started && t.ended == s.ended && t.won == s.won && t.deck == s.deck && t.piles == s.piles
    requires t.cardsRemaining == s.cardsRemaining && t.warnings == s.warnings && t.intentions == s.intentions
    ensures t == Vacated(s, id, k)
  {
  }

  /** removePlayer: an unknown id changes nothing; otherwise the seat goes, and when the turn was handed on
      the defeat check runs for the new player on turn, who is reported. */
  function Left(s: State, id: string): (State, Option<Departure>)
    requires WellFormed(s.piles)
  {
    var k := FindPlayer(s.players, id);
    if k < 0 then (s, None)
    else
      var v := Vacated(s, id, k);
      if k == s.currentPlayerIndex && s.started && |v.players| > 0 then
        (DefeatChecked(v).0, Some(Departure(true, Some(v.players[v.currentPlayerIndex]))))
      else (v, Some(Departure(false, None)))
  }

  /** In a consistent room the departure removes exactly the seat found, keeping the others in order,
      discards its hand, moves the index as IndexAfterLeave says, and touches nothing else but the flags
      the defeat check may set. */
  lemma LeftSpec(s: State, id: string)
    requires Consistent(s)
    ensures var (t, r) := Left(s, id);
      var k := FindPlayer(s.players, id);
      (k < 0 ==> t == s && r == None) &&
      (k >= 0 ==>
        var (i, handed) := IndexAfterLeave(s.currentPlayerIndex, k, |s.players|, s.started);
        t.players == s.players[..k] + s.players[k + 1..] &&
        t.discarded == s.discarded + multiset(s.players[k].hand) &&
        t.currentPlayerIndex == i &&
        t.cardsPlayedThisTurn == (if handed then 0 else s.cardsPlayedThisTurn) &&
        t.(players := s.players, discarded := s.discarded, currentPlayerIndex := s.currentPlayerIndex,
           cardsPlayedThisTurn := s.cardsPlayedThisTurn, ended := s.ended, won := s.won) == s &&
        (!handed ==> t.ended == s.ended && t.won == s.won) &&
        r == Some(Departure(handed, if handed then Some(t.players[i]) else None)))
  {
    var k := FindPlayer(s.players, id);
    if k >= 0 {
      VacatedFields(s, id, k);
      var v := Vacated(s, id, k);
      if k == s.currentPlayerIndex && s.started && |v.players| > 0 {
        var t := DefeatChecked(v).0;
        assert t.(ended := v.ended, won := v.won) == v;
      }
    }
  }

  /** Whoever leaves, the turn stays with a seated player: the same one when someone else leaves, the
      next one in seat order when the player on turn leaves a started game. */
  lemma LeftKeepsTurn(s: State, id: string)
    requires Consistent(s) && FindPlayer(s.players, id) >= 0 && |s.players| > 1
    ensures var t := Left(s, id).0;
      var k := FindPlayer(s.players, id);
      t.currentPlayerIndex < |t.players| &&
      (k != s.currentPlayerIndex ==> t.players[t.currentPlayerIndex] == s.players[s.currentPlayerIndex]) &&
      (k == s.currentPlayerIndex && s.started ==>
        t.players[t.currentPlayerIndex] == s.players[(s.currentPlayerIndex + 1) % |s.players|])
  {
    var k := FindPlayer(s.players, id);
    LeftSpec(s, id);
    LeaveKeepsTurnInRange(s.currentPlayerIndex, k, |s.players|, s.started);
    if k != s.currentPlayerIndex {
      LeaveKeepsCurrentPlayer(s.players, s.currentPlayerIndex, k, s.started);
    } else if s.started {
      LeaveHandsTurnToNext(s.players, s.currentPlayerIndex, s.started);
    }
  }

  /** When the turn is handed on, the defeat check runs for the new player on turn, who has placed nothing
      yet: the game ends lost exactly when it had not ended and that player holds no card that fits any
      pile; otherwise ended and won stay as they were. */
  lemma LeftDefeat(s: State, id: string)
    requires Consistent(s)
    ensures var (t, r) := Left(s, id);
      r.Some? && r.value.wasCurrentPlayer ==>
        var defeated := !s.ended && t.currentPlayerIndex < |t.players| &&
          !AnyPlayable(t.piles, t.players[t.currentPlayerIndex].hand);
        (t.ended <==> s.ended || defeated) && (t.won <==> s.won && !defeated)
  {
    var k := FindPlayer(s.players, id);
    if k >= 0 {
      var v := Vacated(s, id, k);
      if k == s.currentPlayerIndex && s.started && |v.players| > 0 {
        var t := DefeatChecked(v).0;
        assert v.ended == s.ended && v.won == s.won;
        assert t.(ended := v.ended, won := v.won) == v;
        DefeatCheckedSpec(v);
      }
    }
  }

  /** A departing hand moves to the discarded cards. */
  lemma TallyLeave(deck: seq<int>, ps: seq<Player>, piles: map<PileId, seq<int>>, gone: multiset<int>, k: nat)
    requires Covers(piles) && k < |ps|
    ensures Tally(deck, ps[..k] + ps[k + 1..], piles, gone + multiset(ps[k].hand)) == Tally(deck, ps, piles, gone)
  {
    HandsDrop(ps, k);
    var rest, hand := HandsOf(ps[..k] + ps[k + 1..]), multiset(ps[k].hand);
    calc {
      Tally(deck, ps[..k] + ps[k + 1..], piles, gone + hand);
      multiset(deck) + rest + PlayedCards(piles) + (gone + hand);
      multiset(deck) + (rest + hand) + PlayedCards(piles) + gone;
      Tally(deck, ps, piles, gone);
    }
  }

  lemma VacatedKeepsConsistent(s: State, id: string)
    requires Consistent(s) && FindPlayer(s.players, id) >= 0
    ensures Consistent(Vacated(s, id, FindPlayer(s.players, id)))
  {
    var k := FindPlayer(s.players, id);
    var t := Vacated(s, id, k);
    VacatedFields(s, id, k);
    assert Accounted(t.deck, t.players, t.piles, t.discarded) by {
      TallyLeave(s.deck, s.players, s.piles, s.discarded, k);
      TallyMoves(s, t);
    }
    assert RosterOk(t.players, t.currentPlayerIndex) by {
      DropKeepsUnique(s.players, k);
      DropKeepsSorted(s.players, k);
      LeaveKeepsTurnInRange(s.currentPlayerIndex, k, |s.players|, s.started);
    }
    assert FlagsOk(t) by {
      HandsDrop(s.players, k);
    }
  }

  lemma LeftKeepsConsistent(s: State, id: string)
    requires Consistent(s)
    ensures Consistent(Left(s, id).0)
  {
    if FindPlayer(s.players, id) >= 0 {
      VacatedKeepsConsistent(s, id);
      DefeatCheckedKeepsConsistent(Vacated(s, id, FindPlayer(s.players, id)));
    }
  }

  // ---------------------------------------------------------------------------------------------------
  // startGame and dealCards

  /** dealCards: every seat gets a fresh hand of HandSize cards popped off the deck's end (fewer once it runs
      out), sorted; the hands held before are discarded; the count is recomputed. */
  function AfterDeal(s: State): State
  {
    DealtWith(s, HandSize(|s.players|))
  }

  /** The deal with a given hand size: the old hands leave play, every seat gets its fresh hand, and the
      remaining count is recomputed. */
  function DealtWith(s: State, n: nat): State
  {
    var d := Dealt(s.players, s.deck, n);
    s.(players := d.0, deck := d.1, cardsRemaining := |d.1| + HandCount(d.0),
       discarded := s.discarded + HandsOf(s.players))
  }

  /** startGame: refused below two players; otherwise the game starts with the first seat on turn, the
      cards are dealt, and the defeat check runs. */
  function Started(s: State): (State, bool)
    requires WellFormed(s.piles)
  {
    if |s.players| < 2 then (s, false)
    else (DefeatChecked(AfterDeal(s.(started := true, currentPlayerIndex := 0))).0, true)
  }

  /** The startGame handler's gate: every seat ready and at least two of them. */
  function StartRequested(s: State): (State, bool)
    requires WellFormed(s.piles)
  {
    if (forall i :: 0 <= i < |s.players| ==> s.players[i].ready) && |s.players| >= 2 then Started(s)
    else (s, false)
  }

  lemma DealKeepsAccounted(s: State)
    requires Consistent(s)
    ensures var t := AfterDeal(s); Accounted(t.deck, t.players, t.piles, t.discarded)
  {
    var t := AfterDeal(s);
    DealtConserves(s.players, s.deck, HandSize(|s.players|));
    assert Tally(t.deck, t.players, t.piles, t.discarded) == Tally(s.deck, s.players, s.piles, s.discarded);
    TallyMoves(s, t);
  }

  /** A deal keeps every seat where it was (same id, name and ready flag), so the turn index still
      names the same seat, and it keeps the roster invariant, every new hand sorted. */
  lemma DealKeepsRoster(s: State)
    requires RosterOk(s.players, s.currentPlayerIndex)
    ensures var t := AfterDeal(s);
      |t.players| == |s.players| && t.currentPlayerIndex == s.currentPlayerIndex &&
      (forall i :: 0 <= i < |s.players| ==> t.players[i] == s.players[i].(hand := t.players[i].hand)) &&
      RosterOk(t.players, t.currentPlayerIndex)
  {
    var t := AfterDeal(s);
    DealtSeats(s.players, s.deck, HandSize(|s.players|));
    forall i, j | 0 <= i < j < |t.players| ensures t.players[i].id != t.players[j].id {
      assert t.players[i] == s.players[i].(hand := t.players[i].hand);
      assert t.players[j] == s.players[j].(hand := t.players[j].hand);
    }
  }

  /** After a deal the count is exactly the cards in deck and hands, and the flags stay consistent. */
  lemma DealKeepsFlags(s: State)
    requires FlagsOk(s) && s.started
    ensures var t := AfterDeal(s);
      t.cardsRemaining == |t.deck| + HandCount(t.players) && FlagsOk(t)
  {
    var n := HandSize(|s.players|);
    var d := Dealt(s.players, s.deck, n);
    if s.won {
      DealtConserves(s.players, s.deck, n);
      assert multiset(s.deck) == multiset{};
      HandCountIsSize(d.0);
      assert |HandsOf(d.0) + multiset(d.1)| == 0;
    }
  }

  lemma DealKeepsConsistent(s: State)
    requires Consistent(s) && s.started
    ensures Consistent(AfterDeal(s))
  {
    DealKeepsAccounted(s);
    DealKeepsRoster(s);
    DealKeepsFlags(s);
  }

  /** Marking a room of two or more seats started, with the first seat on turn, keeps it consistent. */
  lemma StartingKeepsConsistent(s: State)
    requires Consistent(s) && |s.players| >= 2
    ensures Consistent(s.(started := true, currentPlayerIndex := 0))
  {
  }

  /** Starting keeps the room consistent (a repeated start re-deals from what is left of the deck). */
  lemma StartedKeepsConsistent(s: State)
    requires Consistent(s)
    ensures Consistent(Started(s).0)
  {
    if |s.players| >= 2 {
      var s1 := s.(started := true, currentPlayerIndex := 0);
      StartingKeepsConsistent(s);
      DealKeepsConsistent(s1);
      DefeatCheckedKeepsConsistent(AfterDeal(s1));
    }
  }

  /** The startGame handler starts the room exactly when there are at least two seats and every seat is
      ready; then the room is what startGame makes of it, and otherwise nothing changes. */
  lemma StartRequestedSpec(s: State)
    requires WellFormed(s.piles)
    ensures var (t, ok) := StartRequested(s);
      (ok <==> |s.players| >= 2 && forall i :: 0 <= i < |s.players| ==> s.players[i].ready) &&
      (ok ==> t == Started(s).0 && t.started && t.currentPlayerIndex == 0) &&
      (!ok ==> t == s)
  {
  }

  lemma StartRequestedKeepsConsistent(s: State)
    requires Consistent(s)
    ensures Consistent(StartRequested(s).0)
  {
    StartedKeepsConsistent(s);
  }

  /** The first deal of a room of n >= 2 seats gives every seat, in order, a sorted hand of 7 cards (two
      seats) or 6, all taken from the deck's end; the deck shrinks by exactly the cards dealt and all 98 are
      still counted. */
  lemma FirstDealFull(s: State)
    requires Consistent(s) && !s.started && |s.players| >= 2
    ensures var t := AfterDeal(s);
      var n := HandSize(|s.players|);
      |t.players| == |s.players| &&
      (forall i :: 0 <= i < |t.players| ==>
        t.players[i].id == s.players[i].id && t.players[i].name == s.players[i].name &&
        t.players[i].ready == s.players[i].ready && |t.players[i].hand| == n && IsSorted(t.players[i].hand)) &&
      |t.deck| == DECK_SIZE - n * |s.players| && t.deck == s.deck[..|t.deck|] &&
      HandsOf(t.players) + multiset(t.deck) == multiset(s.deck) &&
      t.cardsRemaining == DECK_SIZE
  {
    var n := HandSize(|s.players|);
    assert n * |s.players| <= DECK_SIZE by {
      if |s.players| != 2 {
        assert n == 6 && |s.players| <= 6;
      }
    }
    DealtWhole(s.players, s.deck, n);
  }

  /** The first start of a room deals as FirstDealFull says, with the first seat on turn; below two seats
      nothing happens. */
  lemma FirstStartDeals(s: State)
    requires Consistent(s) && !s.started
    ensures var (t, ok) := Started(s);
      ok == (|s.players| >= 2) &&
      (!ok ==> t == s) &&
      (ok ==>
        var s1 := s.(started := true, currentPlayerIndex := 0);
        var d := AfterDeal(s1);
        t.started && t.currentPlayerIndex == 0 &&
        t.players == d.players && t.deck == d.deck && t.cardsRemaining == d.cardsRemaining &&
        t.piles == s.piles && t.cardsPlayedThisTurn == 0)
  {
  }

  /** After the deal the defeat check runs for seat 0: the game ends lost exactly when it had not ended, the
      count of the turn is below the minimum and seat 0 holds no card that fits any pile; otherwise ended
      and won stay as they were. */
  lemma StartedDefeat(s: State)
    requires Consistent(s)
    ensures var (t, ok) := Started(s);
      ok ==>
        var defeated := !s.ended && t.cardsPlayedThisTurn < MinRequired(t.deck) && 0 < |t.players| &&
          !AnyPlayable(t.piles, t.players[0].hand);
        t.currentPlayerIndex == 0 && (t.ended <==> s.ended || defeated) && (t.won <==> s.won && !defeated)
  {
    if |s.players| >= 2 {
      var a := AfterDeal(s.(started := true, currentPlayerIndex := 0));
      DealtSeats(s.players, s.deck, HandSize(|s.players|));
      DefeatCheckedSpec(a);
    }
  }

  // ---------------------------------------------------------------------------------------------------
  // playCard

  /** The placement itself: the card is filtered out of the seat's hand, pushed onto the pile, and counted. */
  function Moved(s: State, k: nat, p: PileId, card: int): State
    requires k < |s.players| && p in s.piles
  {
    s.(players := s.players[k := s.players[k].(hand := Without(s.players[k].hand, card))],
       piles := s.piles[p := s.piles[p] + [card]],
       cardsPlayedThisTurn := s.cardsPlayedThisTurn + 1)
  }

  /** playCard: the caller must hold the card, be on turn, and name a pile the card is legal on, checked in
      that order; a refusal changes nothing. A placement is followed by the update and the defeat check, and
      reports the card it covered. */
  function Placed(s: State, id: string, card: int, name: string): (State, Result<Placement, Error>)
    requires WellFormed(s.piles)
  {
    var k := FindPlayer(s.players, id);
    if k < 0 || card !in s.players[k].hand then (s, Err(InvalidCard))
    else if k != s.currentPlayerIndex then (s, Err(NotYourTurn))
    else if !CanPlace(s.piles, card, name) then (s, Err(CannotPlace))
    else
      var p := PileOf(name).value;
      var previous := Top(s.piles, p);
      PushLegal(s.piles, p, card);
      var (t, defeated) := DefeatChecked(Updated(Moved(s, k, p, card)));
      (t, Ok(Placement(previous, IsPoopMove(card, previous), defeated)))
  }

  /** The three refusals, each exactly in its case, and none of them changes the room. */
  lemma PlacedRejects(s: State, id: string, card: int, name: string)
    requires WellFormed(s.piles)
    ensures var (t, r) := Placed(s, id, card, name);
      var k := FindPlayer(s.players, id);
      (r == Err(InvalidCard) <==> k < 0 || card !in s.players[k].hand) &&
      (r == Err(NotYourTurn) <==> k >= 0 && card in s.players[k].hand && k != s.currentPlayerIndex) &&
      (r == Err(CannotPlace) <==>
        k >= 0 && card in s.players[k].hand && k == s.currentPlayerIndex && !CanPlace(s.piles, card, name)) &&
      (r.Err? ==> t == s)
  {
  }

  /** A card the room accounts for is held at most once. */
  lemma HeldOnce(s: State, k: nat, card: int)
    requires Consistent(s) && k < |s.players|
    ensures multiset(s.players[k].hand)[card] <= 1
  {
    HandInHands(s.players, k);
    assert Tally(s.deck, s.players, s.piles, s.discarded)[card] <= 1;
  }

  /** Playing a held card moves it from the hand to the pile: nothing is created or lost. */
  lemma TallyPlace(s: State, k: nat, p: PileId, card: int)
    requires WellFormed(s.piles) && k < |s.players| && card in s.players[k].hand
    requires multiset(s.players[k].hand)[card] <= 1 && Legal(p, Top(s.piles, p), card)
    ensures var t := Moved(s, k, p, card);
      Covers(t.piles) &&
      Tally(t.deck, t.players, t.piles, t.discarded) == Tally(s.deck, s.players, s.piles, s.discarded) &&
      HandCount(t.players) + 1 == HandCount(s.players) &&
      PlayedCards(t.piles) == PlayedCards(s.piles) + multiset{card}
  {
    var t := Moved(s, k, p, card);
    var hand := s.players[k].hand;
    WithoutHeldCard(hand, card);
    HandsTake(s.players, k, Without(hand, card), card);
    PushLegal(s.piles, p, card);
    var a, played := HandsOf(t.players), PlayedCards(s.piles);
    calc {
      Tally(t.deck, t.players, t.piles, t.discarded);
      multiset(s.deck) + a + (played + multiset{card}) + s.discarded;
      multiset(s.deck) + (a + multiset{card}) + played + s.discarded;
      Tally(s.deck, s.players, s.piles, s.discarded);
    }
  }

  lemma MovedKeepsConsistent(s: State, k: nat, p: PileId, card: int)
    requires Consistent(s) && k < |s.players| && card in s.players[k].hand && Legal(p, Top(s.piles, p), card)
    ensures Consistent(Moved(s, k, p, card))
  {
    var t := Moved(s, k, p, card);
    HeldOnce(s, k, card);
    TallyPlace(s, k, p, card);
    assert WellFormed(t.piles) by {
      PushLegal(s.piles, p, card);
    }
    assert Accounted(t.deck, t.players, t.piles, t.discarded) by {
      TallyMoves(s, t);
    }
    assert RosterOk(t.players, t.currentPlayerIndex) by {
      ReplaceKeepsUnique(s.players, k, t.players[k]);
      WithoutKeepsSorted(s.players[k].hand, card);
      forall i | 0 <= i < |t.players| ensures IsSorted(t.players[i].hand) {
        if i != k {
          assert t.players[i] == s.players[i];
        }
      }
    }
  }

  lemma PlacedKeepsConsistent(s: State, id: string, card: int, name: string)
    requires Consistent(s)
    ensures Consistent(Placed(s, id, card, name).0)
  {
    var k := FindPlayer(s.players, id);
    if k >= 0 && card in s.players[k].hand && k == s.currentPlayerIndex && CanPlace(s.piles, card, name) {
      var p := PileOf(name).value;
      MovedKeepsConsistent(s, k, p, card);
      var m := Moved(s, k, p, card);
      UpdatedKeepsConsistent(m);
      DefeatCheckedKeepsConsistent(Updated(m));
    }
  }

  /** The placement proper takes the card out of the seat's hand, where it was held once, and makes it the
      top of the pile; no other seat or pile changes. */
  lemma MovedSpec(s: State, k: nat, p: PileId, card: int)
    requires Consistent(s) && k < |s.players| && card in s.players[k].hand && Legal(p, Top(s.piles, p), card)
    ensures var t := Moved(s, k, p, card);
      WellFormed(t.piles) && |t.players| == |s.players| &&
      multiset(t.players[k].hand) + multiset{card} == multiset(s.players[k].hand) &&
      card !in t.players[k].hand &&
      (forall i :: 0 <= i < |s.players| && i != k ==> t.players[i] == s.players[i]) &&
      Top(t.piles, p) == card && t.piles[p] == s.piles[p] + [card] &&
      (forall q :: q != p ==> t.piles[q] == s.piles[q])
  {
    var hand := s.players[k].hand;
    HeldOnce(s, k, card);
    WithoutHeldCard(hand, card);
    WithoutCount(hand, card, card);
    PushLegal(s.piles, p, card);
  }

  /** A placement takes the card out of the caller's hand (where it was held once) and makes it the top of
      the named pile; no other seat, pile or the deck changes; the turn's count goes up by one; and the
      covered card is reported. */
  lemma PlacedMovesCard(s: State, id: string, card: int, name: string)
    requires Consistent(s) && Placed(s, id, card, name).1.Ok?
    ensures var (t, r) := Placed(s, id, card, name);
      var k := FindPlayer(s.players, id);
      var p := PileOf(name).value;
      WellFormed(t.piles) && PileOf(name).Some? &&
      k == s.currentPlayerIndex && 0 <= k < |s.players| == |t.players| &&
      multiset(t.players[k].hand) + multiset{card} == multiset(s.players[k].hand) &&
      card !in t.players[k].hand &&
      (forall i :: 0 <= i < |s.players| && i != k ==> t.players[i] == s.players[i]) &&
      Top(t.piles, p) == card && t.piles[p] == s.piles[p] + [card] &&
      (forall q :: q != p ==> t.piles[q] == s.piles[q]) &&
      t.deck == s.deck && t.cardsPlayedThisTurn == s.cardsPlayedThisTurn + 1 &&
      r.value.previousCard == Top(s.piles, p) &&
      r.value.isPoopMove == IsPoopMove(card, Top(s.piles, p))
  {
    var k := FindPlayer(s.players, id);
    var p := PileOf(name).value;
    var m := Moved(s, k, p, card);
    MovedSpec(s, k, p, card);
    assert Placed(s, id, card, name).0.(ended := m.ended, won := m.won, cardsRemaining := m.cardsRemaining) == m;
  }

  /** A placement keeps |deck| + the cards in hands + the cards on the piles; the game is won exactly when it
      leaves no card in deck or hands, and a defeat reported is a defeat declared. */
  lemma PlacedCounts(s: State, id: string, card: int, name: string)
    requires Consistent(s) && Placed(s, id, card, name).1.Ok?
    ensures var (t, r) := Placed(s, id, card, name);
      Covers(t.piles) &&
      |t.deck| + HandCount(t.players) + |PlayedCards(t.piles)| ==
        |s.deck| + HandCount(s.players) + |PlayedCards(s.piles)| &&
      (t.won <==> |t.deck| + HandCount(t.players) == 0) &&
      t.cardsRemaining == |t.deck| + HandCount(t.players) &&
      (r.value.isDefeated <==> t.ended && !t.won && !s.ended)
  {
    var k := FindPlayer(s.players, id);
    var p := PileOf(name).value;
    HeldOnce(s, k, card);
    TallyPlace(s, k, p, card);
    PushLegal(s.piles, p, card);
    SettleOutcome(Moved(s, k, p, card));
  }

  /** After a play the defeat check runs for the same player: the play reports a defeat exactly when the
      game had not ended, cards remain, and the player is still below the minimum with no held card that
      fits any pile. The game then ends lost; otherwise it has ended exactly when it had before or nothing
      remains, and is won exactly when it was or nothing remains. */
  lemma PlacedDefeat(s: State, id: string, card: int, name: string)
    requires Consistent(s) && Placed(s, id, card, name).1.Ok?
    ensures WellFormed(Placed(s, id, card, name).0.piles)
    ensures var (t, r) := Placed(s, id, card, name);
      var remaining := |t.deck| + HandCount(t.players);
      var defeated := !s.ended && remaining > 0 && t.cardsPlayedThisTurn < MinRequired(t.deck) &&
        s.currentPlayerIndex < |t.players| && !AnyPlayable(t.piles, t.players[s.currentPlayerIndex].hand);
      (r.value.isDefeated <==> defeated) &&
      (t.ended <==> s.ended || remaining == 0 || defeated) &&
      (t.won <==> (s.won || remaining == 0) && !defeated)
  {
    var k := FindPlayer(s.players, id);
    var p := PileOf(name).value;
    var m := Moved(s, k, p, card);
    assert card in s.players[k].hand;
    HandCountZero(s.players);
    assert s.started;
    PushLegal(s.piles, p, card);
    DefeatCheckedSpec(Updated(m));
  }

  // ---------------------------------------------------------------------------------------------------
  // endTurn and canPlayerEndTurn

  /** canPlayerEndTurn: the caller is on turn and has placed the minimum. */
  function CanEnd(s: State, id: string): bool
  {
    FindPlayer(s.players, id) == s.currentPlayerIndex && s.cardsPlayedThisTurn >= MinRequired(s.deck)
  }

  /** The turn's end for the seat k on turn: as many cards as were placed (fewer once the deck runs out) are
      popped off the deck's end into the hand, which is sorted; the next seat is on turn with a fresh count. */
  function Drawn(s: State, k: nat): State
    requires k < |s.players|
  {
    var m := Min(s.cardsPlayedThisTurn, |s.deck|);
    s.(players := s.players[k := s.players[k].(hand := SortAsc(s.players[k].hand + Popped(s.deck, m)))],
       deck := s.deck[..|s.deck| - m],
       currentPlayerIndex := (s.currentPlayerIndex + 1) % |s.players|,
       cardsPlayedThisTurn := 0)
  }

  /** endTurn: refused unless the caller is on turn and has placed the minimum (the refusal names it); the
      draw is followed by the update and the defeat check for the next player. */
  function TurnEnded(s: State, id: string): (State, Result<bool, Error>)
    requires WellFormed(s.piles)
  {
    var k := FindPlayer(s.players, id);
    if k != s.currentPlayerIndex then (s, Err(NotYourTurn))
    else if s.cardsPlayedThisTurn < MinRequired(s.deck) then (s, Err(TooFewCards(MinRequired(s.deck))))
    else
      var (t, defeated) := DefeatChecked(Updated(Drawn(s, k)));
      (t, Ok(defeated))
  }

  /** endTurn succeeds exactly when canPlayerEndTurn says the caller may end the turn; a refusal changes
      nothing and says why. */
  lemma TurnEndedRejects(s: State, id: string)
    requires WellFormed(s.piles)
    ensures var (t, r) := TurnEnded(s, id);
      (r.Ok? <==> CanEnd(s, id)) &&
      (r == Err(NotYourTurn) <==> FindPlayer(s.players, id) != s.currentPlayerIndex) &&
      (r == Err(TooFewCards(MinRequired(s.deck))) <==>
        FindPlayer(s.players, id) == s.currentPlayerIndex && s.cardsPlayedThisTurn < MinRequired(s.deck)) &&
      (r.Err? ==> t == s)
  {
  }

  /** Drawing moves cards from the deck into the hand: nothing is created or lost. */
  lemma TallyDraw(s: State, k: nat)
    requires Covers(s.piles) && k < |s.players| && k == s.currentPlayerIndex
    ensures var t := Drawn(s, k);
      var m := Min(s.cardsPlayedThisTurn, |s.deck|);
      0 <= m <= |s.deck| &&
      Tally(t.deck, t.players, t.piles, t.discarded) == Tally(s.deck, s.players, s.piles, s.discarded) &&
      |t.deck| + HandCount(t.players) == |s.deck| + HandCount(s.players) &&
      multiset(t.players[k].hand) == multiset(s.players[k].hand) + multiset(Popped(s.deck, m))
  {
    var t := Drawn(s, k);
    var m := Min(s.cardsPlayedThisTurn, |s.deck|);
    var drawn := Popped(s.deck, m);
    var h := SortAsc(s.players[k].hand + drawn);
    SortAscSorts(s.players[k].hand + drawn);
    DrawKeepsCards(s.deck, m);
    HandsGive(s.players, k, h, multiset(drawn));
    var b, played := HandsOf(s.players), PlayedCards(s.piles);
    calc {
      Tally(t.deck, t.players, t.piles, t.discarded);
      multiset(t.deck) + (b + multiset(drawn)) + played + s.discarded;
      (multiset(drawn) + multiset(t.deck)) + b + played + s.discarded;
      Tally(s.deck, s.players, s.piles, s.discarded);
    }
  }

  lemma DrawnKeepsConsistent(s: State, k: nat)
    requires Consistent(s) && k < |s.players| && k == s.currentPlayerIndex
    requires s.cardsPlayedThisTurn >= MinRequired(s.deck)
    ensures Consistent(Drawn(s, k))
  {
    var t := Drawn(s, k);
    TallyDraw(s, k);
    SortAscSorts(s.players[k].hand + Popped(s.deck, Min(s.cardsPlayedThisTurn, |s.deck|)));
    assert Accounted(t.deck, t.players, t.piles, t.discarded) by {
      TallyMoves(s, t);
    }
    assert RosterOk(t.players, t.currentPlayerIndex) by {
      ReplaceKeepsUnique(s.players, k, t.players[k]);
      forall i | 0 <= i < |t.players| ensures IsSorted(t.players[i].hand) {
        if i != k {
          assert t.players[i] == s.players[i];
        }
      }
    }
  }

  lemma TurnEndedKeepsConsistent(s: State, id: string)
    requires Consistent(s)
    ensures Consistent(TurnEnded(s, id).0)
  {
    var k := FindPlayer(s.players, id);
    if k == s.currentPlayerIndex && s.cardsPlayedThisTurn >= MinRequired(s.deck) {
      DrawnKeepsConsistent(s, k);
      UpdatedKeepsConsistent(Drawn(s, k));
      DefeatCheckedKeepsConsistent(Updated(Drawn(s, k)));
    }
  }

  /** The draw itself: min(cards placed, |deck|) cards come off the deck's end into the hand of seat k,
      which ends sorted; no other seat and no pile changes; the next seat is on turn with a fresh count;
      and the cards in deck and hands are as many as before. */
  lemma DrawnSpec(s: State, k: nat)
    requires Covers(s.piles) && k < |s.players| && k == s.currentPlayerIndex
    ensures var d := Drawn(s, k);
      var m := Min(s.cardsPlayedThisTurn, |s.deck|);
      0 <= m <= |s.deck| && |d.players| == |s.players| &&
      multiset(d.players[k].hand) == multiset(s.players[k].hand) + multiset(Popped(s.deck, m)) &&
      IsSorted(d.players[k].hand) &&
      (forall i :: 0 <= i < |s.players| && i != k ==> d.players[i] == s.players[i]) &&
      d.deck == s.deck[..|s.deck| - m] && d.piles == s.piles &&
      d.currentPlayerIndex == (k + 1) % |s.players| && d.cardsPlayedThisTurn == 0 &&
      |d.deck| + HandCount(d.players) == |s.deck| + HandCount(s.players)
  {
    TallyDraw(s, k);
    SortAscSorts(s.players[k].hand + Popped(s.deck, Min(s.cardsPlayedThisTurn, |s.deck|)));
  }

  /** A successful endTurn is that draw followed by a recount; only the defeat check's flags differ. */
  lemma TurnEndedDraws(s: State, id: string)
    requires Consistent(s) && CanEnd(s, id)
    ensures var (t, r) := TurnEnded(s, id);
      var d := Drawn(s, s.currentPlayerIndex);
      r.Ok? && s.currentPlayerIndex < |s.players| &&
      t.(ended := d.ended, won := d.won, cardsRemaining := d.cardsRemaining) == d &&
      t.cardsRemaining == |d.deck| + HandCount(d.players)
  {
    var k := s.currentPlayerIndex;
    var d := Drawn(s, k);
    var u := Updated(d);
    var t := DefeatChecked(u).0;
    assert TurnEnded(s, id).0 == t;
    assert t.(ended := u.ended, won := u.won) == u;
  }

  /** After the draw the defeat check runs for the next player, who has placed nothing yet: endTurn reports
      a defeat exactly when the game had not ended, cards remain, and the next player holds no card that
      fits any pile. The game then ends lost; otherwise it has ended exactly when it had before or nothing
      remains, and is won exactly when it was or nothing remains. */
  lemma TurnEndedDefeat(s: State, id: string)
    requires Consistent(s) && CanEnd(s, id)
    ensures var (t, r) := TurnEnded(s, id);
      var remaining := |t.deck| + HandCount(t.players);
      var defeated := !s.ended && remaining > 0 &&
        t.currentPlayerIndex < |t.players| && !AnyPlayable(t.piles, t.players[t.currentPlayerIndex].hand);
      r.Ok? && (r.value <==> defeated) &&
      (t.ended <==> s.ended || remaining == 0 || defeated) &&
      (t.won <==> (s.won || remaining == 0) && !defeated)
  {
    var k := s.currentPlayerIndex;
    var d := Drawn(s, k);
    assert s.started;
    DefeatCheckedSpec(Updated(d));
  }

  // ---------------------------------------------------------------------------------------------------
  // setWarning and setIntention

  /** A marker toggle on one pile's list of a marker table. */
  function ToggleOn(table: map<PileId, seq<Marker>>, p: PileId, id: string, name: string): map<PileId, seq<Marker>>
    requires p in table
  {
    table[p := Toggle(table[p], id, name)]
  }

  /** The list of one pile in a table that keeps one marker per player. */
  lemma TableEntry(table: map<PileId, seq<Marker>>, p: PileId)
    requires TableOk(table)
    ensures p in table && UniqueMarkers(table[p])
  {
    match p
    case Up1 =>
    case Up2 =>
    case Down1 =>
    case Down2 =>
  }

  /** A toggle flips whether the player has a marker on that pile, leaves the other players' markers there
      in order, touches no other pile, and keeps one marker per player. */
  lemma ToggleOnSpec(table: map<PileId, seq<Marker>>, p: PileId, id: string, name: string)
    requires TableOk(table)
    ensures var t := ToggleOn(table, p, id, name);
      TableOk(t) &&
      (HasMarker(t[p], id) <==> !HasMarker(table[p], id)) &&
      Others(t[p], id) == Others(table[p], id) &&
      (forall q :: q != p && q in table ==> q in t && t[q] == table[q])
  {
    var ms := table[p];
    TableEntry(table, p);
    ToggleKeepsUnique(ms, id, name);
    ToggleFlips(ms, id, name);
    ToggleKeepsOthers(ms, id, name);
  }

  /** A second toggle restores the table when the player had no marker on the pile. */
  lemma ToggleOnTwiceAbsent(table: map<PileId, seq<Marker>>, p: PileId, id: string, name: string)
    requires p in table && !HasMarker(table[p], id)
    ensures ToggleOn(ToggleOn(table, p, id, name), p, id, name) == table
  {
    var ms := table[p];
    var once := Toggle(ms, id, name);
    ToggleTwiceAbsent(ms, id, name);
    var t := table[p := once];
    assert ToggleOn(table, p, id, name) == t;
    assert ToggleOn(t, p, id, name) == t[p := ms] == table;
  }

  /** When the player had a marker on the pile, two toggles bring it back at the end of the list. */
  lemma ToggleOnTwicePresent(table: map<PileId, seq<Marker>>, p: PileId, id: string, name: string)
    requires TableOk(table) && p in table && HasMarker(table[p], id)
    ensures var j := FindMarker(table[p], id);
      ToggleOn(ToggleOn(table, p, id, name), p, id, name)[p] == table[p][..j] + table[p][j + 1..] + [Marker(id, name)]
  {
    TableEntry(table, p);
    ToggleTwicePresent(table[p], id, name);
  }

  /** setWarning: an unknown caller is refused with no change; otherwise the caller's warning marker on the
      pile is toggled and the caller's name reported. */
  function WarningToggled(s: State, id: string, p: PileId): (State, Result<Signal, Error>)
    requires p in s.warnings
  {
    var k := FindPlayer(s.players, id);
    if k < 0 then (s, Err(PlayerNotFound))
    else
      var name := s.players[k].name;
      (s.(warnings := ToggleOn(s.warnings, p, id, name)), Ok(Signal(id, p, name)))
  }

  /** setIntention: the same toggle on the intention markers. */
  function IntentionToggled(s: State, id: string, p: PileId): (State, Result<Signal, Error>)
    requires p in s.intentions
  {
    var k := FindPlayer(s.players, id);
    if k < 0 then (s, Err(PlayerNotFound))
    else
      var name := s.players[k].name;
      (s.(intentions := ToggleOn(s.intentions, p, id, name)), Ok(Signal(id, p, name)))
  }

  /** An unknown caller changes nothing; a seated one changes only the warning markers, and toggling twice
      in a row, when the caller had no warning there, restores the room. */
  lemma WarningToggledSpec(s: State, id: string, p: PileId)
    requires Consistent(s)
    ensures var (t, r) := WarningToggled(s, id, p);
      var k := FindPlayer(s.players, id);
      Consistent(t) &&
      (k < 0 ==> t == s && r == Err(PlayerNotFound)) &&
      (k >= 0 ==>
        r == Ok(Signal(id, p, s.players[k].name)) && t.(warnings := s.warnings) == s &&
        (HasMarker(t.warnings[p], id) <==> !HasMarker(s.warnings[p], id)) &&
        (!HasMarker(s.warnings[p], id) ==> WarningToggled(t, id, p).0 == s))
  {
    var k := FindPlayer(s.players, id);
    if k >= 0 {
      ToggleOnSpec(s.warnings, p, id, s.players[k].name);
      if !HasMarker(s.warnings[p], id) {
        ToggleOnTwiceAbsent(s.warnings, p, id, s.players[k].name);
      }
    }
  }

  lemma IntentionToggledSpec(s: State, id: string, p: PileId)
    requires Consistent(s)
    ensures var (t, r) := IntentionToggled(s, id, p);
      var k := FindPlayer(s.players, id);
      Consistent(t) &&
      (k < 0 ==> t == s && r == Err(PlayerNotFound)) &&
      (k >= 0 ==>
        r == Ok(Signal(id, p, s.players[k].name)) && t.(intentions := s.intentions) == s &&
        (HasMarker(t.intentions[p], id) <==> !HasMarker(s.intentions[p], id)) &&
        (!HasMarker(s.intentions[p], id) ==> IntentionToggled(t, id, p).0 == s))
  {
    var k := FindPlayer(s.players, id);
    if k >= 0 {
      ToggleOnSpec(s.intentions, p, id, s.players[k].name);
      if !HasMarker(s.intentions[p], id) {
        ToggleOnTwiceAbsent(s.intentions, p, id, s.players[k].name);
      }
    }
  }

  // ---------------------------------------------------------------------------------------------------
  // getGameStateForPlayer

  /** Every seat as shown to all: the hand size instead of the hand, and who is on turn. */
  function Seats(ps: seq<Player>, current: nat): seq<Seat>
  {
    seq(|ps|, i requires 0 <= i < |ps| => Seat(ps[i].id, ps[i].name, |ps[i].hand|, ps[i].ready, i == current))
  }

  /** The jump-back-10 hint: the held cards that hit the exception on some pile, in hand order, once each. */
  function GoodMoves(piles: map<PileId, seq<int>>, hand: seq<int>): seq<int>
    requires WellFormed(piles)
  {
    Dedup(RawGoodMoves(piles, hand))
  }

  /** getGameStateForPlayer: the room's state for one caller, with the caller's own hand, turn and hint. */
  function ViewFor(s: State, id: string): View
    requires WellFormed(s.piles)
  {
    var k := FindPlayer(s.players, id);
    View(s.started, s.ended, s.won, s.deck, s.piles, s.cardsRemaining, s.currentPlayerIndex,
         s.cardsPlayedThisTurn, s.warnings, s.intentions,
         Seats(s.players, s.currentPlayerIndex),
         if k >= 0 then s.players[k].hand else [],
         k == s.currentPlayerIndex,
         CanEnd(s, id),
         if s.currentPlayerIndex < |s.players| then s.players[s.currentPlayerIndex].name else "",
         if k >= 0 then GoodMoves(s.piles, s.players[k].hand) else [])
  }

  /** The hint lists each held card that jumps back 10 on some pile, exactly once, and every card it lists
      can be placed. */
  lemma GoodMovesSpec(piles: map<PileId, seq<int>>, hand: seq<int>)
    requires WellFormed(piles)
    ensures var g := GoodMoves(piles, hand);
      NoDuplicates(g) &&
      (forall c :: c in g <==> c in hand && IsGoodMove(piles, c)) &&
      (forall c :: c in g ==> PlayableSomewhere(piles, c))
  {
    var raw := RawGoodMoves(piles, hand);
    DedupMembers(raw);
    forall c ensures c in GoodMoves(piles, hand) <==> c in hand && IsGoodMove(piles, c) {
      RawGoodMovesMembers(piles, hand, c);
    }
  }

  /** The view shows one seat per player with its hand size and only the caller's own hand; the caller's
      turn flag and the end-turn flag agree with what endTurn would do; an unseated caller gets no hand and
      no hint. */
  lemma ViewForSpec(s: State, id: string)
    requires WellFormed(s.piles)
    ensures var v := ViewFor(s, id);
      var k := FindPlayer(s.players, id);
      |v.seats| == |s.players| &&
      (forall i :: 0 <= i < |s.players| ==>
        v.seats[i].id == s.players[i].id && v.seats[i].name == s.players[i].name &&
        v.seats[i].ready == s.players[i].ready && v.seats[i].handSize == |s.players[i].hand| &&
        (v.seats[i].isCurrentPlayer <==> i == s.currentPlayerIndex)) &&
      (v.isMyTurn <==> 0 <= k == s.currentPlayerIndex) &&
      (v.canEndTurn <==> TurnEnded(s, id).1.Ok?) &&
      (k >= 0 ==> v.myHand == s.players[k].hand && v.goodMoveCards == GoodMoves(s.piles, s.players[k].hand)) &&
      (k < 0 ==> v.myHand == [] && v.goodMoveCards == [] && !v.isMyTurn && !v.canEndTurn) &&
      (s.currentPlayerIndex < |s.players| ==> v.currentPlayerName == s.players[s.currentPlayerIndex].name) &&
      (s.currentPlayerIndex >= |s.players| ==> v.currentPlayerName == "")
  {
    TurnEndedRejects(s, id);
  }
}
