# The Game — one game room, modelled and verified in Dafny

This project models the engine of one room of the cooperative card game "The Game": the `GameRoom`
class of `server.js`. A room seats up to six players (a game needs two) around a deck of the 98 cards 2..99 and four
piles. The two ascending piles start at the sentinel 1 and the two descending piles at 100. A card goes
on an ascending pile when it is higher than the top, or exactly ten lower (a "jump back"); the
descending piles mirror this. The player on turn places cards and may end the turn once two cards are
down (one when the deck is empty), drawing as many cards as were placed. The room is won when deck and
hands are empty, and lost when the player on turn has not yet met the minimum and holds no card that
fits any pile. Players can also toggle advisory warning and intention markers on the piles, and each
player receives a view of the room that hides the other hands and lists their own "good moves"
(jump-back cards).

Layout, one module per file:

- `wrappers.dfy` (`Wrappers`): `Option`, `Result` and `Outcome`.
- `cards.dfy` (`Cards`): card ranges, the full deck as a multiset, popping from the deck's end, the
  ascending sort, `filter` on a hand, and `[...new Set(..)]`.
- `piles.dfy` (`Piles`): pile names, the placement rule (`canPlayCard`), pile well-formedness,
  the good-move scan.
- `markers.dfy` (`Markers`): the warning/intention marker lists and the toggle.
- `players.dfy` (`Players`): seats, `findIndex`, the leave-by-`filter`, the turn index after a leave,
  dealing.
- `engine.dfy` (`Engine`): the room as one value (`State`), the invariant `Consistent`, one function per
  command giving the new state and the result, and the lemmas about them.
- `game_room.dfy` (`Room`): the class `GameRoom` with the source's fields, updated in place by methods
  with `modifies` clauses and loops with invariants. Each method for a room command ensures that the room
  keeps `Valid()` and that its new state and result are exactly the engine function of the old state
  (`(Snapshot(), r) == Placed(old(Snapshot()), id, card, pileName)`); what is proved about the engine
  functions is therefore proved about those methods. The steps they delegate to (`Vacate`, `Move`,
  `DrawAndPass`, `DealRound`) ensure only the equality with their engine function (`Vacated`, `Moved`,
  `Drawn`, `DealtWith`); the invariant is re-established by the command around them. `InitializeDeck`
  and `ShuffleDeck` state the deck's length and cards directly.

`Consistent` is the class invariant:
- the piles are well formed: each one starts at its sentinel and every card on it was legal on the
  card below it;
- each marker table has one marker per player and pile;
- no two seats have the same id, there are at most six, the turn index names a seat, and every hand
  is sorted;
- cards are conserved: every card 2..99 is, exactly once, in the deck, in a hand, on a pile above the
  sentinel, or among the discarded hands;
- the counters and flags agree: `cardsRemaining` is at least deck plus hands, a win means deck and
  hands are empty, an ended game has started, and a room that has not started has its full deck and
  empty hands.

The discarded hands are a ghost field (`discarded`). They collect the hand of a player who leaves, and
the hands a repeated `startGame` replaces, because the source simply drops those cards.

## Model

| member | source | states |
|---|---|---|
| Cards.Range | server.js:61-63 | the values lo..hi-1 in ascending order, one per position |
| Cards.RangeCount | server.js:61-63 | every value in [lo, hi) occurs exactly once in the range and no other value occurs |
| Cards.RangeIsCards | server.js:58-63 | the cards pushed by the loop are exactly the cards 2..hi-1 |
| Cards.FullDeckCards | server.js:58-63 | the full deck holds each card 2..99 once and nothing else |
| Cards.Swap | server.js:72-73 | exchanging two positions keeps the length and the multiset of cards |
| Cards.Popped | server.js:145-149 | m pops off the deck yield m cards; PoppedFromEnd states which, and DrawKeepsCards that the rest of the deck is its front |
| Cards.PoppedFromEnd | server.js:145-149 | the i-th card popped is the i-th from the deck's end, so the last card comes first |
| Cards.DrawKeepsCards | server.js:145-149 | the popped cards together with the remaining front of the deck are exactly the deck's cards |
| Cards.InsertKeepsCards | server.js:150 | inserting a card adds exactly that card |
| Cards.InsertKeepsSorted | server.js:150 | inserting into a sorted hand keeps it sorted |
| Cards.SortAscSorts | server.js:150 | the numeric sort `(a, b) => a - b` yields an ascending permutation of the hand |
| Cards.SortAsc | server.js:150 | `hand.sort((a, b) => a - b)` as an insertion sort; its contract keeps the length, and SortAscSorts proves the result ascending and a permutation |
| Cards.Without | server.js:193 | `filter(c => c !== card)` never lengthens the hand |
| Cards.WithoutCount | server.js:193 | the filter removes every copy of the card and keeps every other card's count |
| Cards.WithoutKeepsSorted | server.js:193 | filtering a sorted hand keeps it sorted |
| Cards.WithoutHeldCard | server.js:193 | when the card is held once, the filter removes exactly that one card |
| Cards.DedupMembers | server.js:374 | `[...new Set(xs)]` keeps exactly the members of xs and repeats none |
| Cards.Dedup | server.js:374 | `[...new Set(xs)]`: the distinct elements in the order of their first occurrence; DedupMembers and DedupOrder state this |
| Cards.DedupOrder | server.js:374 | every kept element comes from xs, and the kept elements appear in the order of their first occurrences in xs |
| Piles.PileOf | server.js:161-169 | a name maps to a pile exactly when it is that pile's name; no pile has any other name |
| Piles.Legal | server.js:162-167 | the placement rule on one pile: going up, higher than the top or exactly ten lower; going down, the mirror; LegalMirror and PlacementExamples state it |
| Piles.PileNameRoundTrip | server.js:23-28 | each pile's name maps back to that pile |
| Piles.InitialPiles | server.js:23-28 | up1 and up2 start as [1], down1 and down2 as [100] |
| Piles.InitialPilesOk | server.js:23-28 | the initial piles are well formed, each top is its sentinel, and no card has been played |
| Piles.CanPlace | server.js:158-171 | on a named pile, true exactly when the card is legal on its top (higher or exactly 10 lower going up, the mirror going down); false for any other name |
| Piles.CanPlaceAsWritten | server.js:158-170 | `canPlayCard` as written: a pile name gives the rule's answer, an inherited name returns false, any other name throws; UnknownPileNameThrows relates it to CanPlace |
| Piles.PlacementExamples | server.js:162-164 | with an ascending top of 50, 51 and 40 are legal and 49 and 41 are not |
| Piles.LegalMirror | server.js:162-167 | the descending rule is the ascending rule under the reflection c ↦ 101 - c |
| Piles.HitsOnMembers | server.js:347-356 | the inner scan yields the card exactly when it jumps back on one of the piles it visits |
| Piles.RawGoodMovesMembers | server.js:344-358 | a card is in the scan exactly when it is held and jumps back on some pile |
| Piles.GoodMoveIsLegal | server.js:352-355 | every good move is a legal placement |
| Piles.PushKeepsPileOk | server.js:194 | pushing a legal card keeps the pile well formed |
| Piles.PushLegal | server.js:194 | pushing a legal card keeps all piles well formed, makes it the top, leaves the other piles alone and adds it to the played cards |
| Piles.PushAddsPlayed | server.js:194 | the played cards grow by exactly the pushed card |
| Piles.UnknownPileNameThrows | server.js:158-170 | as written, an ordinary unknown name such as "left" throws before reaching `default`; wherever the source returns, its answer equals the corrected `CanPlace` |
| Markers.FindMarker | server.js:262 | `findIndex` on a marker list: -1 exactly when the player has no marker, else the first marker of the player |
| Markers.Toggle | server.js:264-269 | the toggle on one marker list: the caller's first marker is spliced out, or a new marker appended; ToggleFlips, ToggleKeepsOthers and ToggleKeepsUnique state its effect |
| Markers.ToggleFlips | server.js:264-269 | after a toggle the player has a marker exactly when they had none |
| Markers.ToggleKeepsOthers | server.js:264-269 | the other players' markers stay, in order |
| Markers.ToggleKeepsUnique | server.js:264-269 | a list with one marker per player keeps that property |
| Markers.ToggleTwiceAbsent | server.js:264-269 | when the player had no marker, two toggles restore the list |
| Markers.ToggleTwicePresent | server.js:264-269 | when the player had a marker, two toggles move it to the end of the list |
| Players.FindPlayer | server.js:93 | `findIndex` by id: -1 exactly when no seat has the id, else the first seat with it |
| Players.FindUnique | server.js:93 | with unique ids the seat found is the one holding the id |
| Players.HandCountIsSize | server.js:154-155 | the `reduce` over hand lengths counts the cards in all hands |
| Players.HandCountZero | server.js:294-298 | that sum is zero exactly when every hand is empty |
| Players.WithoutUniqueId | server.js:98 | with unique ids, `filter(p => p.id !== id)` removes exactly the seat found and keeps the others in order |
| Players.LeaveKeepsTurnInRange | server.js:101-120 | after a leave the turn index is below the new number of seats |
| Players.LeaveKeepsCurrentPlayer | server.js:117-120 | when someone other than the player on turn leaves, the index still names the same player |
| Players.LeaveHandsTurnToNext | server.js:101-107 | when the player on turn leaves a started game, the index names the next player in seat order |
| Players.JoinAsWritten | server.js:77-90 | `addPlayer` as written: a full room, then a started game, refuse; otherwise a seat is appended even for an id already seated; DuplicateSeatStrandsTurn exhibits the consequence |
| Players.LeaveAsWritten | server.js:92-123 | `removePlayer`'s roster and index: an unknown id changes nothing, else every seat with the id is filtered out and the index moves by the source's branches; LeaveAsWrittenUnique and DuplicateSeatStrandsTurn state its behaviour |
| Players.DuplicateSeatStrandsTurn | server.js:77-123 | as written, a second join by the seated a gives the seats a, b, a with two equal ids, and `findIndex` finds seat 0 for a, never seat 2; with the turn on seat 2 of a started game, a's leave leaves the one seat b with the index 1, naming no seat |
| Players.Join | server.js:77-90 | a join fails exactly when the room is full, the game has started, or the id is already seated; a full room is reported as full; otherwise the new seat is appended with an empty hand, not ready |
| Players.JoinKeepsRoster | server.js:77-90 | a successful join keeps ids unique and at most six seats, and seats the player just as the source does |
| Players.LeaveAsWrittenUnique | server.js:92-123 | with unique ids the source's leave removes exactly the seat found and moves the index as IndexAfterLeave says |
| Players.DealtConserves | server.js:143-151 | dealing moves cards from deck to hands and loses or creates none |
| Players.DealtSeats | server.js:143-151 | each seat keeps id, name and ready flag and gets a sorted hand of at most the hand size |
| Players.DealtFull | server.js:143-151 | with enough cards every hand gets exactly the hand size and the deck shrinks by the total dealt |
| Players.DealtWhole | server.js:141-155 | with enough cards, dealing fills every seat with a sorted full hand taken from the deck's end, conserves the cards and keeps the count of deck plus hands |
| Players.DealtPrefix | server.js:145-149 | what is left of the deck is its front part |
| Players.Dealt | server.js:143-151 | the `forEach` deal over the seats, each hand popped off the deck's end and sorted; DealtConserves, DealtSeats, DealtFull and DealtPrefix state its properties |
| Engine.EmptyTable | server.js:36-47 | the empty marker tables have one (empty) list per pile |
| Engine.AccountedIsFullDeck | server.js:58-67 | the conservation invariant says that the cards everywhere form exactly the full deck 2..99 |
| Engine.InitialConsistent | server.js:15-56 | a new room with a deck holding the 98 cards is consistent |
| Engine.Updated | server.js:293-305 | `updateGameState` on the room value; UpdatedSpec, UpdatedWins and UpdatedKeepsConsistent state its effect |
| Engine.UpdatedSpec | server.js:293-305 | `cardsRemaining` becomes deck plus hands; while cards remain, nothing else changes |
| Engine.UpdatedWins | server.js:298-301 | with the deck empty, the update leaves the room won exactly when it was already won or every hand is empty |
| Engine.UpdatedKeepsConsistent | server.js:293-305 | the update keeps the invariant |
| Engine.DefeatChecked | server.js:307-337 | `checkDefeatCondition` on the room value; DefeatCheckedSpec states exactly when it declares defeat and what changes |
| Engine.DefeatCheckedSpec | server.js:307-337 | defeat is declared exactly when the game runs, the player on turn exists and is below the minimum, and no held card fits any pile; then only ended/won change, else nothing; never once ended |
| Engine.DefeatCheckedKeepsConsistent | server.js:307-337 | the defeat check keeps the invariant |
| Engine.SettleOutcome | server.js:200-203 | after update and defeat check, an empty deck and empty hands mean won and not defeated, and a defeat means the game was running and is now lost |
| Engine.Joined | server.js:77-90 | `addPlayer` with the seat check on the room value; JoinedSpec states its effect |
| Engine.JoinedSpec | server.js:77-90 | addPlayer succeeds exactly when the room has room, has not started and the id is new; success appends the seat, failure changes nothing |
| Engine.JoinedKeepsConsistent | server.js:77-90 | a join keeps the invariant |
| Engine.ReadyToggledSpec | server.js:422-424 | the ready toggle flips only the found seat's flag, changes nothing else, and a second toggle restores the room |
| Engine.ReadyToggledKeepsConsistent | server.js:422-424 | the ready toggle keeps the invariant |
| Engine.ReadyToggled | server.js:422-424 | the ready toggle of the handler on the room value; ReadyToggledSpec states its effect |
| Engine.Left | server.js:92-123 | `removePlayer` on the room value: Vacated, then the defeat check when the turn was handed on; LeftSpec and LeftDefeat state its effect |
| Engine.Vacated | server.js:97-120 | the seats and index as LeaveAsWritten gives them, the departing hand discarded, the count restarted when the turn was handed on; VacatedFields states it for unique ids |
| Engine.VacatedFields | server.js:97-120 | with unique ids, leaving removes exactly the seat found, discards its hand, moves the index as IndexAfterLeave says, restarts the count exactly when the turn was handed on, and changes nothing else |
| Engine.LeftSpec | server.js:92-123 | an unknown id changes nothing; otherwise the seat goes with the others in order, its hand is discarded, the index and count move as the source says, the flags change only through the defeat check, and the report names the new player on turn exactly when the turn was handed on |
| Engine.LeftKeepsTurn | server.js:101-120 | after a leave the turn stays with a seated player: the same one, or the next one when the player on turn left a started game |
| Engine.LeftDefeat | server.js:101-110 | when the turn is handed on, the game ends lost exactly when it had not ended and the new player on turn holds no card that fits any pile; otherwise ended and won stay as they were |
| Engine.TallyLeave | server.js:98 | a departing hand moves to the discarded cards and no card is lost |
| Engine.VacatedKeepsConsistent | server.js:97-120 | removing the seat and moving the index keeps the invariant |
| Engine.LeftKeepsConsistent | server.js:92-123 | removePlayer keeps the invariant |
| Engine.AfterDeal | server.js:139-156 | `dealCards` on the room value: DealtWith at the hand size for the number of seats; the DealKeeps lemmas state its effect |
| Engine.DealtWith | server.js:141-155 | one deal at a given hand size: the old hands leave play, Dealt gives the new hands and deck, and the count is recomputed |
| Engine.DealKeepsAccounted | server.js:139-156 | a deal conserves the cards |
| Engine.DealKeepsRoster | server.js:139-156 | a deal keeps the seat count, every seat's id, name and ready flag, and the turn index, so the same seat stays on turn; ids stay unique, there are still at most six seats, and every new hand is sorted |
| Engine.DealKeepsFlags | server.js:153-155 | after a deal `cardsRemaining` is exactly deck plus hands, and the counters and flags stay consistent |
| Engine.DealKeepsConsistent | server.js:139-156 | dealing in a started room keeps the invariant |
| Engine.StartingKeepsConsistent | server.js:126-129 | marking the room started with the first seat on turn keeps the invariant |
| Engine.StartedKeepsConsistent | server.js:125-137 | startGame keeps the invariant |
| Engine.StartRequestedKeepsConsistent | server.js:444-446 | the gated start keeps the invariant |
| Engine.Started | server.js:125-137 | `startGame` on the room value; FirstStartDeals, StartedDefeat and StartedKeepsConsistent state its effect |
| Engine.StartRequested | server.js:438-446 | the handler's all-ready gate before Started; StartRequestedSpec and StartRequestedKeepsConsistent state it |
| Engine.StartRequestedSpec | server.js:444-446 | the room starts exactly when there are at least two seats and every seat is ready; then it is Started of the old room, started with seat 0 on turn; otherwise nothing changes |
| Engine.FirstDealFull | server.js:139-156 | the first deal gives every seat exactly 7 cards with two players and 6 otherwise, sorted, from the deck's end; the deck shrinks by the total dealt and `cardsRemaining` stays 98 |
| Engine.FirstStartDeals | server.js:125-137 | startGame succeeds exactly with two or more players, changes nothing otherwise, and on success starts the game with seat 0 on turn after one deal, piles and count untouched |
| Engine.StartedDefeat | server.js:125-137 | after the deal, with seat 0 on turn, the game ends lost exactly when it had not ended, the turn's count is below the minimum and seat 0 holds no card that fits any pile; otherwise ended and won stay as they were |
| Engine.PlacedRejects | server.js:173-186 | each refusal (card not held or unknown player, not on turn, illegal pile) happens exactly in its case, in that order, and changes nothing |
| Engine.Placed | server.js:173-211 | `playCard` on the room value; PlacedRejects, PlacedMovesCard, PlacedCounts and PlacedDefeat state its effect |
| Engine.HeldOnce | server.js:193 | in a consistent room no hand holds a card twice |
| Engine.Moved | server.js:193-195 | the placement itself; MovedSpec states its effect |
| Engine.TallyPlace | server.js:193-195 | moving a held card onto a pile conserves the cards and moves exactly one card from hand to pile |
| Engine.MovedSpec | server.js:193-195 | the card leaves the hand, becomes the pile's new top, and no other seat or pile changes |
| Engine.MovedKeepsConsistent | server.js:193-195 | a legal placement keeps the invariant |
| Engine.PlacedKeepsConsistent | server.js:173-211 | playCard keeps the invariant |
| Engine.PlacedMovesCard | server.js:173-211 | a successful play moves the card from the hand of the player on turn to the top of the named pile, touches no other seat, pile or the deck, counts the card for the turn, and reports the covered card and the poop flag |
| Engine.PlacedCounts | server.js:193-203 | a play keeps deck + hands + played cards constant, recounts `cardsRemaining`, wins exactly when deck and hands are empty, and reports a defeat exactly when the defeat check ended the game |
| Engine.PlacedDefeat | server.js:200-209 | a play reports a defeat exactly when the game had not ended, cards remain, and the player on turn is still below the minimum with no held card that fits any pile; the game has then ended lost, and otherwise it has ended exactly when it had before or nothing remains, and is won exactly when it was or nothing remains |
| Engine.TurnEndedRejects | server.js:213-224 | endTurn succeeds exactly when canPlayerEndTurn holds; otherwise it answers "not your turn" or "too few cards" in that order and changes nothing |
| Engine.TurnEnded | server.js:213-245 | `endTurn` on the room value; TurnEndedRejects, TurnEndedDraws and TurnEndedDefeat state its effect |
| Engine.TallyDraw | server.js:227-233 | the draw conserves the cards and keeps deck plus hands constant |
| Engine.Drawn | server.js:227-237 | the draw and the hand-over; DrawnSpec states its effect |
| Engine.DrawnSpec | server.js:227-237 | the player on turn draws min(cards placed, deck size) cards off the deck's end into a hand that ends sorted; no other seat or pile changes; the next seat is on turn with a fresh count |
| Engine.DrawnKeepsConsistent | server.js:227-237 | the draw keeps the invariant |
| Engine.TurnEndedDraws | server.js:213-245 | a successful endTurn is that draw followed by the recount; only ended/won may differ |
| Engine.TurnEndedDefeat | server.js:239-244 | endTurn reports a defeat exactly when the game had not ended, cards remain, and the next player, who has placed nothing yet, holds no card that fits any pile; ended and won then follow as for a play |
| Engine.TurnEndedKeepsConsistent | server.js:213-245 | endTurn keeps the invariant |
| Engine.ToggleOnSpec | server.js:261-269 | a toggle on one pile flips the caller's marker there, keeps the other players' markers in order, touches no other pile, and keeps one marker per player |
| Engine.ToggleOnTwiceAbsent | server.js:261-269 | toggling twice from no marker restores the table |
| Engine.ToggleOnTwicePresent | server.js:261-269 | toggling twice from a marker moves it to the end of that pile's list |
| Engine.WarningToggledSpec | server.js:255-272 | an unknown player is refused with no change; otherwise only the caller's warning on that pile flips, the caller's name is reported, the invariant holds and, from no marker, a second call restores the room |
| Engine.IntentionToggledSpec | server.js:274-291 | the same for intentions |
| Engine.WarningToggled | server.js:255-272 | `setWarning` on the room value; WarningToggledSpec states its effect |
| Engine.IntentionToggled | server.js:274-291 | `setIntention` on the room value; IntentionToggledSpec states its effect |
| Engine.GoodMovesSpec | server.js:344-374 | the good moves are exactly the held cards that jump back on some pile, without repeats, and each is a legal placement |
| Engine.ViewForSpec | server.js:339-376 | the view lists every seat with its id, name, ready flag and hand size and marks only the player on turn; the own hand, the own turn and canEndTurn are shown exactly as endTurn would decide; a seated player's hint is GoodMoves of their hand; `currentPlayerName` names the player on turn (empty when no seat is on turn); an unknown player gets an empty hand and no good moves |
| Engine.ViewFor | server.js:339-376 | `getGameStateForPlayer` on the room value; ViewForSpec states what it shows |
| Room.OrderedDeck | server.js:60-63 | the push loop builds 2..99 in order, the full deck |
| Room.DealHand | server.js:145-149 | the pop loop takes min(hand size, deck size) cards off the deck's end |
| Room.DrawOnto | server.js:230-232 | the draw loop appends min(cards placed, deck size) popped cards to the hand |
| Room.DealHands | server.js:143-151 | the `forEach` over the seats deals as Dealt says |
| Room.ScanGoodMoves | server.js:344-359 | the nested scan collects one entry per card and pile on which the card jumps back |
| Room.GameRoom.constructor | server.js:15-56 | a new room is consistent: no seats, piles at their sentinels, empty marker tables, a 98-card deck holding 2..99, and `cardsRemaining` 98 |
| Room.GameRoom.InitializeDeck | server.js:58-67 | the deck holds exactly the cards 2..99 and `cardsRemaining` is 98 |
| Room.GameRoom.ShuffleDeck | server.js:69-75 | the swaps keep the deck's length and cards, whatever positions are chosen |
| Room.GameRoom.UpdateGameState | server.js:293-305 | the new room is Updated of the old, and consistent |
| Room.GameRoom.CheckDefeatCondition | server.js:307-337 | the new room and the answer are DefeatChecked of the old |
| Room.GameRoom.AddPlayer | server.js:77-90 | the new room and the answer are Joined of the old |
| Room.GameRoom.SetReady | server.js:422-424 | the new room and the answer are ReadyToggled of the old |
| Room.GameRoom.RemovePlayer | server.js:92-123 | the new room and the report are Left of the old |
| Room.GameRoom.Vacate | server.js:97-120 | the room becomes Vacated of the old: seats and index as LeaveAsWritten gives them, the hand discarded, the count restarted when the turn was handed on |
| Room.GameRoom.StartGame | server.js:125-137 | the new room and the answer are Started of the old |
| Room.GameRoom.RequestStart | server.js:438-446 | the start runs only when every seat is ready and there are at least two: StartRequested of the old room |
| Room.GameRoom.DealCards | server.js:139-156 | the new room is AfterDeal of the old, and consistent |
| Room.GameRoom.DealRound | server.js:141-155 | the room becomes DealtWith of the old: the hands held before leave play, each seat in order gets a fresh sorted hand of up to the given size off the deck's end (fewer once the deck runs out), and the count is recomputed |
| Room.GameRoom.PlayCard | server.js:173-211 | the new room and the result are Placed of the old |
| Room.GameRoom.Move | server.js:193-195 | the room becomes Moved of the old: the card leaves the hand, goes on the pile and counts for the turn |
| Room.GameRoom.EndTurn | server.js:213-245 | the new room and the result are TurnEnded of the old |
| Room.GameRoom.DrawAndPass | server.js:227-237 | the draw and the turn hand-over, as Drawn says |
| Room.GameRoom.CanPlayerEndTurn | server.js:247-253 | true exactly when the caller is on turn and has placed the minimum |
| Room.GameRoom.SetWarning | server.js:255-272 | the new room and the result are WarningToggled of the old |
| Room.GameRoom.SetIntention | server.js:274-291 | the new room and the result are IntentionToggled of the old |
| Room.GameRoom.GetGameStateForPlayer | server.js:339-376 | the view built is ViewFor of the room |

## Left out

- The socket.io, express and http wiring, the `console.log` calls, and the global `gameRooms` registry
  with its create-on-join and delete-when-empty lifecycle: these are transport and process plumbing
  around one room.
- Room.GameRoom.ShuffleDeck: the index `Math.floor(Math.random() * (i + 1))` becomes an arbitrary
  choice in 0..i, so what is proved holds for every sequence of choices; uniformity of the shuffle is a
  probabilistic claim and is not stated.
- The human-readable messages: refusals carry an error tag (`InvalidCard`, `NotYourTurn`,
  `CannotPlace`, `TooFewCards(n)`, `PlayerNotFound`, `Refused(..)`).
- The fields `turnState.minCardsRequired`, `turnState.turnInProgress` and `pilePoopEffects`: nothing in
  the room reads them. For the same reason the view does not repeat them.
- Room.GameRoom.SetWarning: takes a `PileId`, not a name. In the source any name other than the four
  piles throws a TypeError when `findIndex` is called on the missing list, so only the four names are
  modelled. Room.GameRoom.SetIntention is the same.
- Players are values in a `seq<Player>` field, and their hands are sequences that the methods reassign.
  Aliasing of a player object held elsewhere is therefore not captured. Nothing in the class keeps such a
  reference across a call.
- Room.GameRoom.DealCards: requires the room to be started. The source calls it only from `startGame`,
  right after setting `started`.
- The handlers' gating on `started` before `playCard`, `endTurn` and the marker toggles is not added
  to the methods; the methods behave as the class does in any state. The ready toggle (server.js:424)
  and the all-ready gate before `startGame` (server.js:444-445) are modelled by `SetReady` and
  `RequestStart`.
- The startGame handler (server.js:438-446) does not check `started`. A second start request while every
  seat is still ready restarts a running game: the room deals again, and the hands held until then leave
  play. The model keeps this behaviour: StartRequestedSpec holds in any state, and the replaced hands go
  to `discarded`. No correction is modelled, because the source gives no sign of which behaviour is
  intended.
- Card values and counts are unbounded integers. The source's numbers stay far below 2^53, where
  JavaScript arithmetic is exact.
- `isPoopMove` (`Math.abs(card - previousCard) >= 20`) is reported, written as two comparisons; it has
  no effect on the rules.

## Findings

| source | as written | input that shows it | evidently intended | confidence | as-written member | corrected member |
|---|---|---|---|---|---|---|
| server.js:158-170 | `canPlayCard` indexes the pile table by the name before the `switch`, so for a name that is not a pile the read of `.length` on `undefined` throws a TypeError, and `default: return false` is reached only for names inherited from `Object.prototype` | `playCard(id, c, "left")` by the player on turn holding `c` | the `default` answer: the card cannot be placed | not executed | Piles.UnknownPileNameThrows | Piles.CanPlace |
| server.js:77-123 | `addPlayer` does not check for an id already seated; `removePlayer` then filters out every seat with the id but moves the turn index down only once | the same socket joins, b joins, the same socket joins again: seats a, b, a. The class's `startGame` puts seat 0 on turn; a and then b end their turns, so the index is 2, a seat nobody can act for because `findIndex` finds seat 0 for a. Then a leaves: one seat remains and the index is 1. Through the socket handlers the room never starts, because the ready toggle (server.js:422-424) reaches only the first of a's seats, so the all-ready gate (server.js:444-445) never passes | an id is seated at most once, so a leave keeps the index on a seat | not executed | Players.DuplicateSeatStrandsTurn | Players.Join |
