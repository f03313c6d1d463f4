/** The four piles, the placement rule and the jump-back-10 hint. */
module Piles {
  import opened Wrappers

  datatype PileId = Up1 | Up2 | Down1 | Down2

  /** The piles in the order the per-player view visits them (the insertion order of the pile table). */
  const PILE_ORDER: seq<PileId> := [Up1, Up2, Down1, Down2]

  predicate IsAscending(p: PileId)
  {
    p == Up1 || p == Up2
  }

  /** The card every pile starts with: 1 below the lowest card, 100 above the highest. */
  function Sentinel(p: PileId): int
  {
    if IsAscending(p) then 1 else 100
  }

  function PileName(p: PileId): string
  {
    match p
    case Up1 => "up1"
    case Up2 => "up2"
    case Down1 => "down1"
    case Down2 => "down2"
  }

  /** The pile a client names, if it names one of the four. */
  function PileOf(name: string): (r: Option<PileId>)
    ensures r.Some? ==> PileName(r.value) == name
    ensures r.None? ==> forall p: PileId :: PileName(p) != name
  {
    if name == "up1" then Some(Up1)
    else if name == "up2" then Some(Up2)
    else if name == "down1" then Some(Down1)
    else if name == "down2" then Some(Down2)
    else None
  }

  /** Every pile's name leads back to the pile. */
  lemma PileNameRoundTrip(p: PileId)
    ensures PileOf(PileName(p)) == Some(p)
  {
  }

  /** The placement rule: an ascending pile takes a higher card or one exactly 10 lower; a
      descending pile takes a lower card or one exactly 10 higher. */
  predicate Legal(p: PileId, top: int, card: int)
  {
    if IsAscending(p) then card > top || card == top - 10 else card < top || card == top + 10
  }

  /** The "jump back 10" exception alone: the card moves the pile against its direction by exactly 10. */
  predicate JumpsBack(p: PileId, top: int, card: int)
  {
    if IsAscending(p) then card == top - 10 else card == top + 10
  }

  /** The cosmetic flag of a placement that moves the pile by 20 or more. */
  predicate IsPoopMove(card: int, previous: int)
  {
    card - previous >= 20 || previous - card >= 20
  }

  /** A pile is its sentinel followed by cards each of which was legal on the card before it. */
  predicate PileOk(p: PileId, s: seq<int>)
  {
    |s| > 0 && s[0] == Sentinel(p) && forall i :: 0 < i < |s| ==> Legal(p, s[i - 1], s[i])
  }

  predicate WellFormed(piles: map<PileId, seq<int>>)
  {
    forall p: PileId :: p in piles && PileOk(p, piles[p])
  }

  function InitialPiles(): (piles: map<PileId, seq<int>>)
    ensures Up1 in piles && Up2 in piles && Down1 in piles && Down2 in piles
    ensures piles[Up1] == [1] && piles[Up2] == [1] && piles[Down1] == [100] && piles[Down2] == [100]
  {
    map[Up1 := [1], Up2 := [1], Down1 := [100], Down2 := [100]]
  }

  /** The game starts with each pile holding its sentinel alone, and no card played. */
  lemma InitialPilesOk()
    ensures WellFormed(InitialPiles())
    ensures forall p: PileId :: Top(InitialPiles(), p) == Sentinel(p)
    ensures PlayedCards(InitialPiles()) == multiset{}
  {
    var piles := InitialPiles();
    forall p: PileId ensures p in piles && PileOk(p, piles[p]) && piles[p] == [Sentinel(p)] {
      match p
      case Up1 =>
      case Up2 =>
      case Down1 =>
      case Down2 =>
    }
  }

  function Top(piles: map<PileId, seq<int>>, p: PileId): int
    requires WellFormed(piles)
  {
    piles[p][|piles[p]| - 1]
  }

  /** The real cards on one pile: all but its sentinel. */
  function Played(s: seq<int>): multiset<int>
    requires |s| > 0
  {
    multiset(s[1..])
  }

  /** Every pile is present and holds at least its sentinel. */
  predicate Covers(piles: map<PileId, seq<int>>)
  {
    Up1 in piles && Up2 in piles && Down1 in piles && Down2 in piles &&
    |piles[Up1]| > 0 && |piles[Up2]| > 0 && |piles[Down1]| > 0 && |piles[Down2]| > 0
  }

  /** The real cards on the piles, sentinels excluded. */
  function PlayedCards(piles: map<PileId, seq<int>>): multiset<int>
    requires Covers(piles)
  {
    Played(piles[Up1]) + Played(piles[Up2]) + Played(piles[Down1]) + Played(piles[Down2])
  }

  /** canPlayCard for a pile the client names: an unknown name takes no card. */
  function CanPlace(piles: map<PileId, seq<int>>, card: int, name: string): (r: bool)
    requires WellFormed(piles)
    ensures PileOf(name).None? ==> !r
    ensures PileOf(name).Some? ==> (r <==> Legal(PileOf(name).value, Top(piles, PileOf(name).value), card))
  {
    match PileOf(name)
    case None => false
    case Some(p) => Legal(p, Top(piles, p), card)
  }

  /** The card can go on at least one pile (the test the defeat check applies to each card). */
  predicate PlayableSomewhere(piles: map<PileId, seq<int>>, card: int)
    requires WellFormed(piles)
  {
    Legal(Up1, Top(piles, Up1), card) || Legal(Up2, Top(piles, Up2), card) ||
    Legal(Down1, Top(piles, Down1), card) || Legal(Down2, Top(piles, Down2), card)
  }

  predicate AnyPlayable(piles: map<PileId, seq<int>>, hand: seq<int>)
    requires WellFormed(piles)
  {
    exists c :: c in hand && PlayableSomewhere(piles, c)
  }

  /** The card hits the jump-back-10 exception on at least one pile. */
  predicate IsGoodMove(piles: map<PileId, seq<int>>, card: int)
    requires WellFormed(piles)
  {
    JumpsBack(Up1, Top(piles, Up1), card) || JumpsBack(Up2, Top(piles, Up2), card) ||
    JumpsBack(Down1, Top(piles, Down1), card) || JumpsBack(Down2, Top(piles, Down2), card)
  }

  /** The cards of hand that jump back on the piles visited, one entry per pile hit. */
  function HitsOn(piles: map<PileId, seq<int>>, card: int, order: seq<PileId>): seq<int>
    requires WellFormed(piles)
  {
    if order == [] then []
    else
      var p := order[|order| - 1];
      HitsOn(piles, card, order[..|order| - 1]) + (if JumpsBack(p, Top(piles, p), card) then [card] else [])
  }

  /** The hint list before de-duplication: each card of the hand once for every pile it jumps back on. */
  function RawGoodMoves(piles: map<PileId, seq<int>>, hand: seq<int>): seq<int>
    requires WellFormed(piles)
  {
    if hand == [] then []
    else RawGoodMoves(piles, hand[..|hand| - 1]) + HitsOn(piles, hand[|hand| - 1], PILE_ORDER)
  }

  lemma {:induction false} HitsOnMembers(piles: map<PileId, seq<int>>, card: int, order: seq<PileId>, x: int)
    requires WellFormed(piles)
    ensures x in HitsOn(piles, card, order) <==>
      x == card && exists i :: 0 <= i < |order| && JumpsBack(order[i], Top(piles, order[i]), card)
  {
    if order != [] {
      var init := order[..|order| - 1];
      HitsOnMembers(piles, card, init, x);
      assert forall i :: 0 <= i < |init| ==> init[i] == order[i];
    }
  }

  /** A card is in the raw hint list exactly when it is held and hits the exception on some pile. */
  lemma {:induction false} RawGoodMovesMembers(piles: map<PileId, seq<int>>, hand: seq<int>, x: int)
    requires WellFormed(piles)
    ensures x in RawGoodMoves(piles, hand) <==> x in hand && IsGoodMove(piles, x)
  {
    if hand != [] {
      var init := hand[..|hand| - 1];
      RawGoodMovesMembers(piles, init, x);
      HitsOnMembers(piles, hand[|hand| - 1], PILE_ORDER, x);
      assert hand == init + [hand[|hand| - 1]];
      if x == hand[|hand| - 1] && IsGoodMove(piles, x) {
        var p :| p in PILE_ORDER && JumpsBack(p, Top(piles, p), x);
        assert PILE_ORDER[0] == Up1 && PILE_ORDER[1] == Up2 && PILE_ORDER[2] == Down1 && PILE_ORDER[3] == Down2;
      }
    }
  }

  /** Every card the hint offers can really be placed. */
  lemma GoodMoveIsLegal(piles: map<PileId, seq<int>>, card: int)
    requires WellFormed(piles) && IsGoodMove(piles, card)
    ensures PlayableSomewhere(piles, card)
  {
  }

  /** The rule is the same on both kinds of pile: mirroring cards by c |-> 101 - c turns one into the other. */
  lemma LegalMirror(top: int, card: int)
    ensures Legal(Up1, top, card) <==> Legal(Down1, 101 - top, 101 - card)
  {
  }

  /** With an ascending top of 50, 51 and 40 go on and 49 and 41 do not. */
  lemma PlacementExamples()
    ensures Legal(Up1, 50, 51) && Legal(Up1, 50, 40)
    ensures !Legal(Up1, 50, 49) && !Legal(Up1, 50, 41)
  {
  }

  lemma {:induction false} PushKeepsPileOk(p: PileId, s: seq<int>, card: int)
    requires PileOk(p, s) && Legal(p, s[|s| - 1], card)
    ensures PileOk(p, s + [card])
  {
    var t := s + [card];
    forall i | 0 < i < |t| ensures Legal(p, t[i - 1], t[i]) {
      if i < |t| - 1 {
        assert t[i - 1] == s[i - 1] && t[i] == s[i];
      }
    }
  }

  /** Putting a legal card on a pile keeps every pile well formed, makes the card the new top, leaves
      the other piles alone and adds exactly that card to the cards played. */
  lemma PushLegal(piles: map<PileId, seq<int>>, p: PileId, card: int)
    requires WellFormed(piles) && Legal(p, Top(piles, p), card)
    ensures var after := piles[p := piles[p] + [card]];
      WellFormed(after) && Top(after, p) == card &&
      (forall q :: q != p ==> after[q] == piles[q]) &&
      PlayedCards(after) == PlayedCards(piles) + multiset{card}
  {
    var after := piles[p := piles[p] + [card]];
    PushKeepsPileOk(p, piles[p], card);
    assert WellFormed(after) by {
      forall q: PileId ensures q in after && PileOk(q, after[q]) {
        if q != p {
          assert after[q] == piles[q];
        }
      }
    }
    PushAddsPlayed(piles, after, p, card);
  }

  lemma PushAddsPlayed(piles: map<PileId, seq<int>>, after: map<PileId, seq<int>>, p: PileId, card: int)
    requires Covers(piles) && Covers(after)
    requires after[p] == piles[p] + [card] && forall q :: q != p ==> after[q] == piles[q]
    ensures PlayedCards(after) == PlayedCards(piles) + multiset{card}
  {
    var x := Played(piles[p]) + multiset{card};
    assert Played(after[p]) == x by {
      assert after[p][1..] == piles[p][1..] + [card];
    }
    var a, b, c, d := Played(piles[Up1]), Played(piles[Up2]), Played(piles[Down1]), Played(piles[Down2]);
    match p
    case Up1 =>
      assert PlayedCards(after) == x + b + c + d;
    case Up2 =>
      assert PlayedCards(after) == a + x + c + d;
    case Down1 =>
      assert PlayedCards(after) == a + b + x + d;
    case Down2 =>
      assert PlayedCards(after) == a + b + c + x;
  }

  /** The value canPlayCard evaluates to in the source, where looking up a name that is not one of
      the four piles can throw. */
  datatype Evaluation = Returns(value: bool) | ThrowsTypeError

  /** Names every plain JavaScript object inherits from Object.prototype. */
  predicate InheritedName(name: string)
  {
    name in {"constructor", "__proto__", "hasOwnProperty", "isPrototypeOf", "propertyIsEnumerable",
             "toLocaleString", "toString", "valueOf", "__defineGetter__", "__defineSetter__",
             "__lookupGetter__", "__lookupSetter__"}
  }

  /** canPlayCard as written: the pile table is indexed by the name before the switch, so a name that
      is neither a pile nor an inherited member gives undefined and reading its length throws. */
  function CanPlaceAsWritten(piles: map<PileId, seq<int>>, card: int, name: string): Evaluation
    requires WellFormed(piles)
  {
    match PileOf(name)
    case Some(p) => Returns(Legal(p, Top(piles, p), card))
    case None => if InheritedName(name) then Returns(false) else ThrowsTypeError
  }

  /** The default branch that answers false is unreachable for an ordinary unknown name such as
      "left"; CanPlace answers false there, and agrees with the source wherever the source returns. */
  lemma UnknownPileNameThrows(piles: map<PileId, seq<int>>, card: int, name: string)
    requires WellFormed(piles)
    ensures CanPlaceAsWritten(piles, card, "left") == ThrowsTypeError && !CanPlace(piles, card, "left")
    ensures CanPlaceAsWritten(piles, card, name).Returns? ==>
      CanPlaceAsWritten(piles, card, name).value == CanPlace(piles, card, name)
  {
  }
}
