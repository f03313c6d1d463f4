/** The seats of a room: who plays, what they hold, and how seats come and go. */
module Players {
  import opened Wrappers
  import opened Cards

  datatype Player = Player(id: string, name: string, hand: seq<int>, ready: bool)

  /** Rooms seat at most six players. */
  const MAX_PLAYERS := 6

  /** Array.prototype.findIndex on the roster: the first seat with this id, or -1. */
  function FindPlayer(ps: seq<Player>, id: string): (k: int)
    ensures -1 <= k < |ps|
    ensures k == -1 <==> forall i :: 0 <= i < |ps| ==> ps[i].id != id
    ensures k >= 0 ==> ps[k].id == id && forall i :: 0 <= i < k ==> ps[i].id != id
  {
    if ps == [] then -1
    else if ps[0].id == id then 0
    else
      var k := FindPlayer(ps[1..], id);
      if k == -1 then -1 else k + 1
  }

  predicate UniqueIds(ps: seq<Player>)
  {
    forall i, j :: 0 <= i < j < |ps| ==> ps[i].id != ps[j].id
  }

  /** With one seat per id, the seat found is the only one with that id. */
  lemma FindUnique(ps: seq<Player>, id: string, i: int)
    requires UniqueIds(ps) && 0 <= i < |ps| && ps[i].id == id
    ensures FindPlayer(ps, id) == i
  {
  }

  /** Every card in the players' hands, counted with multiplicity. */
  function HandsOf(ps: seq<Player>): multiset<int>
  {
    if ps == [] then multiset{} else HandsOf(ps[..|ps| - 1]) + multiset(ps[|ps| - 1].hand)
  }

  /** The number of cards in the players' hands (the reduce the source sums hand lengths with). */
  function HandCount(ps: seq<Player>): nat
  {
    if ps == [] then 0 else HandCount(ps[..|ps| - 1]) + |ps[|ps| - 1].hand|
  }

  lemma {:induction false} HandCountIsSize(ps: seq<Player>)
    ensures HandCount(ps) == |HandsOf(ps)|
  {
    if ps != [] {
      HandCountIsSize(ps[..|ps| - 1]);
    }
  }

  /** No cards are held exactly when every hand is empty. */
  lemma {:induction false} HandCountZero(ps: seq<Player>)
    ensures HandCount(ps) == 0 <==> forall i :: 0 <= i < |ps| ==> ps[i].hand == []
  {
    if ps != [] {
      var init := ps[..|ps| - 1];
      HandCountZero(init);
      assert forall i :: 0 <= i < |init| ==> init[i] == ps[i];
    }
  }

  lemma {:induction false} HandsAppend(a: seq<Player>, b: seq<Player>)
    ensures HandsOf(a + b) == HandsOf(a) + HandsOf(b)
    ensures HandCount(a + b) == HandCount(a) + HandCount(b)
  {
    if b == [] {
      assert a + b == a;
    } else {
      var b' := b[..|b| - 1];
      assert (a + b)[..|a + b| - 1] == a + b';
      HandsAppend(a, b');
    }
  }

  /** Replacing one seat swaps that seat's cards for the new seat's cards and changes no other hand. */
  lemma HandsReplace(ps: seq<Player>, k: nat, p: Player)
    requires k < |ps|
    ensures HandsOf(ps[k := p]) + multiset(ps[k].hand) == HandsOf(ps) + multiset(p.hand)
    ensures HandCount(ps[k := p]) + |ps[k].hand| == HandCount(ps) + |p.hand|
  {
    var pre, post := ps[..k], ps[k + 1..];
    assert ps == pre + [ps[k]] + post;
    assert ps[k := p] == pre + [p] + post;
    HandsAppend(pre + [ps[k]], post);
    HandsAppend(pre, [ps[k]]);
    HandsAppend(pre + [p], post);
    HandsAppend(pre, [p]);
    assert [ps[k]][..0] == [] && [p][..0] == [];
  }

  /** Dropping one seat takes exactly that seat's cards out of the hands. */
  lemma HandsDrop(ps: seq<Player>, k: nat)
    requires k < |ps|
    ensures HandsOf(ps[..k] + ps[k + 1..]) + multiset(ps[k].hand) == HandsOf(ps)
    ensures HandCount(ps[..k] + ps[k + 1..]) + |ps[k].hand| == HandCount(ps)
  {
    var pre, post := ps[..k], ps[k + 1..];
    assert ps == pre + [ps[k]] + post;
    HandsAppend(pre + [ps[k]], post);
    HandsAppend(pre, [ps[k]]);
    HandsAppend(pre, post);
    assert [ps[k]][..0] == [];
  }

  /** Replacing a seat by one holding the same hand changes neither the cards held nor their number. */
  lemma HandsSameHand(ps: seq<Player>, k: nat, p: Player)
    requires k < |ps| && p.hand == ps[k].hand
    ensures HandsOf(ps[k := p]) == HandsOf(ps) && HandCount(ps[k := p]) == HandCount(ps)
  {
    HandsReplace(ps, k, p);
    var a, b, m := HandsOf(ps[k := p]), HandsOf(ps), multiset(p.hand);
    forall x ensures a[x] == b[x] {
      assert (a + m)[x] == (b + m)[x];
    }
    assert a == b;
  }

  /** A seat giving up one card: the cards held lose exactly that card. */
  lemma HandsTake(ps: seq<Player>, k: nat, w: seq<int>, card: int)
    requires k < |ps| && multiset(ps[k].hand) == multiset(w) + multiset{card}
    ensures HandsOf(ps[k := ps[k].(hand := w)]) + multiset{card} == HandsOf(ps)
    ensures HandCount(ps[k := ps[k].(hand := w)]) + 1 == HandCount(ps)
  {
    var p := ps[k].(hand := w);
    HandsReplace(ps, k, p);
    var a, b := HandsOf(ps[k := p]), HandsOf(ps);
    forall x ensures (a + multiset{card})[x] == b[x] {
      assert (a + multiset(ps[k].hand))[x] == (b + multiset(w))[x];
    }
    assert a + multiset{card} == b;
    assert |multiset(ps[k].hand)| == |multiset(w)| + 1;
  }

  /** A seat taking extra cards: the cards held gain exactly those. */
  lemma HandsGive(ps: seq<Player>, k: nat, h: seq<int>, extra: multiset<int>)
    requires k < |ps| && multiset(h) == multiset(ps[k].hand) + extra
    ensures HandsOf(ps[k := ps[k].(hand := h)]) == HandsOf(ps) + extra
    ensures HandCount(ps[k := ps[k].(hand := h)]) == HandCount(ps) + |extra|
  {
    var p := ps[k].(hand := h);
    HandsReplace(ps, k, p);
    var a, b := HandsOf(ps[k := p]), HandsOf(ps);
    forall x ensures a[x] == (b + extra)[x] {
      assert (a + multiset(ps[k].hand))[x] == (b + multiset(h))[x];
    }
    assert a == b + extra;
    assert |multiset(h)| == |multiset(ps[k].hand)| + |extra|;
  }

  /** Any one hand is part of all the hands. */
  lemma HandInHands(ps: seq<Player>, k: nat)
    requires k < |ps|
    ensures multiset(ps[k].hand) <= HandsOf(ps)
  {
    HandsDrop(ps, k);
  }

  /** The seats whose id differs (the filter removePlayer applies). */
  function WithoutId(ps: seq<Player>, id: string): seq<Player>
  {
    if ps == [] then []
    else WithoutId(ps[..|ps| - 1], id) + (if ps[|ps| - 1].id == id then [] else [ps[|ps| - 1]])
  }

  lemma {:induction false} WithoutIdAppend(a: seq<Player>, b: seq<Player>, id: string)
    ensures WithoutId(a + b, id) == WithoutId(a, id) + WithoutId(b, id)
  {
    if b == [] {
      assert a + b == a;
    } else {
      var b' := b[..|b| - 1];
      assert (a + b)[..|a + b| - 1] == a + b';
      WithoutIdAppend(a, b', id);
    }
  }

  lemma {:induction false} WithoutIdAbsent(ps: seq<Player>, id: string)
    requires forall i :: 0 <= i < |ps| ==> ps[i].id != id
    ensures WithoutId(ps, id) == ps
  {
    if ps != [] {
      WithoutIdAbsent(ps[..|ps| - 1], id);
    }
  }

  lemma WithoutIdSingle(x: Player, id: string)
    ensures WithoutId([x], id) == if x.id == id then [] else [x]
  {
    assert [x][..0] == [];
  }

  lemma WithoutIdDropHead(x: Player, post: seq<Player>)
    ensures WithoutId([x] + post, x.id) == WithoutId(post, x.id)
  {
    WithoutIdAppend([x], post, x.id);
    WithoutIdSingle(x, x.id);
  }

  lemma WithoutIdSplice(pre: seq<Player>, x: Player, post: seq<Player>)
    requires forall i :: 0 <= i < |pre| ==> pre[i].id != x.id
    requires forall i :: 0 <= i < |post| ==> post[i].id != x.id
    ensures WithoutId(pre + [x] + post, x.id) == pre + post
  {
    var id := x.id;
    assert pre + [x] + post == pre + ([x] + post);
    calc {
      WithoutId(pre + ([x] + post), id);
      { WithoutIdAppend(pre, [x] + post, id); }
      WithoutId(pre, id) + WithoutId([x] + post, id);
      { WithoutIdDropHead(x, post); }
      WithoutId(pre, id) + WithoutId(post, id);
      { WithoutIdAbsent(pre, id); WithoutIdAbsent(post, id); }
      pre + post;
    }
  }

  /** With one seat per id, filtering the id out removes exactly the seat found. */
  lemma WithoutUniqueId(ps: seq<Player>, id: string)
    requires UniqueIds(ps) && FindPlayer(ps, id) >= 0
    ensures var k := FindPlayer(ps, id); WithoutId(ps, id) == ps[..k] + ps[k + 1..]
  {
    var k := FindPlayer(ps, id);
    var pre, post := ps[..k], ps[k + 1..];
    assert ps == pre + [ps[k]] + post;
    forall i | 0 <= i < |post| ensures post[i].id != id {
      assert post[i] == ps[k + 1 + i];
    }
    WithoutIdSplice(pre, ps[k], post);
  }

  /** A roster without a seat keeps one seat per id. */
  lemma DropKeepsUnique(ps: seq<Player>, k: nat)
    requires UniqueIds(ps) && k < |ps|
    ensures UniqueIds(ps[..k] + ps[k + 1..])
  {
    var r := ps[..k] + ps[k + 1..];
    forall i, j | 0 <= i < j < |r| ensures r[i].id != r[j].id {
      var i' := if i < k then i else i + 1;
      var j' := if j < k then j else j + 1;
      assert r[i] == ps[i'] && r[j] == ps[j'];
    }
  }

  predicate HandsSorted(ps: seq<Player>)
  {
    forall i :: 0 <= i < |ps| ==> IsSorted(ps[i].hand)
  }

  /** A roster without a seat keeps every hand sorted. */
  lemma DropKeepsSorted(ps: seq<Player>, k: nat)
    requires HandsSorted(ps) && k < |ps|
    ensures HandsSorted(ps[..k] + ps[k + 1..])
  {
    var r := ps[..k] + ps[k + 1..];
    forall i | 0 <= i < |r| ensures IsSorted(r[i].hand) {
      assert r[i] == if i < k then ps[i] else ps[i + 1];
    }
  }

  /** The turn index names a seat whenever there are seats. */
  predicate TurnInRange(ps: seq<Player>, current: nat)
  {
    |ps| > 0 ==> current < |ps|
  }

  /** The turn index after the seat at k leaves a roster of n seats (removePlayer's branches): when the
      player on turn leaves a started game the index stays, wrapping to 0 past the end; when an earlier
      seat leaves it moves down by one; otherwise it stays. The second component says whether the turn
      was handed on. */
  function IndexAfterLeave(current: nat, k: nat, n: nat, started: bool): (nat, bool)
    requires k < n
  {
    if k == current && started && n - 1 > 0 then
      (if current >= n - 1 then 0 else current, true)
    else if k < current then (current - 1, false)
    else (current, false)
  }

  /** The turn index keeps naming a seat after anyone leaves. */
  lemma LeaveKeepsTurnInRange(current: nat, k: nat, n: nat, started: bool)
    requires k < n && current < n && (started || current == 0)
    ensures n - 1 > 0 ==> IndexAfterLeave(current, k, n, started).0 < n - 1
  {
  }

  /** When someone else leaves, the same player keeps the turn. */
  lemma LeaveKeepsCurrentPlayer(ps: seq<Player>, current: nat, k: nat, started: bool)
    requires k < |ps| && current < |ps| && k != current
    ensures var r := ps[..k] + ps[k + 1..];
      var i := IndexAfterLeave(current, k, |ps|, started).0;
      i < |r| && r[i] == ps[current]
  {
  }

  /** When the player on turn leaves a started game, the turn goes to the next seat in order. */
  lemma LeaveHandsTurnToNext(ps: seq<Player>, current: nat, started: bool)
    requires current < |ps| && started && |ps| > 1
    ensures var r := ps[..current] + ps[current + 1..];
      var i := IndexAfterLeave(current, current, |ps|, started).0;
      i < |r| && r[i] == ps[(current + 1) % |ps|]
  {
    var r := ps[..current] + ps[current + 1..];
    if current + 1 < |ps| {
      assert (current + 1) % |ps| == current + 1;
      assert r[current] == ps[current + 1];
    } else {
      assert (current + 1) % |ps| == 0;
      assert r[0] == ps[0];
    }
  }

  datatype JoinError = RoomFull | AlreadyStarted | AlreadyJoined

  /** addPlayer as written: full rooms and started games refuse, anyone else gets a new seat, even an id
      already seated. */
  function JoinAsWritten(ps: seq<Player>, started: bool, id: string, name: string): Result<seq<Player>, JoinError>
  {
    if |ps| >= MAX_PLAYERS then Err(RoomFull)
    else if started then Err(AlreadyStarted)
    else Ok(ps + [Player(id, name, [], false)])
  }

  /** The roster and turn index after removePlayer as written, which filters out every seat with the id. */
  function LeaveAsWritten(ps: seq<Player>, current: nat, started: bool, id: string): (seq<Player>, nat)
  {
    var k := FindPlayer(ps, id);
    if k == -1 then (ps, current)
    else
      var rest := WithoutId(ps, id);
      if k == current && started && |rest| > 0 then (rest, if current >= |rest| then 0 else current)
      else if k < current then (rest, current - 1)
      else (rest, current)
  }

  /** The same socket joining twice gets two seats, and the second one can never act: findIndex always
      finds the first. With the seats a, b, a and the turn on the last seat (where two ended turns put it
      after a start), a's leave removes both of its seats but moves the turn index down once, so the index
      no longer names a seat. */
  lemma DuplicateSeatStrandsTurn()
    ensures var a, b := Player("a", "Ann", [], false), Player("b", "Bo", [], false);
      var joined := JoinAsWritten([a, b], false, "a", "Ann");
      joined == Ok([a, b, a]) && !UniqueIds(joined.value) && FindPlayer(joined.value, "a") != 2 &&
      LeaveAsWritten([a, b, a], 2, true, "a") == ([b], 1)
  {
    var a := Player("a", "Ann", [], false);
    var b := Player("b", "Bo", [], false);
    var ps := [a, b, a];
    assert [a, b] + [Player("a", "Ann", [], false)] == ps;
    assert JoinAsWritten([a, b], false, "a", "Ann") == Ok(ps);
    assert ps[0].id == ps[2].id;
    assert FindPlayer(ps, "a") == 0;
    assert ps[..2] == [a, b] && [a, b][..1] == [a];
    WithoutIdSingle(a, "a");
    WithoutIdSingle(b, "a");
    assert WithoutId([a], "a") == [];
    assert WithoutId([a, b], "a") == [b];
    assert WithoutId(ps, "a") == [b];
    assert LeaveAsWritten(ps, 2, true, "a") == ([b], 1);
  }

  /** addPlayer with the seat check it needs: an id already seated is refused. */
  function Join(ps: seq<Player>, started: bool, id: string, name: string): (r: Result<seq<Player>, JoinError>)
    ensures r.Err? <==> |ps| >= MAX_PLAYERS || started || FindPlayer(ps, id) >= 0
    ensures r.Ok? ==> r.value == ps + [Player(id, name, [], false)]
    ensures r.Err? && |ps| >= MAX_PLAYERS ==> r.error == RoomFull
  {
    if |ps| >= MAX_PLAYERS then Err(RoomFull)
    else if started then Err(AlreadyStarted)
    else if FindPlayer(ps, id) >= 0 then Err(AlreadyJoined)
    else Ok(ps + [Player(id, name, [], false)])
  }

  /** Join keeps one seat per id and never exceeds six seats; where it lets a player in, the source
      does too. */
  lemma JoinKeepsRoster(ps: seq<Player>, started: bool, id: string, name: string)
    requires UniqueIds(ps) && |ps| <= MAX_PLAYERS
    ensures var r := Join(ps, started, id, name);
      r.Ok? ==> UniqueIds(r.value) && |r.value| <= MAX_PLAYERS && r == JoinAsWritten(ps, started, id, name)
  {
  }

  /** With one seat per id, removePlayer as written removes exactly the seat found and moves the turn
      as IndexAfterLeave says, so the turn stays in range. */
  lemma LeaveAsWrittenUnique(ps: seq<Player>, current: nat, started: bool, id: string)
    requires UniqueIds(ps) && FindPlayer(ps, id) >= 0
    ensures var k := FindPlayer(ps, id);
      LeaveAsWritten(ps, current, started, id) ==
        (ps[..k] + ps[k + 1..], IndexAfterLeave(current, k, |ps|, started).0)
  {
    WithoutUniqueId(ps, id);
  }

  /** The size of the opening hands: seven with two players, six otherwise. */
  function HandSize(n: nat): nat
  {
    if n == 2 then 7 else 6
  }

  /** The seats after dealing n cards to each in seat order, and the deck left: each hand is replaced by
      the cards popped off the end of the deck (fewer once it runs out), sorted. */
  function Dealt(ps: seq<Player>, deck: seq<int>, n: nat): (seq<Player>, seq<int>)
    decreases |ps|, 1
  {
    if ps == [] then (ps, deck) else DealtNext(ps, deck, n)
  }

  /** The first seat takes its hand off the deck's end, then the others are dealt from what is left. */
  function DealtNext(ps: seq<Player>, deck: seq<int>, n: nat): (seq<Player>, seq<int>)
    requires ps != []
    decreases |ps|, 0
  {
    var m := Min(n, |deck|);
    var rest := Dealt(ps[1..], deck[..|deck| - m], n);
    ([ps[0].(hand := SortAsc(Popped(deck, m)))] + rest.0, rest.1)
  }

  lemma HandsSingle(p: Player)
    ensures HandsOf([p]) == multiset(p.hand)
  {
    assert [p][..0] == [];
  }

  /** Dealing moves cards from the deck into the hands without creating or losing any (the hands held
      before are dropped). */
  lemma {:induction false} DealtConserves(ps: seq<Player>, deck: seq<int>, n: nat)
    ensures HandsOf(Dealt(ps, deck, n).0) + multiset(Dealt(ps, deck, n).1) == multiset(deck)
  {
    if ps != [] {
      var m := Min(n, |deck|);
      var left := deck[..|deck| - m];
      var rest := Dealt(ps[1..], left, n);
      var p := ps[0].(hand := SortAsc(Popped(deck, m)));
      SortAscSorts(Popped(deck, m));
      assert Dealt(ps, deck, n) == ([p] + rest.0, rest.1);
      calc {
        HandsOf([p] + rest.0) + multiset(rest.1);
        { HandsAppend([p], rest.0); HandsSingle(p); }
        multiset(p.hand) + (HandsOf(rest.0) + multiset(rest.1));
        { DealtConserves(ps[1..], left, n); }
        multiset(Popped(deck, m)) + multiset(left);
        { DrawKeepsCards(deck, m); }
        multiset(deck);
      }
    }
  }

  /** Dealing keeps every seat (id, name, readiness) in place and leaves every hand sorted and at most
      n cards long. */
  lemma {:induction false} DealtSeats(ps: seq<Player>, deck: seq<int>, n: nat)
    ensures var d := Dealt(ps, deck, n).0;
      |d| == |ps| &&
      forall i :: 0 <= i < |ps| ==>
        d[i] == ps[i].(hand := d[i].hand) && IsSorted(d[i].hand) && |d[i].hand| <= n
  {
    if ps != [] {
      var m := Min(n, |deck|);
      var rest := Dealt(ps[1..], deck[..|deck| - m], n).0;
      var p := ps[0].(hand := SortAsc(Popped(deck, m)));
      SortAscSorts(Popped(deck, m));
      var d := [p] + rest;
      assert Dealt(ps, deck, n).0 == DealtNext(ps, deck, n).0 == d;
      DealtSeats(ps[1..], deck[..|deck| - m], n);
      forall i | 0 <= i < |ps|
        ensures d[i] == ps[i].(hand := d[i].hand) && IsSorted(d[i].hand) && |d[i].hand| <= n
      {
        if i == 0 {
          assert d[0] == p;
        } else {
          assert d[i] == rest[i - 1] && ps[i] == ps[1..][i - 1];
        }
      }
    }
  }

  /** While the deck lasts, every player gets a full hand of n cards, and n cards per player leave it. */
  lemma {:induction false} DealtFull(ps: seq<Player>, deck: seq<int>, n: nat)
    requires |deck| >= n * |ps|
    ensures var d := Dealt(ps, deck, n);
      |d.1| == |deck| - n * |ps| && forall i :: 0 <= i < |d.0| ==> |d.0[i].hand| == n
  {
    if ps != [] {
      var m := Min(n, |deck|);
      assert m == n;
      assert n * |ps| == n + n * |ps[1..]|;
      var rest := Dealt(ps[1..], deck[..|deck| - m], n);
      var p := ps[0].(hand := SortAsc(Popped(deck, m)));
      var d := [p] + rest.0;
      assert Dealt(ps, deck, n) == DealtNext(ps, deck, n) == (d, rest.1);
      DealtFull(ps[1..], deck[..|deck| - m], n);
      forall i | 0 <= i < |d|
        ensures |d[i].hand| == n
      {
        if i == 0 {
          assert d[0] == p;
        } else {
          assert d[i] == rest.0[i - 1];
        }
      }
    }
  }

  /** A deal the deck can cover in full: every seat keeps its place and gets a sorted hand of exactly n
      cards, the deck keeps the n * |ps| cards below them, and the cards are all still there. */
  lemma DealtWhole(ps: seq<Player>, deck: seq<int>, n: nat)
    requires |deck| >= n * |ps|
    ensures var d := Dealt(ps, deck, n);
      |d.0| == |ps| &&
      (forall i :: 0 <= i < |ps| ==>
        d.0[i] == ps[i].(hand := d.0[i].hand) && IsSorted(d.0[i].hand) && |d.0[i].hand| == n) &&
      |d.1| == |deck| - n * |ps| && d.1 == deck[..|d.1|] &&
      HandsOf(d.0) + multiset(d.1) == multiset(deck) &&
      HandCount(d.0) + |d.1| == |deck|
  {
    var d := Dealt(ps, deck, n);
    DealtFull(ps, deck, n);
    DealtSeats(ps, deck, n);
    DealtConserves(ps, deck, n);
    DealtPrefix(ps, deck, n);
    HandCountIsSize(d.0);
    assert |HandsOf(d.0) + multiset(d.1)| == |multiset(deck)|;
  }

  /** The deck left after dealing is what was below the cards dealt: a prefix of the old deck. */
  lemma {:induction false} DealtPrefix(ps: seq<Player>, deck: seq<int>, n: nat)
    ensures var left := Dealt(ps, deck, n).1;
      |left| <= |deck| && left == deck[..|left|]
  {
    if ps != [] {
      var m := Min(n, |deck|);
      var d' := deck[..|deck| - m];
      DealtPrefix(ps[1..], d', n);
      var left := Dealt(ps[1..], d', n).1;
      assert Dealt(ps, deck, n).1 == DealtNext(ps, deck, n).1 == left;
      assert d'[..|left|] == deck[..|left|];
    }
  }
}
