/** Cards, the deck as built and shuffled, drawing from its end, and the hand operations. */
module Cards {

  /** The real cards are 2..99; 1 and 100 only ever appear as pile sentinels. */
  const LOWEST_CARD: int := 2
  const HIGHEST_CARD: int := 99
  const DECK_SIZE: int := 98

  function Min(a: int, b: int): int { if a <= b then a else b }

  /** The cards lo, lo + 1, ..., hi - 1 in increasing order, as the deck's push loop builds them. */
  function Range(lo: int, hi: int): (r: seq<int>)
    decreases hi - lo
    ensures |r| == if lo <= hi then hi - lo else 0
    ensures forall i :: 0 <= i < |r| ==> r[i] == lo + i
  {
    if hi <= lo then [] else Range(lo, hi - 1) + [hi - 1]
  }

  /** Each card of Range(lo, hi) occurs once, and nothing else occurs. */
  lemma {:induction false} RangeCount(lo: int, hi: int, c: int)
    decreases hi - lo
    ensures multiset(Range(lo, hi))[c] == if lo <= c < hi then 1 else 0
  {
    if lo < hi {
      RangeCount(lo, hi - 1, c);
      assert Range(lo, hi) == Range(lo, hi - 1) + [hi - 1];
    }
  }

  predicate RealCardBelow(c: int, hi: int)
  {
    LOWEST_CARD <= c < hi
  }

  /** The real cards below hi, each once. */
  function CardsBelow(hi: int): multiset<int>
  {
    multiset(set c | LOWEST_CARD <= c < hi && RealCardBelow(c, hi))
  }

  /** The 98 real cards, each exactly once. */
  function FullDeck(): multiset<int>
  {
    CardsBelow(HIGHEST_CARD + 1)
  }

  lemma FullDeckCards(c: int)
    ensures FullDeck()[c] == if LOWEST_CARD <= c <= HIGHEST_CARD then 1 else 0
  {
  }

  /** The push loop's cards are the real cards below hi. */
  lemma RangeIsCards(hi: int)
    ensures multiset(Range(LOWEST_CARD, hi)) == CardsBelow(hi)
  {
    forall c ensures multiset(Range(LOWEST_CARD, hi))[c] == CardsBelow(hi)[c] {
      RangeCount(LOWEST_CARD, hi, c);
    }
  }

  /** Exchanging two positions, one step of the shuffle. */
  function Swap(s: seq<int>, i: nat, j: nat): (r: seq<int>)
    requires i < |s| && j < |s|
    ensures |r| == |s| && multiset(r) == multiset(s)
  {
    s[i := s[j]][j := s[i]]
  }

  /** The m cards popped off the end of d, in the order they come off: the last card first. */
  function Popped(d: seq<int>, m: nat): (r: seq<int>)
    requires m <= |d|
    ensures |r| == m
  {
    if m == 0 then [] else Popped(d, m - 1) + [d[|d| - m]]
  }

  /** The i-th card popped is the i-th from the deck's end. */
  lemma {:induction false} PoppedFromEnd(d: seq<int>, m: nat)
    requires m <= |d|
    ensures forall i :: 0 <= i < m ==> Popped(d, m)[i] == d[|d| - 1 - i]
  {
    if m > 0 {
      PoppedFromEnd(d, m - 1);
    }
  }

  /** Drawing moves cards and creates none: what was drawn plus what is left is the old deck. */
  lemma {:induction false} DrawKeepsCards(d: seq<int>, m: nat)
    requires m <= |d|
    ensures multiset(Popped(d, m)) + multiset(d[..|d| - m]) == multiset(d)
  {
    var k := |d| - m;
    if m == 0 {
      assert d[..k] == d;
    } else {
      DrawKeepsCards(d, m - 1);
      assert d[..k + 1] == d[..k] + [d[k]];
    }
  }

  predicate IsSorted(s: seq<int>)
  {
    forall i, j :: 0 <= i < j < |s| ==> s[i] <= s[j]
  }

  /** Puts x into a sorted hand in front of the first card not smaller than it. */
  function Insert(x: int, s: seq<int>): (r: seq<int>)
    ensures |r| == |s| + 1
  {
    if s == [] || x <= s[0] then [x] + s else [s[0]] + Insert(x, s[1..])
  }

  lemma {:induction false} InsertKeepsCards(x: int, s: seq<int>)
    ensures multiset(Insert(x, s)) == multiset(s) + multiset{x}
  {
    if s != [] && x > s[0] {
      InsertKeepsCards(x, s[1..]);
      calc {
        multiset(Insert(x, s));
        multiset([s[0]] + Insert(x, s[1..]));
        multiset{s[0]} + multiset(Insert(x, s[1..]));
        multiset{s[0]} + multiset(s[1..]) + multiset{x};
        { assert s == [s[0]] + s[1..]; }
        multiset(s) + multiset{x};
      }
    }
  }

  /** A card no larger than any card of a sorted hand can go in front of it. */
  lemma ConsKeepsSorted(x: int, s: seq<int>)
    requires IsSorted(s)
    requires forall k :: 0 <= k < |s| ==> x <= s[k]
    ensures IsSorted([x] + s)
  {
    var r := [x] + s;
    forall i, j | 0 <= i < j < |r| ensures r[i] <= r[j] {
      assert r[j] == s[j - 1];
      if i > 0 {
        assert r[i] == s[i - 1];
      }
    }
  }

  lemma {:induction false} InsertKeepsSorted(x: int, s: seq<int>)
    requires IsSorted(s)
    ensures IsSorted(Insert(x, s))
  {
    if s == [] || x <= s[0] {
      ConsKeepsSorted(x, s);
    } else {
      var rest := Insert(x, s[1..]);
      InsertKeepsSorted(x, s[1..]);
      InsertKeepsCards(x, s[1..]);
      forall k | 0 <= k < |rest| ensures s[0] <= rest[k] {
        assert rest[k] in multiset(rest);
      }
      ConsKeepsSorted(s[0], rest);
    }
  }

  /** A hand sorted ascending, as Array.prototype.sort with (a, b) => a - b leaves it: the last card is
      inserted into the sorted rest. */
  function SortAsc(s: seq<int>): (r: seq<int>)
    ensures |r| == |s|
  {
    if s == [] then [] else Insert(s[|s| - 1], SortAsc(s[..|s| - 1]))
  }

  /** Sorting leaves the hand in ascending order and holding the same cards. */
  lemma {:induction false} SortAscSorts(s: seq<int>)
    ensures IsSorted(SortAsc(s)) && multiset(SortAsc(s)) == multiset(s)
  {
    if s != [] {
      var init := s[..|s| - 1];
      SortAscSorts(init);
      InsertKeepsCards(s[|s| - 1], SortAsc(init));
      InsertKeepsSorted(s[|s| - 1], SortAsc(init));
      assert s == init + [s[|s| - 1]];
    }
  }

  /** The hand after filtering out every copy of c, keeping the order of the rest. */
  function Without(s: seq<int>, c: int): (r: seq<int>)
    ensures |r| <= |s|
  {
    if s == [] then []
    else if s[0] == c then Without(s[1..], c)
    else [s[0]] + Without(s[1..], c)
  }

  /** Filtering removes every copy of c and keeps every other card as often as it was held. */
  lemma {:induction false} WithoutCount(s: seq<int>, c: int, x: int)
    ensures multiset(Without(s, c))[x] == if x == c then 0 else multiset(s)[x]
  {
    if s != [] {
      WithoutCount(s[1..], c, x);
      assert s == [s[0]] + s[1..];
      assert multiset(s)[x] == multiset{s[0]}[x] + multiset(s[1..])[x];
      if s[0] != c {
        assert multiset([s[0]] + Without(s[1..], c))[x] == multiset{s[0]}[x] + multiset(Without(s[1..], c))[x];
      }
    }
  }

  /** Filtering keeps a sorted hand sorted. */
  lemma {:induction false} WithoutKeepsSorted(s: seq<int>, c: int)
    requires IsSorted(s)
    ensures IsSorted(Without(s, c))
  {
    if s != [] {
      WithoutKeepsSorted(s[1..], c);
      var rest := Without(s[1..], c);
      forall k | 0 <= k < |rest| ensures s[0] <= rest[k] {
        assert rest[k] in multiset(rest);
        WithoutCount(s[1..], c, rest[k]);
        assert rest[k] in s[1..];
      }
    }
  }

  /** A card held once leaves the hand exactly once when it is played. */
  lemma WithoutHeldCard(s: seq<int>, c: int)
    requires c in s && multiset(s)[c] <= 1
    ensures multiset(Without(s, c)) + multiset{c} == multiset(s)
    ensures |Without(s, c)| + 1 == |s|
  {
    forall x ensures (multiset(Without(s, c)) + multiset{c})[x] == multiset(s)[x] {
      WithoutCount(s, c, x);
    }
    assert multiset(Without(s, c)) + multiset{c} == multiset(s);
  }

  predicate NoDuplicates(s: seq<int>)
  {
    forall i, j :: 0 <= i < j < |s| ==> s[i] != s[j]
  }

  /** The distinct elements of s in order of first occurrence (spreading a Set built from s). */
  function Dedup(s: seq<int>): seq<int>
  {
    if s == [] then []
    else
      var d := Dedup(s[..|s| - 1]);
      if s[|s| - 1] in d then d else d + [s[|s| - 1]]
  }

  /** The position of the first occurrence of x in s. */
  function FirstIndex(s: seq<int>, x: int): (r: nat)
    requires x in s
    ensures r < |s| && s[r] == x && forall j :: 0 <= j < r ==> s[j] != x
  {
    if s[0] == x then 0 else 1 + FirstIndex(s[1..], x)
  }

  /** Appending a card leaves the first occurrences of the cards already present where they were. */
  lemma FirstIndexAppend(s: seq<int>, y: int, x: int)
    requires x in s
    ensures FirstIndex(s + [y], x) == FirstIndex(s, x)
  {
    var b := FirstIndex(s, x);
    assert (s + [y])[b] == x;
  }

  /** Dedup keeps the distinct elements in the order of their first occurrences in s. */
  lemma {:induction false} DedupOrder(s: seq<int>)
    ensures forall x :: x in Dedup(s) ==> x in s
    ensures forall i, j :: 0 <= i < j < |Dedup(s)| ==> FirstIndex(s, Dedup(s)[i]) < FirstIndex(s, Dedup(s)[j])
  {
    if s != [] {
      var init, y := s[..|s| - 1], s[|s| - 1];
      var d := Dedup(init);
      DedupOrder(init);
      assert s == init + [y];
      forall x | x in d ensures FirstIndex(s, x) == FirstIndex(init, x) {
        FirstIndexAppend(init, y, x);
      }
      if y !in d {
        DedupMembers(init);
        assert y !in init;
        assert FirstIndex(s, y) == |init|;
      }
    }
  }

  /** Dedup keeps exactly the elements of s, each once. */
  lemma {:induction false} DedupMembers(s: seq<int>)
    ensures forall x :: x in Dedup(s) <==> x in s
    ensures NoDuplicates(Dedup(s))
  {
    if s != [] {
      var init := s[..|s| - 1];
      DedupMembers(init);
      assert s == init + [s[|s| - 1]];
    }
  }
}
