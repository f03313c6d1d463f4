/** The per-pile warning and intention lists: each entry records which player raised it. */
module Markers {

  datatype Marker = Marker(playerId: string, playerName: string)

  /** Array.prototype.findIndex on a marker list: the first entry of the player, or -1. */
  function FindMarker(ms: seq<Marker>, id: string): (k: int)
    ensures -1 <= k < |ms|
    ensures k == -1 <==> forall i :: 0 <= i < |ms| ==> ms[i].playerId != id
    ensures k >= 0 ==> ms[k].playerId == id && forall i :: 0 <= i < k ==> ms[i].playerId != id
  {
    if ms == [] then -1
    else if ms[0].playerId == id then 0
    else
      var k := FindMarker(ms[1..], id);
      if k == -1 then -1 else k + 1
  }

  predicate HasMarker(ms: seq<Marker>, id: string)
  {
    exists i :: 0 <= i < |ms| && ms[i].playerId == id
  }

  /** No player appears twice in a list. */
  predicate UniqueMarkers(ms: seq<Marker>)
  {
    forall i, j :: 0 <= i < j < |ms| ==> ms[i].playerId != ms[j].playerId
  }

  /** The entries of the other players, in order. */
  function Others(ms: seq<Marker>, id: string): seq<Marker>
  {
    if ms == [] then []
    else
      Others(ms[..|ms| - 1], id) + (if ms[|ms| - 1].playerId == id then [] else [ms[|ms| - 1]])
  }

  /** Raising a marker a second time withdraws it: the player's entry is spliced out if present,
      appended (with the player's name) otherwise. */
  function Toggle(ms: seq<Marker>, id: string, name: string): seq<Marker>
  {
    var k := FindMarker(ms, id);
    if k != -1 then ms[..k] + ms[k + 1..] else ms + [Marker(id, name)]
  }

  lemma {:induction false} OthersAppend(a: seq<Marker>, b: seq<Marker>, id: string)
    ensures Others(a + b, id) == Others(a, id) + Others(b, id)
  {
    if b != [] {
      var b' := b[..|b| - 1];
      assert (a + b)[..|a + b| - 1] == a + b';
      OthersAppend(a, b', id);
    } else {
      assert a + b == a;
    }
  }

  lemma {:induction false} OthersNone(ms: seq<Marker>, id: string)
    requires forall i :: 0 <= i < |ms| ==> ms[i].playerId == id
    ensures Others(ms, id) == []
  {
    if ms != [] {
      OthersNone(ms[..|ms| - 1], id);
    }
  }

  /** Toggling flips whether the player has a marker in the list. */
  lemma ToggleFlips(ms: seq<Marker>, id: string, name: string)
    requires UniqueMarkers(ms)
    ensures HasMarker(Toggle(ms, id, name), id) <==> !HasMarker(ms, id)
  {
    var k := FindMarker(ms, id);
    var t := Toggle(ms, id, name);
    if k != -1 {
      forall i | 0 <= i < |t| ensures t[i].playerId != id {
        if i < k {
          assert t[i] == ms[i];
        } else {
          assert t[i] == ms[i + 1];
        }
      }
    } else {
      assert t[|ms|].playerId == id;
    }
  }

  lemma DropKeepsOthers(ms: seq<Marker>, k: nat, id: string)
    requires k < |ms| && ms[k].playerId == id
    ensures Others(ms[..k] + ms[k + 1..], id) == Others(ms, id)
  {
    var pre, post := ms[..k], ms[k + 1..];
    assert ms == pre + ([ms[k]] + post);
    OthersNone([ms[k]], id);
    calc {
      Others(ms, id);
      { OthersAppend(pre, [ms[k]] + post, id); }
      Others(pre, id) + Others([ms[k]] + post, id);
      { OthersAppend([ms[k]], post, id); }
      Others(pre, id) + Others(post, id);
      { OthersAppend(pre, post, id); }
      Others(pre + post, id);
    }
  }

  /** Toggling never touches another player's entries, nor their order. */
  lemma ToggleKeepsOthers(ms: seq<Marker>, id: string, name: string)
    ensures Others(Toggle(ms, id, name), id) == Others(ms, id)
  {
    var k := FindMarker(ms, id);
    if k != -1 {
      DropKeepsOthers(ms, k, id);
    } else {
      OthersAppend(ms, [Marker(id, name)], id);
      OthersNone([Marker(id, name)], id);
    }
  }

  /** A list with at most one entry per player stays that way. */
  lemma ToggleKeepsUnique(ms: seq<Marker>, id: string, name: string)
    requires UniqueMarkers(ms)
    ensures UniqueMarkers(Toggle(ms, id, name))
  {
    var k := FindMarker(ms, id);
    var t := Toggle(ms, id, name);
    if k != -1 {
      forall i, j | 0 <= i < j < |t| ensures t[i].playerId != t[j].playerId {
        var i' := if i < k then i else i + 1;
        var j' := if j < k then j else j + 1;
        assert t[i] == ms[i'] && t[j] == ms[j'];
      }
    }
  }

  /** Raising and withdrawing a marker that was not there leaves the list exactly as it was. */
  lemma ToggleTwiceAbsent(ms: seq<Marker>, id: string, name: string)
    requires !HasMarker(ms, id)
    ensures Toggle(Toggle(ms, id, name), id, name) == ms
  {
    var t := ms + [Marker(id, name)];
    assert FindMarker(ms, id) == -1;
    assert Toggle(ms, id, name) == t;
    assert FindMarker(t, id) == |ms| by {
      assert t[|ms|].playerId == id;
    }
    assert t[..|ms|] == ms;
  }

  /** Withdrawing and raising again keeps the same entries but moves the player's to the end, under the
      name given now. */
  lemma ToggleTwicePresent(ms: seq<Marker>, id: string, name: string)
    requires UniqueMarkers(ms) && HasMarker(ms, id)
    ensures var k := FindMarker(ms, id);
      Toggle(Toggle(ms, id, name), id, name) == ms[..k] + ms[k + 1..] + [Marker(id, name)]
  {
    ToggleFlips(ms, id, name);
  }
}
