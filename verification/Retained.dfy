/** The array slot a delete keeps pointing at while the devices below go: which device stands in
    it after any sequence of removals. */
module Retained {
  import opened CascadeOrder

  // The smallest live id above `y`, or `y` itself if there is none.
  ghost function NextAbove(live: set<int>, y: int): (z: int)
    ensures if exists x :: x in live && x > y
            then z in live && z > y && forall x :: x in live && x > y ==> z <= x
            else z == y
  {
    if x :| x in live && x > y then SmallestAbove(live, y, x) else y
  }

  ghost function SmallestAbove(live: set<int>, y: int, x: int): (z: int)
    requires x in live && x > y
    ensures z in live && z > y && forall w :: w in live && w > y ==> z <= w
    decreases x - y
  {
    if w :| w in live && y < w < x then SmallestAbove(live, y, w) else x
  }

  // The slot where `id` stood holds `y` after the removals of `gone`: every removal of an id up to
  // the current one hands the slot to the next larger live id, if there is one.
  ghost function Occupant(live: set<int>, gone: seq<int>, id: int): (y: int)
    ensures y >= id
    decreases |gone|
  {
    if gone == [] then id else
      var n := |gone| - 1;
      var y := Occupant(live, gone[..n], id);
      if gone[n] > y then y else NextAbove(live - Elements(gone[..n]), y)
  }

  // ---------------------------------------------------------------- when it is still the device

  lemma SlotSafeStep(live: set<int>, order: seq<int>, id: int)
    requires order != []
    ensures var n := |order| - 1;
      SlotSafe(live, order, id) <==>
      (SlotSafe(live, order[..n], id) && (order[n] < id ==> forall y :: y in live && y > id ==> y in order[..n]))
  {
    var n := |order| - 1;
    assert forall j :: 0 <= j < n ==> order[..n][..j] == order[..j];
    if SlotSafe(live, order, id) {
      forall j, y | 0 <= j < n && order[..n][j] < id && y in live && y > id ensures y in order[..n][..j] {
        assert order[j] < id;
      }
    }
    if SlotSafe(live, order[..n], id) && (order[n] < id ==> forall y :: y in live && y > id ==> y in order[..n]) {
      forall j, y | 0 <= j < |order| && order[j] < id && y in live && y > id ensures y in order[..j] {
        if j < n { assert order[..n][j] < id; }
      }
    }
  }

  // The slot still holds `id` exactly when the order of removals was safe for it.
  lemma {:induction false} OccupantIsId(live: set<int>, gone: seq<int>, id: int)
    requires id !in gone
    ensures Occupant(live, gone, id) == id <==> SlotSafe(live, gone, id)
    decreases |gone|
  {
    if gone != [] {
      var n := |gone| - 1;
      OccupantIsId(live, gone[..n], id);
      SlotSafeStep(live, gone, id);
      assert forall y :: y in live - Elements(gone[..n]) <==> y in live && y !in gone[..n];
    }
  }

  lemma {:induction false} OccupantIsLive(live: set<int>, gone: seq<int>, id: int)
    requires id in live
    ensures Occupant(live, gone, id) in live
    decreases |gone|
  {
    if gone != [] {
      OccupantIsLive(live, gone[..|gone| - 1], id);
    }
  }

  // ---------------------------------------------------------------- by rank

  ghost function Larger(live: set<int>, id: int): set<int> {
    set y | y in live && y > id
  }

  ghost function Smaller(a: nat, b: nat): nat {
    if a < b then a else b
  }

  // Without recursion: with n larger ids at the start, the occupant is the survivor of the first n
  // removals that has as many larger survivors as there were removals short of n.
  lemma {:induction false} OccupantRank(live: set<int>, gone: seq<int>, id: int)
    requires id in live && Distinct(gone) && Elements(gone) <= live - {id}
    ensures var n := |Larger(live, id)|;
      var m := Smaller(|gone|, n);
      var rest := live - Elements(gone[..m]);
      Occupant(live, gone, id) in rest && |Larger(rest, Occupant(live, gone, id))| == n - m
    decreases |gone|
  {
    var n := |Larger(live, id)|;
    if gone == [] {
      assert live - Elements(gone[..0]) == live;
    } else {
      var l := |gone| - 1;
      var x, before := gone[l], gone[..l];
      assert forall y :: y in Elements(before) ==> y in Elements(gone);
      OccupantRank(live, before, id);
      var y := Occupant(live, before, id);
      if l < n {
        assert before[..l] == before && gone[..l + 1] == gone;
        var rest := live - Elements(before);
        assert x in Elements(gone) && x in rest;
        assert live - Elements(gone) == rest - {x};
        RankStep(rest, y, x);
      } else {
        assert before[..n] == gone[..n];
        var rest := live - Elements(gone[..n]);
        assert Larger(rest, y) == {};
        assert forall z :: z in live - Elements(before) ==> z in rest;
        assert forall z :: z in live - Elements(before) && z > y ==> z in Larger(rest, y);
        assert Occupant(live, gone, id) == y;
      }
    }
  }

  // One removal that leaves something above the occupant or takes it from there.
  lemma RankStep(rest: set<int>, y: int, x: int)
    requires y in rest && x in rest && Larger(rest, y) != {}
    ensures var z := if x > y then y else NextAbove(rest, y);
      z in rest - {x} && |Larger(rest - {x}, z)| == |Larger(rest, y)| - 1
  {
    var z := if x > y then y else NextAbove(rest, y);
    var w :| w in Larger(rest, y);
    if x > y {
      assert Larger(rest - {x}, y) == Larger(rest, y) - {x};
    } else {
      assert z in Larger(rest, y);
      assert Larger(rest - {x}, z) == Larger(rest, y) - {z};
    }
  }

  // No live id above `y` is outside `gone`.
  ghost predicate NoneAbove(live: set<int>, gone: seq<int>, y: int) {
    forall z :: z in live && z > y ==> z in gone
  }

  lemma LastOfFirst(live: set<int>, gone: seq<int>, id: int)
    requires id in live && Distinct(gone) && Elements(gone) <= live - {id} && |Larger(live, id)| < |gone|
    ensures var first, y := gone[..|Larger(live, id)|], Occupant(live, gone, id);
      y in live && y !in first && NoneAbove(live, first, y)
  {
    OccupantRank(live, gone, id);
    var first, o := gone[..|Larger(live, id)|], Occupant(live, gone, id);
    var rest := live - Elements(first);
    assert o in rest && Larger(rest, o) == {};
    forall z | z in live && z > o ensures z in first {
      assert z !in Larger(rest, o);
    }
  }

  // The slot holds a copy of a device that is gone exactly when more ids went than were larger than
  // `id`, and the largest survivor of the first of them went later.
  lemma StaleExactly(live: set<int>, gone: seq<int>, id: int)
    requires id in live && Distinct(gone) && Elements(gone) <= live - {id}
    ensures var n := |Larger(live, id)|;
      Occupant(live, gone, id) in gone <==>
      n < |gone| && exists y :: y in gone[n..] && NoneAbove(live, gone[..n], y)
  {
    var n, o := |Larger(live, id)|, Occupant(live, gone, id);
    if n < |gone| {
      LastOfFirst(live, gone, id);
      assert gone == gone[..n] + gone[n..];
      forall y | y in gone[n..] && NoneAbove(live, gone[..n], y) ensures o == y {
        assert y in gone && y in Elements(gone) && y !in gone[..n];
      }
    } else {
      OccupantRank(live, gone, id);
      assert gone[..|gone|] == gone;
      assert o in gone <==> o in Elements(gone);
    }
  }
}
