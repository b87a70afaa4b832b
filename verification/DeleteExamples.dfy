/** Small installations in which a delete does not do what was asked, although every exchange with
    a running device succeeds. */
module DeleteExamples {
  import opened Domotics
  import opened Forest
  import opened Subtree
  import opened CascadeOrder
  import opened Retained
  import opened CascadeFate
  import opened Registry
  import opened Purge
  import opened CascadeSteps
  import opened ControllerLaws

  // ---------------------------------------------------------------- small installations

  // Device i + 1 has the parent ps[i]; a device with children is a hub, any other a bulb.
  ghost function Few(ps: seq<int>): State
    requires |ps| <= MAX_DEVICES
  {
    State(seq(MAX_DEVICES, i requires 0 <= i => SlotOf(ps, i)), |ps|, |ps| + 1,
          seq(MAX_DEVICES, i requires 0 <= i => NodeOf(ps, i)))
  }

  ghost function KindOf(ps: seq<int>, id: int): DeviceType {
    if id in ps then Hub else Bulb
  }

  ghost function SlotOf(ps: seq<int>, i: nat): Registry.Device {
    if i < |ps| then Registry.Device(i + 1, KindOf(ps, i + 1), 101 + i, ps[i])
    else Registry.Device(0, DeviceType.Controller, 0, CONTROLLER_ID)
  }

  ghost function NodeOf(ps: seq<int>, i: nat): Node {
    if i < |ps| then Node(i + 1, ps[i], KindOf(ps, i + 1)) else FREE
  }

  // Each device lies deeper than its parent.
  ghost predicate Nested(ps: seq<int>, depth: seq<nat>) {
    |ps| == |depth| <= MAX_DEVICES && forall i :: 0 <= i < |ps| ==> ParentAbove(ps, depth, i)
  }

  ghost predicate ParentAbove(ps: seq<int>, depth: seq<nat>, i: nat)
    requires i < |ps| == |depth|
  {
    ps[i] == CONTROLLER_ID || (1 <= ps[i] <= |ps| && depth[ps[i] - 1] < depth[i])
  }

  lemma FewLookup(ps: seq<int>, x: int)
    requires |ps| <= MAX_DEVICES
    ensures UniqueIds(Few(ps).table) && (x >= 1 ==> (Has(Few(ps).table, x) <==> x <= |ps|))
    ensures 1 <= x <= |ps| ==> IndexOf(Few(ps).table, x) == x - 1 && Step(Few(ps).table, x) == ps[x - 1]
  {
    var t := Few(ps).table;
    if 1 <= x <= |ps| {
      assert t[x - 1].id == x;
      IndexOfSlot(t, x - 1);
    }
  }

  lemma {:induction false} FewRooted(ps: seq<int>, depth: seq<nat>, x: int)
    requires Nested(ps, depth) && 1 <= x <= |ps|
    ensures Rooted(Few(ps).table, x)
    decreases depth[x - 1]
  {
    var t := Few(ps).table;
    FewLookup(ps, x);
    assert ParentAbove(ps, depth, x - 1);
    assert Up(t, CONTROLLER_ID, 0) == CONTROLLER_ID;
    if ps[x - 1] != CONTROLLER_ID {
      FewRooted(ps, depth, ps[x - 1]);
    }
    RootedStep(t, x);
  }

  ghost function UpTo(n: nat): (r: set<int>)
    ensures forall x :: x in r <==> 1 <= x <= n
  {
    if n == 0 then {} else UpTo(n - 1) + {n}
  }

  lemma FewValid(ps: seq<int>, depth: seq<nat>)
    requires Nested(ps, depth)
    ensures Valid(Few(ps)) && DistinctPids(Few(ps)) && Ids(Few(ps)) == UpTo(|ps|)
    ensures forall x :: x in UpTo(|ps|) ==> IsDevice(Few(ps).table, x)
  {
    FewWellFormed(ps, depth);
    FewInStep(ps);
    FewIds(ps);
    forall x | x in UpTo(|ps|) ensures IsDevice(Few(ps).table, x) {
      FewLookup(ps, x);
    }
  }

  lemma FewIds(ps: seq<int>)
    requires |ps| <= MAX_DEVICES
    ensures Ids(Few(ps)) == UpTo(|ps|)
  {
    forall x | x in UpTo(|ps|) ensures x in Ids(Few(ps)) {
      assert Few(ps).slots[x - 1].id == x;
    }
  }

  lemma FewWellFormed(ps: seq<int>, depth: seq<nat>)
    requires Nested(ps, depth)
    ensures WellFormed(Few(ps).table)
  {
    var t := Few(ps).table;
    FewLookup(ps, 0);
    forall i | 0 <= i < |t| ensures GoodSlot(t, t[i])
                            ensures t[i].id >= 0 ==> Rooted(t, t[i].id) {
      if i < |ps| {
        assert ParentAbove(ps, depth, i) && ps[i] in ps;
        FewLookup(ps, ps[i]);
        FewRooted(ps, depth, i + 1);
      }
    }
  }

  lemma FewInStep(ps: seq<int>)
    requires |ps| <= MAX_DEVICES
    ensures InStep(Few(ps))
  {
    var s := Few(ps);
    forall i | 0 <= i < s.count ensures Mirrored(s.table, s.slots[i]) {
      FewLookup(ps, i + 1);
    }
    forall x | x >= 1 && Has(s.table, x) ensures InArray(s.slots, s.count, x) {
      FewLookup(ps, x);
      assert s.slots[x - 1].id == x;
    }
  }

  // The children in slot order.
  ghost function Kids(ps: seq<int>, p: int): seq<int> {
    if ps == [] then [] else
      var n := |ps| - 1;
      Kids(ps[..n], p) + (if ps[n] == p then [n + 1] else [])
  }

  lemma {:induction false} KidsAre(ps: seq<int>, p: int, n: nat)
    requires |ps| <= MAX_DEVICES && n <= MAX_DEVICES && p >= 1
    ensures Children(Few(ps).table[..n], p) == Kids(ps[..Smaller(n, |ps|)], p)
    decreases n
  {
    var t := Few(ps).table;
    if n > 0 {
      KidsAre(ps, p, n - 1);
      assert t[..n][..n - 1] == t[..n - 1];
      if n <= |ps| {
        assert ps[..n][..n - 1] == ps[..n - 1];
      }
    }
  }

  lemma ChildrenAre(ps: seq<int>, p: int)
    requires |ps| <= MAX_DEVICES && p >= 1
    ensures Children(Few(ps).table, p) == Kids(ps, p)
  {
    KidsAre(ps, p, MAX_DEVICES);
    assert Few(ps).table[..MAX_DEVICES] == Few(ps).table && ps[..|ps|] == ps;
  }

  // ---------------------------------------------------------------- fates step by step

  lemma LeafFate(t: seq<Node>, live: set<int>, id: int)
    requires WellFormed(t) && IsDevice(t, id) && Children(t, id) == []
    ensures FateOf(t, live, id) == Fate([id], [id], {}, OK, NO_PARENT)
  {
    ChildrenOf(t, id);
    assert FateAll(t, live, id, []) == NOTHING_YET;
    assert [] + [id] == [id];
  }

  lemma OnlyChild(t: seq<Node>, live: set<int>, id: int, c: int)
    requires WellFormed(t) && IsDevice(t, id) && Children(t, id) == [c]
    ensures IsDevice(t, c) && FateOf(t, live, id) == EndOf(live, id, GoesOn(NOTHING_YET, FateOf(t, live, c)))
  {
    ChildrenOf(t, id);
    assert c in [c] && [c][..0] == [];
    assert live - Elements([]) == live;
    assert FateAll(t, live, id, [c]) == GoesOn(NOTHING_YET, FateOf(t, live, c));
  }

  lemma TwoChildren(t: seq<Node>, live: set<int>, id: int, c: int, d: int)
    requires WellFormed(t) && IsDevice(t, id) && Children(t, id) == [c, d]
    ensures IsDevice(t, c) && IsDevice(t, d)
    ensures var f := FateOf(t, live, c);
      f.rc == OK ==>
      FateOf(t, live, id) == EndOf(live, id, GoesOn(GoesOn(NOTHING_YET, f), FateOf(t, live - Elements([] + f.gone), d)))
  {
    ChildrenOf(t, id);
    assert c in [c, d] && d in [c, d] && [c, d][..1] == [c] && [c][..0] == [];
    assert live - Elements([]) == live;
    assert FateAll(t, live, id, [c]) == GoesOn(NOTHING_YET, FateOf(t, live, c));
  }

  lemma OccupantOfTwo(live: set<int>, x: int, z: int, id: int)
    ensures Occupant(live, [x], id) == if x > id then id else NextAbove(live, id)
    ensures var y := Occupant(live, [x], id);
      Occupant(live, [x, z], id) == if z > y then y else NextAbove(live - {x}, y)
  {
    assert [x][..0] == [] && [x, z][..1] == [x];
    assert Occupant(live, [], id) == id;
    assert live - Elements([]) == live && Elements([x]) == {x};
  }

  // ---------------------------------------------------------------- the examples

  lemma MissFate(t: seq<Node>, live: set<int>)
    requires WellFormed(t) && IsDevice(t, 2) && Children(t, 2) == [1] && Children(t, 1) == [] && live == {1, 2, 3}
    ensures FateOf(t, live, 2) == Fate([1, 3], [1], {}, ERR_TIMEOUT, 2)
  {
    OnlyChild(t, live, 2, 1);
    LeafFate(t, live, 1);
    OccupantOfTwo(live, 1, 3, 2);
    assert [] + [1] == [1] && [1] + [3] == [1, 3];
    assert NextAbove(live, 2) == 3;
  }

  // Hub 1 was linked under hub 2, bulb 3 stands alone.  Deleting 2 removes 1 and, in the place of
  // 2, the bulb; the command times out.
  lemma DeleteCanMissItsDevice(ps: seq<int>, s': State, rc: Code)
    requires ps == [2, 0, 0]
    ensures Valid(Few(ps)) && DistinctPids(Few(ps)) && IsDevice(Few(ps).table, 2)
    ensures DeletedWell(Few(ps), 2, s', rc) ==> rc == ERR_TIMEOUT && s'.count <= |s'.slots| && Ids(s') == {2}
  {
    var s := Few(ps);
    FewValid(ps, [1, 0, 0]);
    KidsOfThree(ps, 1);
    KidsOfThree(ps, 2);
    assert UpTo(|ps|) == {1, 2, 3};
    MissFate(s.table, Ids(s));
    PurgedValid(s, [1, 3]);
    assert Elements([1, 3]) == {1, 3};
  }

  // Two bulbs under a hub, one with a smaller id and one with the only larger one.
  lemma StaleFate(t: seq<Node>, live: set<int>, id: int, c: int, d: int)
    requires WellFormed(t) && IsDevice(t, id)
    requires Children(t, id) == [c, d] && Children(t, c) == [] && Children(t, d) == []
    requires c < id < d && d in live && forall z :: z in live && z > id ==> z == d
    ensures FateOf(t, live, id) == Fate([c, d], [c, d, id], {id}, ERR_DEVICE_NOT_FOUND, NO_PARENT)
  {
    TwoChildren(t, live, id, c, d);
    LeafFate(t, live, c);
    LeafFate(t, live - Elements([] + [c]), d);
    TwoLeaves(live, id, c, d);
  }

  lemma TwoLeaves(live: set<int>, id: int, c: int, d: int)
    requires c < id < d && d in live && forall z :: z in live && z > id ==> z == d
    ensures var leaf := (x: int) => Fate([x], [x], {}, OK, NO_PARENT);
      EndOf(live, id, GoesOn(GoesOn(NOTHING_YET, leaf(c)), leaf(d))) ==
        Fate([c, d], [c, d, id], {id}, ERR_DEVICE_NOT_FOUND, NO_PARENT)
  {
    OccupantOfTwo(live, c, d, id);
    assert [] + [c] == [c] && [c] + [d] == [c, d] && [c, d] + [id] == [c, d, id];
    assert NextAbove(live, id) == d && NextAbove(live - {c}, d) == d;
  }

  // Bulbs 1 and 3 are under hub 2.  Deleting 2 removes both bulbs; the slot then holds a copy of
  // bulb 3, whose FIFO is gone, so the command answers "not found" and leaves the hub.
  lemma DeleteCanNotFindItsDevice(ps: seq<int>, s': State, rc: Code)
    requires ps == [2, 0, 2]
    ensures Valid(Few(ps)) && DistinctPids(Few(ps)) && IsDevice(Few(ps).table, 2)
    ensures DeletedWell(Few(ps), 2, s', rc) ==>
      rc == ERR_DEVICE_NOT_FOUND && s'.count <= |s'.slots| && Ids(s') == {2}
  {
    var s := Few(ps);
    FewValid(ps, [1, 0, 1]);
    KidsOfThree(ps, 1);
    KidsOfThree(ps, 2);
    KidsOfThree(ps, 3);
    assert UpTo(|ps|) == {1, 2, 3};
    StaleFate(s.table, Ids(s), 2, 1, 3);
    PurgedValid(s, [1, 3]);
    assert Elements([1, 3]) == {1, 3};
  }

  lemma RootFate(t: seq<Node>, live: set<int>)
    requires WellFormed(t) && IsDevice(t, 3) && live == {1, 2, 3}
    requires Children(t, 3) == [2] && Children(t, 2) == [1] && Children(t, 1) == []
    ensures FateOf(t, live, 3) == Fate([1, 3], [1], {}, ERR_TIMEOUT, 2)
  {
    OnlyChild(t, live, 3, 2);
    MissFate(t, live);
    assert [] + [1, 3] == [1, 3] && [] + [1] == [1];
  }

  // Bulb 1 is under hub 2, which is under hub 3.  Deleting 3 fails while it deletes 2: the end of
  // that finds 3 in its slot and removes it.  The device named in the command is gone, hub 2 stays,
  // and the command times out.
  lemma DeleteCanTimeOutAndRemove(ps: seq<int>, s': State, rc: Code)
    requires ps == [2, 3, 0]
    ensures Valid(Few(ps)) && DistinctPids(Few(ps)) && IsDevice(Few(ps).table, 3)
    ensures DeletedWell(Few(ps), 3, s', rc) ==> rc == ERR_TIMEOUT && s'.count <= |s'.slots| && Ids(s') == {2}
  {
    FewValid(ps, [2, 1, 0]);
    assert UpTo(|ps|) == {1, 2, 3};
    RootKids(ps);
    RootFate(Few(ps).table, Ids(Few(ps)));
    PurgedValid(Few(ps), [1, 3]);
    assert Elements([1, 3]) == {1, 3};
  }

  lemma RootKids(ps: seq<int>)
    requires ps == [2, 3, 0]
    ensures var t := Few(ps).table; Children(t, 3) == [2] && Children(t, 2) == [1] && Children(t, 1) == []
  {
    KidsOfThree(ps, 1);
    KidsOfThree(ps, 2);
    KidsOfThree(ps, 3);
  }

  lemma LeftFate(t: seq<Node>, live: set<int>)
    requires WellFormed(t) && IsDevice(t, 1) && live == {1, 2, 3, 4}
    requires Children(t, 1) == [3] && Children(t, 3) == [2, 4] && Children(t, 2) == [] && Children(t, 4) == []
    ensures FateOf(t, live, 1) == Fate([2, 4, 1], [2, 4, 3], {3}, ERR_TIMEOUT, 1)
  {
    OnlyChild(t, live, 1, 3);
    StaleFate(t, live, 3, 2, 4);
    OccupantOfTwo(live, 2, 4, 1);
    assert [] + [2, 4] == [2, 4] && [] + [2, 4, 3] == [2, 4, 3] && [2, 4] + [1] == [2, 4, 1];
  }

  // Hub 3, with the bulbs 2 and 4, is under hub 1.  Deleting 1 cannot find hub 3 in its slot and goes
  // on: hub 1 goes too, and hub 3 is left to the controller when the command times out.
  lemma DeleteCanLeaveAChild(ps: seq<int>, s': State, rc: Code)
    requires ps == [0, 3, 1, 3]
    ensures Valid(Few(ps)) && DistinctPids(Few(ps)) && IsDevice(Few(ps).table, 1)
    ensures DeletedWell(Few(ps), 1, s', rc) ==> rc == ERR_TIMEOUT && s'.count <= |s'.slots| && Ids(s') == {3}
  {
    LeftValid(ps);
    LeftKids(ps);
    LeftFate(Few(ps).table, Ids(Few(ps)));
    PurgedValid(Few(ps), [2, 4, 1]);
    assert Elements([2, 4, 1]) == {1, 2, 4};
  }

  lemma LeftValid(ps: seq<int>)
    requires ps == [0, 3, 1, 3]
    ensures Valid(Few(ps)) && DistinctPids(Few(ps)) && Ids(Few(ps)) == {1, 2, 3, 4}
    ensures IsDevice(Few(ps).table, 1) && IsDevice(Few(ps).table, 3)
  {
    var depth := [0, 2, 1, 2];
    forall i | 0 <= i < 4 ensures ParentAbove(ps, depth, i) {
    }
    FewValid(ps, depth);
    assert UpTo(|ps|) == {1, 2, 3, 4};
  }

  lemma LeftKids(ps: seq<int>)
    requires ps == [0, 3, 1, 3]
    ensures var t := Few(ps).table;
      Children(t, 1) == [3] && Children(t, 3) == [2, 4] && Children(t, 2) == [] && Children(t, 4) == []
  {
    KidsOfFour(ps, 1);
    KidsOfFour(ps, 2);
    KidsOfFour(ps, 3);
    KidsOfFour(ps, 4);
  }

  lemma KidsOfThree(ps: seq<int>, p: int)
    requires |ps| == 3 && p >= 1
    ensures Children(Few(ps).table, p) ==
      (if ps[0] == p then [1] else []) + (if ps[1] == p then [2] else []) + (if ps[2] == p then [3] else [])
  {
    ChildrenAre(ps, p);
    assert ps[..2][..1] == ps[..1] && ps[..1][..0] == [];
    assert Kids(ps[..1], p) == if ps[0] == p then [1] else [];
    assert Kids(ps[..2], p) == Kids(ps[..1], p) + if ps[1] == p then [2] else [];
  }

  lemma KidsOfFour(ps: seq<int>, p: int)
    requires |ps| == 4 && p >= 1
    ensures Children(Few(ps).table, p) ==
      (if ps[0] == p then [1] else []) + (if ps[1] == p then [2] else []) + (if ps[2] == p then [3] else []) +
      (if ps[3] == p then [4] else [])
  {
    ChildrenAre(ps, p);
    assert ps[..3][..2] == ps[..2] && ps[..2][..1] == ps[..1] && ps[..1][..0] == [];
    assert Kids(ps[..1], p) == if ps[0] == p then [1] else [];
    assert Kids(ps[..2], p) == Kids(ps[..1], p) + if ps[1] == p then [2] else [];
    assert Kids(ps[..3], p) == Kids(ps[..2], p) + if ps[2] == p then [3] else [];
  }
}
