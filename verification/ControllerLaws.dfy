/** The laws of the controller's tables that follow from the steps: what a delete removes, when
    it works, and a state in which it does not. */
module ControllerLaws {
  import opened Domotics
  import opened Forest
  import opened Linking
  import opened Subtree
  import opened CascadeOrder
  import opened Retained
  import opened Skipping
  import opened CascadeFate
  import opened CascadeFrame
  import opened CascadeTimeout
  import opened Registry
  import opened Purge
  import opened CascadeEffect
  import opened CascadeSteps

  // A successful delete removes exactly the device and its descendants; the survivors keep
  // their order, their slots in the routing table and their parents.
  lemma DeleteIsExact(s: State, id: int, s': State, rc: Code)
    requires Valid(s) && IsDevice(s.table, id) && DeletedWell(s, id, s', rc)
    ensures rc == OK ==> Valid(s') && Leaves(s, s', Desc(s.table, id)) && Ids(s') == Ids(s) - Desc(s.table, id)
    ensures rc == OK <==> Safe(s.table, Ids(s), id)
  {
    FateSafe(s.table, Ids(s), id);
    if rc == OK {
      PurgedOrder(s, id);
      PurgedValid(s, Order(s.table, id));
      OrderIsDesc(s.table, id);
    }
  }

  // When every child has a larger id than its parent a delete always works, and what is left
  // is again of that kind.
  lemma IncreasingDelete(s: State, id: int, s': State, rc: Code)
    requires Valid(s) && IsDevice(s.table, id) && Increasing(s.table) && DistinctPids(s)
    requires DeletedWell(s, id, s', rc)
    ensures rc == OK && s'.count <= |s'.slots| && Increasing(s'.table) && DistinctPids(s')
  {
    IncreasingIsSafe(s.table, Ids(s), id);
    DeleteIsExact(s, id, s', rc);
    PurgedDistinct(s, FateOf(s.table, Ids(s), id).gone);
    ClearedLookup(s.table, Desc(s.table, id));
  }

  // The three answers of a delete.  It is "not found" exactly when no end below timed out and the
  // slot holds a copy of a device that is gone: more devices went than had larger ids, and the
  // largest one left by the first of them went later.  Anything else but a safe order times out.
  lemma DeleteCodes(s: State, id: int, s': State, rc: Code)
    requires Valid(s) && IsDevice(s.table, id) && AreChildren(s.table, id, Children(s.table, id))
    requires DeletedWell(s, id, s', rc)
    ensures rc == OK || rc == ERR_DEVICE_NOT_FOUND || rc == ERR_TIMEOUT
    ensures rc == OK <==> Safe(s.table, Ids(s), id)
    ensures var below := FateAll(s.table, Ids(s), id, Children(s.table, id));
      var n := |Larger(Ids(s), id)|;
      rc == ERR_DEVICE_NOT_FOUND <==>
      below.rc == OK && n < |below.gone| && exists y :: y in below.gone[n..] && NoneAbove(Ids(s), below.gone[..n], y)
  {
    FateSafe(s.table, Ids(s), id);
    FateCoded(s.table, Ids(s), id);
    ChildrenOf(s.table, id);
    FateAllCoded(s.table, Ids(s), id, Children(s.table, id));
    var below := FateAll(s.table, Ids(s), id, Children(s.table, id));
    if below.rc == OK {
      GoneInIds(s, id);
      InIds(s, id);
      StaleExactly(Ids(s), below.gone, id);
    }
  }

  // A delete that answers "not found" has left its device in place, and nothing but devices below
  // it went, each with everything below itself; the others keep order and parents.
  lemma NotFoundLeaves(s: State, id: int, s': State, rc: Code)
    requires Valid(s) && IsDevice(s.table, id) && DeletedWell(s, id, s', rc) && rc == ERR_DEVICE_NOT_FOUND
    ensures var gone := Elements(FateOf(s.table, Ids(s), id).gone);
      && gone <= Desc(s.table, id) - {id} && DownClosed(s.table, gone)
      && Valid(s') && Leaves(s, s', gone) && Ids(s') == Ids(s) - gone && id in Ids(s')
  {
    ChildrenOf(s.table, id);
    FateAllCoded(s.table, Ids(s), id, Children(s.table, id));
    BelowIs(s.table, Ids(s), id);
    FateDownClosed(s.table, Ids(s), id);
    FateLeaves(s, id);
    PurgedValid(s, FateOf(s.table, Ids(s), id).gone);
    InIds(s, id);
  }

  // What a delete of any depth that times out leaves.  The devices came to an end in post-order up
  // to `stop`, whose end timed out; of those before it the ones in `skipped` stayed and the others
  // went (`a` before the subtree of `stop`, `b` inside it), each with everything below itself and
  // without disturbing anything else.  Then one more device `y` was finalised, the one in the slot
  // of `stop`: `stop` itself, which takes a child of it that was passed over, or one with a larger
  // id, and then `stop` stays.  The device named in the command is gone exactly if it is `y`.
  lemma TimeoutLeaves(s: State, id: int, s': State, rc: Code) returns (a: seq<int>, b: seq<int>, y: int)
    requires Valid(s) && IsDevice(s.table, id) && DeletedWell(s, id, s', rc) && rc == ERR_TIMEOUT
    ensures var f, order := FateOf(s.table, Ids(s), id), Order(s.table, id);
      && f.done < order && f.stop == order[|f.done|] && f.skipped <= Elements(f.done)
      && a + b == Without(f.done, f.skipped) && DownClosed(s.table, Elements(a + b))
      && Elements(a) !! Desc(s.table, f.stop) && Elements(b) <= Desc(s.table, f.stop)
      && y == Occupant(Ids(s) - Elements(a), b, f.stop) && y in Ids(s) - Elements(a + b)
      && (y == f.stop ==> exists c :: IsDevice(s.table, c) && Step(s.table, c) == f.stop && c in f.skipped)
      && (y != f.stop ==> y > f.stop && f.stop in Ids(s'))
    ensures var r := Purged(s, a + b);
      && Valid(r) && Leaves(s, r, Elements(a + b)) && InArray(r.slots, r.count, y)
      && s' == Finalized(r, Slot(r.slots, r.count, y)) && Valid(s')
      && Ids(s') == Ids(s) - Elements(a + b) - {y}
    ensures id in Ids(s') <==> id != y
  {
    var f := FateOf(s.table, Ids(s), id);
    a, b := FateStopped(s.table, Ids(s), id);
    y := f.gone[|f.gone| - 1];
    assert f.gone == a + b + [y];
    FateFollows(s.table, Ids(s), id);
    FateParts(s.table, Ids(s), id);
    FateDownClosed(s.table, Ids(s), id);
    FateLeaves(s, id);
    PurgedValid(s, a + b);
    ConcatDistinct(a, b);
    StopIsLive(s, id, a);
    OccupantIsLive(Ids(s) - Elements(a), b, f.stop);
    assert y !in b ==> y !in Elements(b);
    InIds(Purged(s, a + b), y);
    OneMore(s, a + b, y);
    FinalizedIds(Purged(s, a + b), Slot(Purged(s, a + b).slots, Purged(s, a + b).count, y));
    FinalizedValid(Purged(s, a + b), Slot(Purged(s, a + b).slots, Purged(s, a + b).count, y));
    LastOfOrder(s.table, id, f, a + b);
    InIds(s, id);
  }

  lemma StopIsLive(s: State, id: int, a: seq<int>)
    requires Valid(s) && IsDevice(s.table, id) && FateOf(s.table, Ids(s), id).stop in Desc(s.table, id)
    requires Elements(a) !! Desc(s.table, FateOf(s.table, Ids(s), id).stop)
    ensures FateOf(s.table, Ids(s), id).stop in Ids(s) - Elements(a)
  {
    var stop := FateOf(s.table, Ids(s), id).stop;
    DescIs(s.table, id);
    DescDownClosed(s.table, stop);
    InIds(s, stop);
  }

  // The device itself comes last in the order, so it is not among those that ended before.
  lemma LastOfOrder(t: seq<Node>, id: int, f: Fate, gone: seq<int>)
    requires WellFormed(t) && IsDevice(t, id) && f.done < Order(t, id) && gone == Without(f.done, f.skipped)
    ensures id !in Elements(gone)
  {
    OrderIsDesc(t, id);
    WithoutIs(f.done, f.skipped);
    var order := Order(t, id);
    forall x | x in f.done ensures x != id {
      var i :| 0 <= i < |f.done| && f.done[i] == x;
      assert order[i] != order[|order| - 1];
    }
  }

  lemma NothingLeft(s: State)
    requires Valid(s) && s.count == 0
    ensures s.table == seq(MAX_DEVICES, i => FREE)
  {
    forall i | 0 <= i < |s.table| ensures s.table[i] == FREE {
      assert GoodSlot(s.table, s.table[i]);
      if s.table[i].id >= 1 {
        assert Has(s.table, s.table[i].id);
      }
    }
  }

  // A dead device's children, and nobody else, get the controller as parent; no node is left
  // detached.
  lemma AdoptionIsExact(s: State, k: nat)
    requires Valid(s) && k < s.count
    ensures var t, t', dead := s.table, Finalized(s, k).table, s.slots[k].id;
      && (forall x :: IsDevice(t', x) <==> IsDevice(t, x) && x != dead)
      && (forall x :: IsDevice(t', x) ==> Step(t', x) == if Step(t, x) == dead then CONTROLLER_ID else Step(t, x))
      && (forall i :: 0 <= i < |t'| && t'[i].id >= 0 ==> t'[i].parent != NO_PARENT)
    ensures Valid(Finalized(s, k)) && Ids(Finalized(s, k)) == Ids(s) - {s.slots[k].id}
  {
    BuriedLookup(s.table, s.slots[k].id);
    assert GoodDevice(s.slots[k], s.nextId);
    FinalizedValid(s, k);
    FinalizedIds(s, k);
    var t' := Finalized(s, k).table;
    forall i | 0 <= i < |t'| && t'[i].id >= 0 ensures t'[i].parent != NO_PARENT {
      assert GoodSlot(t', t'[i]);
    }
  }

  // A delete fails whenever some descendant has a smaller id than the device while a device
  // outside the subtree has a larger one.
  lemma StrangerIsHit(t: seq<Node>, live: set<int>, id: int, below: int, stranger: int)
    requires WellFormed(t) && IsDevice(t, id)
    requires below in Desc(t, id) && below < id
    requires stranger in live && stranger > id && stranger !in Desc(t, id)
    ensures !Safe(t, live, id)
  {
    ChildrenOf(t, id);
    OrderIsDesc(t, id);
    var order := OrderAll(t, id, Children(t, id));
    assert below in Elements(order) && stranger !in Elements(order);
    SlotLost(live, order, id, below, stranger);
  }

  lemma SlotLost(live: set<int>, order: seq<int>, id: int, below: int, stranger: int)
    requires below in order && below < id && stranger in live && stranger > id && stranger !in order
    ensures !SlotSafe(live, order, id)
  {
    var j :| 0 <= j < |order| && order[j] == below;
    assert stranger !in order[..j];
  }
}
