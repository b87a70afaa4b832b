/** What is left after a sequence of devices was removed one after the other. */
module Purge {
  import opened Domotics
  import opened Forest
  import opened Subtree
  import opened CascadeOrder
  import opened Retained
  import opened Registry

  // Removes the devices of `order` from the state, one after the other.
  ghost function Purged(s: State, order: seq<int>): (r: State)
    requires s.count <= |s.slots|
    ensures r.count <= |r.slots| && |r.slots| == |s.slots| && r.count <= s.count && r.nextId == s.nextId
    decreases |order|
  {
    if order == [] then s else
      var n := |order| - 1;
      var r := Purged(s, order[..n]);
      if InArray(r.slots, r.count, order[n]) then Finalized(r, Slot(r.slots, r.count, order[n])) else r
  }

  lemma {:induction false} PurgedConcat(s: State, a: seq<int>, b: seq<int>)
    requires s.count <= |s.slots|
    ensures Purged(s, a + b) == Purged(Purged(s, a), b)
    decreases |b|
  {
    if b == [] {
      assert a + b == a;
    } else {
      var n := |b| - 1;
      assert (a + b)[..|a + b| - 1] == a + b[..n];
      PurgedConcat(s, a, b[..n]);
    }
  }

  lemma {:induction false} PurgedIds(s: State, order: seq<int>)
    requires s.count <= |s.slots| && Sorted(s.slots, s.count)
    ensures var r := Purged(s, order); Sorted(r.slots, r.count) && Ids(r) == Ids(s) - Elements(order)
    decreases |order|
  {
    if order != [] {
      var n := |order| - 1;
      PurgedIds(s, order[..n]);
      var r := Purged(s, order[..n]);
      InIds(r, order[n]);
      if InArray(r.slots, r.count, order[n]) {
        FinalizedSlots(r, Slot(r.slots, r.count, order[n]));
        FinalizedIds(r, Slot(r.slots, r.count, order[n]));
      }
    }
  }

  lemma {:induction false} PurgedValid(s: State, order: seq<int>)
    requires Valid(s)
    ensures Valid(Purged(s, order))
    ensures Ids(Purged(s, order)) == Ids(s) - Elements(order)
    decreases |order|
  {
    PurgedIds(s, order);
    if order != [] {
      var n := |order| - 1;
      PurgedValid(s, order[..n]);
      var r := Purged(s, order[..n]);
      if InArray(r.slots, r.count, order[n]) {
        FinalizedValid(r, Slot(r.slots, r.count, order[n]));
      }
    }
  }

  // ---------------------------------------------------------------- the slot of a device

  lemma SlotIs(s: State, k: nat)
    requires k < s.count <= |s.slots| && Sorted(s.slots, s.count)
    ensures InArray(s.slots, s.count, s.slots[k].id) && Slot(s.slots, s.count, s.slots[k].id) == k
  {
  }

  // How one removal moves the contents of a slot.
  lemma SlotStep(s: State, k: nat, j: nat)
    requires s.count <= |s.slots| && Sorted(s.slots, s.count) && k < |s.slots| && j < s.count
    ensures Finalized(s, j).slots[k].id == if j <= k < s.count - 1 then s.slots[k + 1].id else s.slots[k].id
  {
  }

  // In the array the next larger live id stands in the next slot.
  lemma NextSlot(s: State, k: nat)
    requires k < s.count <= |s.slots| && Sorted(s.slots, s.count)
    ensures NextAbove(Ids(s), s.slots[k].id) == if k + 1 < s.count then s.slots[k + 1].id else s.slots[k].id
  {
    if k + 1 < s.count {
      assert s.slots[k + 1].id in Ids(s);
    }
  }

  // Past the live entries a slot holds a device above which nothing is left.
  ghost predicate Settled(r: State, k: nat)
    requires r.count <= |r.slots| && k < |r.slots|
  {
    k >= r.count ==> forall y :: y in Ids(r) ==> y <= r.slots[k].id
  }

  // After the devices of `order` are gone, the slot where `id` was holds its Occupant.
  lemma {:induction false} SlotAfter(s: State, id: int, order: seq<int>)
    requires s.count <= |s.slots| && Sorted(s.slots, s.count) && InArray(s.slots, s.count, id)
    requires Distinct(order) && forall x :: x in order ==> x in Ids(s)
    ensures var k, r := Slot(s.slots, s.count, id), Purged(s, order);
      r.slots[k].id == Occupant(Ids(s), order, id) && Settled(r, k)
    decreases |order|
  {
    if order != [] {
      var n := |order| - 1;
      SlotAfter(s, id, order[..n]);
      PurgedIds(s, order[..n]);
      var r := Purged(s, order[..n]);
      assert order[n] !in Elements(order[..n]);
      InIds(r, order[n]);
      SlotAfterStep(r, Slot(s.slots, s.count, id), Slot(r.slots, r.count, order[n]));
    }
  }

  lemma SlotAfterStep(r: State, k: nat, j: nat)
    requires r.count <= |r.slots| && Sorted(r.slots, r.count) && j < r.count && k < |r.slots| && Settled(r, k)
    ensures var y := r.slots[k].id;
      Finalized(r, j).slots[k].id == if r.slots[j].id > y then y else NextAbove(Ids(r), y)
    ensures Settled(Finalized(r, j), k)
  {
    SlotStep(r, k, j);
    FinalizedIds(r, j);
    assert r.slots[j].id in Ids(r);
    if k < r.count {
      NextSlot(r, k);
    }
  }

  // The contents of a slot are always a device of the starting state, up to its parent.
  lemma {:induction false} SlotOrigin(s: State, order: seq<int>, k: nat)
    requires s.count <= |s.slots| && k < s.count
    ensures exists j :: (
      && 0 <= j < s.count
      && Purged(s, order).slots[k].id == s.slots[j].id && Purged(s, order).slots[k].pid == s.slots[j].pid)
    decreases |order|
  {
    if order == [] {
      assert Purged(s, order).slots[k].id == s.slots[k].id;
    } else {
      var n := |order| - 1;
      var r := Purged(s, order[..n]);
      SlotOrigin(s, order[..n], k);
      if k + 1 < s.count {
        SlotOrigin(s, order[..n], k + 1);
      }
    }
  }
}
