/** The steps of a cascade delete on values: what each level knows before and after it takes a
    child, and what the slot it kept pointing at holds when the children are gone. */
module CascadeSteps {
  import opened Domotics
  import opened Forest
  import opened Subtree
  import opened CascadeOrder
  import opened Retained
  import opened Skipping
  import opened CascadeFate
  import opened CascadeFrame
  import opened Registry
  import opened Purge
  import opened CascadeEffect

  ghost predicate DistinctPids(s: State)
    requires s.count <= |s.slots|
  {
    forall i, j :: 0 <= i < j < s.count ==> s.slots[i].pid != s.slots[j].pid
  }

  // The first live entry with this pid.
  ghost predicate PidAt(s: State, k: nat, pid: int)
    requires s.count <= |s.slots|
  {
    k < s.count && s.slots[k].pid == pid && forall j :: 0 <= j < k ==> s.slots[j].pid != pid
  }

  ghost predicate NoPid(s: State, pid: int)
    requires s.count <= |s.slots|
  {
    forall j :: 0 <= j < s.count ==> s.slots[j].pid != pid
  }

  lemma FinalizedDistinct(s: State, k: nat)
    requires k < s.count <= |s.slots| && Sorted(s.slots, s.count) && DistinctPids(s)
    ensures DistinctPids(Finalized(s, k))
  {
    FinalizedSlots(s, k);
    forall i, j | 0 <= i < j < s.count - 1 ensures Finalized(s, k).slots[i].pid != Finalized(s, k).slots[j].pid {
      assert s.slots[Before(i, k)].pid != s.slots[Before(j, k)].pid;
    }
  }

  lemma LinkedDistinct(s: State, child: int, parent: int)
    requires s.count <= |s.slots| && InArray(s.slots, s.count, child) && Has(s.table, child) && DistinctPids(s)
    ensures DistinctPids(Linked(s, child, parent))
  {
  }

  // A new device whose pid is no other device's keeps the pids apart.
  lemma AddedDistinct(s: State, kind: DeviceType, pid: int)
    requires Valid(s) && s.count < MAX_DEVICES && Has(s.table, -1) && DistinctPids(s) && NoPid(s, pid)
    ensures DistinctPids(Added(s, kind, pid))
  {
  }

  lemma SameLiveDistinct(s: State, s': State)
    requires s.count <= |s.slots| && DistinctPids(s) && SameLive(s, s')
    ensures DistinctPids(s')
  {
    assert forall i :: 0 <= i < s.count ==> s'.slots[i] == s'.slots[..s.count][i] == s.slots[i];
  }

  lemma SameLiveNoPid(s: State, s': State, pid: int)
    requires s.count <= |s.slots| && SameLive(s, s') && NoPid(s', pid)
    ensures NoPid(s, pid)
  {
    assert forall i :: 0 <= i < s.count ==> s'.slots[i] == s'.slots[..s.count][i] == s.slots[i];
  }

  lemma {:induction false} PurgedDistinct(s: State, order: seq<int>)
    requires s.count <= |s.slots| && Sorted(s.slots, s.count) && DistinctPids(s)
    ensures DistinctPids(Purged(s, order))
    decreases |order|
  {
    if order != [] {
      var n := |order| - 1;
      PurgedDistinct(s, order[..n]);
      PurgedIds(s, order[..n]);
      var r := Purged(s, order[..n]);
      if InArray(r.slots, r.count, order[n]) {
        FinalizedDistinct(r, Slot(r.slots, r.count, order[n]));
      }
    }
  }

  // ---------------------------------------------------------------- the cascade

  // The outcome of deleting one device when every exchange succeeds.
  ghost predicate DeletedWell(s: State, id: int, s': State, rc: Code)
    requires Valid(s) && IsDevice(s.table, id)
  {
    var f := FateOf(s.table, Ids(s), id); rc == f.rc && s' == Purged(s, f.gone)
  }

  // The same for the children of a device.
  ghost predicate CascadedWell(s: State, id: int, s': State, rc: Code)
    requires Valid(s) && IsDevice(s.table, id)
  {
    ChildrenOf(s.table, id);
    var f := FateAll(s.table, Ids(s), id, Children(s.table, id)); rc == f.rc && s' == Purged(s, f.gone)
  }

  // The state before the i-th child is taken, when no end has timed out.
  ghost predicate CascadeAt(s: State, id: int, cs: seq<int>, i: nat, now: State)
    requires Valid(s) && IsDevice(s.table, id) && i <= |cs| && AreChildren(s.table, id, cs[..i])
  {
    CascadedWithin(s, id, cs[..i], now)
  }

  ghost predicate CascadedWithin(s: State, id: int, cs: seq<int>, now: State)
    requires Valid(s) && IsDevice(s.table, id) && AreChildren(s.table, id, cs)
  {
    var f := FateAll(s.table, Ids(s), id, cs); f.rc == OK && now == Purged(s, f.gone)
  }

  lemma CascadeStart(s: State, id: int, cs: seq<int>)
    requires Valid(s) && IsDevice(s.table, id)
    ensures AreChildren(s.table, id, cs[..0]) && CascadeAt(s, id, cs, 0, s)
  {
    assert cs[..0] == [];
  }

  lemma CascadeEnd(s: State, id: int, now: State)
    requires Valid(s) && IsDevice(s.table, id)
    requires AreChildren(s.table, id, Children(s.table, id)[..|Children(s.table, id)|])
    requires CascadeAt(s, id, Children(s.table, id), |Children(s.table, id)|, now)
    ensures CascadedWell(s, id, now, OK)
  {
    ChildrenOf(s.table, id);
    assert Children(s.table, id)[..|Children(s.table, id)|] == Children(s.table, id);
  }

  // The child to be taken is there, and its fate is the one it has in the starting table.
  lemma ChildIsThere(s: State, id: int, i: nat, now: State)
    requires Valid(s) && IsDevice(s.table, id) && i < |Children(s.table, id)|
    requires AreChildren(s.table, id, Children(s.table, id)[..i])
    requires CascadeAt(s, id, Children(s.table, id), i, now)
    ensures var c := Children(s.table, id)[i];
      && Valid(now) && InArray(now.slots, now.count, c) && IsDevice(now.table, c) && IsDevice(s.table, c)
      && var before := FateAll(s.table, Ids(s), id, Children(s.table, id)[..i]);
        FateOf(now.table, Ids(now), c) == FateOf(s.table, Ids(s) - Elements(before.gone), c)
  {
    ChildrenOf(s.table, id);
    BeforeAt(s, id, Children(s.table, id), i);
  }

  lemma BeforeAt(s: State, id: int, cs: seq<int>, i: nat)
    requires Valid(s) && IsDevice(s.table, id) && i < |cs| && Distinct(cs) && AreChildren(s.table, id, cs)
    requires AreChildren(s.table, id, cs[..i]) && FateAll(s.table, Ids(s), id, cs[..i]).rc == OK
    ensures var before := FateAll(s.table, Ids(s), id, cs[..i]);
      var now := Purged(s, before.gone);
      && Valid(now) && InArray(now.slots, now.count, cs[i]) && IsDevice(now.table, cs[i]) && IsDevice(s.table, cs[i])
      && FateOf(now.table, Ids(now), cs[i]) == FateOf(s.table, Ids(s) - Elements(before.gone), cs[i])
  {
    assert cs[..i] + [cs[i]] == cs[..i + 1];
    FateAllLeaves(s, id, cs[..i]);
    BeforeNext(s, id, cs[..i], cs[i]);
  }

  // One round: the loop goes on unless the end of some device timed out.
  lemma CascadeStep(s: State, id: int, i: nat, now: State, next: State, rc: Code)
    requires Valid(s) && IsDevice(s.table, id) && i < |Children(s.table, id)|
    requires AreChildren(s.table, id, Children(s.table, id)[..i])
    requires CascadeAt(s, id, Children(s.table, id), i, now)
    requires Valid(now) && IsDevice(now.table, Children(s.table, id)[i])
    requires DeletedWell(now, Children(s.table, id)[i], next, rc)
    ensures AreChildren(s.table, id, Children(s.table, id)[..i + 1])
    ensures rc == OK || rc == ERR_DEVICE_NOT_FOUND || rc == ERR_TIMEOUT
    ensures rc != ERR_TIMEOUT ==> CascadeAt(s, id, Children(s.table, id), i + 1, next)
    ensures rc == ERR_TIMEOUT ==> CascadedWell(s, id, next, rc)
  {
    ChildrenOf(s.table, id);
    var cs := Children(s.table, id);
    var c, before := cs[i], FateAll(s.table, Ids(s), id, cs[..i]);
    ChildIsThere(s, id, i, now);
    FateCoded(now.table, Ids(now), c);
    FateAllSnoc(s.table, Ids(s), id, cs, i);
    PurgedConcat(s, before.gone, FateOf(now.table, Ids(now), c).gone);
    if rc == ERR_TIMEOUT {
      FateAllStops(s.table, Ids(s), id, cs, i + 1);
    }
  }

  lemma FateAllSnoc(t: seq<Node>, live: set<int>, id: int, cs: seq<int>, i: nat)
    requires WellFormed(t) && IsDevice(t, id) && AreChildren(t, id, cs) && i < |cs| && AreChildren(t, id, cs[..i])
    requires FateAll(t, live, id, cs[..i]).rc == OK
    ensures AreChildren(t, id, cs[..i + 1]) && IsDevice(t, cs[i])
    ensures var before := FateAll(t, live, id, cs[..i]);
      FateAll(t, live, id, cs[..i + 1]) == GoesOn(before, FateOf(t, live - Elements(before.gone), cs[i]))
  {
    assert cs[..i + 1][..i] == cs[..i] && cs[..i + 1][i] == cs[i];
    ChildBelow(t, id, cs[i]);
  }

  lemma SomeElement(cs: seq<int>)
    ensures cs == [] || exists c :: c in cs
  {
    if cs != [] {
      var c := cs[0];
      assert c in cs;
    }
  }

  // Only control devices have children.
  lemma LeafHasNoChildren(s: State, k: nat)
    requires Valid(s) && k < s.count && !IsControl(s.slots[k].kind)
    ensures Children(s.table, s.slots[k].id) == []
  {
    var id := s.slots[k].id;
    assert Mirrored(s.table, s.slots[k]) && GoodDevice(s.slots[k], s.nextId);
    ChildrenOf(s.table, id);
    forall c | IsDevice(s.table, c) ensures Step(s.table, c) != id {
      DeviceFacts(s.table, c);
      assert GoodSlot(s.table, s.table[IndexOf(s.table, c)]);
    }
    SomeElement(Children(s.table, id));
  }

  // In the array a pid always stands beside the id it started with.
  lemma PidOfOrigin(s: State, order: seq<int>, k: nat)
    requires s.count <= |s.slots| && Sorted(s.slots, s.count) && DistinctPids(s) && k < s.count
    ensures forall j :: 0 <= j < s.count ==>
      (Purged(s, order).slots[k].id == s.slots[j].id <==> Purged(s, order).slots[k].pid == s.slots[j].pid)
  {
    SlotOrigin(s, order, k);
  }

  lemma {:induction false} SomePid(s: State, pid: int)
    requires s.count <= |s.slots|
    ensures NoPid(s, pid) || exists k: nat :: PidAt(s, k, pid)
  {
    var k: nat := 0;
    while k < s.count && s.slots[k].pid != pid
      invariant k <= s.count && forall j :: 0 <= j < k ==> s.slots[j].pid != pid
    {
      k := k + 1;
    }
    if k < s.count {
      assert PidAt(s, k, pid);
    }
  }

  // ---------------------------------------------------------------- the end of a delete

  // Everything below the device in slot `k` came to an end and none timed out.
  ghost predicate ChildrenDone(s: State, k: nat, now: State)
    requires Valid(s) && k < s.count
    requires IsDevice(s.table, s.slots[k].id) && AreChildren(s.table, s.slots[k].id, Children(s.table, s.slots[k].id))
  {
    CascadedWithin(s, s.slots[k].id, Children(s.table, s.slots[k].id), now)
  }

  // What the slot `k` that held the device before the children went holds now: its Occupant, whose
  // pid finds exactly that device, or nothing if it went too.
  lemma SlotAfterChildren(s: State, k: nat, now: State)
    requires Valid(s) && k < s.count && DistinctPids(s)
    requires IsDevice(s.table, s.slots[k].id) && AreChildren(s.table, s.slots[k].id, Children(s.table, s.slots[k].id))
    requires ChildrenDone(s, k, now)
    ensures var id := s.slots[k].id;
      var gone := FateAll(s.table, Ids(s), id, Children(s.table, id)).gone;
      var y := now.slots[k].id;
      && Valid(now) && Ids(now) == Ids(s) - Elements(gone) && id in Ids(now) && now.slots[k].pid > 0
      && y == Occupant(Ids(s), gone, id) && (InArray(now.slots, now.count, y) <==> y !in gone)
      && (y !in gone ==> PidAt(now, Slot(now.slots, now.count, y), now.slots[k].pid))
  {
    var id := s.slots[k].id;
    var gone := FateAll(s.table, Ids(s), id, Children(s.table, id)).gone;
    GoneInIds(s, id);
    SlotIs(s, k);
    SlotAfter(s, id, gone);
    PurgedValid(s, gone);
    PurgedDistinct(s, gone);
    InIds(s, id);
    SlotOrigin(s, gone, k);
    assert forall j :: 0 <= j < s.count ==> GoodDevice(s.slots[j], s.nextId);
    var y := now.slots[k].id;
    InIds(now, y);
    InIds(s, y);
    assert y in gone <==> y in Elements(gone);
    if y !in gone {
      PidOfOrigin(s, gone, k);
      PidOfOrigin(s, gone, Slot(now.slots, now.count, y));
    }
  }

  lemma GoneInIds(s: State, id: int)
    requires Valid(s) && IsDevice(s.table, id) && AreChildren(s.table, id, Children(s.table, id))
    requires FateAll(s.table, Ids(s), id, Children(s.table, id)).rc == OK
    ensures var f := FateAll(s.table, Ids(s), id, Children(s.table, id));
      && Distinct(f.gone) && id !in Elements(f.gone) && f.skipped !! Elements(f.gone)
      && (forall x :: x in f.gone ==> x in Ids(s)) && f.skipped <= Ids(s)
  {
    BelowIs(s.table, Ids(s), id);
    DescIs(s.table, id);
    var f := FateAll(s.table, Ids(s), id, Children(s.table, id));
    forall x | x in Desc(s.table, id) ensures x in Ids(s) {
      InIds(s, x);
    }
    assert forall x :: x in f.gone ==> x in Elements(f.gone);
  }

  // What the end of a delete amounts to: "not found" if the device in slot `k` is gone, because so
  // is its FIFO; otherwise its pid is finalised, and the wait for `ids` decides.
  ghost predicate Finished(now: State, k: nat, ids: seq<int>, next: State, rc: Code)
    requires Valid(now) && k < |now.slots| && next.count <= |next.slots|
  {
    if !InArray(now.slots, now.count, now.slots[k].id) then rc == ERR_DEVICE_NOT_FOUND && next == now
    else
      && rc == (if forall x :: x in ids ==> x !in Ids(next) then OK else ERR_TIMEOUT)
      && ((NoPid(now, now.slots[k].pid) && next == now) ||
          exists m: nat :: PidAt(now, m, now.slots[k].pid) && next == Finalized(now, m))
  }

  lemma DeleteEnds(s: State, k: nat, now: State, next: State, rc: Code)
    requires Valid(s) && k < s.count && DistinctPids(s)
    requires IsDevice(s.table, s.slots[k].id) && AreChildren(s.table, s.slots[k].id, Children(s.table, s.slots[k].id))
    requires ChildrenDone(s, k, now) && Valid(now) && k < |now.slots| && next.count <= |next.slots|
    requires s.slots[k].id in Ids(now) && now.slots[k].pid > 0 ==>
      Finished(now, k, [s.slots[k].id] + Children(s.table, s.slots[k].id), next, rc)
    ensures DeletedWell(s, s.slots[k].id, next, rc)
  {
    var id := s.slots[k].id;
    var cs := Children(s.table, id);
    var below := FateAll(s.table, Ids(s), id, cs);
    SlotAfterChildren(s, k, now);
    if now.slots[k].id !in below.gone {
      OneMore(s, below.gone, now.slots[k].id);
      SlotRemoved(now, k, [id] + cs, next, rc);
      GoneInIds(s, id);
      ChildrenLeft(s, id);
      WaitEnds(Ids(s), id, cs, below, now.slots[k].id, Ids(next));
    }
    EndIs(s, id, below, now, now.slots[k].id, next, rc);
  }

  lemma SlotRemoved(now: State, k: nat, ids: seq<int>, next: State, rc: Code)
    requires Valid(now) && k < |now.slots| && next.count <= |next.slots| && Finished(now, k, ids, next, rc)
    requires InArray(now.slots, now.count, now.slots[k].id)
    requires PidAt(now, Slot(now.slots, now.count, now.slots[k].id), now.slots[k].pid)
    ensures next == Finalized(now, Slot(now.slots, now.count, now.slots[k].id))
    ensures Ids(next) == Ids(now) - {now.slots[k].id}
    ensures rc == if forall x :: x in ids ==> x !in Ids(next) then OK else ERR_TIMEOUT
  {
    FinalizedIds(now, Slot(now.slots, now.count, now.slots[k].id));
  }

  // The end as it is described with ids alone.
  lemma EndIs(s: State, id: int, below: Fate, now: State, y: int, next: State, rc: Code)
    requires s.count <= |s.slots| && below.rc == OK
    requires now == Purged(s, below.gone) && y == Occupant(Ids(s), below.gone, id)
    requires y in below.gone ==> rc == ERR_DEVICE_NOT_FOUND && next == now
    requires y !in below.gone ==>
      next == Purged(s, below.gone + [y]) && rc == if y == id && below.skipped == {} then OK else ERR_TIMEOUT
    ensures var f := EndOf(Ids(s), id, below); rc == f.rc && next == Purged(s, f.gone)
  {
  }

  lemma OneMore(s: State, gone: seq<int>, y: int)
    requires s.count <= |s.slots|
    requires var r := Purged(s, gone); InArray(r.slots, r.count, y)
    ensures var r := Purged(s, gone); Purged(s, gone + [y]) == Finalized(r, Slot(r.slots, r.count, y))
  {
    assert (gone + [y])[..|gone|] == gone;
  }

  // The wait succeeds exactly if the device itself was removed and no child was passed over.
  lemma WaitEnds(live: set<int>, id: int, cs: seq<int>, below: Fate, y: int, left: set<int>)
    requires id in live && id !in below.gone && id !in cs && left == live - Elements(below.gone) - {y}
    requires if below.skipped == {} then forall c :: c in cs ==> c in below.gone
             else exists c :: c in cs && c in live && c !in below.gone
    ensures (forall x :: x in [id] + cs ==> x !in left) <==> y == id && below.skipped == {}
  {
    assert id in [id] + cs;
    assert forall x :: x in below.gone <==> x in Elements(below.gone);
    if y == id && below.skipped != {} {
      var c :| c in cs && c in live && c !in below.gone;
      assert c in left && c in [id] + cs;
    }
  }

  lemma ChildrenLeft(s: State, id: int)
    requires Valid(s) && IsDevice(s.table, id) && AreChildren(s.table, id, Children(s.table, id))
    requires FateAll(s.table, Ids(s), id, Children(s.table, id)).rc == OK
    ensures var cs := Children(s.table, id);
      var f := FateAll(s.table, Ids(s), id, cs);
      && id !in cs
      && if f.skipped == {} then forall c :: c in cs ==> c in f.gone
         else exists c :: c in cs && c in Ids(s) && c !in f.gone
  {
    var cs := Children(s.table, id);
    var f := FateAll(s.table, Ids(s), id, cs);
    DeviceFacts(s.table, id);
    assert Up(s.table, id, 0) == id;
    GoneInIds(s, id);
    if f.skipped == {} {
      AllGone(s, id);
    } else {
      SomeChildSkipped(s.table, Ids(s), id, cs);
      var c :| c in cs && c in f.skipped;
      assert c in f.gone ==> c in Elements(f.gone);
    }
  }

  lemma AllGone(s: State, id: int)
    requires Valid(s) && IsDevice(s.table, id) && AreChildren(s.table, id, Children(s.table, id))
    requires var f := FateAll(s.table, Ids(s), id, Children(s.table, id)); f.rc == OK && f.skipped == {}
    ensures forall c :: c in Children(s.table, id) ==> c in FateAll(s.table, Ids(s), id, Children(s.table, id)).gone
  {
    ChildrenOf(s.table, id);
    var cs := Children(s.table, id);
    FateAllSafe(s.table, Ids(s), id, cs);
    OrderAllIs(s.table, id, cs);
    forall c | c in cs ensures c in OrderAll(s.table, id, cs) {
      ChildBelow(s.table, id, c);
      assert UnderSome(s.table, cs, c);
    }
  }
}
