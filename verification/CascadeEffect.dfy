/** What a cascade in the given order leaves behind: exactly the devices outside the subtree,
    in their old order and with their old parents, in both tables. */
module CascadeEffect {
  import opened Domotics
  import opened Forest
  import opened Subtree
  import opened CascadeOrder
  import opened CascadeFate
  import opened CascadeFrame
  import opened Registry
  import opened Purge

  // ---------------------------------------------------------------- the survivors

  ghost function LiveDevices(s: State): seq<Device>
    requires s.count <= |s.slots|
  {
    s.slots[..s.count]
  }

  // The devices outside `gone`, in order.
  ghost function Keep(devices: seq<Device>, gone: set<int>): seq<Device> {
    if devices == [] then [] else
      var n := |devices| - 1;
      Keep(devices[..n], gone) + (if devices[n].id in gone then [] else [devices[n]])
  }

  lemma {:induction false} KeepTwice(devices: seq<Device>, a: set<int>, b: set<int>)
    ensures Keep(Keep(devices, a), b) == Keep(devices, a + b)
  {
    if devices != [] {
      var n := |devices| - 1;
      KeepTwice(devices[..n], a, b);
      if devices[n].id !in a {
        var k := Keep(devices[..n], a);
        assert (k + [devices[n]])[..|k|] == k;
      } else {
        assert Keep(devices[..n], a) + [] == Keep(devices[..n], a);
      }
    }
  }

  lemma {:induction false} KeepAll(devices: seq<Device>, gone: set<int>)
    requires forall i :: 0 <= i < |devices| ==> devices[i].id !in gone
    ensures Keep(devices, gone) == devices
  {
    if devices != [] {
      var n := |devices| - 1;
      KeepAll(devices[..n], gone);
      assert devices[..n] + [devices[n]] == devices;
    }
  }

  lemma {:induction false} KeepOthers(devices: seq<Device>, k: nat)
    requires k < |devices| && forall i, j :: 0 <= i < j < |devices| ==> devices[i].id < devices[j].id
    ensures Keep(devices, {devices[k].id}) == devices[..k] + devices[k + 1..]
  {
    var n := |devices| - 1;
    if k == n {
      KeepAll(devices[..n], {devices[k].id});
      assert devices[k + 1..] == [];
    } else {
      KeepOthers(devices[..n], k);
      assert devices[..n][..k] == devices[..k];
      assert devices[..n][k + 1..] + [devices[n]] == devices[k + 1..];
    }
  }

  // Finalising a device without children only takes its own entry out of the array.
  lemma FinalizedChildless(s: State, k: nat)
    requires k < s.count <= |s.slots| && Sorted(s.slots, s.count)
    requires forall i :: 0 <= i < s.count ==> s.slots[i].parent != s.slots[k].id
    ensures LiveDevices(Finalized(s, k)) == Keep(LiveDevices(s), {s.slots[k].id})
  {
    KeepOthers(LiveDevices(s), k);
    FinalizedSlots(s, k);
  }

  lemma BuriedChildless(t: seq<Node>, x: int)
    requires WellFormed(t) && x >= 1 && forall c :: IsDevice(t, c) ==> Step(t, c) != x
    ensures Buried(t, x) == Cleared(t, {x})
  {
    forall i | 0 <= i < |t| ensures Buried(t, x)[i] == Cleared(t, {x})[i] {
      assert GoodSlot(t, t[i]);
      if t[i].id >= 1 {
        IndexOfSlot(t, i);
        DeviceFacts(t, t[i].id);
      }
    }
  }

  lemma ClearedTwice(t: seq<Node>, a: set<int>, b: set<int>)
    ensures Cleared(Cleared(t, a), b) == Cleared(t, a + b)
  {
  }

  // `r` is `s` without the devices of `gone`: the survivors keep their order, their places in
  // the routing table and their parents.
  ghost predicate Leaves(s: State, r: State, gone: set<int>)
    requires s.count <= |s.slots| && r.count <= |r.slots|
  {
    r.table == Cleared(s.table, gone) && LiveDevices(r) == Keep(LiveDevices(s), gone)
  }

  lemma LeavesTwice(s: State, r: State, q: State, a: set<int>, b: set<int>)
    requires s.count <= |s.slots| && r.count <= |r.slots| && q.count <= |q.slots|
    requires Leaves(s, r, a) && Leaves(r, q, b)
    ensures Leaves(s, q, a + b)
  {
    ClearedTwice(s.table, a, b);
    KeepTwice(LiveDevices(s), a, b);
  }

  // A device without children leaves both tables and disturbs nothing else.
  lemma LeafLeaves(s: State, id: int)
    requires Valid(s) && IsDevice(s.table, id) && forall c :: IsDevice(s.table, c) ==> Step(s.table, c) != id
    ensures InArray(s.slots, s.count, id) && Purged(s, [id]) == Finalized(s, Slot(s.slots, s.count, id))
    ensures Leaves(s, Purged(s, [id]), {id})
  {
    assert InArray(s.slots, s.count, id);
    assert [id][..0] == [] && Purged(s, []) == s;
    BuriedChildless(s.table, id);
    forall i | 0 <= i < s.count ensures s.slots[i].parent != id {
      assert Mirrored(s.table, s.slots[i]) && GoodDevice(s.slots[i], s.nextId);
      assert Step(s.table, s.slots[i].id) == s.slots[i].parent;
    }
    FinalizedChildless(s, Slot(s.slots, s.count, id));
  }

  // The device of `id`, once nothing is left below it.
  lemma PurgeRoot(s: State, id: int, order: seq<int>)
    requires Valid(s) && IsDevice(s.table, id)
    requires Elements(order) == Desc(s.table, id) - {id}
    requires Leaves(s, Purged(s, order), Elements(order))
    ensures var r := Purged(s, order);
      IsDevice(r.table, id) && forall c :: IsDevice(r.table, c) ==> Step(r.table, c) != id
    ensures Leaves(s, Purged(s, order + [id]), Desc(s.table, id))
  {
    var t, r := s.table, Purged(s, order);
    DescDownClosed(t, id);
    ClearedLookup(t, Elements(order));
    forall c | IsDevice(r.table, c) ensures Step(r.table, c) != id {
      if Step(t, c) == id {
        ChildBelow(t, id, c);
      }
    }
    PurgedValid(s, order);
    LeafLeaves(r, id);
    PurgedConcat(s, order, [id]);
    LeavesTwice(s, r, Purged(r, [id]), Elements(order), {id});
    assert Elements(order) + {id} == Desc(t, id);
  }

  lemma {:induction false} PurgedOrder(s: State, id: int)
    requires Valid(s) && IsDevice(s.table, id)
    ensures Leaves(s, Purged(s, Order(s.table, id)), Desc(s.table, id))
    decreases |Order(s.table, id)|, 0
  {
    ChildrenOf(s.table, id);
    OrderIsDesc(s.table, id);
    PurgedOrderAll(s, id, Children(s.table, id));
    PurgeRoot(s, id, OrderAll(s.table, id, Children(s.table, id)));
  }

  // Removing some of the children's subtrees does not disturb the next child's.
  lemma NextChild(t: seq<Node>, id: int, cs: seq<int>, c: int, live: set<int>)
    requires WellFormed(t) && IsDevice(t, id) && Distinct(cs) && c !in cs
    requires AreChildren(t, id, cs) && AreChildren(t, id, [c])
    ensures var gone := Elements(OrderAll(t, id, cs));
      && DownClosed(t, gone) && id !in gone && WellFormed(Cleared(t, gone)) && gone !! Desc(t, c)
      && IsDevice(Cleared(t, gone), c) && Order(Cleared(t, gone), c) == Order(t, c)
      && Safe(Cleared(t, gone), live, c) == Safe(t, live, c)
  {
    var gone := Elements(OrderAll(t, id, cs));
    assert c in [c];
    OrderAllIs(t, id, cs);
    forall x | x in gone ensures x !in Desc(t, c) && x != id {
      assert UnderSome(t, cs, x);
      var d :| d in cs && x in Desc(t, d);
      SiblingsApart(t, c, d);
      ChildBelow(t, id, d);
    }
    forall x | IsDevice(t, x) && Step(t, x) in gone ensures x in gone {
      assert UnderSome(t, cs, Step(t, x));
      var d :| d in cs && Step(t, x) in Desc(t, d);
      DescDownClosed(t, d);
      assert UnderSome(t, cs, x);
    }
    ClearedWellFormed(t, gone);
    OrderFrame(t, gone, c, live);
  }

  // One more child's subtree.
  lemma PurgeChild(s: State, a: seq<int>, c: int)
    requires Valid(s) && Leaves(s, Purged(s, a), Elements(a))
    requires Valid(Purged(s, a)) && IsDevice(Purged(s, a).table, c)
    requires Leaves(Purged(s, a), Purged(Purged(s, a), Order(Purged(s, a).table, c)), Desc(Purged(s, a).table, c))
    ensures var b := Order(Purged(s, a).table, c); Leaves(s, Purged(s, a + b), Elements(a + b))
  {
    var r := Purged(s, a);
    var b := Order(r.table, c);
    PurgedConcat(s, a, b);
    OrderIsDesc(r.table, c);
    ConcatDistinct(a, b);
    LeavesTwice(s, r, Purged(r, b), Elements(a), Elements(b));
  }

  // Where the cascade stands before it takes the child `c`.
  lemma BeforeChild(s: State, id: int, cs: seq<int>, c: int)
    requires Valid(s) && IsDevice(s.table, id) && Distinct(cs) && c !in cs
    requires AreChildren(s.table, id, cs) && AreChildren(s.table, id, [c])
    requires Leaves(s, Purged(s, OrderAll(s.table, id, cs)), Elements(OrderAll(s.table, id, cs)))
    ensures var r := Purged(s, OrderAll(s.table, id, cs));
      && Valid(r) && IsDevice(r.table, c) && IsDevice(s.table, c) && Order(r.table, c) == Order(s.table, c)
      && Ids(r) == Ids(s) - Elements(OrderAll(s.table, id, cs))
      && (forall live :: Safe(r.table, live, c) == Safe(s.table, live, c))
      && id !in OrderAll(s.table, id, cs) && IsDevice(r.table, id)
  {
    assert c in [c];
    var order := OrderAll(s.table, id, cs);
    PurgedValid(s, order);
    NextChild(s.table, id, cs, c, {});
    ClearedLookup(s.table, Elements(order));
    assert id in order ==> id in Elements(order);
    forall live ensures Safe(Purged(s, order).table, live, c) == Safe(s.table, live, c) {
      NextChild(s.table, id, cs, c, live);
    }
  }

  lemma {:induction false} PurgedOrderAll(s: State, id: int, cs: seq<int>)
    requires Valid(s) && IsDevice(s.table, id) && Distinct(cs)
    requires AreChildren(s.table, id, cs)
    ensures Leaves(s, Purged(s, OrderAll(s.table, id, cs)), Elements(OrderAll(s.table, id, cs)))
    decreases |OrderAll(s.table, id, cs)|, 1
  {
    if cs == [] {
      assert Elements([]) == {} && Cleared(s.table, {}) == s.table;
      KeepAll(LiveDevices(s), {});
    } else {
      var n := |cs| - 1;
      OrderAllSnoc(s.table, id, cs);
      PurgedOrderAll(s, id, cs[..n]);
      BeforeChild(s, id, cs[..n], cs[n]);
      var a := OrderAll(s.table, id, cs[..n]);
      PurgedOrder(Purged(s, a), cs[n]);
      PurgeChild(s, a, cs[n]);
    }
  }

  // ---------------------------------------------------------------- cascades that pass devices over

  // Where the cascade stands before it takes the child `c`, some of the earlier devices passed over.
  lemma BeforeNext(s: State, id: int, cs: seq<int>, c: int)
    requires Valid(s) && IsDevice(s.table, id) && Distinct(cs + [c]) && AreChildren(s.table, id, cs + [c])
    requires AreChildren(s.table, id, cs) && FateAll(s.table, Ids(s), id, cs).rc == OK
    requires var gone := FateAll(s.table, Ids(s), id, cs).gone; Leaves(s, Purged(s, gone), Elements(gone))
    ensures var gone := FateAll(s.table, Ids(s), id, cs).gone;
      var r := Purged(s, gone);
      && Valid(r) && Ids(r) == Ids(s) - Elements(gone) && IsDevice(s.table, c) && IsDevice(r.table, c)
      && FateOf(r.table, Ids(r), c) == FateOf(s.table, Ids(s) - Elements(gone), c)
  {
    var gone := FateAll(s.table, Ids(s), id, cs).gone;
    var more := cs + [c];
    assert c in more && more[..|more| - 1] == cs;
    BeforeApart(s.table, Ids(s), id, more);
    FatesDownClosed(s.table, Ids(s), id, cs);
    ClearedWellFormed(s.table, Elements(gone));
    ClearedLookup(s.table, Elements(gone));
    FateFrame(s.table, Elements(gone), c, Ids(s) - Elements(gone));
    PurgedValid(s, gone);
  }

  // What went regularly is out of both tables, and nothing else is disturbed.
  lemma {:induction false} FateLeaves(s: State, id: int)
    requires Valid(s) && IsDevice(s.table, id)
    ensures var gone := Regular(FateOf(s.table, Ids(s), id)); Leaves(s, Purged(s, gone), Elements(gone))
    decreases |Order(s.table, id)|, 0
  {
    ChildrenOf(s.table, id);
    if FateOf(s.table, Ids(s), id).rc == OK {
      WholeLeaves(s, id);
    } else {
      FateAllLeaves(s, id, Children(s.table, id));
      EndRegular(Ids(s), id, FateAll(s.table, Ids(s), id, Children(s.table, id)));
    }
  }

  lemma WholeLeaves(s: State, id: int)
    requires Valid(s) && IsDevice(s.table, id) && FateOf(s.table, Ids(s), id).rc == OK
    ensures var gone := Regular(FateOf(s.table, Ids(s), id)); Leaves(s, Purged(s, gone), Elements(gone))
  {
    FateSafe(s.table, Ids(s), id);
    OrderIsDesc(s.table, id);
    PurgedOrder(s, id);
  }

  // The end of a delete that fails adds nothing regular.
  lemma EndRegular(live: set<int>, id: int, below: Fate)
    requires EndOf(live, id, below).rc != OK
    ensures Regular(EndOf(live, id, below)) == Regular(below)
  {
  }

  lemma {:induction false} FateAllLeaves(s: State, id: int, cs: seq<int>)
    requires Valid(s) && IsDevice(s.table, id) && AreChildren(s.table, id, cs) && Distinct(cs)
    ensures var gone := Regular(FateAll(s.table, Ids(s), id, cs)); Leaves(s, Purged(s, gone), Elements(gone))
    decreases |OrderAll(s.table, id, cs)|, 1
  {
    if cs == [] {
      assert Elements([]) == {} && Cleared(s.table, {}) == s.table;
      KeepAll(LiveDevices(s), {});
    } else {
      var n := |cs| - 1;
      assert cs[..n] + [cs[n]] == cs;
      OrderAllSnoc(s.table, id, cs);
      FateAllLeaves(s, id, cs[..n]);
      var before := FateAll(s.table, Ids(s), id, cs[..n]);
      if before.rc == OK {
        BeforeNext(s, id, cs[..n], cs[n]);
        NextOrder(s, id, cs[..n], cs[n]);
        FateLeaves(Purged(s, before.gone), cs[n]);
        var last := FateOf(s.table, Ids(s) - Elements(before.gone), cs[n]);
        FateCoded(s.table, Ids(s) - Elements(before.gone), cs[n]);
        RegularGoesOn(before, last);
        NextLeaves(s, before.gone, Regular(last));
      }
    }
  }

  lemma NextOrder(s: State, id: int, cs: seq<int>, c: int)
    requires Valid(s) && IsDevice(s.table, id) && Distinct(cs + [c]) && AreChildren(s.table, id, cs + [c])
    requires AreChildren(s.table, id, cs) && FateAll(s.table, Ids(s), id, cs).rc == OK
    requires var gone := FateAll(s.table, Ids(s), id, cs).gone; Leaves(s, Purged(s, gone), Elements(gone))
    ensures var r := Purged(s, FateAll(s.table, Ids(s), id, cs).gone);
      WellFormed(r.table) && IsDevice(r.table, c) && |Order(r.table, c)| <= |OrderAll(s.table, id, cs + [c])|
  {
    var gone := FateAll(s.table, Ids(s), id, cs).gone;
    var more := cs + [c];
    assert c in more && more[..|more| - 1] == cs;
    BeforeNext(s, id, cs, c);
    BeforeApart(s.table, Ids(s), id, more);
    OrderFrame(s.table, Elements(gone), c, {});
    OrderAllSnoc(s.table, id, more);
  }

  lemma NextLeaves(s: State, a: seq<int>, b: seq<int>)
    requires s.count <= |s.slots| && Leaves(s, Purged(s, a), Elements(a))
    requires Leaves(Purged(s, a), Purged(Purged(s, a), b), Elements(b))
    ensures Leaves(s, Purged(s, a + b), Elements(a + b))
  {
    PurgedConcat(s, a, b);
    ConcatDistinct(a, b);
    LeavesTwice(s, Purged(s, a), Purged(Purged(s, a), b), Elements(a), Elements(b));
  }
}
