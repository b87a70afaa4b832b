/** The order in which a cascade delete removes a subtree, and when that order is harmless for
    the array slot that each level of the recursion keeps pointing at. */
module CascadeOrder {
  import opened Domotics
  import opened Forest
  import opened Subtree

  ghost predicate AreChildren(t: seq<Node>, id: int, cs: seq<int>) {
    forall c :: c in cs ==> IsDevice(t, c) && Step(t, c) == id
  }

  // Children first, in slot order, then the device itself.
  ghost function Order(t: seq<Node>, id: int): (order: seq<int>)
    requires WellFormed(t) && IsDevice(t, id)
    ensures order != [] && order[|order| - 1] == id
    decreases Desc(t, id), 1, 0
  {
    ChildrenOf(t, id);
    OrderAll(t, id, Children(t, id)) + [id]
  }

  ghost function OrderAll(t: seq<Node>, id: int, cs: seq<int>): seq<int>
    requires WellFormed(t) && IsDevice(t, id)
    requires AreChildren(t, id, cs)
    decreases Desc(t, id), 0, |cs|
  {
    if cs == [] then [] else
      var n := |cs| - 1;
      ChildBelow(t, id, cs[n]);
      OrderAll(t, id, cs[..n]) + Order(t, cs[n])
  }

  // While the devices `order` are removed one by one, no device with a smaller id than `id`
  // goes before every device with a larger id has gone.
  ghost predicate SlotSafe(live: set<int>, order: seq<int>, id: int) {
    forall j, y :: 0 <= j < |order| && order[j] < id && y in live && y > id ==> y in order[..j]
  }

  // SlotSafe at every level of the recursion.
  ghost predicate Safe(t: seq<Node>, live: set<int>, id: int)
    requires WellFormed(t) && IsDevice(t, id)
    decreases Desc(t, id), 1, 0
  {
    ChildrenOf(t, id);
    var cs := Children(t, id);
    SafeAll(t, live, id, cs) && SlotSafe(live, OrderAll(t, id, cs), id)
  }

  ghost predicate SafeAll(t: seq<Node>, live: set<int>, id: int, cs: seq<int>)
    requires WellFormed(t) && IsDevice(t, id)
    requires AreChildren(t, id, cs)
    decreases Desc(t, id), 0, |cs|
  {
    cs == [] ||
    (var n := |cs| - 1;
     ChildBelow(t, id, cs[n]);
     SafeAll(t, live, id, cs[..n]) && Safe(t, live - Elements(OrderAll(t, id, cs[..n])), cs[n]))
  }

  ghost function Elements(s: seq<int>): set<int> {
    set x | x in s
  }

  ghost predicate Distinct(s: seq<int>) {
    forall i, j :: 0 <= i < j < |s| ==> s[i] != s[j]
  }

  lemma ConcatDistinct(a: seq<int>, b: seq<int>)
    ensures Elements(a + b) == Elements(a) + Elements(b)
    ensures Distinct(a) && Distinct(b) && Elements(a) !! Elements(b) ==> Distinct(a + b)
  {
    if Distinct(a) && Distinct(b) && Elements(a) !! Elements(b) {
      forall i, j | 0 <= i < j < |a + b| ensures (a + b)[i] != (a + b)[j] {
        assert i < |a| <= j ==> a[i] in Elements(a) && b[j - |a|] in Elements(b);
      }
    }
  }

  lemma OrderAllSnoc(t: seq<Node>, id: int, cs: seq<int>)
    requires WellFormed(t) && IsDevice(t, id) && cs != []
    requires AreChildren(t, id, cs)
    ensures var n := |cs| - 1; OrderAll(t, id, cs) == OrderAll(t, id, cs[..n]) + Order(t, cs[n])
    ensures cs[..|cs| - 1] + [cs[|cs| - 1]] == cs
  {
  }

  // Some device of `cs` has `x` among its descendants.
  ghost predicate UnderSome(t: seq<Node>, cs: seq<int>, x: int) {
    exists c :: c in cs && x in Desc(t, c)
  }

  lemma UnderSomeSnoc(t: seq<Node>, cs: seq<int>, x: int)
    requires cs != []
    ensures UnderSome(t, cs, x) <==> UnderSome(t, cs[..|cs| - 1], x) || x in Desc(t, cs[|cs| - 1])
  {
    if UnderSome(t, cs, x) {
      var c :| c in cs && x in Desc(t, c);
      assert c in cs[..|cs| - 1] || c == cs[|cs| - 1];
    }
    assert cs[|cs| - 1] in cs;
  }

  // The order lists exactly the device and its descendants, each once.
  lemma {:induction false} OrderIsDesc(t: seq<Node>, id: int)
    requires WellFormed(t) && IsDevice(t, id)
    ensures Elements(Order(t, id)) == Desc(t, id) && Distinct(Order(t, id))
    ensures (ChildrenOf(t, id); Elements(OrderAll(t, id, Children(t, id))) == Desc(t, id) - {id})
    decreases Desc(t, id), 1, 0
  {
    ChildrenOf(t, id);
    DescDownClosed(t, id);
    var cs := Children(t, id);
    OrderAllIs(t, id, cs);
    var all := OrderAll(t, id, cs);
    forall x | x in Desc(t, id) && x != id ensures x in all {
      DescIs(t, id);
      var n: nat :| Up(t, x, n) == id;
      var c := BelowSomeChild(t, id, x, n);
      DescIs(t, c);
      assert x in Desc(t, c) && UnderSome(t, cs, x);
    }
    forall x | x in all ensures x in Desc(t, id) && x != id {
      assert UnderSome(t, cs, x);
      var c :| c in cs && x in Desc(t, c);
      ChildBelow(t, id, c);
    }
    ConcatDistinct(all, [id]);
  }

  lemma {:induction false} OrderAllIs(t: seq<Node>, id: int, cs: seq<int>)
    requires WellFormed(t) && IsDevice(t, id)
    requires AreChildren(t, id, cs)
    requires Distinct(cs)
    ensures forall x :: x in OrderAll(t, id, cs) <==> UnderSome(t, cs, x)
    ensures Distinct(OrderAll(t, id, cs))
    decreases Desc(t, id), 0, |cs|
  {
    if cs != [] {
      var n := |cs| - 1;
      var a, b := OrderAll(t, id, cs[..n]), Order(t, cs[n]);
      OrderAllSnoc(t, id, cs);
      OrderAllIs(t, id, cs[..n]);
      ChildBelow(t, id, cs[n]);
      OrderIsDesc(t, cs[n]);
      EarlierApart(t, id, cs[..n], cs[n]);
      ConcatDistinct(a, b);
      forall x ensures x in a + b <==> UnderSome(t, cs, x) {
        UnderSomeSnoc(t, cs, x);
        assert x in b <==> x in Elements(b);
      }
    }
  }

  lemma EarlierApart(t: seq<Node>, id: int, cs: seq<int>, c: int)
    requires WellFormed(t) && c !in cs && IsDevice(t, c) && Step(t, c) == id
    requires AreChildren(t, id, cs)
    ensures forall x :: UnderSome(t, cs, x) ==> x !in Desc(t, c)
  {
    forall x | UnderSome(t, cs, x) ensures x !in Desc(t, c) {
      var d :| d in cs && x in Desc(t, d);
      SiblingsApart(t, d, c);
    }
  }

  // ---------------------------------------------------------------- framing

  lemma ChildrenOfCleared(t: seq<Node>, gone: set<int>, id: int)
    requires WellFormed(t) && id >= 1
    requires forall c :: c in gone ==> IsDevice(t, c) ==> Step(t, c) != id
    ensures Children(Cleared(t, gone), id) == Children(t, id)
  {
    forall i | 0 <= i < |t| && t[i].id >= 0 && t[i].parent == id ensures t[i].id !in gone {
      assert GoodSlot(t, t[i]);
      IndexOfSlot(t, i);
    }
    ChildrenPrefix(t, Cleared(t, gone), id);
  }

  lemma {:induction false} ChildrenPrefix(t: seq<Node>, t': seq<Node>, id: int)
    requires |t'| == |t|
    requires forall i :: 0 <= i < |t| ==>
      if t[i].id >= 0 && t[i].parent == id then t'[i] == t[i] else !(t'[i].id >= 0 && t'[i].parent == id)
    ensures Children(t', id) == Children(t, id)
  {
    if t != [] {
      ChildrenPrefix(t[..|t| - 1], t'[..|t| - 1], id);
    }
  }

  // The order below `id` does not change when devices elsewhere are removed.
  lemma {:induction false} OrderFrame(t: seq<Node>, gone: set<int>, id: int, live: set<int>)
    requires WellFormed(t) && IsDevice(t, id) && gone !! Desc(t, id)
    requires WellFormed(Cleared(t, gone))
    ensures IsDevice(Cleared(t, gone), id)
    ensures Order(Cleared(t, gone), id) == Order(t, id)
    ensures Safe(Cleared(t, gone), live, id) == Safe(t, live, id)
    decreases Desc(t, id), 1, 0
  {
    var t', cs := Cleared(t, gone), Children(t, id);
    ClearedLookup(t, gone);
    DescDownClosed(t, id);
    ChildrenOf(t, id);
    ChildrenOf(t', id);
    forall c | c in gone && IsDevice(t, c) ensures Step(t, c) != id {
      if Step(t, c) == id { ChildBelow(t, id, c); }
    }
    ChildrenOfCleared(t, gone, id);
    OrderAllFrame(t, gone, id, cs, live);
  }

  lemma {:induction false} OrderAllFrame(t: seq<Node>, gone: set<int>, id: int, cs: seq<int>, live: set<int>)
    requires WellFormed(t) && IsDevice(t, id) && gone !! Desc(t, id)
    requires WellFormed(Cleared(t, gone)) && IsDevice(Cleared(t, gone), id)
    requires AreChildren(t, id, cs)
    requires AreChildren(Cleared(t, gone), id, cs)
    ensures OrderAll(Cleared(t, gone), id, cs) == OrderAll(t, id, cs)
    ensures SafeAll(Cleared(t, gone), live, id, cs) == SafeAll(t, live, id, cs)
    decreases Desc(t, id), 0, |cs|
  {
    if cs != [] {
      var n := |cs| - 1;
      ChildBelow(t, id, cs[n]);
      OrderAllFrame(t, gone, id, cs[..n], live);
      OrderFrame(t, gone, cs[n], live - Elements(OrderAll(t, id, cs[..n])));
    }
  }

  // ---------------------------------------------------------------- when the order is safe

  // Every link goes from a smaller to a larger id.
  ghost predicate Increasing(t: seq<Node>) {
    forall x :: IsDevice(t, x) ==> Step(t, x) < x
  }

  lemma {:induction false} IncreasingBelow(t: seq<Node>, id: int, x: int, n: nat)
    requires WellFormed(t) && Increasing(t) && IsDevice(t, id) && IsDevice(t, x) && Up(t, x, n) == id
    ensures id <= x
    decreases n
  {
    if n > 0 {
      DeviceFacts(t, x);
      if Step(t, x) == CONTROLLER_ID {
        UpStays(t, CONTROLLER_ID, n - 1);
      } else {
        IncreasingBelow(t, id, Step(t, x), n - 1);
      }
    }
  }

  lemma {:induction false} IncreasingIsSafe(t: seq<Node>, live: set<int>, id: int)
    requires WellFormed(t) && Increasing(t) && IsDevice(t, id)
    ensures Safe(t, live, id)
    decreases Desc(t, id), 1, 0
  {
    ChildrenOf(t, id);
    var cs := Children(t, id);
    IncreasingAllIsSafe(t, live, id, cs);
    IncreasingSlotSafe(t, live, id);
  }

  lemma IncreasingSlotSafe(t: seq<Node>, live: set<int>, id: int)
    requires WellFormed(t) && Increasing(t) && IsDevice(t, id)
    ensures (ChildrenOf(t, id); SlotSafe(live, OrderAll(t, id, Children(t, id)), id))
  {
    ChildrenOf(t, id);
    OrderIsDesc(t, id);
    DescIs(t, id);
    var order := OrderAll(t, id, Children(t, id));
    forall j | 0 <= j < |order| ensures order[j] >= id {
      assert order[j] in Elements(order);
      var n: nat :| Up(t, order[j], n) == id;
      IncreasingBelow(t, id, order[j], n);
    }
  }

  lemma {:induction false} IncreasingAllIsSafe(t: seq<Node>, live: set<int>, id: int, cs: seq<int>)
    requires WellFormed(t) && Increasing(t) && IsDevice(t, id)
    requires AreChildren(t, id, cs)
    ensures SafeAll(t, live, id, cs)
    decreases Desc(t, id), 0, |cs|
  {
    if cs != [] {
      var n := |cs| - 1;
      ChildBelow(t, id, cs[n]);
      IncreasingAllIsSafe(t, live, id, cs[..n]);
      IncreasingIsSafe(t, live - Elements(OrderAll(t, id, cs[..n])), cs[n]);
    }
  }
}
