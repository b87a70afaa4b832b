/** Well-formed tables, the devices below a device, and the order in which a cascade takes them. */
module Subtree {
  import opened Domotics
  import opened Forest

  // ---------------------------------------------------------------- well-formed tables

  // A slot is free, or carries a positive id whose parent is the controller or a live
  // control device.
  ghost predicate GoodSlot(t: seq<Node>, n: Node) {
    n == FREE ||
    (n.id >= 1 &&
     (n.parent == CONTROLLER_ID ||
      (n.parent >= 1 && Has(t, n.parent) && IsControl(t[IndexOf(t, n.parent)].kind))))
  }

  ghost predicate GoodSlots(t: seq<Node>) {
    forall i {:trigger GoodSlot(t, t[i])} :: 0 <= i < |t| ==> GoodSlot(t, t[i])
  }

  ghost predicate WellFormed(t: seq<Node>) {
    UniqueIds(t) && GoodSlots(t) && AllRooted(t)
  }

  // An id that names a device of the table.
  ghost predicate IsDevice(t: seq<Node>, id: int) {
    id >= 1 && Has(t, id)
  }

  lemma DeviceFacts(t: seq<Node>, id: int)
    requires WellFormed(t) && IsDevice(t, id)
    ensures Rooted(t, id) && !OnChain(t, id, Step(t, id))
    ensures Step(t, id) == t[IndexOf(t, id)].parent
    ensures Step(t, id) == CONTROLLER_ID || IsDevice(t, Step(t, id))
  {
    assert t[IndexOf(t, id)].id == id;
    assert GoodSlot(t, t[IndexOf(t, id)]);
    RootedIsAcyclic(t, id);
  }

  // ---------------------------------------------------------------- removing devices

  // The table without the devices of `gone`.
  ghost function Cleared(t: seq<Node>, gone: set<int>): (r: seq<Node>)
    ensures |r| == |t|
  {
    seq(|t|, i requires 0 <= i < |t| => if t[i].id in gone then FREE else t[i])
  }

  // The table after `id` was erased; children it still had are left detached.
  ghost function Detached(t: seq<Node>, id: int): (r: seq<Node>)
    requires Has(t, id)
    ensures |r| == |t|
  {
    seq(|t|, i requires 0 <= i < |t| =>
      if i == IndexOf(t, id) then FREE
      else if t[i].id >= 0 && t[i].parent == id then t[i].(parent := NO_PARENT) else t[i])
  }

  // The table after a device died: its slot is free and its children belong to the controller.
  ghost function Buried(t: seq<Node>, dead: int): (r: seq<Node>)
    ensures |r| == |t|
  {
    seq(|t|, i requires 0 <= i < |t| =>
      if t[i].id == dead then FREE
      else if t[i].parent == dead then t[i].(parent := CONTROLLER_ID) else t[i])
  }

  ghost predicate DownClosed(t: seq<Node>, gone: set<int>) {
    forall x :: IsDevice(t, x) && Step(t, x) in gone ==> x in gone
  }

  lemma ClearedLookup(t: seq<Node>, gone: set<int>)
    requires UniqueIds(t)
    ensures UniqueIds(Cleared(t, gone))
    ensures forall x :: x >= 1 ==> (Has(Cleared(t, gone), x) <==> Has(t, x) && x !in gone)
    ensures forall x :: x >= 1 && Has(t, x) && x !in gone ==>
      IndexOf(Cleared(t, gone), x) == IndexOf(t, x) && Step(Cleared(t, gone), x) == Step(t, x)
  {
    var t' := Cleared(t, gone);
    forall x | x >= 1 ensures Has(t', x) <==> Has(t, x) && x !in gone
                      ensures Has(t, x) && x !in gone ==> IndexOf(t', x) == IndexOf(t, x) {
      if Has(t, x) && x !in gone {
        assert t'[IndexOf(t, x)].id == x;
        IndexOfSlot(t', IndexOf(t, x));
      }
      if Has(t', x) {
        assert t[IndexOf(t', x)].id == x;
      }
    }
  }

  lemma BuriedLookup(t: seq<Node>, dead: int)
    requires UniqueIds(t)
    ensures UniqueIds(Buried(t, dead))
    ensures forall x :: x >= 1 ==> (Has(Buried(t, dead), x) <==> Has(t, x) && x != dead)
    ensures forall x :: x >= 1 && Has(t, x) && x != dead ==>
      IndexOf(Buried(t, dead), x) == IndexOf(t, x) &&
      Step(Buried(t, dead), x) == if Step(t, x) == dead then CONTROLLER_ID else Step(t, x)
  {
    var t' := Buried(t, dead);
    forall x | x >= 1 ensures Has(t', x) <==> Has(t, x) && x != dead
                      ensures Has(t, x) && x != dead ==> IndexOf(t', x) == IndexOf(t, x) {
      if Has(t, x) && x != dead {
        assert t'[IndexOf(t, x)].id == x;
        IndexOfSlot(t', IndexOf(t, x));
      }
      if Has(t', x) {
        assert t[IndexOf(t', x)].id == x;
      }
    }
  }

  lemma {:induction false} BuriedRooted(t: seq<Node>, dead: int, x: int, n: nat)
    requires WellFormed(t) && dead >= 1 && x != dead
    requires x == CONTROLLER_ID || IsDevice(t, x)
    requires Up(t, x, n) == CONTROLLER_ID
    ensures Rooted(Buried(t, dead), x)
    decreases n
  {
    var t' := Buried(t, dead);
    BuriedLookup(t, dead);
    assert Up(t', CONTROLLER_ID, 0) == CONTROLLER_ID;
    if x != CONTROLLER_ID {
      DeviceFacts(t, x);
      if Step(t, x) != dead {
        BuriedRooted(t, dead, Step(t, x), n - 1);
      }
      RootedStep(t', x);
    }
  }

  lemma BuriedWellFormed(t: seq<Node>, dead: int)
    requires WellFormed(t) && dead >= 1
    ensures WellFormed(Buried(t, dead))
  {
    var t' := Buried(t, dead);
    BuriedLookup(t, dead);
    forall i | 0 <= i < |t'| ensures GoodSlot(t', t'[i])
                             ensures t'[i].id >= 0 ==> Rooted(t', t'[i].id) {
      assert GoodSlot(t, t[i]);
      if t[i].id >= 1 && t[i].id != dead {
        IndexOfSlot(t, i);
        DeviceFacts(t, t[i].id);
        var n: nat :| Up(t, t[i].id, n) == CONTROLLER_ID;
        BuriedRooted(t, dead, t[i].id, n);
        if t[i].parent >= 1 && t[i].parent != dead {
          assert t'[IndexOf(t, t[i].parent)].kind == t[IndexOf(t, t[i].parent)].kind;
        }
      }
    }
  }

  lemma {:induction false} ClearedRooted(t: seq<Node>, gone: set<int>, x: int, n: nat)
    requires WellFormed(t) && DownClosed(t, gone)
    requires x == CONTROLLER_ID || (IsDevice(t, x) && x !in gone)
    requires Up(t, x, n) == CONTROLLER_ID
    ensures Rooted(Cleared(t, gone), x)
    decreases n
  {
    var t' := Cleared(t, gone);
    ClearedLookup(t, gone);
    assert Up(t', CONTROLLER_ID, 0) == CONTROLLER_ID;
    if x != CONTROLLER_ID {
      DeviceFacts(t, x);
      ClearedRooted(t, gone, Step(t, x), n - 1);
      RootedStep(t', x);
    }
  }

  lemma ClearedWellFormed(t: seq<Node>, gone: set<int>)
    requires WellFormed(t) && DownClosed(t, gone)
    ensures WellFormed(Cleared(t, gone))
  {
    var t' := Cleared(t, gone);
    ClearedLookup(t, gone);
    forall i | 0 <= i < |t'| ensures GoodSlot(t', t'[i])
                             ensures t'[i].id >= 0 ==> Rooted(t', t'[i].id) {
      assert GoodSlot(t, t[i]);
      if t[i].id >= 1 && t[i].id !in gone {
        IndexOfSlot(t, i);
        DeviceFacts(t, t[i].id);
        var n: nat :| Up(t, t[i].id, n) == CONTROLLER_ID;
        ClearedRooted(t, gone, t[i].id, n);
        if t[i].parent >= 1 {
          assert t'[IndexOf(t, t[i].parent)] == t[IndexOf(t, t[i].parent)];
        }
      }
    }
  }

  // ---------------------------------------------------------------- children and descendants

  // The direct children, in slot order.
  ghost function Children(t: seq<Node>, parent: int): seq<int> {
    if t == [] then [] else
      var n := t[|t| - 1];
      Children(t[..|t| - 1], parent) + (if n.id >= 0 && n.parent == parent then [n.id] else [])
  }

  lemma {:induction false} ChildrenSlots(t: seq<Node>, parent: int)
    ensures forall c :: c in Children(t, parent) <==>
      exists i :: 0 <= i < |t| && t[i].id >= 0 && t[i].parent == parent && t[i].id == c
    ensures |Children(t, parent)| <= |t|
    ensures (exists i :: 0 <= i < |t| && !(t[i].id >= 0 && t[i].parent == parent)) ==> |Children(t, parent)| < |t|
    ensures UniqueIds(t) ==>
      forall i, j :: 0 <= i < j < |Children(t, parent)| ==> Children(t, parent)[i] != Children(t, parent)[j]
  {
    if t != [] {
      var rest := t[..|t| - 1];
      ChildrenSlots(rest, parent);
      assert forall i :: 0 <= i < |rest| ==> rest[i] == t[i];
      if UniqueIds(t) {
        assert t[|t| - 1].id >= 0 ==> t[|t| - 1].id !in Children(rest, parent);
      }
    }
  }

  lemma ChildrenOf(t: seq<Node>, parent: int)
    requires WellFormed(t)
    ensures forall c :: c in Children(t, parent) <==> IsDevice(t, c) && Step(t, c) == parent
    ensures forall i, j :: 0 <= i < j < |Children(t, parent)| ==> Children(t, parent)[i] != Children(t, parent)[j]
  {
    ChildrenSlots(t, parent);
    forall c ensures c in Children(t, parent) <==> IsDevice(t, c) && Step(t, c) == parent {
      if c in Children(t, parent) {
        var i :| 0 <= i < |t| && t[i].id >= 0 && t[i].parent == parent && t[i].id == c;
        assert GoodSlot(t, t[i]);
        IndexOfSlot(t, i);
      }
      if IsDevice(t, c) && Step(t, c) == parent {
        DeviceFacts(t, c);
        assert t[IndexOf(t, c)].id == c;
      }
    }
  }

  // `id` and everything below it.
  ghost function Desc(t: seq<Node>, id: int): set<int> {
    set i | 0 <= i < |t| && t[i].id >= 1 && OnChain(t, id, t[i].id) :: t[i].id
  }

  lemma DescIs(t: seq<Node>, id: int)
    ensures forall x :: x in Desc(t, id) <==> IsDevice(t, x) && OnChain(t, id, x)
  {
    forall x | IsDevice(t, x) && OnChain(t, id, x) ensures x in Desc(t, id) {
      assert t[IndexOf(t, x)].id == x;
    }
  }

  lemma DescDownClosed(t: seq<Node>, id: int)
    requires WellFormed(t) && IsDevice(t, id)
    ensures id in Desc(t, id) && DownClosed(t, Desc(t, id))
    ensures DownClosed(t, Desc(t, id) - {id})
  {
    DescIs(t, id);
    assert Up(t, id, 0) == id;
    forall x | IsDevice(t, x) && Step(t, x) in Desc(t, id) ensures x in Desc(t, id) && x != id {
      RootedStep(t, x);
      DeviceFacts(t, x);
    }
  }

  // A child's descendants are some of its parent's, but not the parent.
  lemma ChildBelow(t: seq<Node>, id: int, c: int)
    requires WellFormed(t) && IsDevice(t, id) && IsDevice(t, c) && Step(t, c) == id
    ensures Desc(t, c) < Desc(t, id) && c in Desc(t, c) && id !in Desc(t, c)
  {
    DescIs(t, c);
    DescIs(t, id);
    assert Up(t, c, 0) == c && Up(t, id, 0) == id;
    RootedStep(t, c);
    DeviceFacts(t, c);
    forall x | OnChain(t, c, x) ensures OnChain(t, id, x) {
      OnChainTrans(t, id, c, x);
    }
    assert id in Desc(t, id) && id !in Desc(t, c);
  }

  // Siblings have no descendant in common.
  lemma SiblingsApart(t: seq<Node>, c: int, d: int)
    requires WellFormed(t) && IsDevice(t, c) && IsDevice(t, d) && c != d && Step(t, c) == Step(t, d)
    ensures Desc(t, c) !! Desc(t, d)
  {
    DescIs(t, c);
    DescIs(t, d);
    DeviceFacts(t, c);
    DeviceFacts(t, d);
    RootedStep(t, c);
    RootedStep(t, d);
    forall x | x in Desc(t, c) ensures x !in Desc(t, d) {
      if OnChain(t, d, x) {
        OnChainLinear(t, c, d, x);
      }
    }
  }

  // Whatever lies strictly below `id` lies below one of its children.
  lemma {:induction false} BelowSomeChild(t: seq<Node>, id: int, x: int, n: nat) returns (c: int)
    requires WellFormed(t) && IsDevice(t, id) && IsDevice(t, x) && x != id && Up(t, x, n) == id
    ensures IsDevice(t, c) && Step(t, c) == id && OnChain(t, c, x)
    decreases n
  {
    DeviceFacts(t, x);
    RootedStep(t, x);
    if Step(t, x) == id {
      c := x;
    } else {
      if Step(t, x) == CONTROLLER_ID {
        UpStays(t, CONTROLLER_ID, n - 1);
      }
      c := BelowSomeChild(t, id, Step(t, x), n - 1);
    }
  }
}
