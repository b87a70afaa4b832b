/** What linking a child to a new parent may answer, and what it does to the hierarchy. */
module Linking {
  import opened Domotics
  import opened Forest

  // ---------------------------------------------------------------- the bounded walk

  // The walk from the new parent ends at the child, at the controller or outside the table.
  ghost predicate Stops(t: seq<Node>, child: int, id: int) {
    id == child || id == CONTROLLER_ID || !Has(t, id)
  }

  // Pigeonhole: before it stops the walk meets a different slot at every step.
  lemma WalkBound(t: seq<Node>, child: int, id: int, k: nat)
    requires forall j: nat :: j < k ==> !Stops(t, child, Up(t, id, j))
    requires Stops(t, child, Up(t, id, k))
    ensures k <= |t|
  {
    var slots := seq(k, (j: nat) requires j < k => IndexOf(t, Up(t, id, j)));
    forall i, j | 0 <= i < j < k ensures slots[i] != slots[j] {
      UpAdd(t, id, i, k - j);
      UpAdd(t, id, j, k - j);
      var n: nat := i + (k - j);
      assert !Stops(t, child, Up(t, id, n));
    }
    Pigeonhole(slots, |t|);
  }

  lemma {:induction false} FirstStop(t: seq<Node>, child: int, id: int, n: nat) returns (k: nat)
    requires Stops(t, child, Up(t, id, n))
    ensures k <= n && Stops(t, child, Up(t, id, k))
    ensures forall j: nat :: j < k ==> !Stops(t, child, Up(t, id, j))
  {
    k := 0;
    while !Stops(t, child, Up(t, id, k))
      invariant k <= n
      invariant forall j: nat :: j < k ==> !Stops(t, child, Up(t, id, j))
      decreases n - k
    {
      k := k + 1;
    }
  }

  // A walk that has met |t| + 1 ids without stopping will never stop.
  lemma WalkNeverStops(t: seq<Node>, child: int, id: int)
    requires forall j: nat :: j <= |t| ==> !Stops(t, child, Up(t, id, j))
    ensures forall n: nat :: !Stops(t, child, Up(t, id, n))
  {
    forall n: nat ensures !Stops(t, child, Up(t, id, n)) {
      if Stops(t, child, Up(t, id, n)) {
        var k := FirstStop(t, child, id, n);
        WalkBound(t, child, id, k);
        assert false;
      }
    }
  }

  // ---------------------------------------------------------------- the answer

  // The answer to "link child to parent", said in terms of the hierarchy alone.
  ghost function LinkOutcome(t: seq<Node>, child: int, parent: int): Code {
    if child < 0 || parent < 0 then ERR_INVALID_PARAMETERS
    else if child == parent then ERR_SELF_LINK
    else if !Has(t, child) then ERR_DEVICE_NOT_FOUND
    else if parent == CONTROLLER_ID then OK
    else if !Has(t, parent) then ERR_DEVICE_NOT_FOUND
    else if !IsControl(t[IndexOf(t, parent)].kind) then ERR_DEVICE_TYPE_MISMATCH
    else if OnChain(t, child, parent) then ERR_CYCLE_DETECTED
    else if Rooted(t, parent) then OK
    else if DeadEnd(t, parent) then ERR_INVALID_STATE
    else ERR_CYCLE_DETECTED
  }

  ghost function WithParent(t: seq<Node>, child: int, parent: int): seq<Node>
    requires Has(t, child)
  {
    t[IndexOf(t, child) := t[IndexOf(t, child)].(parent := parent)]
  }

  // A rooted table and two different devices of it, the parent a control device.
  ghost predicate Linkable(t: seq<Node>, child: int, parent: int) {
    && AllRooted(t) && Live(t, child) && Live(t, parent) && child != parent
    && parent != CONTROLLER_ID && IsControl(t[IndexOf(t, parent)].kind)
  }

  // The answers that need no walk: each is given exactly in its case, and the later ones only if none
  // of the earlier applies.
  lemma LinkCodes(t: seq<Node>, child: int, parent: int)
    ensures LinkOutcome(t, child, parent) == ERR_INVALID_PARAMETERS <==> child < 0 || parent < 0
    ensures LinkOutcome(t, child, parent) == ERR_SELF_LINK <==> child == parent >= 0
    ensures LinkOutcome(t, child, parent) == ERR_DEVICE_NOT_FOUND <==>
      child >= 0 && parent >= 0 && child != parent && (!Has(t, child) || (parent != CONTROLLER_ID && !Has(t, parent)))
    ensures LinkOutcome(t, child, parent) == ERR_DEVICE_TYPE_MISMATCH <==>
      child >= 0 && parent > CONTROLLER_ID && child != parent && Has(t, child) && Has(t, parent) &&
      !IsControl(t[IndexOf(t, parent)].kind)
    ensures child > CONTROLLER_ID && Has(t, child) ==> LinkOutcome(t, child, CONTROLLER_ID) == OK
  {
  }

  // On a rooted table the answer "cycle" means exactly that the child is an ancestor of the
  // parent, and the two answers for broken tables are never given.
  lemma CycleIffAncestor(t: seq<Node>, child: int, parent: int)
    requires Linkable(t, child, parent)
    ensures LinkOutcome(t, child, parent) == ERR_CYCLE_DETECTED <==> OnChain(t, child, parent)
    ensures LinkOutcome(t, child, parent) == OK <==> !OnChain(t, child, parent)
  {
    assert Rooted(t, t[IndexOf(t, parent)].id);
  }

  // What the three endings of the walk say about the chain.
  lemma WalkEnds(t: seq<Node>, child: int, parent: int, n: nat)
    requires Up(t, parent, n) != child && (Up(t, parent, n) == CONTROLLER_ID || !Has(t, Up(t, parent, n)))
    requires forall j: nat :: j < n ==> !Stops(t, child, Up(t, parent, j))
    ensures !OnChain(t, child, parent)
    ensures Rooted(t, parent) <==> Up(t, parent, n) == CONTROLLER_ID
    ensures Up(t, parent, n) != CONTROLLER_ID ==> DeadEnd(t, parent)
  {
    forall m: nat ensures Up(t, parent, m) != child
                  ensures Up(t, parent, n) != CONTROLLER_ID ==> Up(t, parent, m) != CONTROLLER_ID {
      if m >= n {
        UpStaysFrom(t, parent, n, m);
      }
    }
  }

  lemma WalkForEver(t: seq<Node>, child: int, parent: int)
    requires forall j: nat :: j <= |t| ==> !Stops(t, child, Up(t, parent, j))
    ensures !OnChain(t, child, parent) && !Rooted(t, parent) && !DeadEnd(t, parent)
  {
    WalkNeverStops(t, child, parent);
    forall n: nat
      ensures Up(t, parent, n) != child && Up(t, parent, n) != CONTROLLER_ID && Has(t, Up(t, parent, n))
    {
      assert !Stops(t, child, Up(t, parent, n));
    }
  }

  // ---------------------------------------------------------------- the effect

  lemma WithParentLookup(t: seq<Node>, child: int, parent: int)
    requires Has(t, child)
    ensures |WithParent(t, child, parent)| == |t|
    ensures forall id :: Has(WithParent(t, child, parent), id) <==> Has(t, id)
    ensures forall id :: Has(t, id) ==> IndexOf(WithParent(t, child, parent), id) == IndexOf(t, id)
    ensures forall id :: id != child ==> Step(WithParent(t, child, parent), id) == Step(t, id)
    ensures child != CONTROLLER_ID ==> Step(WithParent(t, child, parent), child) == parent
  {
    var t' := WithParent(t, child, parent);
    assert forall i :: 0 <= i < |t| ==> t'[i].id == t[i].id;
    forall id ensures Has(t', id) <==> Has(t, id) {
      if Has(t, id) {
        assert t'[IndexOf(t, id)].id == id;
      }
      if Has(t', id) {
        assert t[IndexOf(t', id)].id == id;
      }
    }
    forall id | Has(t, id) ensures IndexOf(t', id) == IndexOf(t, id) {
      var i, j := IndexOf(t, id), IndexOf(t', id);
      assert t'[i].id == t[i].id && t'[j].id == t[j].id;
    }
    forall id | id != child ensures Step(t', id) == Step(t, id) {
      if Has(t, id) {
        assert t[IndexOf(t, id)].id == id;
      }
    }
  }

  // Chains that do not pass the child are untouched.
  lemma {:induction false} ChainUntouched(t: seq<Node>, t': seq<Node>, child: int, id: int, n: nat)
    requires forall x :: x != child ==> Step(t', x) == Step(t, x)
    requires !OnChain(t, child, id)
    ensures Up(t', id, n) == Up(t, id, n)
    decreases n
  {
    assert Up(t, id, 0) == id;
    if n > 0 {
      if OnChain(t, child, Step(t, id)) {
        RootedStep(t, id);
        assert false;
      }
      ChainUntouched(t, t', child, Step(t, id), n - 1);
    }
  }

  lemma {:induction false} KeepsRooted(t: seq<Node>, t': seq<Node>, child: int, id: int, n: nat)
    requires forall x :: x != child ==> Step(t', x) == Step(t, x)
    requires Rooted(t', child) && Up(t, id, n) == CONTROLLER_ID
    ensures Rooted(t', id)
    decreases n
  {
    if n == 0 {
      assert Up(t', id, 0) == CONTROLLER_ID;
    } else if id != child {
      KeepsRooted(t, t', child, Step(t, id), n - 1);
      RootedStep(t', id);
    }
  }

  // Link safety on any table at all, detached and cyclic chains included: a successful link
  // roots the child, and every id that was rooted stays rooted.
  lemma LinkKeepsRooted(t: seq<Node>, child: int, parent: int)
    requires LinkOutcome(t, child, parent) == OK
    ensures Rooted(WithParent(t, child, parent), child)
    ensures forall id :: Rooted(t, id) ==> Rooted(WithParent(t, child, parent), id)
  {
    var t' := WithParent(t, child, parent);
    WithParentLookup(t, child, parent);
    if parent == CONTROLLER_ID {
      UpStays(t, parent, 0);
      assert Up(t, parent, 0) == CONTROLLER_ID;
      forall n: nat ensures Up(t, parent, n) != child {
        UpStays(t, parent, n);
      }
    }
    assert Rooted(t, parent) && !OnChain(t, child, parent);
    var n: nat :| Up(t, parent, n) == CONTROLLER_ID;
    assert child != CONTROLLER_ID;
    ChainUntouched(t, t', child, parent, n);
    assert Rooted(t', parent);
    RootedStep(t', child);
    forall id | Rooted(t, id) ensures Rooted(t', id) {
      var m: nat :| Up(t, id, m) == CONTROLLER_ID;
      KeepsRooted(t, t', child, id, m);
    }
  }

  // Linking back to the old parent always succeeds and restores the table exactly.
  lemma RollbackRestores(t: seq<Node>, child: int, parent: int)
    requires UniqueIds(t) && AllRooted(t) && Live(t, child) && child != CONTROLLER_ID
    requires LinkOutcome(t, child, parent) == OK
    requires var old_parent := Step(t, child);
      old_parent == CONTROLLER_ID || (Live(t, old_parent) && IsControl(t[IndexOf(t, old_parent)].kind))
    ensures LinkOutcome(WithParent(t, child, parent), child, Step(t, child)) == OK
    ensures WithParent(WithParent(t, child, parent), child, Step(t, child)) == t
  {
    var t', p := WithParent(t, child, parent), Step(t, child);
    WithParentLookup(t, child, parent);
    assert t[IndexOf(t, child)].id == child;
    RootedIsAcyclic(t, child);
    assert Up(t, p, 0) == p;
    assert child != p;
    if p != CONTROLLER_ID {
      assert t[IndexOf(t, p)].id == p;
      assert Rooted(t, p);
      forall n: nat ensures Up(t', p, n) == Up(t, p, n) {
        ChainUntouched(t, t', child, p, n);
      }
      var n: nat :| Up(t, p, n) == CONTROLLER_ID;
      assert Up(t', p, n) == CONTROLLER_ID;
      forall m: nat ensures Up(t', p, m) != child {
        assert Up(t', p, m) == Up(t, p, m);
      }
    }
  }
}
