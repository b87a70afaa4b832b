/** The routing table: a fixed array of slots, scanned by index loops. */
module Routing {
  import opened Domotics
  import opened Forest
  import opened Linking
  import opened Subtree

  // A slot of a process that never called Init.
  const ZERO := Node(0, CONTROLLER_ID, DeviceType.Controller)

  class RoutingTable {
    const nodes: array<Node>

    ghost predicate Valid() {
      nodes.Length == MAX_DEVICES
    }

    ghost function Table(): (t: seq<Node>)
      requires Valid()
      reads nodes
      ensures |t| == MAX_DEVICES
    {
      nodes[..]
    }

    // Static storage: all zero until Init runs.
    constructor ()
      ensures Valid() && fresh(nodes)
      ensures Table() == seq(MAX_DEVICES, i => ZERO)
    {
      nodes := new Node[MAX_DEVICES](i => ZERO);
    }

    method Init()
      requires Valid()
      modifies nodes
      ensures Table() == seq(MAX_DEVICES, i => FREE)
    {
      for i := 0 to MAX_DEVICES
        invariant forall j :: 0 <= j < i ==> nodes[j] == FREE
      {
        nodes[i] := FREE;
      }
    }

    method FindIndex(id: int) returns (index: int)
      requires Valid()
      ensures if Has(Table(), id) then index == IndexOf(Table(), id) else index == -1
    {
      for i := 0 to MAX_DEVICES
        invariant forall j :: 0 <= j < i ==> nodes[j].id != id
      {
        if nodes[i].id == id {
          assert Table()[i].id == id;
          return i;
        }
      }
      return -1;
    }

    method AddNode(id: int, kind: DeviceType) returns (rc: Code)
      requires Valid()
      modifies nodes
      ensures rc == if id < 0 then ERR_INVALID_PARAMETERS
                    else if Has(old(Table()), id) || !Has(old(Table()), -1) then ERR_NOT_ALLOWED else OK
      ensures rc == OK ==>
        Table() == old(Table())[IndexOf(old(Table()), -1) := Node(id, CONTROLLER_ID, kind)]
      ensures rc != OK ==> Table() == old(Table())
    {
      if id < 0 {
        return ERR_INVALID_PARAMETERS;
      }
      var index := FindIndex(id);
      if index >= 0 {
        return ERR_NOT_ALLOWED;
      }
      for i := 0 to MAX_DEVICES
        invariant nodes[..] == old(nodes[..])
        invariant forall j :: 0 <= j < i ==> nodes[j].id != -1
      {
        if nodes[i].id == -1 {
          assert Table()[i].id == -1;
          nodes[i] := Node(id, CONTROLLER_ID, kind);
          return OK;
        }
      }
      return ERR_NOT_ALLOWED;
    }

    method RemoveNode(id: int) returns (rc: Code)
      requires Valid()
      modifies nodes
      ensures rc == if Has(old(Table()), id) then OK else ERR_DEVICE_NOT_FOUND
      ensures rc == OK ==> Table() == Detached(old(Table()), id)
      ensures rc != OK ==> Table() == old(Table())
    {
      ghost var t := Table();
      var found := false;
      var i := 0;
      while i < MAX_DEVICES && !found
        invariant 0 <= i <= MAX_DEVICES
        invariant !found ==> nodes[..] == t && forall j :: 0 <= j < i ==> t[j].id != id
        invariant found ==> Has(t, id) && nodes[..] == t[IndexOf(t, id) := FREE]
      {
        if nodes[i].id == id {
          assert t[i].id == id;
          nodes[i] := FREE;
          found := true;
        }
        i := i + 1;
      }
      if !found {
        return ERR_DEVICE_NOT_FOUND;
      }
      ghost var erased := nodes[..];
      for k := 0 to MAX_DEVICES
        invariant forall j :: 0 <= j < k ==> nodes[j] == Detached(t, id)[j]
        invariant forall j :: k <= j < MAX_DEVICES ==> nodes[j] == erased[j]
      {
        if nodes[k].id >= 0 && nodes[k].parent == id {
          nodes[k] := nodes[k].(parent := NO_PARENT);
        }
      }
      return OK;
    }

    method GetParentId(id: int) returns (rc: Code, parent: int)
      requires Valid()
      ensures rc == if Has(Table(), id) then OK else ERR_DEVICE_NOT_FOUND
      ensures rc == OK ==> parent == Table()[IndexOf(Table(), id)].parent
    {
      var index := FindIndex(id);
      if index >= 0 {
        return OK, nodes[index].parent;
      }
      return ERR_DEVICE_NOT_FOUND, NO_PARENT;
    }

    // Writes the children's ids to `out`; too many for `out` is an error with count 0.
    method CollectChildren(parent: int, out: array<int>) returns (rc: Code, count: nat)
      requires Valid() && out.Length > 0
      requires nodes as object != out
      modifies out
      ensures Table() == old(Table())
      ensures rc == if |Children(Table(), parent)| <= out.Length then OK else ERR_NOT_ALLOWED
      ensures rc == OK ==> count == |Children(Table(), parent)| && out[..count] == Children(Table(), parent)
      ensures rc != OK ==> count == 0
    {
      var n := 0;
      ghost var t := Table();
      for i := 0 to MAX_DEVICES
        invariant nodes[..] == t
        invariant n <= out.Length && n == |Children(t[..i], parent)|
        invariant out[..n] == Children(t[..i], parent)
      {
        assert t[..i + 1][..i] == t[..i];
        if nodes[i].id >= 0 && nodes[i].parent == parent {
          if n >= out.Length {
            ChildrenGrow(t, i + 1, parent);
            return ERR_NOT_ALLOWED, 0;
          }
          out[n] := nodes[i].id;
          n := n + 1;
          assert out[..n] == out[..n - 1] + [nodes[i].id];
        }
      }
      assert t[..MAX_DEVICES] == t;
      return OK, n;
    }

    // The walk over the ancestors of the parent stops within MAX_DEVICES + 1 steps; `steps`
    // counts them.  The answer is exactly LinkOutcome, and only a successful link writes.
    method LinkDevices(child: int, parent: int) returns (rc: Code, ghost steps: nat)
      requires Valid()
      modifies nodes
      ensures rc == LinkOutcome(old(Table()), child, parent)
      ensures Linkable(old(Table()), child, parent) ==>
        (rc == ERR_CYCLE_DETECTED <==> OnChain(old(Table()), child, parent)) && (rc == OK || rc == ERR_CYCLE_DETECTED)
      ensures rc == OK ==> Has(old(Table()), child) && Table() == WithParent(old(Table()), child, parent)
      ensures rc != OK ==> Table() == old(Table())
      ensures steps <= MAX_DEVICES + 1
    {
      if Linkable(Table(), child, parent) {
        CycleIffAncestor(Table(), child, parent);
      }
      steps := 0;
      if child < 0 || parent < 0 {
        return ERR_INVALID_PARAMETERS, steps;
      }
      if child == parent {
        return ERR_SELF_LINK, steps;
      }
      var childIndex := FindIndex(child);
      if childIndex == -1 {
        return ERR_DEVICE_NOT_FOUND, steps;
      }
      if parent == CONTROLLER_ID {
        nodes[childIndex] := nodes[childIndex].(parent := CONTROLLER_ID);
        return OK, steps;
      }
      var parentIndex := FindIndex(parent);
      if parentIndex == -1 {
        return ERR_DEVICE_NOT_FOUND, steps;
      }
      if !IsControl(nodes[parentIndex].kind) {
        return ERR_DEVICE_TYPE_MISMATCH, steps;
      }
      ghost var t := Table();
      var current := parent;
      var safety := 0;
      while true
        invariant 0 <= safety <= MAX_DEVICES && steps == safety && nodes[..] == t
        invariant current == Up(t, parent, safety)
        invariant forall j: nat :: j < safety ==> !Stops(t, child, Up(t, parent, j))
        decreases MAX_DEVICES - safety
      {
        if current == child {
          return ERR_CYCLE_DETECTED, steps;
        }
        if current == CONTROLLER_ID {
          WalkEnds(t, child, parent, safety);
          break;
        }
        var currentIndex := FindIndex(current);
        if currentIndex == -1 {
          WalkEnds(t, child, parent, safety);
          return ERR_INVALID_STATE, steps;
        }
        UpAdd(t, parent, safety, 1);
        assert Up(t, current, 1) == Step(t, current);
        current := nodes[currentIndex].parent;
        safety := safety + 1;
        steps := steps + 1;
        if safety > MAX_DEVICES {
          WalkForEver(t, child, parent);
          return ERR_CYCLE_DETECTED, steps;
        }
      }
      nodes[childIndex] := nodes[childIndex].(parent := parent);
      return OK, steps;
    }
  }

  lemma {:induction false} ChildrenGrow(t: seq<Node>, i: nat, parent: int)
    requires i <= |t|
    ensures |Children(t[..i], parent)| <= |Children(t, parent)|
    decreases |t|
  {
    if i < |t| {
      ChildrenGrow(t[..|t| - 1], i, parent);
      assert t[..|t| - 1][..i] == t[..i];
    } else {
      assert t[..i] == t;
    }
  }
}
