/** The controller's state as a value: the device array with its counter, the next id and the
    routing table, and the invariant that keeps the two tables in step. */
module Registry {
  import opened Domotics
  import opened Forest
  import opened Linking
  import opened Subtree
  import opened CascadeOrder

  datatype Device = Device(id: int, kind: DeviceType, pid: int, parent: int)

  // `slots` is the whole array; only the first `count` entries are live, the others keep
  // whatever was last written there.
  datatype State = State(slots: seq<Device>, count: nat, nextId: int, table: seq<Node>)

  // ---------------------------------------------------------------- the device array

  ghost predicate Sorted(slots: seq<Device>, count: nat)
    requires count <= |slots|
  {
    forall i, j :: 0 <= i < j < count ==> slots[i].id < slots[j].id
  }

  ghost predicate InArray(slots: seq<Device>, count: nat, id: int)
    requires count <= |slots|
  {
    exists i :: 0 <= i < count && slots[i].id == id
  }

  ghost function Slot(slots: seq<Device>, count: nat, id: int): (i: nat)
    requires count <= |slots| && InArray(slots, count, id)
    ensures i < count && slots[i].id == id
  {
    var i :| 0 <= i < count && slots[i].id == id; i
  }

  // The array after the live entry `k` was removed by moving the later ones down.
  ghost function Shifted(slots: seq<Device>, count: nat, k: nat): (r: seq<Device>)
    requires k < count <= |slots|
    ensures |r| == |slots|
  {
    seq(|slots|, i requires 0 <= i < |slots| => if k <= i < count - 1 then slots[i + 1] else slots[i])
  }

  ghost function Ids(s: State): set<int>
    requires s.count <= |s.slots|
  {
    set i | 0 <= i < s.count :: s.slots[i].id
  }

  // ---------------------------------------------------------------- the invariant

  // The device has its node in the routing table, with the same type and parent.
  ghost predicate Mirrored(t: seq<Node>, d: Device) {
    Has(t, d.id) && t[IndexOf(t, d.id)] == Node(d.id, d.parent, d.kind)
  }

  // The two tables name the same devices.
  ghost predicate InStep(s: State)
    requires s.count <= |s.slots|
  {
    (forall i {:trigger Mirrored(s.table, s.slots[i])} :: 0 <= i < s.count ==> Mirrored(s.table, s.slots[i])) &&
    (forall x :: x >= 1 && Has(s.table, x) ==> InArray(s.slots, s.count, x))
  }

  ghost predicate GoodDevice(d: Device, nextId: int) {
    1 <= d.id < nextId && d.pid > 0 && IsSpawnable(d.kind)
  }

  ghost predicate Valid(s: State) {
    && |s.slots| == MAX_DEVICES && |s.table| == MAX_DEVICES
    && s.count <= MAX_DEVICES && s.nextId >= 1
    && (forall i {:trigger GoodDevice(s.slots[i], s.nextId)} :: 0 <= i < s.count ==> GoodDevice(s.slots[i], s.nextId))
    && Sorted(s.slots, s.count)
    && InStep(s)
    && WellFormed(s.table)
  }

  // While the array has room the routing table has a free slot.
  lemma RoomInTable(s: State)
    requires Valid(s) && s.count < MAX_DEVICES
    ensures Has(s.table, -1)
  {
    if forall i :: 0 <= i < |s.table| ==> s.table[i].id >= 1 {
      forall i | 0 <= i < |s.table| ensures InArray(s.slots, s.count, s.table[i].id) {
      }
      var positions := seq(MAX_DEVICES, i requires 0 <= i < |s.table| => Slot(s.slots, s.count, s.table[i].id));
      Pigeonhole(positions, s.count);
    } else {
      var i :| 0 <= i < |s.table| && s.table[i].id < 1;
      assert GoodSlot(s.table, s.table[i]);
    }
  }

  // ---------------------------------------------------------------- adding

  ghost function Added(s: State, kind: DeviceType, pid: int): State
    requires Valid(s) && s.count < MAX_DEVICES && Has(s.table, -1)
  {
    State(s.slots[s.count := Device(s.nextId, kind, pid, CONTROLLER_ID)], s.count + 1, s.nextId + 1,
          s.table[IndexOf(s.table, -1) := Node(s.nextId, CONTROLLER_ID, kind)])
  }

  lemma FreshId(s: State, id: int)
    requires Valid(s) && id >= s.nextId
    ensures !Has(s.table, id) && !InArray(s.slots, s.count, id)
  {
    forall i | 0 <= i < s.count ensures s.slots[i].id < id {
      assert GoodDevice(s.slots[i], s.nextId);
    }
  }

  lemma AddedLookup(t: seq<Node>, n: Node)
    requires UniqueIds(t) && Has(t, -1) && !Has(t, n.id) && n.id >= 1
    ensures var t' := t[IndexOf(t, -1) := n];
      && UniqueIds(t') && Has(t', n.id) && IndexOf(t', n.id) == IndexOf(t, -1)
      && forall x :: x >= 1 && x != n.id ==>
           (Has(t', x) <==> Has(t, x)) && (Has(t, x) ==> IndexOf(t', x) == IndexOf(t, x) && Step(t', x) == Step(t, x))
  {
    var k := IndexOf(t, -1);
    var t' := t[k := n];
    forall i, j | 0 <= i < j < |t'| && t'[i].id >= 0 ensures t'[i].id != t'[j].id {
      assert j == k ==> t[i].id != n.id;
      assert i == k ==> t[j].id != n.id;
    }
    assert t'[k].id == n.id;
    IndexOfSlot(t', k);
    forall x | x >= 1 && x != n.id ensures Has(t', x) <==> Has(t, x)
                                   ensures Has(t, x) ==> IndexOf(t', x) == IndexOf(t, x) {
      if Has(t, x) {
        assert t'[IndexOf(t, x)].id == x;
        IndexOfSlot(t', IndexOf(t, x));
      }
      if Has(t', x) {
        assert t[IndexOf(t', x)].id == x;
      }
    }
  }

  lemma {:induction false} AddedRooted(t: seq<Node>, n: Node, x: int, k: nat)
    requires WellFormed(t) && Has(t, -1) && !Has(t, n.id) && n.id >= 1
    requires x == CONTROLLER_ID || IsDevice(t, x)
    requires Up(t, x, k) == CONTROLLER_ID
    ensures Rooted(t[IndexOf(t, -1) := n], x)
    decreases k
  {
    var t' := t[IndexOf(t, -1) := n];
    AddedLookup(t, n);
    assert Up(t', CONTROLLER_ID, 0) == CONTROLLER_ID;
    if x != CONTROLLER_ID {
      DeviceFacts(t, x);
      AddedRooted(t, n, Step(t, x), k - 1);
      RootedStep(t', x);
    }
  }

  lemma AddedWellFormed(t: seq<Node>, id: int, kind: DeviceType)
    requires WellFormed(t) && Has(t, -1) && !Has(t, id) && id >= 1
    ensures WellFormed(t[IndexOf(t, -1) := Node(id, CONTROLLER_ID, kind)])
  {
    var n := Node(id, CONTROLLER_ID, kind);
    var t' := t[IndexOf(t, -1) := n];
    AddedLookup(t, n);
    assert Up(t', CONTROLLER_ID, 0) == CONTROLLER_ID;
    assert Step(t', id) == CONTROLLER_ID;
    RootedStep(t', id);
    forall i | 0 <= i < |t'| ensures GoodSlot(t', t'[i])
                             ensures t'[i].id >= 0 ==> Rooted(t', t'[i].id) {
      if i != IndexOf(t, -1) {
        assert GoodSlot(t, t[i]);
        if t[i].id >= 1 {
          IndexOfSlot(t, i);
          DeviceFacts(t, t[i].id);
          var k: nat :| Up(t, t[i].id, k) == CONTROLLER_ID;
          AddedRooted(t, n, t[i].id, k);
        }
      }
    }
  }

  lemma AddedInStep(s: State, kind: DeviceType, pid: int)
    requires Valid(s) && s.count < MAX_DEVICES && Has(s.table, -1)
    ensures InStep(Added(s, kind, pid))
  {
    FreshId(s, s.nextId);
    AddedLookup(s.table, Node(s.nextId, CONTROLLER_ID, kind));
    var s' := Added(s, kind, pid);
    forall i | 0 <= i < s'.count ensures Mirrored(s'.table, s'.slots[i]) {
      assert i < s.count ==> Mirrored(s.table, s.slots[i]) && GoodDevice(s.slots[i], s.nextId);
    }
    forall x | x >= 1 && Has(s'.table, x) ensures InArray(s'.slots, s'.count, x) {
      if x == s.nextId {
        assert s'.slots[s.count].id == x;
      } else {
        assert s'.slots[Slot(s.slots, s.count, x)].id == x;
      }
    }
  }

  lemma AddedValid(s: State, kind: DeviceType, pid: int)
    requires Valid(s) && s.count < MAX_DEVICES && IsSpawnable(kind) && pid > 0
    ensures Has(s.table, -1) && Valid(Added(s, kind, pid))
  {
    RoomInTable(s);
    FreshId(s, s.nextId);
    AddedWellFormed(s.table, s.nextId, kind);
    AddedInStep(s, kind, pid);
    assert forall i :: 0 <= i < s.count ==> GoodDevice(s.slots[i], s.nextId);
  }

  // Taking a node back out right after it was added restores the table.
  lemma AddRollback(t: seq<Node>, id: int, kind: DeviceType)
    requires WellFormed(t) && Has(t, -1) && !Has(t, id) && id >= 1
    ensures var t' := t[IndexOf(t, -1) := Node(id, CONTROLLER_ID, kind)];
      Has(t', id) && Detached(t', id) == t
  {
    AddedLookup(t, Node(id, CONTROLLER_ID, kind));
    var t' := t[IndexOf(t, -1) := Node(id, CONTROLLER_ID, kind)];
    forall i | 0 <= i < |t| ensures Detached(t', id)[i] == t[i] {
      assert GoodSlot(t, t[i]);
    }
  }

  // `s'` has the live devices and the routing table of `s`; past them the array may differ.
  ghost predicate SameLive(s: State, s': State) {
    |s'.slots| == |s.slots| && s'.count == s.count <= |s.slots| && s'.table == s.table &&
    s'.slots[..s.count] == s.slots[..s.count]
  }

  lemma SameLiveValid(s: State, s': State)
    requires Valid(s) && SameLive(s, s') && s.nextId <= s'.nextId
    ensures Valid(s')
  {
    assert forall i :: 0 <= i < s.count ==> s'.slots[i] == s'.slots[..s.count][i] == s.slots[i];
    forall i | 0 <= i < s.count ensures GoodDevice(s'.slots[i], s'.nextId) && Mirrored(s'.table, s'.slots[i]) {
      assert GoodDevice(s.slots[i], s.nextId) && Mirrored(s.table, s.slots[i]);
    }
    forall x | x >= 1 && Has(s'.table, x) ensures InArray(s'.slots, s'.count, x) {
      assert s'.slots[Slot(s.slots, s.count, x)].id == x;
    }
  }

  // ---------------------------------------------------------------- linking

  ghost function Linked(s: State, child: int, parent: int): State
    requires s.count <= |s.slots| && InArray(s.slots, s.count, child) && Has(s.table, child)
  {
    var k := Slot(s.slots, s.count, child);
    s.(slots := s.slots[k := s.slots[k].(parent := parent)], table := WithParent(s.table, child, parent))
  }

  lemma LinkedWellFormed(t: seq<Node>, child: int, parent: int)
    requires WellFormed(t) && IsDevice(t, child) && parent >= 1
    requires LinkOutcome(t, child, parent) == OK
    ensures WellFormed(WithParent(t, child, parent))
  {
    var t' := WithParent(t, child, parent);
    WithParentLookup(t, child, parent);
    LinkKeepsRooted(t, child, parent);
    forall i | 0 <= i < |t'| ensures GoodSlot(t', t'[i])
                             ensures t'[i].id >= 0 ==> Rooted(t', t'[i].id) {
      assert GoodSlot(t, t[i]);
      assert t'[i].id == t[i].id && t'[i].kind == t[i].kind;
      assert forall j :: 0 <= j < |t| ==> t'[j].kind == t[j].kind;
    }
  }

  lemma LinkedMirrored(s: State, child: int, parent: int, i: nat)
    requires s.count <= |s.slots| && Sorted(s.slots, s.count) && i < s.count
    requires InArray(s.slots, s.count, child) && Has(s.table, child) && Mirrored(s.table, s.slots[i])
    ensures Mirrored(Linked(s, child, parent).table, Linked(s, child, parent).slots[i])
  {
    WithParentLookup(s.table, child, parent);
    assert i != Slot(s.slots, s.count, child) ==> s.slots[i].id != child;
  }

  lemma LinkedInStep(s: State, child: int, parent: int)
    requires s.count <= |s.slots| && Sorted(s.slots, s.count) && InStep(s)
    requires InArray(s.slots, s.count, child) && Has(s.table, child)
    ensures InStep(Linked(s, child, parent))
  {
    var s' := Linked(s, child, parent);
    forall i | 0 <= i < s'.count ensures Mirrored(s'.table, s'.slots[i]) {
      assert Mirrored(s.table, s.slots[i]);
      LinkedMirrored(s, child, parent, i);
    }
    forall x | x >= 1 && Has(s'.table, x) ensures InArray(s'.slots, s'.count, x) {
      WithParentLookup(s.table, child, parent);
      LinkedArray(s, child, parent, x);
    }
  }

  // In a valid state a link can always be taken back.
  lemma LinkCanBeTakenBack(s: State, k: nat, parent: int)
    requires Valid(s) && k < s.count && LinkOutcome(s.table, s.slots[k].id, parent) == OK
    ensures var child, t' := s.slots[k].id, WithParent(s.table, s.slots[k].id, parent);
      && LinkOutcome(t', child, s.slots[k].parent) == OK
      && Has(t', child) && WithParent(t', child, s.slots[k].parent) == s.table
  {
    var child := s.slots[k].id;
    assert Mirrored(s.table, s.slots[k]) && GoodDevice(s.slots[k], s.nextId);
    assert GoodSlot(s.table, s.table[IndexOf(s.table, child)]);
    RollbackRestores(s.table, child, parent);
    WithParentLookup(s.table, child, parent);
  }

  lemma LinkedValid(s: State, child: int, parent: int)
    requires Valid(s) && InArray(s.slots, s.count, child) && Has(s.table, child) && parent >= 1
    requires LinkOutcome(s.table, child, parent) == OK
    ensures Valid(Linked(s, child, parent))
  {
    assert GoodDevice(s.slots[Slot(s.slots, s.count, child)], s.nextId);
    LinkedWellFormed(s.table, child, parent);
    LinkedInStep(s, child, parent);
  }

  lemma LinkedArray(s: State, child: int, parent: int, x: int)
    requires s.count <= |s.slots| && InArray(s.slots, s.count, child) && Has(s.table, child)
    requires Has(s.table, x) ==> InArray(s.slots, s.count, x)
    requires Has(Linked(s, child, parent).table, x)
    ensures InArray(Linked(s, child, parent).slots, s.count, x)
  {
    WithParentLookup(s.table, child, parent);
    assert Linked(s, child, parent).slots[Slot(s.slots, s.count, x)].id == x;
  }

  // ---------------------------------------------------------------- removing a dead device

  ghost function AdoptedSlots(slots: seq<Device>, count: nat, dead: int): (r: seq<Device>)
    requires count <= |slots|
    ensures |r| == |slots|
  {
    seq(|slots|, i requires 0 <= i < |slots| =>
      if i < count && slots[i].parent == dead then slots[i].(parent := CONTROLLER_ID) else slots[i])
  }

  // The device in live slot `k` died: its children go to the controller, it leaves both tables.
  ghost function Finalized(s: State, k: nat): State
    requires k < s.count <= |s.slots|
  {
    var dead := s.slots[k].id;
    State(Shifted(AdoptedSlots(s.slots, s.count, dead), s.count, k), s.count - 1, s.nextId, Buried(s.table, dead))
  }

  // Where a surviving entry was before.
  function Before(i: nat, k: nat): nat {
    if i < k then i else i + 1
  }

  lemma FinalizedSlots(s: State, k: nat)
    requires k < s.count <= |s.slots| && Sorted(s.slots, s.count)
    ensures var s' := Finalized(s, k);
      forall i :: 0 <= i < s'.count ==>
        s'.slots[i] == var d := s.slots[Before(i, k)];
          if d.parent == s.slots[k].id then d.(parent := CONTROLLER_ID) else d
    ensures forall i :: 0 <= i < s.count - 1 ==> s.slots[Before(i, k)].id != s.slots[k].id
  {
  }

  lemma FinalizedMirrored(s: State, k: nat, i: nat)
    requires k < s.count <= |s.slots| && Sorted(s.slots, s.count) && UniqueIds(s.table)
    requires i < s.count - 1 && Mirrored(s.table, s.slots[Before(i, k)]) && s.slots[Before(i, k)].id >= 1
    ensures Mirrored(Finalized(s, k).table, Finalized(s, k).slots[i])
  {
    FinalizedSlots(s, k);
    BuriedLookup(s.table, s.slots[k].id);
  }

  lemma FinalizedIds(s: State, k: nat)
    requires k < s.count <= |s.slots| && Sorted(s.slots, s.count)
    ensures Ids(Finalized(s, k)) == Ids(s) - {s.slots[k].id}
  {
    FinalizedSlots(s, k);
    var s', dead := Finalized(s, k), s.slots[k].id;
    forall x | x in Ids(s) && x != dead ensures x in Ids(s') {
      var j :| 0 <= j < s.count && s.slots[j].id == x;
      var i := if j < k then j else j - 1;
      assert Before(i, k) == j;
      assert s'.slots[i].id == x;
    }
    forall i | 0 <= i < s'.count ensures s'.slots[i].id in Ids(s) && s'.slots[i].id != dead {
      assert s.slots[Before(i, k)].id == s'.slots[i].id;
    }
  }

  lemma InIds(s: State, x: int)
    requires s.count <= |s.slots|
    ensures x in Ids(s) <==> InArray(s.slots, s.count, x)
  {
  }

  lemma FinalizedInStep(s: State, k: nat)
    requires k < s.count <= |s.slots| && Sorted(s.slots, s.count) && UniqueIds(s.table) && InStep(s)
    requires forall i :: 0 <= i < s.count ==> s.slots[i].id >= 1
    ensures InStep(Finalized(s, k))
  {
    var s' := Finalized(s, k);
    forall i | 0 <= i < s'.count ensures Mirrored(s'.table, s'.slots[i]) {
      assert Mirrored(s.table, s.slots[Before(i, k)]);
      FinalizedMirrored(s, k, i);
    }
    FinalizedIds(s, k);
    BuriedLookup(s.table, s.slots[k].id);
    forall x | x >= 1 && Has(s'.table, x) ensures InArray(s'.slots, s'.count, x) {
      InIds(s, x);
      InIds(s', x);
    }
  }

  lemma FinalizedValid(s: State, k: nat)
    requires Valid(s) && k < s.count
    ensures Valid(Finalized(s, k))
  {
    var s' := Finalized(s, k);
    assert GoodDevice(s.slots[k], s.nextId);
    BuriedWellFormed(s.table, s.slots[k].id);
    LiveFacts(s);
    FinalizedInStep(s, k);
    FinalizedSlots(s, k);
    forall i | 0 <= i < s'.count ensures GoodDevice(s'.slots[i], s'.nextId) {
      assert GoodDevice(s.slots[Before(i, k)], s.nextId);
    }
  }

  // ---------------------------------------------------------------- adoption, step by step

  // The nodes after the first `i` devices of the array were looked at.
  ghost function AdoptNodes(t: seq<Node>, slots: seq<Device>, i: nat, dead: int): (r: seq<Node>)
    requires i <= |slots|
    ensures |r| == |t|
  {
    seq(|t|, n requires 0 <= n < |t| =>
      if t[n].parent == dead && InArray(slots, i, t[n].id) then t[n].(parent := CONTROLLER_ID) else t[n])
  }

  lemma AdoptNone(t: seq<Node>, slots: seq<Device>, dead: int)
    ensures AdoptNodes(t, slots, 0, dead) == t
  {
  }

  // One round of the adoption: the entry and the node of the device change together, or neither.
  lemma AdoptNext(t: seq<Node>, slots: seq<Device>, i: nat, dead: int)
    requires i < |slots| && UniqueIds(t) && slots[i].id >= 1 && Mirrored(t, slots[i])
    ensures AdoptedSlots(slots, i, dead)[i] == slots[i]
    ensures slots[i].parent != dead ==>
      AdoptNodes(t, slots, i + 1, dead) == AdoptNodes(t, slots, i, dead) &&
      AdoptedSlots(slots, i + 1, dead) == AdoptedSlots(slots, i, dead)
    ensures slots[i].parent == dead ==>
      Has(AdoptNodes(t, slots, i, dead), slots[i].id) &&
      AdoptNodes(t, slots, i + 1, dead) == WithParent(AdoptNodes(t, slots, i, dead), slots[i].id, CONTROLLER_ID) &&
      AdoptedSlots(slots, i + 1, dead) == AdoptedSlots(slots, i, dead)[i := slots[i].(parent := CONTROLLER_ID)]
  {
    AdoptNextSlot(slots, i, dead);
    var a, b, m := AdoptNodes(t, slots, i, dead), AdoptNodes(t, slots, i + 1, dead), IndexOf(t, slots[i].id);
    forall n | 0 <= n < |t| && n != m ensures b[n] == a[n] {
      assert t[n].id != slots[i].id;
      assert InArray(slots, i + 1, t[n].id) <==> InArray(slots, i, t[n].id) by {
        if InArray(slots, i + 1, t[n].id) {
          var j :| 0 <= j < i + 1 && slots[j].id == t[n].id;
          assert j < i;
        }
      }
    }
    assert a[m].id == slots[i].id;
    IndexOfSlot(a, m);
    assert InArray(slots, i + 1, t[m].id);
  }

  lemma AdoptNextSlot(slots: seq<Device>, i: nat, dead: int)
    requires i < |slots|
    ensures AdoptedSlots(slots, i + 1, dead) ==
      if slots[i].parent == dead then AdoptedSlots(slots, i, dead)[i := slots[i].(parent := CONTROLLER_ID)]
      else AdoptedSlots(slots, i, dead)
    ensures AdoptedSlots(slots, i, dead)[i] == slots[i]
  {
  }

  lemma LiveFacts(s: State)
    requires Valid(s)
    ensures forall i :: 0 <= i < s.count ==> s.slots[i].id >= 1 && Mirrored(s.table, s.slots[i])
  {
    forall i | 0 <= i < s.count ensures s.slots[i].id >= 1 {
      assert GoodDevice(s.slots[i], s.nextId);
    }
  }

  // When all devices were looked at, erasing the dead node leaves no child behind.
  lemma AdoptAll(s: State, k: nat)
    requires Valid(s) && k < s.count
    ensures var t, dead := AdoptNodes(s.table, s.slots, s.count, s.slots[k].id), s.slots[k].id;
      Has(t, dead) && Detached(t, dead) == Buried(s.table, dead)
  {
    var dead := s.slots[k].id;
    var t := AdoptNodes(s.table, s.slots, s.count, dead);
    assert Mirrored(s.table, s.slots[k]) && GoodDevice(s.slots[k], s.nextId);
    var m := IndexOf(s.table, dead);
    assert t[m].id == dead;
    IndexOfSlot(t, m);
    forall n | 0 <= n < |t| ensures Detached(t, dead)[n] == Buried(s.table, dead)[n] {
      assert GoodSlot(s.table, s.table[n]);
      if s.table[n].id >= 1 {
        assert InArray(s.slots, s.count, s.table[n].id);
      }
    }
  }
}
