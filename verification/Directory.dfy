/** The registered devices by id, read off the controller's tables, and what adding, linking and
    burying a device does to them. */
module Directory {
  import opened Domotics
  import opened Forest
  import opened Linking
  import opened Subtree
  import opened Registry

  ghost function ById(s: State): map<int, Device>
    requires s.count <= |s.slots|
  {
    map id | id in Ids(s) :: s.slots[Slot(s.slots, s.count, id)]
  }

  lemma DirectoryAt(s: State, i: nat)
    requires i < s.count <= |s.slots| && Sorted(s.slots, s.count)
    ensures s.slots[i].id in ById(s) && ById(s)[s.slots[i].id] == s.slots[i]
  {
    assert s.slots[i].id in Ids(s);
  }

  lemma DirectoryIs(s: State, devices: map<int, Device>)
    requires s.count <= |s.slots| && Sorted(s.slots, s.count)
    requires devices.Keys == Ids(s)
    requires forall i :: 0 <= i < s.count ==> devices[s.slots[i].id] == s.slots[i]
    ensures devices == ById(s)
  {
  }

  // The slot of a device of the directory.
  lemma SlotById(s: State, id: int) returns (i: nat)
    requires s.count <= |s.slots| && id in ById(s)
    ensures i < s.count && s.slots[i] == ById(s)[id] && s.slots[i].id == id
  {
    InIds(s, id);
    i := Slot(s.slots, s.count, id);
  }

  // Each device has the id it is found under, its parent is registered too, and the routing table
  // has the same devices with the same types and parents.
  lemma RoutedAlike(s: State)
    requires Valid(s)
    ensures forall id :: id >= 1 ==> (id in ById(s) <==> Has(s.table, id))
    ensures forall id :: id in ById(s) ==>
      var d := ById(s)[id];
      && d.id == id >= 1 && (d.parent == CONTROLLER_ID || d.parent in ById(s))
      && s.table[IndexOf(s.table, id)] == Node(id, d.parent, d.kind)
  {
    LiveFacts(s);
    forall id | id >= 1 ensures id in ById(s) <==> Has(s.table, id) {
      InIds(s, id);
      if id in ById(s) {
        var i := SlotById(s, id);
        assert Mirrored(s.table, s.slots[i]);
      }
    }
    forall id | id in ById(s)
      ensures var d := ById(s)[id];
        && d.id == id >= 1 && (d.parent == CONTROLLER_ID || d.parent in ById(s))
        && s.table[IndexOf(s.table, id)] == Node(id, d.parent, d.kind)
    {
      var i := SlotById(s, id);
      assert Mirrored(s.table, s.slots[i]);
      assert GoodSlot(s.table, s.table[IndexOf(s.table, id)]);
    }
  }

  // ---------------------------------------------------------------- one operation

  // One new entry: the next id, with the type asked for and the pid of the new process.
  lemma DirectoryAdded(s: State, kind: DeviceType, pid: int)
    requires Valid(s) && s.count < MAX_DEVICES && Has(s.table, -1) && IsSpawnable(kind) && pid > 0
    ensures ById(Added(s, kind, pid)) == ById(s)[s.nextId := Device(s.nextId, kind, pid, CONTROLLER_ID)]
    ensures s.nextId !in ById(s)
  {
    var s' := Added(s, kind, pid);
    AddedValid(s, kind, pid);
    FreshId(s, s.nextId);
    InIds(s, s.nextId);
    assert s'.slots[s.count].id == s.nextId;
    forall i | 0 <= i < s.count
      ensures s'.slots[i] == s.slots[i] && s.slots[i].id in ById(s) && s.slots[i].id != s.nextId
      ensures ById(s)[s.slots[i].id] == s.slots[i]
    {
      DirectoryAt(s, i);
    }
    DirectoryIs(s', ById(s)[s.nextId := Device(s.nextId, kind, pid, CONTROLLER_ID)]);
  }

  // One entry changes, in its parent alone.
  lemma DirectoryLinked(s: State, child: int, parent: int)
    requires s.count <= |s.slots| && Sorted(s.slots, s.count)
    requires InArray(s.slots, s.count, child) && Has(s.table, child)
    ensures child in ById(s)
    ensures ById(Linked(s, child, parent)) == ById(s)[child := ById(s)[child].(parent := parent)]
  {
    var s', k := Linked(s, child, parent), Slot(s.slots, s.count, child);
    InIds(s, child);
    forall i | 0 <= i < s.count
      ensures s'.slots[i].id == s.slots[i].id && s.slots[i].id in ById(s)
      ensures s'.slots[i] == ById(s)[child := ById(s)[child].(parent := parent)][s.slots[i].id]
    {
      DirectoryAt(s, i);
      assert i != k ==> s.slots[i].id != child;
    }
    DirectoryIs(s', ById(s)[child := ById(s)[child].(parent := parent)]);
  }

  // The devices with these ids, those whose parent is not among them under the controller.
  ghost function Remaining(devices: map<int, Device>, ids: set<int>): map<int, Device> {
    map id | id in devices && id in ids :: Among(devices[id], ids)
  }

  ghost function Among(d: Device, ids: set<int>): Device {
    if d.parent in ids then d else d.(parent := CONTROLLER_ID)
  }

  lemma FinalizedEntry(s: State, k: nat, i: nat)
    requires Valid(s) && k < s.count && i < s.count - 1
    ensures var d, left := Finalized(s, k).slots[i], ById(s).Keys - {s.slots[k].id};
      d.id in left && d == Among(ById(s)[d.id], left)
  {
    FinalizedSlots(s, k);
    DirectoryAt(s, Before(i, k));
    RoutedAlike(s);
  }

  lemma FinalizedSorted(s: State, k: nat)
    requires Valid(s) && k < s.count
    ensures Sorted(Finalized(s, k).slots, s.count - 1)
  {
    FinalizedValid(s, k);
  }

  // One entry goes, and its children go to the controller.
  lemma DirectoryFinalized(s: State, k: nat)
    requires Valid(s) && k < s.count
    ensures ById(Finalized(s, k)) == Remaining(ById(s), ById(s).Keys - {s.slots[k].id})
  {
    var s', left := Finalized(s, k), Remaining(ById(s), ById(s).Keys - {s.slots[k].id});
    FinalizedSorted(s, k);
    FinalizedIds(s, k);
    assert left.Keys == ById(s).Keys - {s.slots[k].id};
    forall i | 0 <= i < s'.count
      ensures s'.slots[i].id in left && left[s'.slots[i].id] == s'.slots[i]
    {
      FinalizedEntry(s, k, i);
    }
    DirectoryIs(s', left);
  }

  lemma DirectorySame(s: State, s': State)
    requires s.count <= |s.slots| && Sorted(s.slots, s.count) && SameLive(s, s')
    ensures ById(s') == ById(s)
  {
    assert forall i :: 0 <= i < s.count ==> s'.slots[i] == s'.slots[..s.count][i] == s.slots[i];
    forall i | 0 <= i < s.count
      ensures s'.slots[i].id in ById(s) && ById(s)[s'.slots[i].id] == s'.slots[i]
    {
      DirectoryAt(s, i);
    }
    DirectoryIs(s', ById(s));
  }

  // ---------------------------------------------------------------- several that go

  // Devices only went away.
  ghost predicate OnlyWent(was: map<int, Device>, now: map<int, Device>) {
    forall id :: id in now ==> id in was && now[id] == Among(was[id], now.Keys)
  }

  lemma OnlyWentTwice(a: map<int, Device>, b: map<int, Device>, c: map<int, Device>)
    requires OnlyWent(a, b) && OnlyWent(b, c) && CONTROLLER_ID !in a
    ensures OnlyWent(a, c)
  {
    forall id | id in c
      ensures id in a && c[id] == Among(a[id], c.Keys)
    {
      assert Among(Among(a[id], b.Keys), c.Keys) == Among(a[id], c.Keys);
    }
  }

  lemma NothingWent(s: State)
    requires Valid(s)
    ensures CONTROLLER_ID !in ById(s) && OnlyWent(ById(s), ById(s))
  {
    RoutedAlike(s);
  }

  lemma OneWent(s: State, k: nat)
    requires Valid(s) && k < s.count
    ensures OnlyWent(ById(s), ById(Finalized(s, k)))
    ensures ById(Finalized(s, k)).Keys == ById(s).Keys - {s.slots[k].id}
  {
    DirectoryFinalized(s, k);
  }
}
