/** The controller: the device array and the routing table, changed in step by the commands and
    by processes that die. */
module ControllerTables {
  import opened Domotics
  import opened Forest
  import opened Linking
  import opened Subtree
  import opened CascadeOrder
  import opened Registry
  import opened Purge
  import opened CascadeEffect
  import opened CascadeSteps
  import opened ControllerLaws
  import opened Routing
  import opened Outcomes
  import opened Directory
  import opened Reaping

  // Seconds a cascade waits for the subtree to disappear.
  const WAIT_ROUNDS := TIMEOUT_DEVICE + MAX_RANDOM_DELAY_S + 2

  const NO_DEVICE := Device(0, DeviceType.Controller, 0, CONTROLLER_ID)

  // How the steps of a command end that depend on others: a device's process is started, its FIFO
  // appears, the registry file is written.
  datatype AddSteps = AddSteps(started: Code, appeared: Code, saved: Code)

  // The path of the reply, LINK to the child and the status in its answer; the same for CHILD_ADDED
  // to the parent; the registry file.
  datatype LinkSteps = LinkSteps(
    childPath: Code, child: Code, childStatus: Code, parentPath: Code, parent: Code, parentStatus: Code, saved: Code)

  // What the shell can ask of the tables; Idle stands for a round of the event loop without one.
  datatype Command =
    | Add(kind: DeviceType, add: AddSteps)
    | Link(child: int, parent: int, link: LinkSteps)
    | Delete(id: int)
    | Idle

  // A round of the event loop: the pids that waitpid hands out, then a command.
  datatype Turn = Turn(dead: seq<int>, command: Command)

  class Controller {
    const devices: array<Device>
    var deviceCount: nat
    var nextDeviceId: int
    const routing: RoutingTable

    ghost predicate Shape() {
      devices.Length == MAX_DEVICES && routing.Valid() && devices as object != routing.nodes
    }

    ghost function S(): State
      requires Shape()
      reads this, devices, routing.nodes
    {
      State(devices[..], deviceCount, nextDeviceId, routing.Table())
    }

    ghost predicate Valid()
      reads this, devices, routing.nodes
    {
      Shape() && Registry.Valid(S())
    }

    constructor ()
      ensures Valid() && deviceCount == 0 && nextDeviceId == 1 && DistinctPids(S())
      ensures fresh(devices) && fresh(routing) && fresh(routing.nodes)
    {
      devices := new Device[MAX_DEVICES](i => NO_DEVICE);
      deviceCount := 0;
      nextDeviceId := 1;
      routing := new RoutingTable();
      new;
      routing.Init();
    }

    // -------------------------------------------------------------- searching and shifting

    method FindDevice(id: int) returns (index: int)
      requires Valid()
      ensures index == -1 <==> !InArray(S().slots, deviceCount, id)
      ensures index != -1 ==> 0 <= index < deviceCount && devices[index].id == id
    {
      for i := 0 to deviceCount
        invariant forall j :: 0 <= j < i ==> devices[j].id != id
      {
        assert GoodDevice(S().slots[i], nextDeviceId);
        if devices[i].pid != 0 && devices[i].id == id {
          assert S().slots[i].id == id;
          return i;
        }
      }
      return -1;
    }

    method FindIndexByPid(pid: int) returns (index: int)
      requires Valid()
      ensures if index == -1 then NoPid(S(), pid) else index >= 0 && PidAt(S(), index, pid)
    {
      for i := 0 to deviceCount
        invariant forall j :: 0 <= j < i ==> devices[j].pid != pid
      {
        if devices[i].pid == pid {
          return i;
        }
      }
      return -1;
    }

    method RemoveAtIndex(index: int)
      requires Shape() && deviceCount <= MAX_DEVICES
      modifies this`deviceCount, devices
      ensures if 0 <= index < old(deviceCount)
        then devices[..] == Shifted(old(devices[..]), old(deviceCount), index) && deviceCount == old(deviceCount) - 1
        else devices[..] == old(devices[..]) && deviceCount == old(deviceCount)
    {
      if index < 0 || index >= deviceCount {
        return;
      }
      ghost var before := devices[..];
      for i := index to deviceCount - 1
        invariant deviceCount == old(deviceCount)
        invariant forall j {:trigger devices[j]} :: index <= j < i ==> devices[j] == before[j + 1]
        invariant forall j :: 0 <= j < index || i <= j < MAX_DEVICES ==> devices[j] == before[j]
      {
        devices[i] := devices[i + 1];
      }
      deviceCount := deviceCount - 1;
    }

    // -------------------------------------------------------------- a process died

    // The loop that hands the children of the dead device to the controller.
    method AdoptChildren(dead: int)
      requires Shape() && deviceCount <= MAX_DEVICES && UniqueIds(S().table)
      requires forall i :: 0 <= i < deviceCount ==> S().slots[i].id >= 1 && Mirrored(S().table, S().slots[i])
      modifies devices, routing.nodes
      ensures Shape() && devices[..] == AdoptedSlots(old(S()).slots, old(S()).count, dead)
      ensures routing.Table() == AdoptNodes(old(S()).table, old(S()).slots, old(S()).count, dead)
    {
      ghost var s := S();
      AdoptNone(s.table, s.slots, dead);
      assert AdoptedSlots(s.slots, 0, dead) == s.slots;
      for i := 0 to deviceCount
        invariant devices[..] == AdoptedSlots(s.slots, i, dead)
        invariant routing.Table() == AdoptNodes(s.table, s.slots, i, dead)
      {
        AdoptNext(s.table, s.slots, i, dead);
        assert devices[i] == devices[..][i] == s.slots[i];
        if devices[i].parent == dead {
          devices[i] := devices[i].(parent := CONTROLLER_ID);
          var rc, _ := routing.LinkDevices(devices[i].id, CONTROLLER_ID);
        }
      }
    }

    // Adoption, then the device leaves both tables.
    method RemoveDead(index: nat)
      requires Valid() && index < deviceCount
      modifies this`deviceCount, devices, routing.nodes
      ensures Shape() && S() == Finalized(old(S()), index)
    {
      ghost var s := S();
      var dead := devices[index].id;
      LiveFacts(s);
      AdoptAll(s, index);
      AdoptChildren(dead);
      var _ := routing.RemoveNode(dead);
      RemoveAtIndex(index);
    }

    // Exactly one device leaves both tables and exactly its children change parent.  Telling
    // the parent and the children is fire and forget; only the registry file can fail.
    method FinalizeDeadDevice(pid: int, saved: Code) returns (rc: Code)
      requires Valid()
      modifies this`deviceCount, devices, routing.nodes
      ensures Valid() && Shrunk(old(S()), S())
      ensures pid <= 0 ==> rc == ERR_INVALID_PARAMETERS
      ensures pid > 0 && NoPid(old(S()), pid) ==> rc == ERR_DEVICE_NOT_FOUND
      ensures pid <= 0 || NoPid(old(S()), pid) ==> S() == old(S())
      ensures forall k: nat :: pid > 0 && PidAt(old(S()), k, pid) ==>
        S() == Finalized(old(S()), k) && rc == saved && ById(S()).Keys == old(ById(S())).Keys - {old(S()).slots[k].id}
    {
      NotShrunk(S());
      if pid <= 0 {
        return ERR_INVALID_PARAMETERS;
      }
      var index := FindIndexByPid(pid);
      if index < 0 {
        return ERR_DEVICE_NOT_FOUND;
      }
      ShrunkByOne(S(), index);
      RemoveDead(index);
      rc := saved;
    }

    // -------------------------------------------------------------- add

    // fork: the operating system never hands out the pid of a process that was not waited for.
    method FreshPid() returns (pid: int)
      requires Valid()
      ensures pid > 0 && NoPid(S(), pid)
    {
      pid := Spawned();
      var taken, top := false, 1;
      for i := 0 to deviceCount
        invariant taken || forall j :: 0 <= j < i ==> devices[j].pid != pid
        invariant top > 0 && forall j :: 0 <= j < i ==> devices[j].pid < top
      {
        taken := taken || devices[i].pid == pid;
        top := if devices[i].pid >= top then devices[i].pid + 1 else top;
      }
      pid := if taken then top else pid;
    }

    // A device that could not be started leaves no trace but its id.  While there is room the
    // routing table never refuses the new node.
    method AddDevice(kind: DeviceType, steps: AddSteps) returns (rc: Code, ghost pid: int)
      requires Valid()
      modifies this, devices, routing.nodes
      ensures Valid()
      ensures rc == if old(deviceCount) >= MAX_DEVICES then ERR_NOT_ALLOWED
                    else if !IsSpawnable(kind) then ERR_DEVICE_TYPE_MISMATCH
                    else Else(steps.started, Else(steps.appeared, steps.saved))
      ensures rc == OK ==> Has(old(S()).table, -1) && pid > 0 && NoPid(old(S()), pid)
      ensures rc == OK ==> S() == Added(old(S()), kind, pid)
      ensures rc == OK ==> var id := old(nextDeviceId);
        && id !in old(ById(S())) && ById(S()) == old(ById(S()))[id := Device(id, kind, pid, CONTROLLER_ID)]
        && Has(S().table, id) && S().table[IndexOf(S().table, id)] == Node(id, CONTROLLER_ID, kind)
      ensures rc != OK ==> SameLive(old(S()), S()) && ById(S()) == old(ById(S()))
      ensures nextDeviceId == old(nextDeviceId) + if old(deviceCount) >= MAX_DEVICES then 0 else 1
    {
      pid := 0;
      if deviceCount >= MAX_DEVICES {
        return ERR_NOT_ALLOWED, pid;
      }
      ghost var s := S();
      RoomInTable(s);
      FreshId(s, s.nextId);
      var dev := deviceCount;
      var id := nextDeviceId;
      nextDeviceId := nextDeviceId + 1;
      devices[dev] := Device(id, kind, 0, CONTROLLER_ID);
      NotRegistered(s);
      if !IsSpawnable(kind) {
        return ERR_DEVICE_TYPE_MISMATCH, pid;
      }
      if steps.started != OK {
        return steps.started, pid;
      }
      var started := FreshPid();
      pid := started;
      assert NoPid(s, pid) by {
        SameLiveNoPid(s, S(), pid);
      }
      devices[dev] := devices[dev].(pid := started);
      if steps.appeared != OK {
        devices[dev] := NO_DEVICE;
        NotRegistered(s);
        return steps.appeared, pid;
      }
      NotRegistered(s);
      rc := Register(s, kind, started, steps.saved);
      if rc == OK {
        DirectoryAdded(s, kind, pid);
        RoutedAlike(S());
      }
    }

    // Past the live entries nothing counts.
    lemma NotRegistered(s: State)
      requires Registry.Valid(s) && Shape() && SameLive(s, S()) && s.nextId <= S().nextId
      ensures Valid() && ById(S()) == ById(s)
    {
      SameLiveValid(s, S());
      DirectorySame(s, S());
    }

    // The device just started enters both tables, and leaves them if the registry file fails.
    method Register(ghost s: State, kind: DeviceType, pid: int, saved: Code) returns (rc: Code)
      requires Valid() && Registry.Valid(s) && s.count < MAX_DEVICES && IsSpawnable(kind) && pid > 0
      requires Has(s.table, -1) && !Has(s.table, s.nextId)
      requires var started := Device(s.nextId, kind, pid, CONTROLLER_ID);
        S() == State(s.slots[s.count := started], s.count, s.nextId + 1, s.table)
      modifies this`deviceCount, devices, routing.nodes
      ensures Valid() && rc == saved
      ensures if rc == OK then S() == Added(s, kind, pid) else SameLive(s, S()) && ById(S()) == ById(s)
    {
      var dev := deviceCount;
      var id := devices[dev].id;
      rc := routing.AddNode(id, kind);
      assert rc == OK;
      deviceCount := deviceCount + 1;
      rc := saved;
      if rc != OK {
        deviceCount := deviceCount - 1;
        AddRollback(s.table, id, kind);
        var _ := routing.RemoveNode(id);
        devices[dev] := NO_DEVICE;
        NotRegistered(s);
        return;
      }
      assert S() == Added(s, kind, pid);
      AddedValid(s, kind, pid);
    }

    // -------------------------------------------------------------- link

    // Every failure after the routing table was changed restores both tables exactly.
    method LinkDevices(childId: int, parentId: int, steps: LinkSteps) returns (rc: Code)
      requires Valid()
      modifies devices, routing.nodes
      ensures Valid()
      ensures rc != OK ==> S() == old(S())
      ensures rc == OK ==> InArray(old(S()).slots, deviceCount, childId) && Has(old(S()).table, childId)
      ensures rc == OK ==> LinkOutcome(old(S()).table, childId, parentId) == OK
      ensures rc == OK ==> S() == Linked(old(S()), childId, parentId)
      ensures rc == OK ==> var was := old(ById(S()));
        childId in was && ById(S()) == was[childId := was[childId].(parent := parentId)]
      ensures !InArray(old(S()).slots, deviceCount, childId) || !InArray(old(S()).slots, deviceCount, parentId) ==>
        rc == ERR_DEVICE_NOT_FOUND
      ensures InArray(old(S()).slots, deviceCount, childId) && InArray(old(S()).slots, deviceCount, parentId) ==>
        var was := old(S());
        if !IsControl(was.slots[Slot(was.slots, deviceCount, parentId)].kind) then rc == ERR_DEVICE_TYPE_MISMATCH
        else if LinkOutcome(was.table, childId, parentId) != OK then rc == LinkOutcome(was.table, childId, parentId)
        else rc == Else(steps.childPath, Else(steps.child, Else(steps.childStatus,
                   Else(steps.parentPath, Else(steps.parent, Else(steps.parentStatus, steps.saved))))))
    {
      ghost var s := S();
      var child := FindDevice(childId);
      if child == -1 {
        return ERR_DEVICE_NOT_FOUND;
      }
      var parent := FindDevice(parentId);
      if parent == -1 {
        return ERR_DEVICE_NOT_FOUND;
      }
      assert Slot(s.slots, s.count, parentId) == parent && Slot(s.slots, s.count, childId) == child;
      assert Mirrored(s.table, s.slots[child]);
      assert GoodDevice(s.slots[child], s.nextId) && GoodDevice(s.slots[parent], s.nextId);
      if !IsControl(devices[parent].kind) {
        return ERR_DEVICE_TYPE_MISMATCH;
      }
      var oldParent := devices[child].parent;
      ghost var walked;
      rc, walked := routing.LinkDevices(childId, parentId);
      if rc != OK {
        return;
      }
      LinkCanBeTakenBack(s, child, parentId);
      rc := steps.childPath;
      if rc != OK {
        var back, _ := routing.LinkDevices(childId, oldParent);
        return;
      }
      rc := steps.child;
      if rc != OK {
        var back, _ := routing.LinkDevices(childId, oldParent);
        return;
      }
      rc := steps.childStatus;
      if rc != OK {
        var back, _ := routing.LinkDevices(childId, oldParent);
        return;
      }
      rc := steps.parentPath;
      if rc != OK {
        var back, _ := routing.LinkDevices(childId, oldParent);
        return;
      }
      rc := steps.parent;
      if rc != OK {
        var back, _ := routing.LinkDevices(childId, oldParent);
        return;
      }
      rc := steps.parentStatus;
      if rc != OK {
        var back, _ := routing.LinkDevices(childId, oldParent);
        return;
      }
      devices[child] := devices[child].(parent := parentId);
      rc := steps.saved;
      if rc != OK {
        devices[child] := devices[child].(parent := oldParent);
        var back, _ := routing.LinkDevices(childId, oldParent);
        assert S() == s;
        return;
      }
      assert S() == Linked(s, childId, parentId);
      LinkedValid(s, childId, parentId);
      DirectoryLinked(s, childId, parentId);
    }

    // -------------------------------------------------------------- delete

    // `pids` are the ones that waitpid hands out.  With the pids apart, exactly the devices with one
    // of them go, and their children are given to the controller.
    method ReapTerminatedChildren(pids: seq<int>)
      requires Valid()
      modifies this`deviceCount, devices, routing.nodes
      ensures Valid() && Shrunk(old(S()), S())
      ensures pids == [] ==> S() == old(S())
      ensures DistinctPids(old(S())) ==> Reaped(old(ById(S())), ById(S()), Elements(pids))
    {
      ghost var s := S();
      NotShrunk(s);
      NothingReaped(ById(s));
      for i := 0 to |pids|
        invariant Valid() && Shrunk(s, S())
        invariant pids == [] ==> S() == s
        invariant DistinctPids(s) ==> Reaped(ById(s), ById(S()), Elements(pids[..i]))
      {
        Reap(s, pids[i], Elements(pids[..i]));
        assert Elements(pids[..i + 1]) == Elements(pids[..i]) + {pids[i]} by {
          assert pids[..i + 1] == pids[..i] + [pids[i]];
        }
      }
      assert pids[..|pids|] == pids;
    }

    // One process that ended; a registry file that cannot be written changes nothing.
    method Reap(ghost s: State, pid: int, ghost gone: set<int>)
      requires Valid() && Registry.Valid(s) && Shrunk(s, S())
      requires DistinctPids(s) ==> Reaped(ById(s), ById(S()), gone)
      modifies this`deviceCount, devices, routing.nodes
      ensures Valid() && Shrunk(s, S())
      ensures DistinctPids(s) ==> Reaped(ById(s), ById(S()), gone + {pid})
    {
      ghost var now := S();
      var saved := Attempt(false);
      var _ := FinalizeDeadDevice(pid, saved);
      ShrunkTwice(s, now, S());
      SomePid(now, pid);
      if DistinctPids(s) {
        if pid <= 0 || NoPid(now, pid) {
          ReapedNone(ById(s), now, gone, pid);
        } else {
          ghost var k: nat :| PidAt(now, k, pid);
          ReapedOne(ById(s), now, gone, k);
        }
      }
    }

    // The array is as long as the table, so collecting the children cannot fail.
    method ChildrenNow(parent: int) returns (ids: seq<int>)
      requires Valid()
      ensures ids == Children(S().table, parent)
    {
      var children := new int[MAX_DEVICES];
      ChildrenSlots(S().table, parent);
      var _, count := routing.CollectChildren(parent, children);
      ids := children[..count];
    }

    // The device and its direct children.
    method CollectSubtree(id: int) returns (rc: Code, ids: seq<int>)
      requires Valid()
      ensures rc == OK ==> ids == [id] + Children(S().table, id)
      ensures InArray(S().slots, deviceCount, id) ==> rc == OK
    {
      var children := ChildrenNow(id);
      ids := [id];
      for i := 0 to |children|
        invariant ids == [id] + children[..i]
      {
        if |ids| >= MAX_DEVICES {
          if InArray(S().slots, deviceCount, id) {
            FewChildren(S(), id);
          }
          return ERR_NOT_ALLOWED, ids;
        }
        ids := ids + [children[i]];
      }
      assert children[..|children|] == children;
      return OK, ids;
    }

    method AllGone(ids: seq<int>) returns (gone: bool)
      requires Valid()
      ensures gone == NoneLeft(S(), ids)
    {
      for i := 0 to |ids|
        invariant forall j :: 0 <= j < i ==> ids[j] !in Ids(S())
      {
        var index := FindDevice(ids[i]);
        InIds(S(), ids[i]);
        if index >= 0 {
          assert ids[i] in ids;
          return false;
        }
      }
      return true;
    }

    // `reaped` are the pids that waitpid hands out at each look.  With the pids apart, exactly the
    // devices go whose process ended at one of the looks, and it ends well if that is all of them.
    method WaitSubtreeRemoved(ids: seq<int>, reaped: seq<seq<int>>) returns (rc: Code, ghost looks: nat)
      requires Valid() && |reaped| == WAIT_ROUNDS
      modifies this`deviceCount, devices, routing.nodes
      ensures Valid() && rc == if NoneLeft(S(), ids) then OK else ERR_TIMEOUT
      ensures looks <= WAIT_ROUNDS && (rc != OK ==> looks == WAIT_ROUNDS)
      ensures Looked(old(S()), reaped[..looks], S())
      ensures Quiet(reaped) ==> S() == old(S())
    {
      ghost var s := S();
      looks := 0;
      NotLooked(s);
      assert reaped[..0] == [];
      for waited := 0 to WAIT_ROUNDS
        invariant Valid() && looks == waited && Looked(s, reaped[..looks], S())
        invariant Quiet(reaped) ==> S() == s
        invariant waited == WAIT_ROUNDS ==> !NoneLeft(S(), ids)
      {
        var gone := LookOnce(s, ids, reaped, waited);
        looks := looks + 1;
        if gone {
          return OK, looks;
        }
      }
      return ERR_TIMEOUT, looks;
    }

    method LookOnce(ghost s: State, ids: seq<int>, reaped: seq<seq<int>>, n: nat) returns (gone: bool)
      requires Valid() && Registry.Valid(s) && n < |reaped| && Looked(s, reaped[..n], S())
      modifies this`deviceCount, devices, routing.nodes
      ensures Valid() && Looked(s, reaped[..n + 1], S()) && gone == NoneLeft(S(), ids)
      ensures Quiet(reaped) ==> S() == old(S())
    {
      ghost var now := S();
      ReapTerminatedChildren(reaped[n]);
      LookedAgain(s, now, reaped, n, S());
      gone := AllGone(ids);
    }

    // Children first.  Errors other than "not found" and "IPC failure" stop the loop.
    method DeleteChildrenCascade(parent: int, calm: bool) returns (rc: Code)
      requires Valid() && IsDevice(S().table, parent)
      modifies this`deviceCount, devices, routing.nodes
      ensures Valid() && Shrunk(old(S()), S())
      ensures calm && DistinctPids(old(S())) ==> CascadedWell(old(S()), parent, S(), rc)
      decreases deviceCount, Desc(routing.nodes[..], parent), 1
    {
      ghost var s := S();
      NotShrunk(s);
      var ids := ChildrenNow(parent);
      CascadeStart(s, parent, ids);
      for i := 0 to |ids|
        invariant Valid() && Shrunk(s, S())
        invariant AreChildren(s.table, parent, ids[..i])
        invariant calm && DistinctPids(s) ==> CascadeAt(s, parent, ids, i, S())
      {
        rc := DeleteChild(ids[i], calm, s, parent, i);
        if rc != OK && rc != ERR_DEVICE_NOT_FOUND && rc != ERR_IPC_FAILURE {
          return;
        }
      }
      rc := OK;
      if calm && DistinctPids(s) {
        CascadeEnd(s, parent, S());
      }
    }

    // One round of the cascade: a child that is already gone is skipped.  The ghost parameters
    // are the state at the start of the loop, the parent and the position of the child.
    method DeleteChild(c: int, calm: bool, ghost s: State, ghost parent: int, ghost i: nat) returns (rc: Code)
      requires Valid() && Registry.Valid(s) && Shrunk(s, S()) && IsDevice(s.table, parent)
      requires i < |Children(s.table, parent)| && Children(s.table, parent)[i] == c
      requires AreChildren(s.table, parent, Children(s.table, parent)[..i])
      requires calm && DistinctPids(s) ==> CascadeAt(s, parent, Children(s.table, parent), i, S())
      modifies this`deviceCount, devices, routing.nodes
      ensures Valid() && Shrunk(s, S())
      ensures AreChildren(s.table, parent, Children(s.table, parent)[..i + 1])
      ensures calm && DistinctPids(s) ==>
        if rc == OK || rc == ERR_DEVICE_NOT_FOUND then CascadeAt(s, parent, Children(s.table, parent), i + 1, S())
        else rc == ERR_TIMEOUT && CascadedWell(s, parent, S(), rc)
      decreases s.count, Desc(s.table, parent), 0
    {
      ghost var now := S();
      ChildrenOf(s.table, parent);
      ChildBelow(s.table, parent, c);
      if calm && DistinctPids(s) {
        ChildIsThere(s, parent, i, now);
      }
      var child := FindDevice(c);
      if child == -1 {
        return OK;
      }
      rc := DeleteDevice(devices[child].id, calm);
      ShrunkTwice(s, now, S());
      if calm && DistinctPids(s) {
        CascadeStep(s, parent, i, now, S(), rc);
      }
    }

    // Deleting a device takes its whole subtree with it, children first.  When every exchange
    // with a running device succeeds, its outcome is exactly the one described by FateOf.
    method DeleteDevice(id: int, calm: bool) returns (rc: Code)
      requires Valid()
      modifies this`deviceCount, devices, routing.nodes
      ensures Valid() && Shrunk(old(S()), S())
      ensures rc == OK ==> id !in Ids(S())
      ensures !InArray(old(S()).slots, old(deviceCount), id) ==> rc == ERR_DEVICE_NOT_FOUND && S() == old(S())
      ensures InArray(old(S()).slots, old(deviceCount), id) ==> IsDevice(old(S()).table, id)
      ensures calm && DistinctPids(old(S())) && InArray(old(S()).slots, old(deviceCount), id) ==>
        DeletedWell(old(S()), id, S(), rc)
      decreases deviceCount, Desc(routing.nodes[..], id), 2
    {
      ghost var s := S();
      NotShrunk(s);
      var dev := FindDevice(id);
      if dev == -1 {
        return ERR_DEVICE_NOT_FOUND;
      }
      LiveFacts(s);
      ChildrenOf(s.table, id);
      var ids;
      rc, ids := CollectSubtree(id);
      if rc != OK {
        return;
      }
      if IsControl(devices[dev].kind) {
        rc := DeleteChildrenCascade(id, calm);
        if rc != OK {
          return;
        }
      } else {
        LeafHasNoChildren(s, dev);
      }
      ghost var now := S();
      var sent := SendDel(dev, calm);
      var exited := OK;
      if sent == OK {
        exited := WaitDeviceExit(devices[dev].pid, calm);
      }
      rc := EndDevice(id, dev, ids, sent, exited, calm);
      ShrunkTwice(s, now, S());
      if calm && DistinctPids(s) {
        DeleteEnds(s, dev, now, S(), rc);
      }
    }

    // DEL to the device in a slot.  The FIFO of a device that has left the tables was unlinked.
    method SendDel(dev: nat, calm: bool) returns (rc: Code)
      requires Valid() && dev < MAX_DEVICES
      ensures calm ==> rc == if InArray(S().slots, deviceCount, devices[dev].id) then OK else ERR_DEVICE_NOT_FOUND
    {
      var index := FindDevice(devices[dev].id);
      if calm && index == -1 {
        return ERR_DEVICE_NOT_FOUND;
      }
      rc := Attempt(calm);
    }

    // The end of a delete, after DEL was sent and the process was waited for.  `dev` is still the
    // index taken before the children were removed.
    method EndDevice(id: int, dev: nat, ids: seq<int>, sent: Code, exited: Code, calm: bool) returns (rc: Code)
      requires Valid() && dev < MAX_DEVICES
      requires calm ==>
        sent == (if InArray(S().slots, deviceCount, devices[dev].id) then OK else ERR_DEVICE_NOT_FOUND) &&
        (sent == OK && devices[dev].pid > 0 ==> exited == OK)
      modifies this`deviceCount, devices, routing.nodes
      ensures Valid() && Shrunk(old(S()), S())
      ensures sent != OK ==> rc == sent && S() == old(S())
      ensures sent == OK && exited != OK ==> rc == exited && S() == old(S())
      ensures rc == OK ==> NoneLeft(S(), ids)
      ensures calm && id in Ids(old(S())) && old(S()).slots[dev].pid > 0 ==> Finished(old(S()), dev, ids, S(), rc)
    {
      ghost var now := S();
      NotShrunk(now);
      var pid := devices[dev].pid;
      if sent != OK {
        return sent;
      }
      if exited != OK {
        return exited;
      }
      var index := FindDevice(id);
      InIds(now, id);
      if index >= 0 {
        SomePid(now, pid);
        var saved := Attempt(calm);
        rc := FinalizeDeadDevice(pid, saved);
        if rc != OK && rc != ERR_DEVICE_NOT_FOUND {
          return;
        }
      }
      ghost var next := S();
      var reaped := DeadPids(WAIT_ROUNDS, calm);
      ghost var looks;
      rc, looks := WaitSubtreeRemoved(ids, reaped);
      ShrunkTwice(now, next, S());
    }

    // -------------------------------------------------------------- whole runs

    // Shutting down deletes the first device until none is left.
    method Destroy(calm: bool) returns (rc: Code)
      requires Valid()
      modifies this`deviceCount, devices, routing.nodes
      ensures Valid()
      ensures rc == OK ==> deviceCount == 0 && routing.Table() == seq(MAX_DEVICES, i => FREE)
      ensures calm && DistinctPids(old(S())) && Increasing(old(S()).table) ==> rc == OK
    {
      var changed := true;
      while changed
        invariant Valid() && deviceCount <= old(deviceCount)
        invariant !changed ==> deviceCount == 0
        invariant calm && DistinctPids(old(S())) && Increasing(old(S()).table) ==>
          DistinctPids(S()) && Increasing(S().table)
        decreases deviceCount, changed
      {
        changed := false;
        if deviceCount > 0 {
          ghost var s := S();
          assert GoodDevice(s.slots[0], s.nextId);
          InIds(s, devices[0].id);
          rc := DeleteDevice(devices[0].id, calm);
          if calm && DistinctPids(s) && Increasing(s.table) {
            IncreasingDelete(s, s.slots[0].id, S(), rc);
          }
          if rc != OK {
            return;
          }
          changed := true;
        }
      }
      NothingLeft(S());
      rc := Attempt(calm);  // the registry file
    }

    // One command, with any outcome of every exchange.  Ids are never given twice.
    method Execute(command: Command)
      requires Valid()
      modifies this, devices, routing.nodes
      ensures Valid() && (DistinctPids(old(S())) ==> DistinctPids(S()))
      ensures Lasting(old(S()), S())
    {
      ghost var s := S();
      NotShrunk(s);
      LastingShrunk(s, s);
      match command {
        case Add(kind, steps) =>
          var rc, pid := AddDevice(kind, steps);
          if DistinctPids(s) {
            if rc != OK {
              SameLiveDistinct(s, S());
            } else {
              AddedDistinct(s, kind, pid);
            }
          }
          LastingAdded(s, S());
        case Link(child, parent, steps) =>
          var rc := LinkDevices(child, parent, steps);
          if DistinctPids(s) && rc == OK {
            LinkedDistinct(s, child, parent);
          }
          LastingLinked(s, S(), child, parent);
        case Delete(id) =>
          var _ := DeleteDevice(id, false);
          LastingShrunk(s, S());
        case Idle =>
      }
    }

    // A round: afterwards no device is left that had one of the pids handed out.
    method Round(turn: Turn)
      requires Valid()
      modifies this, devices, routing.nodes
      ensures Valid() && (DistinctPids(old(S())) ==> DistinctPids(S()))
      ensures Lasting(old(S()), S())
      ensures DistinctPids(old(S())) ==> AllWent(old(S()), Elements(turn.dead), S())
    {
      ghost var s := S();
      ReapTerminatedChildren(turn.dead);
      ghost var now := S();
      LastingShrunk(s, now);
      Execute(turn.command);
      LastingTwice(s, now, S());
      if DistinctPids(s) {
        WentByReaping(s, now, Elements(turn.dead), S());
      }
    }

    // Any sequence of rounds, with any outcome of every exchange, keeps the invariant and the pids
    // apart.  Whoever is registered at the end with an old id is the same device as before, and none
    // of those whose process ended on the way is left.
    method Run(turns: seq<Turn>)
      requires Valid()
      modifies this, devices, routing.nodes
      ensures Valid() && (DistinctPids(old(S())) ==> DistinctPids(S()))
      ensures Lasting(old(S()), S())
      ensures DistinctPids(old(S())) ==> AllWent(old(S()), AllOf(Deaths(turns)), S())
    {
      ghost var s := S();
      NotShrunk(s);
      LastingShrunk(s, s);
      for i := 0 to |turns|
        invariant Valid() && (DistinctPids(s) ==> DistinctPids(S()))
        invariant Lasting(s, S())
        invariant DistinctPids(s) ==> AllWent(s, AllOf(Deaths(turns)[..i]), S())
      {
        ghost var now := S();
        Round(turns[i]);
        LastingTwice(s, now, S());
        AllOfNext(Deaths(turns), i);
        if DistinctPids(s) {
          WentNext(s, AllOf(Deaths(turns)[..i]), now, Elements(turns[i].dead), S());
        }
      }
      assert Deaths(turns)[..|turns|] == Deaths(turns);
    }
  }

  ghost function Deaths(turns: seq<Turn>): (lists: seq<seq<int>>)
    ensures |lists| == |turns|
  {
    seq(|turns|, i requires 0 <= i < |turns| => turns[i].dead)
  }

  // A device's children leave a slot for the device itself.
  lemma FewChildren(s: State, id: int)
    requires Registry.Valid(s) && InArray(s.slots, s.count, id)
    ensures |Children(s.table, id)| < MAX_DEVICES
  {
    ChildrenSlots(s.table, id);
    var k := Slot(s.slots, s.count, id);
    assert Mirrored(s.table, s.slots[k]) && GoodDevice(s.slots[k], s.nextId);
    DeviceFacts(s.table, id);
    var i := IndexOf(s.table, id);
    assert s.table[i].parent != id by {
      assert Up(s.table, id, 0) == id;
    }
  }
}
