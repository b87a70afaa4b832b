/** The controller's tables and the membership protocol name the same parents: what the protocol
    does to its map of parents is what the controller does to its two tables. */
module Roster {
  import opened Domotics
  import opened Forest
  import opened Linking
  import opened Subtree
  import opened Registry
  import opened Directory
  import opened Membership
  import opened MembershipRuns
  import opened MembershipAlways

  // The parent of each live device.
  ghost function Roster(s: State): map<int, int>
    requires s.count <= |s.slots|
  {
    map id | id in Ids(s) :: s.slots[Slot(s.slots, s.count, id)].parent
  }

  lemma RosterIs(s: State, parents: map<int, int>)
    requires s.count <= |s.slots| && Sorted(s.slots, s.count)
    requires parents.Keys == Ids(s)
    requires forall i :: 0 <= i < s.count ==> parents[s.slots[i].id] == s.slots[i].parent
    ensures parents == Roster(s)
  {
  }

  lemma RosterAt(s: State, i: nat)
    requires i < s.count <= |s.slots| && Sorted(s.slots, s.count)
    ensures s.slots[i].id in Roster(s) && Roster(s)[s.slots[i].id] == s.slots[i].parent
  {
    assert s.slots[i].id in Ids(s);
  }

  // The parents of the directory.
  lemma RosterById(s: State)
    requires Valid(s)
    ensures forall id :: id in Roster(s) <==> id in ById(s)
    ensures forall id :: id in Roster(s) ==> Roster(s)[id] == ById(s)[id].parent
  {
  }

  // ---------------------------------------------------------------- one operation

  lemma RosterAdded(s: State, kind: DeviceType, pid: int)
    requires Valid(s) && s.count < MAX_DEVICES && Has(s.table, -1) && IsSpawnable(kind) && pid > 0
    ensures Roster(Added(s, kind, pid)) == Roster(s)[s.nextId := CONTROLLER_ID]
  {
    var s' := Added(s, kind, pid);
    AddedValid(s, kind, pid);
    FreshId(s, s.nextId);
    assert s'.slots[s.count].id == s.nextId;
    forall i | 0 <= i < s.count
      ensures s'.slots[i] == s.slots[i] && s.slots[i].id in Roster(s) && s.slots[i].id != s.nextId
      ensures Roster(s)[s.slots[i].id] == s.slots[i].parent
    {
      RosterAt(s, i);
    }
    RosterIs(s', Roster(s)[s.nextId := CONTROLLER_ID]);
  }

  lemma RosterLinked(s: State, child: int, parent: int)
    requires Valid(s) && InArray(s.slots, s.count, child) && Has(s.table, child)
    ensures Roster(Linked(s, child, parent)) == Roster(s)[child := parent]
  {
    var s', k := Linked(s, child, parent), Slot(s.slots, s.count, child);
    forall i | 0 <= i < s.count
      ensures s'.slots[i].id == s.slots[i].id && s.slots[i].id in Roster(s)
      ensures s'.slots[i].parent == Roster(s)[child := parent][s.slots[i].id]
    {
      RosterAt(s, i);
      assert i != k ==> s.slots[i].id != child;
    }
    InIds(s, child);
    RosterIs(s', Roster(s)[child := parent]);
  }

  lemma RosterFinalized(s: State, k: nat)
    requires Valid(s) && k < s.count
    ensures Roster(Finalized(s, k)) == ParentsWithout(Roster(s), s.slots[k].id)
  {
    var s', after := Finalized(s, k), ParentsWithout(Roster(s), s.slots[k].id);
    FinalizedValid(s, k);
    FinalizedIds(s, k);
    FinalizedSlots(s, k);
    forall i | 0 <= i < s'.count
      ensures s'.slots[i].id in after && after[s'.slots[i].id] == s'.slots[i].parent
    {
      RosterAt(s, Before(i, k));
      RosterAt(s', i);
    }
    RosterIs(s', after);
  }

  // ---------------------------------------------------------------- runs

  // The world's map is the one of the tables, a process without a list belongs to a device that
  // may not have children, and the link in progress is one the tables allow.
  ghost predicate Names(s: State, w: World) {
    && Valid(s) && Shape(w)
    && w.parents == Roster(s) && w.nextId == s.nextId
    && (forall i :: 0 <= i < s.count ==> IsControl(s.slots[i].kind) == !ProcOf(w, s.slots[i].id).LeafProc?)
    && (w.wait.Some? ==> Allows(s, w.wait.value.child, w.wait.value.parent))
  }

  ghost function ProcOf(w: World, id: int): Proc {
    if id in w.procs then w.procs[id] else LeafProc
  }

  // The controller's own checks before it sends CHILD_ADDED.
  ghost predicate Allows(s: State, child: int, parent: int)
    requires Valid(s)
  {
    InArray(s.slots, s.count, child) && InArray(s.slots, s.count, parent) && LinkOutcome(s.table, child, parent) == OK
  }

  // What an event of the protocol does to the controller's tables.  Whether processes move, die or
  // answer is up to the world.
  ghost predicate Follows(s: State, w: World, e: Event, s': State)
    requires Valid(s)
  {
    match e
    case Add(kind) =>
      w.wait.None? && s.count < MAX_DEVICES && IsSpawnable(kind) && Has(s.table, -1) &&
      exists pid: int :: pid > 0 && s' == Added(s, kind, pid)
    case AddFails => w.wait.None? && s.nextId + 1 == s'.nextId && SameLive(s, s')
    case Link(c, p) => w.wait.None? && Allows(s, c, p) && s' == s
    case OtherRequest => w.wait.None? && s' == s
    case Turn(_) => s' == s
    case Accept =>
      w.wait.Some? && w.wait.value.reply == Some(OK) &&
      var c := w.wait.value.child;
      InArray(s.slots, s.count, c) && Has(s.table, c) && s' == Linked(s, c, w.wait.value.parent)
    case GiveUp => w.wait.Some? && s' == s
    case Crash(_) => s' == s
    case Bury(d, _, _) =>
      w.wait.None? && d in w.dead && InArray(s.slots, s.count, d) && s' == Finalized(s, Slot(s.slots, s.count, d))
  }

  // A process keeps its kind.
  lemma HandleKind(p: Proc, m: Msg)
    requires GoodProc(p)
    ensures Handle(p, m).0.LeafProc? == p.LeafProc?
  {
  }

  lemma RosterShape(s: State, w: World)
    requires Names(s, w)
    ensures forall i :: 0 <= i < s.count ==> s.slots[i].id in w.procs && 1 <= s.slots[i].id < s.nextId
  {
    forall i | 0 <= i < s.count
      ensures s.slots[i].id in w.procs && 1 <= s.slots[i].id < s.nextId
    {
      RosterAt(s, i);
    }
  }

  lemma AddNames(s: State, w: World, kind: DeviceType, s': State)
    requires Names(s, w) && Follows(s, w, Add(kind), s')
    ensures Names(s', NewDevice(w, kind))
  {
    var pid: int :| pid > 0 && s' == Added(s, kind, pid);
    AddedValid(s, kind, pid);
    RosterAdded(s, kind, pid);
    AddProcs(s, w, kind, pid);
  }

  lemma AddProcs(s: State, w: World, kind: DeviceType, pid: int)
    requires Names(s, w) && w.wait.None? && s.count < MAX_DEVICES && Has(s.table, -1) && IsSpawnable(kind)
    ensures Shape(NewDevice(w, kind))
    ensures var s', w' := Added(s, kind, pid), NewDevice(w, kind);
      forall i :: 0 <= i < s'.count ==> IsControl(s'.slots[i].kind) == !ProcOf(w', s'.slots[i].id).LeafProc?
  {
    RosterShape(s, w);
  }

  lemma AddFailsNames(s: State, w: World, s': State)
    requires Names(s, w) && Follows(s, w, AddFails, s')
    ensures Names(s', w.(nextId := w.nextId + 1))
  {
    SameLiveValid(s, s');
    RosterSame(s, s');
  }

  lemma RosterSame(s: State, s': State)
    requires s.count <= |s.slots| && Sorted(s.slots, s.count) && SameLive(s, s')
    ensures Roster(s') == Roster(s)
    ensures forall i :: 0 <= i < s.count ==> s'.slots[i] == s.slots[i]
  {
    assert forall i :: 0 <= i < s.count ==> s'.slots[i] == s'.slots[..s.count][i] == s.slots[i];
    forall i | 0 <= i < s.count
      ensures s'.slots[i].id in Roster(s) && Roster(s)[s'.slots[i].id] == s'.slots[i].parent
    {
      RosterAt(s, i);
    }
    RosterIs(s', Roster(s));
  }

  lemma LinkNames(s: State, w: World, c: int, p: int)
    requires Names(s, w) && w.wait.None? && Allows(s, c, p)
    ensures Enabled(w, Link(c, p)) && Names(s, BeginLink(w, c, p))
  {
    LinkEnabled(s, w, c, p);
  }

  lemma LinkEnabled(s: State, w: World, c: int, p: int)
    requires Names(s, w) && w.wait.None? && Allows(s, c, p)
    ensures Enabled(w, Link(c, p))
  {
    var i, j := Slot(s.slots, s.count, c), Slot(s.slots, s.count, p);
    RosterAt(s, i);
    RosterAt(s, j);
    assert GoodDevice(s.slots[j], s.nextId) && Mirrored(s.table, s.slots[j]);
  }

  lemma TurnNames(s: State, w: World, d: int)
    requires Names(s, w)
    ensures Names(s, Deliver(w, d))
  {
    if d in w.procs && w.queues[d] != [] {
      HandleKind(w.procs[d], w.queues[d][0]);
    }
  }

  lemma AcceptNames(s: State, w: World)
    requires Names(s, w) && w.wait.Some? && Has(s.table, w.wait.value.child)
    ensures Names(Linked(s, w.wait.value.child, w.wait.value.parent), Commit(w))
  {
    var c, p := w.wait.value.child, w.wait.value.parent;
    LiveFacts(s);
    LinkedValid(s, c, p);
    RosterLinked(s, c, p);
    RosterAt(s, Slot(s.slots, s.count, p));
  }

  lemma BuryNames(s: State, w: World, d: int, tellParent: bool, orphansTold: set<int>)
    requires Names(s, w) && w.wait.None? && InArray(s.slots, s.count, d)
    ensures d in w.parents
    ensures Names(Finalized(s, Slot(s.slots, s.count, d)), Membership.Bury(w, d, tellParent, orphansTold))
  {
    var k := Slot(s.slots, s.count, d);
    RosterAt(s, k);
    FinalizedValid(s, k);
    RosterFinalized(s, k);
    BuryShape(w, d, tellParent, orphansTold);
    BuryProcs(s, w, k);
  }

  lemma BuryShape(w: World, d: int, tellParent: bool, orphansTold: set<int>)
    requires Shape(w) && w.wait.None? && d in w.parents
    ensures Shape(Membership.Bury(w, d, tellParent, orphansTold))
  {
  }

  lemma BuryProcs(s: State, w: World, k: nat)
    requires Names(s, w) && k < s.count
    ensures var s' := Finalized(s, k);
      forall i :: 0 <= i < s'.count ==> IsControl(s'.slots[i].kind) == !ProcOf(w, s'.slots[i].id).LeafProc?
  {
    FinalizedSlots(s, k);
  }

  // Whatever the controller does to its tables is a step of the protocol, and the protocol's map
  // goes on being the one of the tables.
  lemma NextNames(s: State, w: World, e: Event, s': State)
    requires Names(s, w) && Follows(s, w, e, s')
    ensures Enabled(w, e) && Names(s', Next(w, e))
  {
    match e
    case Add(kind) => AddNames(s, w, kind, s');
    case AddFails => AddFailsNames(s, w, s');
    case Link(c, p) => LinkNames(s, w, c, p);
    case OtherRequest =>
    case Turn(d) => TurnNames(s, w, d);
    case Accept => AcceptNames(s, w);
    case GiveUp =>
    case Crash(_) =>
    case Bury(d, tellParent, orphansTold) => BuryNames(s, w, d, tellParent, orphansTold);
  }

  // Tables that went from empty through `states` while the events happened.
  ghost predicate TableRun(events: seq<Event>, states: seq<State>)
    decreases |events|
  {
    && |states| == |events| + 1
    && if events == [] then Valid(states[0]) && states[0].count == 0 && states[0].nextId == 1
       else
         var n := |events| - 1;
         && TableRun(events[..n], states[..n + 1]) && Play(events[..n]).Some? && Valid(states[n])
         && Follows(states[n], Play(events[..n]).value, events[n], states[n + 1])
  }

  // Every run of the tables is a run of the protocol with the same parents at its end.  So a device
  // that the tables give to a parent is held by its process, or the process has not read of it yet,
  // or it refused it.
  lemma {:induction false} TablesFollow(events: seq<Event>, states: seq<State>)
    requires TableRun(events, states)
    ensures Play(events).Some? && Names(states[|events|], Play(events).value)
    ensures var s, w := states[|events|], Play(events).value;
      forall i :: 0 <= i < s.count ==> Accounted(w, s.slots[i].parent, s.slots[i].id)
    decreases |events|
  {
    var n := |events|;
    if n == 0 {
      RosterIs(states[0], map[]);
    } else {
      TablesFollow(events[..n - 1], states[..n]);
      NextNames(states[n - 1], Play(events[..n - 1]).value, events[n - 1], states[n]);
    }
    RunsAlways(events);
    forall i | 0 <= i < states[n].count
      ensures Accounted(Play(events).value, states[n].slots[i].parent, states[n].slots[i].id)
    {
      RosterAt(states[n], i);
    }
  }
}
