/** Devices that go because their processes ended, whoever took notice of it. */
module Reaping {
  import opened Domotics
  import opened Outcomes
  import opened Registry
  import opened CascadeOrder
  import opened CascadeSteps
  import opened Directory

  // Devices only went away, their children to the controller; with the same count nothing happened.
  ghost predicate Shrunk(s: State, s': State)
    requires s.count <= |s.slots| && s'.count <= |s'.slots|
  {
    && s'.count <= s.count && (s'.count == s.count ==> s' == s) && s'.nextId == s.nextId
    && Ids(s') <= Ids(s) && (DistinctPids(s) ==> DistinctPids(s'))
    && OnlyWent(ById(s), ById(s'))
  }

  lemma NotShrunk(s: State)
    requires Valid(s)
    ensures Shrunk(s, s)
  {
    NothingWent(s);
  }

  lemma ShrunkTwice(a: State, b: State, c: State)
    requires Valid(a) && b.count <= |b.slots| && c.count <= |c.slots| && Shrunk(a, b) && Shrunk(b, c)
    ensures Shrunk(a, c)
  {
    NothingWent(a);
    OnlyWentTwice(ById(a), ById(b), ById(c));
  }

  lemma ShrunkByOne(s: State, k: nat)
    requires Valid(s) && k < s.count
    ensures Valid(Finalized(s, k)) && Shrunk(s, Finalized(s, k))
    ensures ById(Finalized(s, k)).Keys == ById(s).Keys - {s.slots[k].id}
  {
    FinalizedValid(s, k);
    FinalizedIds(s, k);
    OneWent(s, k);
    if DistinctPids(s) {
      FinalizedDistinct(s, k);
    }
  }

  // The devices that are left are those whose process is not among the ones that ended.
  ghost predicate Reaped(was: map<int, Device>, now: map<int, Device>, gone: set<int>) {
    forall id :: id in now <==> id in was && was[id].pid !in gone
  }

  lemma NothingReaped(was: map<int, Device>)
    ensures Reaped(was, was, {})
  {
  }

  // The device with a pid.
  lemma PidOwner(s: State, k: nat, id: int)
    requires s.count <= |s.slots| && k < s.count && DistinctPids(s) && Sorted(s.slots, s.count) && id in ById(s)
    ensures ById(s)[id].pid == s.slots[k].pid <==> id == s.slots[k].id
  {
    var i := SlotById(s, id);
    DirectoryAt(s, k);
  }

  // A device keeps its pid.
  lemma SamePid(was: map<int, Device>, now: map<int, Device>, id: int)
    requires OnlyWent(was, now) && id in now
    ensures id in was && now[id].pid == was[id].pid && now[id].kind == was[id].kind
  {
    assert now[id] == Among(was[id], now.Keys);
  }

  // One more pid: the device with it goes, if it is still there.
  lemma ReapedOne(was: map<int, Device>, s: State, gone: set<int>, k: nat)
    requires Valid(s) && DistinctPids(s) && k < s.count
    requires OnlyWent(was, ById(s)) && Reaped(was, ById(s), gone)
    ensures Finalized(s, k).count <= |Finalized(s, k).slots|
    ensures Reaped(was, ById(Finalized(s, k)), gone + {s.slots[k].pid})
  {
    OneWent(s, k);
    forall id | id in ById(s)
      ensures was[id].pid == s.slots[k].pid <==> id == s.slots[k].id
    {
      PidOwner(s, k, id);
      SamePid(was, ById(s), id);
    }
  }

  // A pid that no device has changes nothing.
  lemma ReapedNone(was: map<int, Device>, s: State, gone: set<int>, pid: int)
    requires Valid(s) && (pid <= 0 || NoPid(s, pid)) && OnlyWent(was, ById(s)) && Reaped(was, ById(s), gone)
    ensures Reaped(was, ById(s), gone + {pid})
  {
    forall id | id in ById(s)
      ensures was[id].pid != pid
    {
      var i := SlotById(s, id);
      assert GoodDevice(s.slots[i], s.nextId);
      SamePid(was, ById(s), id);
    }
  }

  // All the pids of several looks.
  ghost function AllOf(lists: seq<seq<int>>): set<int> {
    set k, i | 0 <= k < |lists| && 0 <= i < |lists[k]| :: lists[k][i]
  }

  lemma AllOfNext(lists: seq<seq<int>>, n: nat)
    requires n < |lists|
    ensures AllOf(lists[..n + 1]) == AllOf(lists[..n]) + Elements(lists[n])
  {
    var next := lists[..n + 1];
    forall p | p in Elements(lists[n])
      ensures p in AllOf(next)
    {
      var i :| 0 <= i < |lists[n]| && lists[n][i] == p;
      assert next[n][i] == p;
    }
    forall p | p in AllOf(lists[..n])
      ensures p in AllOf(next)
    {
      var k, i :| 0 <= k < n && 0 <= i < |lists[..n][k]| && lists[..n][k][i] == p;
      assert next[k][i] == p;
    }
    forall p | p in AllOf(next)
      ensures p in AllOf(lists[..n]) + Elements(lists[n])
    {
      var k, i :| 0 <= k <= n && 0 <= i < |next[k]| && next[k][i] == p;
      if k < n {
        assert lists[..n][k][i] == p;
      }
    }
  }

  // After several looks at the processes that ended.
  ghost predicate Looked(s: State, lists: seq<seq<int>>, now: State)
    requires s.count <= |s.slots| && now.count <= |now.slots|
  {
    Shrunk(s, now) && (DistinctPids(s) ==> Reaped(ById(s), ById(now), AllOf(lists)))
  }

  lemma NotLooked(s: State)
    requires Valid(s)
    ensures Looked(s, [], s)
  {
    NotShrunk(s);
    assert AllOf([]) == {};
    NothingReaped(ById(s));
  }

  lemma LookedAgain(s: State, now: State, lists: seq<seq<int>>, n: nat, next: State)
    requires Valid(s) && now.count <= |now.slots| && next.count <= |next.slots| && n < |lists|
    requires Looked(s, lists[..n], now) && Shrunk(now, next)
    requires DistinctPids(now) ==> Reaped(ById(now), ById(next), Elements(lists[n]))
    ensures Looked(s, lists[..n + 1], next)
    ensures Quiet(lists) ==> lists[n] == []
  {
    ShrunkTwice(s, now, next);
    AllOfNext(lists, n);
    if DistinctPids(s) {
      ReapedTwice(ById(s), ById(now), ById(next), AllOf(lists[..n]), Elements(lists[n]));
    }
  }

  ghost predicate NoneLeft(s: State, ids: seq<int>)
    requires s.count <= |s.slots|
  {
    forall x :: x in ids ==> x !in Ids(s)
  }

  // Two reapings after each other.
  lemma ReapedTwice(a: map<int, Device>, b: map<int, Device>, c: map<int, Device>, g: set<int>, h: set<int>)
    requires OnlyWent(a, b) && Reaped(a, b, g) && Reaped(b, c, h)
    ensures Reaped(a, c, g + h)
  {
    forall id | id in b
      ensures b[id].pid == a[id].pid
    {
      assert b[id] == Among(a[id], b.Keys);
    }
  }

  // ---------------------------------------------------------------- over several commands

  // Ids are never given twice: whoever has an old id is the device that had it before.
  ghost predicate Lasting(s: State, s': State)
    requires s.count <= |s.slots| && s'.count <= |s'.slots|
  {
    s.nextId <= s'.nextId &&
    forall id :: id in ById(s') && id < s.nextId ==>
      id in ById(s) && ById(s')[id].kind == ById(s)[id].kind && ById(s')[id].pid == ById(s)[id].pid
  }

  lemma LastingShrunk(s: State, s': State)
    requires s.count <= |s.slots| && s'.count <= |s'.slots| && Shrunk(s, s')
    ensures Lasting(s, s')
  {
    forall id | id in ById(s')
      ensures id in ById(s) && ById(s')[id].kind == ById(s)[id].kind && ById(s')[id].pid == ById(s)[id].pid
    {
      SamePid(ById(s), ById(s'), id);
    }
  }

  lemma LastingTwice(a: State, b: State, c: State)
    requires a.count <= |a.slots| && b.count <= |b.slots| && c.count <= |c.slots|
    requires Lasting(a, b) && Lasting(b, c)
    ensures Lasting(a, c)
  {
  }

  // None of the devices with one of these pids is left.
  ghost predicate AllWent(s: State, pids: set<int>, s': State)
    requires s.count <= |s.slots| && s'.count <= |s'.slots|
  {
    forall id :: id in ById(s) && ById(s)[id].pid in pids ==> id !in ById(s')
  }

  lemma LastingAdded(s: State, s': State)
    requires s.count <= |s.slots| && s'.count <= |s'.slots| && s.nextId <= s'.nextId
    requires forall id :: id in ById(s') && id != s.nextId ==> id in ById(s) && ById(s')[id] == ById(s)[id]
    ensures Lasting(s, s')
  {
  }

  lemma LastingLinked(s: State, s': State, child: int, parent: int)
    requires s.count <= |s.slots| && s'.count <= |s'.slots| && s'.nextId == s.nextId
    requires s' == s || (child in ById(s) && ById(s') == ById(s)[child := ById(s)[child].(parent := parent)])
    ensures Lasting(s, s')
  {
  }

  lemma OldId(s: State, id: int)
    requires Valid(s) && id in ById(s)
    ensures 1 <= id < s.nextId
  {
    var i := SlotById(s, id);
    assert GoodDevice(s.slots[i], s.nextId);
  }

  lemma WentByReaping(s: State, now: State, dead: set<int>, next: State)
    requires Valid(s) && now.count <= |now.slots| && next.count <= |next.slots|
    requires now.nextId == s.nextId && Reaped(ById(s), ById(now), dead) && Lasting(now, next)
    ensures AllWent(s, dead, next)
  {
    forall id | id in ById(s) && ById(s)[id].pid in dead
      ensures id !in ById(next)
    {
      OldId(s, id);
    }
  }

  lemma WentNext(s: State, gone: set<int>, now: State, dead: set<int>, next: State)
    requires Valid(s) && now.count <= |now.slots| && next.count <= |next.slots|
    requires AllWent(s, gone, now) && Lasting(s, now) && AllWent(now, dead, next) && Lasting(now, next)
    ensures AllWent(s, gone + dead, next)
  {
    forall id | id in ById(s) && ById(s)[id].pid in gone + dead
      ensures id !in ById(next)
    {
      OldId(s, id);
    }
  }
}
