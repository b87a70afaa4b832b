/** What holds in every run of the membership protocol, careful or not. */
module MembershipAlways {
  import opened Domotics
  import opened ChildList
  import opened Membership
  import opened MembershipRuns

  // `c` is held by `p`, or the message about it is still under way to `p`, or `p` refused it.
  ghost predicate Accounted(w: World, p: int, c: int)
    requires Shape(w)
  {
    p in w.procs ==> Holds(w.procs[p], c) || UnderWay(w.queues[p], c) || (p, c) in w.refused
  }

  ghost predicate UnderWay(queue: seq<Msg>, c: int) {
    exists m :: m in queue && m.ChildAdded? && m.child == c
  }

  ghost predicate Always(w: World) {
    && Shape(w) && QueuesOk(w)
    && (forall d, c :: d in w.procs && Holds(w.procs[d], c) ==> (d, c) in w.told)
    && (forall p, c :: (p, c) in w.told ==> c >= 1)
    && (forall c :: c in w.parents ==> Accounted(w, w.parents[c], c))
    && (w.wait.Some? ==> w.wait.value.req < w.nextReq && Accounted(w, w.wait.value.parent, w.wait.value.child))
  }

  lemma NextAlways(w: World, e: Event)
    requires Always(w) && Enabled(w, e)
    ensures Always(Next(w, e))
  {
    match e
    case Add(kind) => AddAlways(w, kind);
    case AddFails => SameTables(w, w.(nextId := w.nextId + 1));
    case Link(c, p) => LinkAlways(w, c, p);
    case OtherRequest => SameTables(w, w.(nextReq := w.nextReq + 1));
    case Turn(d) => TurnAlways(w, d);
    case Accept => AcceptAlways(w);
    case GiveUp => SameTables(w, w.(wait := None));
    case Crash(d) => SameTables(w, w.(dead := w.dead + {d}));
    case Bury(d, tellParent, orphansTold) => BuryAlways(w, d, tellParent, orphansTold);
  }

  // Steps that touch neither tables nor processes nor queues.
  lemma SameTables(w: World, w': World)
    requires Always(w) && w'.parents == w.parents && w'.procs == w.procs && w'.queues == w.queues
    requires w'.told == w.told && w'.refused == w.refused && w'.nextId >= w.nextId && w'.nextReq >= w.nextReq
    requires w'.wait == w.wait || w'.wait.None?
    ensures Always(w')
  {
    forall d, m | d in w'.queues && m in w'.queues[d] ensures MsgOk(w', d, m) {
      assert MsgOk(w, d, m);
    }
    forall c | c in w'.parents ensures Accounted(w', w'.parents[c], c) {
      assert Accounted(w, w.parents[c], c);
    }
  }

  lemma AddAlways(w: World, kind: DeviceType)
    requires Always(w) && w.wait.None?
    ensures Always(NewDevice(w, kind))
  {
    var w' := NewDevice(w, kind);
    forall d, m | d in w'.queues && m in w'.queues[d] ensures MsgOk(w', d, m) {
      assert d != w.nextId && MsgOk(w, d, m);
    }
    forall c | c in w'.parents ensures Accounted(w', w'.parents[c], c) {
      assert c != w.nextId ==> Accounted(w, w.parents[c], c);
    }
    forall d, c | d in w'.procs && Holds(w'.procs[d], c) ensures (d, c) in w'.told {
      FreshHoldsNothing(kind, c);
    }
  }

  lemma LinkAlways(w: World, c: int, p: int)
    requires Always(w) && w.wait.None? && c in w.parents && p in w.procs
    ensures Always(BeginLink(w, c, p))
  {
    var w' := BeginLink(w, c, p);
    forall d, m | d in w'.queues && m in w'.queues[d] ensures MsgOk(w', d, m) {
      assert m in w.queues[d] ==> MsgOk(w, d, m);
    }
    forall x | x in w'.parents ensures Accounted(w', w'.parents[x], x) {
      assert Accounted(w, w.parents[x], x);
    }
    assert ChildAdded(c, w.nextReq + 1) in w'.queues[p];
  }

  lemma AcceptAlways(w: World)
    requires Always(w) && w.wait.Some?
    ensures Always(Commit(w))
  {
    var w' := Commit(w);
    forall d, m | d in w'.queues && m in w'.queues[d] ensures MsgOk(w', d, m) {
      assert MsgOk(w, d, m);
    }
    forall x | x in w'.parents ensures Accounted(w', w'.parents[x], x) {
      assert x in w.parents ==> Accounted(w, w.parents[x], x);
    }
  }

  lemma BuryAlways(w: World, d: int, tellParent: bool, orphansTold: set<int>)
    requires Always(w) && w.wait.None? && d in w.parents
    ensures Always(Membership.Bury(w, d, tellParent, orphansTold))
  {
    var w' := Membership.Bury(w, d, tellParent, orphansTold);
    forall x, m | x in w'.queues && m in w'.queues[x] ensures MsgOk(w', x, m) {
      if m in w.queues[x] {
        assert MsgOk(w, x, m);
      } else {
        assert m in NewsFor(w, d, tellParent, orphansTold, x);
      }
    }
    forall x | x in w'.parents ensures Accounted(w', w'.parents[x], x) {
      assert Accounted(w, w.parents[x], x);
      if w'.parents[x] in w.procs {
        assert forall m :: m in w.queues[w.parents[x]] ==> m in w'.queues[w.parents[x]];
      }
    }
  }

  // A process that takes a message still accounts for everything it accounted for.
  lemma TurnAccounts(w: World, d: int, p: int, c: int)
    requires Always(w) && d in w.procs && w.queues[d] != [] && d !in w.dead && c in w.parents && Accounted(w, p, c)
    ensures Accounted(Deliver(w, d), p, c)
  {
    if p == d {
      var m := w.queues[d][0];
      assert MsgOk(w, d, m);
      HandleLaw(w.procs[d], m, c);
      assert w.queues[d] == [m] + w.queues[d][1..];
      if UnderWay(w.queues[d], c) && !UnderWay(w.queues[d][1..], c) {
        assert m.ChildAdded? && m.child == c;
      }
    }
  }

  lemma TurnAlways(w: World, d: int)
    requires Always(w)
    ensures Always(Deliver(w, d))
  {
    if d in w.procs && d !in w.dead && w.queues[d] != [] {
      var w', m := Deliver(w, d), w.queues[d][0];
      assert MsgOk(w, d, m);
      forall x, y | x in w'.queues && y in w'.queues[x] ensures MsgOk(w', x, y) {
        assert y in w.queues[x] && MsgOk(w, x, y);
      }
      forall c | c in w'.parents ensures Accounted(w', w'.parents[c], c) {
        TurnAccounts(w, d, w.parents[c], c);
      }
      forall p, c | p in w'.procs && Holds(w'.procs[p], c) ensures (p, c) in w'.told {
        HandleLaw(w.procs[d], m, c);
      }
      if w.wait.Some? {
        TurnAccounts(w, d, w.wait.value.parent, w.wait.value.child);
      }
    }
  }

  // Over all runs: every child in the table is held by its parent's process, or the process has not
  // read of it yet, or it refused it.
  lemma {:induction false} RunsAlways(events: seq<Event>)
    requires Play(events).Some?
    ensures Always(Play(events).value)
    decreases |events|
  {
    if events != [] {
      var n := |events| - 1;
      RunsAlways(events[..n]);
      NextAlways(Play(events[..n]).value, events[n]);
    }
  }

  // In every run a hub's counters are in order, it lists nothing it was not told of, and it lists
  // each of its children, unless it has not read of it yet or its list was full when it did.
  lemma HubOverRuns(events: seq<Event>, hub: int)
    requires Play(events).Some? && hub in Play(events).value.procs && Play(events).value.procs[hub].HubProc?
    ensures Shape(Play(events).value)
    ensures var w := Play(events).value;
      var h := w.procs[hub].list;
      && h.base <= h.count <= MAX_DEVICES
      && (forall c :: Listed(h, c) ==> (hub, c) in w.told)
      && (forall c :: c in w.parents && w.parents[c] == hub ==>
           Listed(h, c) || UnderWay(w.queues[hub], c) || (hub, c) in w.refused)
  {
    RunsAlways(events);
    var w := Play(events).value;
    assert forall c :: Listed(w.procs[hub].list, c) <==> Holds(w.procs[hub], c);
    forall c | c in w.parents && w.parents[c] == hub
      ensures Listed(w.procs[hub].list, c) || UnderWay(w.queues[hub], c) || (hub, c) in w.refused
    {
      assert Accounted(w, hub, c);
    }
  }

  // A hub refuses a device only when its list is full of others.
  lemma RefusedWhenFull(w: World, hub: int)
    requires Always(w) && hub in w.procs && w.procs[hub].HubProc?
    ensures var w', h := Deliver(w, hub), w.procs[hub].list;
      forall c :: (hub, c) in w'.refused - w.refused ==> h.count == MAX_DEVICES && !Listed(h, c)
  {
    if w.queues[hub] != [] {
      assert MsgOk(w, hub, w.queues[hub][0]);
    }
  }
}
