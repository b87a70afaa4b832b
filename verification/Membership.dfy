/** Who is whose child: the controller's table on one side, the lists of the hub and timer
    processes on the other, with messages queued in between.

    A link request waits for the first reply that arrives on the FIFO named after its request
    id.  The notice sent to an adopted orphan carries the orphan's own id as request id, so its
    reply can land on that FIFO too. */
module Membership {
  import opened Domotics
  import opened ChildList

  datatype Msg =
    | ChildAdded(child: int, req: int)
    | ChildGone(child: int)
    | NewParent(req: int)

  datatype Proc =
    | HubProc(list: HubList)
    | TimerProc(child: int, count: nat)
    | LeafProc

  // The link command the controller is waiting in: the first reply that reached its FIFO.
  datatype Wait = Wait(child: int, parent: int, req: int, reply: Option<Code>)

  datatype World = World(
    parents: map<int, int>,        // the controller's table
    procs: map<int, Proc>,         // every process ever started
    queues: map<int, seq<Msg>>,    // what is in its FIFO
    dead: set<int>,                // processes that have ended
    nextId: int,
    nextReq: int,
    wait: Option<Wait>,
    told: set<(int, int)>,         // (parent, child) of every CHILD_ADDED ever sent
    refused: set<(int, int)>)      // and of every one that was answered with an error

  // ---------------------------------------------------------------- the processes

  ghost predicate GoodProc(p: Proc) {
    match p
    case HubProc(list) => Good(list)
    case TimerProc(_, count) => count <= 1
    case LeafProc => true
  }

  ghost predicate Holds(p: Proc, c: int)
    requires GoodProc(p)
  {
    match p
    case HubProc(list) => Listed(list, c)
    case TimerProc(child, count) => count == 1 && child == c
    case LeafProc => false
  }

  // How a process handles one message, and the status of its reply.
  ghost function Handle(p: Proc, m: Msg): (r: (Proc, Code))
    requires GoodProc(p)
    ensures GoodProc(r.0)
  {
    match m
    case NewParent(_) => (p, OK)
    case ChildAdded(c, _) =>
      (match p
       case HubProc(list) => (HubProc(Added(list, c)), AddResult(list, c))
       case TimerProc(_, count) => if count >= 1 then (p, ERR_NOT_ALLOWED) else (TimerProc(c, 1), OK)
       case LeafProc => (p, ERR_INVALID_COMMAND))
    case ChildGone(c) =>
      (match p
       case HubProc(list) => (HubProc(Removed(list, c)), OK)
       case TimerProc(child, count) => if count == 1 && child == c then (TimerProc(child, 0), OK) else (p, OK)
       case LeafProc => (p, OK))
  }

  lemma HandleLaw(p: Proc, m: Msg, c: int)
    requires GoodProc(p)
    ensures Holds(p, c) && m != ChildGone(c) ==> Holds(Handle(p, m).0, c)
    ensures Holds(Handle(p, m).0, c) ==> Holds(p, c) || (m.ChildAdded? && m.child == c)
    ensures m.ChildAdded? && m.child == c && Handle(p, m).1 == OK ==> Holds(Handle(p, m).0, c)
  {
    if p.HubProc? && m.ChildAdded? {
      AddedLaw(p.list, m.child);
    }
    if p.HubProc? && m.ChildGone? {
      RemovedLaw(p.list, m.child);
    }
  }

  // ---------------------------------------------------------------- the steps

  ghost predicate Shape(w: World) {
    && w.queues.Keys == w.procs.Keys && w.nextId >= 1
    && (forall d :: d in w.parents ==> d in w.procs)
    && (forall d :: d in w.parents ==> w.parents[d] == CONTROLLER_ID || w.parents[d] in w.procs)
    && (forall d :: d in w.procs ==> 1 <= d < w.nextId)
    && (forall d :: d in w.procs ==> GoodProc(w.procs[d]))
    && (w.wait.Some? ==> w.wait.value.parent in w.procs && w.wait.value.child in w.parents)
  }

  const START := World(map[], map[], map[], {}, 1, 1, None, {}, {})

  ghost function Fresh(kind: DeviceType): (p: Proc)
    ensures GoodProc(p)
  {
    if kind.Hub? then HubProc(EmptyList()) else if kind.Timer? then TimerProc(NO_PARENT, 0) else LeafProc
  }

  ghost function NewDevice(w: World, kind: DeviceType): World {
    w.(parents := w.parents[w.nextId := CONTROLLER_ID], procs := w.procs[w.nextId := Fresh(kind)],
       queues := w.queues[w.nextId := []], nextId := w.nextId + 1)
  }

  // CHILD_ADDED goes out; the LINK exchange before it used one request id.
  ghost function BeginLink(w: World, c: int, p: int): World
    requires p in w.queues
  {
    w.(queues := w.queues[p := w.queues[p] + [ChildAdded(c, w.nextReq + 1)]], nextReq := w.nextReq + 2,
       wait := Some(Wait(c, p, w.nextReq + 1, None)), told := w.told + {(p, c)})
  }

  // A live process takes the next message from its FIFO and answers on the FIFO the message
  // names; only the one the controller waits on is open, and only the first answer is read.
  ghost function Deliver(w: World, d: int): (r: World)
    requires Shape(w)
    ensures Shape(r)
  {
    if d !in w.procs || d in w.dead || w.queues[d] == [] then w else
      Answered(w.(procs := w.procs[d := Handle(w.procs[d], w.queues[d][0]).0],
                  queues := w.queues[d := w.queues[d][1..]],
                  refused := w.refused + Refusals(d, w.queues[d][0], Handle(w.procs[d], w.queues[d][0]).1)),
               w.queues[d][0], Handle(w.procs[d], w.queues[d][0]).1)
  }

  ghost function Refusals(d: int, m: Msg, rc: Code): set<(int, int)> {
    if m.ChildAdded? && rc != OK then {(d, m.child)} else {}
  }

  ghost function Answered(w: World, m: Msg, rc: Code): World {
    if w.wait.Some? && w.wait.value.reply.None? && !m.ChildGone? && m.req == w.wait.value.req
    then w.(wait := Some(w.wait.value.(reply := Some(rc)))) else w
  }

  ghost function Commit(w: World): World
    requires w.wait.Some?
  {
    w.(parents := w.parents[w.wait.value.child := w.wait.value.parent], wait := None)
  }

  // The controller buries a dead device: its parent and its orphans may be told.
  ghost function Bury(w: World, d: int, tellParent: bool, orphansTold: set<int>): World
    requires Shape(w) && d in w.parents
  {
    w.(parents := ParentsWithout(w.parents, d), queues := QueuesAfter(w, d, tellParent, orphansTold))
  }

  ghost function ParentsWithout(parents: map<int, int>, d: int): map<int, int> {
    map x | x in parents && x != d :: if parents[x] == d then CONTROLLER_ID else parents[x]
  }

  ghost function QueuesAfter(w: World, d: int, tellParent: bool, orphansTold: set<int>): map<int, seq<Msg>>
    requires Shape(w) && d in w.parents
  {
    map x | x in w.queues :: w.queues[x] + NewsFor(w, d, tellParent, orphansTold, x)
  }

  ghost function NewsFor(w: World, d: int, tellParent: bool, orphansTold: set<int>, x: int): seq<Msg>
    requires d in w.parents
  {
    (if x == w.parents[d] && tellParent then [ChildGone(d)] else []) +
    (if x in w.parents && w.parents[x] == d && x in orphansTold then [NewParent(x)] else [])
  }

  // ---------------------------------------------------------------- the invariant

  // The process `p`, if there is one, counts `c` among its children.
  ghost predicate HeldBy(w: World, p: int, c: int)
    requires Shape(w)
  {
    p in w.procs ==> Holds(w.procs[p], c)
  }

  // What the two sides should agree on: every child in the table is held by its parent's process.
  ghost predicate Faithful(w: World)
    requires Shape(w)
  {
    forall c :: c in w.parents ==> HeldBy(w, w.parents[c], c)
  }

  // The reply the controller waits for could come from an orphan's notice instead of the new
  // parent: the device whose id equals the request id has such a notice before it.
  ghost predicate Threat(w: World)
    requires Shape(w)
  {
    w.wait.Some? && w.wait.value.reply.None? &&
    var r := w.wait.value.req;
    r in w.procs && r !in w.dead && NewParent(r) in w.queues[r] &&
    !Holds(if r == w.wait.value.parent then After(w.procs[r], UpTo(w.queues[r], NewParent(r)))
           else w.procs[w.wait.value.parent], w.wait.value.child)
  }

  // The messages up to and including the first `m`.
  ghost function UpTo(queue: seq<Msg>, m: Msg): seq<Msg> {
    if queue == [] then [] else if queue[0] == m then [m] else [queue[0]] + UpTo(queue[1..], m)
  }

  ghost function After(p: Proc, ms: seq<Msg>): (r: Proc)
    requires GoodProc(p)
    ensures GoodProc(r)
    decreases |ms|
  {
    if ms == [] then p else After(Handle(p, ms[0]).0, ms[1..])
  }

  ghost predicate QueuesOk(w: World)
    requires Shape(w)
  {
    forall d, m :: d in w.queues && m in w.queues[d] ==> MsgOk(w, d, m)
  }

  ghost predicate MsgOk(w: World, d: int, m: Msg) {
    match m
    case NewParent(r) => r == d
    case ChildGone(c) => c !in w.parents && c < w.nextId
    case ChildAdded(c, r) =>
      && r < w.nextReq && (d, c) in w.told
      && (w.wait.Some? && r == w.wait.value.req ==> d == w.wait.value.parent && c == w.wait.value.child)
  }

  ghost predicate Inv(w: World) {
    && Shape(w) && QueuesOk(w) && Faithful(w)
    && (forall d, c :: d in w.procs && Holds(w.procs[d], c) ==> (d, c) in w.told)
    && (w.wait.Some? ==>
        var q := w.wait.value;
        && q.req < w.nextReq
        && (q.reply == Some(OK) ==> Holds(w.procs[q.parent], q.child)))
    && !Threat(w)
  }

  // ---------------------------------------------------------------- every step keeps it

  lemma StartKeeps()
    ensures Inv(START)
  {
  }

  lemma FreshHoldsNothing(kind: DeviceType, c: int)
    ensures !Holds(Fresh(kind), c)
  {
  }

  lemma NewDeviceKeeps(w: World, kind: DeviceType)
    requires Inv(w) && w.wait.None?
    ensures Inv(NewDevice(w, kind))
  {
    var w' := NewDevice(w, kind);
    forall d, m | d in w'.queues && m in w'.queues[d] ensures MsgOk(w', d, m) {
      assert d != w.nextId && MsgOk(w, d, m);
    }
    forall c | c in w'.parents ensures HeldBy(w', w'.parents[c], c) {
      assert c != w.nextId ==> HeldBy(w, w.parents[c], c);
    }
    forall d, c | d in w'.procs && Holds(w'.procs[d], c) ensures (d, c) in w'.told {
      FreshHoldsNothing(kind, c);
    }
  }

  lemma BeginLinkKeeps(w: World, c: int, p: int)
    requires Inv(w) && w.wait.None? && c in w.parents && p in w.procs
    requires Shape(BeginLink(w, c, p)) && !Threat(BeginLink(w, c, p))
    ensures Inv(BeginLink(w, c, p))
  {
    var w' := BeginLink(w, c, p);
    forall d, m | d in w'.queues && m in w'.queues[d] ensures MsgOk(w', d, m) {
      assert m in w.queues[d] ==> MsgOk(w, d, m);
    }
    forall x | x in w'.parents ensures HeldBy(w', w'.parents[x], x) {
      assert HeldBy(w, w.parents[x], x);
    }
  }

  lemma CommitKeeps(w: World)
    requires Inv(w) && w.wait.Some? && w.wait.value.reply == Some(OK)
    ensures Inv(Commit(w))
  {
    var w' := Commit(w);
    forall d, m | d in w'.queues && m in w'.queues[d] ensures MsgOk(w', d, m) {
      assert MsgOk(w, d, m);
    }
    forall x | x in w'.parents ensures HeldBy(w', w'.parents[x], x) {
      assert x in w.parents ==> HeldBy(w, w.parents[x], x);
    }
  }

  // Giving up: a timeout, an error status or a registry file that cannot be written.
  lemma GiveUpKeeps(w: World)
    requires Inv(w)
    ensures Inv(w.(wait := None))
  {
    var w' := w.(wait := None);
    forall d, m | d in w'.queues && m in w'.queues[d] ensures MsgOk(w', d, m) {
      assert MsgOk(w, d, m);
    }
    forall x | x in w'.parents ensures HeldBy(w', w'.parents[x], x) {
      assert HeldBy(w, w.parents[x], x);
    }
  }

  lemma CrashKeeps(w: World, d: int)
    requires Inv(w)
    ensures Inv(w.(dead := w.dead + {d}))
  {
    var w' := w.(dead := w.dead + {d});
    forall x, m | x in w'.queues && m in w'.queues[x] ensures MsgOk(w', x, m) {
      assert MsgOk(w, x, m);
    }
    forall x | x in w'.parents ensures HeldBy(w', w'.parents[x], x) {
      assert HeldBy(w, w.parents[x], x);
    }
  }

  lemma BuryKeeps(w: World, d: int, tellParent: bool, orphansTold: set<int>)
    requires Inv(w) && w.wait.None? && d in w.parents
    ensures Inv(Bury(w, d, tellParent, orphansTold))
  {
    var w' := Bury(w, d, tellParent, orphansTold);
    forall x, m | x in w'.queues && m in w'.queues[x] ensures MsgOk(w', x, m) {
      if m in w.queues[x] {
        assert MsgOk(w, x, m);
      } else {
        assert m in NewsFor(w, d, tellParent, orphansTold, x);
      }
    }
    forall x | x in w'.parents ensures HeldBy(w', w'.parents[x], x) {
      assert HeldBy(w, w.parents[x], x);
    }
  }

  // ---------------------------------------------------------------- a delivery

  lemma DeliverMessages(w: World, d: int)
    requires Inv(w) && d in w.procs && w.queues[d] != []
    ensures QueuesOk(Deliver(w, d))
  {
    var w' := Deliver(w, d);
    forall x, m | x in w'.queues && m in w'.queues[x] ensures MsgOk(w', x, m) {
      assert m in w.queues[x];
      assert MsgOk(w, x, m);
    }
  }

  lemma DeliverHolds(w: World, d: int)
    requires Inv(w) && d in w.procs && w.queues[d] != [] && d !in w.dead
    ensures forall p, c :: c in w.parents && p in w.procs && Holds(w.procs[p], c) ==> Holds(Deliver(w, d).procs[p], c)
    ensures Faithful(Deliver(w, d))
    ensures forall p, c :: p in w.procs && Holds(Deliver(w, d).procs[p], c) ==> (p, c) in w.told
  {
    var w', m := Deliver(w, d), w.queues[d][0];
    assert MsgOk(w, d, m);
    forall p, c | p in w.procs
      ensures c in w.parents && Holds(w.procs[p], c) ==> Holds(w'.procs[p], c)
      ensures Holds(w'.procs[p], c) ==> (p, c) in w.told
    {
      HandleLaw(w.procs[d], m, c);
    }
    forall x | x in w'.parents ensures HeldBy(w', w'.parents[x], x) {
      assert HeldBy(w, w.parents[x], x);
    }
  }

  // The first answer the controller reads is an honest one.
  lemma DeliverAnswer(w: World, d: int)
    requires Inv(w) && d in w.procs && w.queues[d] != [] && d !in w.dead && w.wait.Some?
    ensures Deliver(w, d).wait.Some? && Deliver(w, d).wait.value.(reply := None) == w.wait.value.(reply := None)
    ensures Deliver(w, d).wait.value.reply == Some(OK) ==>
      Holds(Deliver(w, d).procs[w.wait.value.parent], w.wait.value.child)
  {
    var q, m := w.wait.value, w.queues[d][0];
    assert MsgOk(w, d, m);
    HandleLaw(w.procs[d], m, q.child);
    if q.reply.None? && m.NewParent? && m.req == q.req && d == q.parent {
      assert UpTo(w.queues[d], m) == [m];
      assert After(Handle(w.procs[d], m).0, []) == Handle(w.procs[d], m).0;
      assert [m][1..] == [];
      assert After(w.procs[d], [m]) == Handle(w.procs[d], m).0;
    }
  }

  lemma DeliverThreat(w: World, d: int)
    requires Inv(w) && d in w.procs && w.queues[d] != [] && d !in w.dead
    ensures !Threat(Deliver(w, d))
  {
    var w', m := Deliver(w, d), w.queues[d][0];
    assert MsgOk(w, d, m);
    if w.wait.Some? && w'.wait.value.reply.None? {
      var q := w.wait.value;
      HandleLaw(w.procs[d], m, q.child);
      assert w.queues[d] == [m] + w.queues[d][1..];
      if d == q.req && d == q.parent && NewParent(d) in w'.queues[d] {
        var rest := UpTo(w.queues[d][1..], NewParent(d));
        assert UpTo(w.queues[d], NewParent(d)) == [m] + rest;
        assert ([m] + rest)[1..] == rest;
        assert After(w.procs[d], [m] + rest) == After(Handle(w.procs[d], m).0, rest);
      }
    }
  }

  lemma DeliverKeeps(w: World, d: int)
    requires Inv(w)
    ensures Inv(Deliver(w, d))
  {
    if d in w.procs && d !in w.dead && w.queues[d] != [] {
      DeliverMessages(w, d);
      DeliverHolds(w, d);
      DeliverThreat(w, d);
      if w.wait.Some? {
        DeliverAnswer(w, d);
      }
    }
  }

  // A parent that is told and has nothing else to read no longer counts the dead device among its
  // children; a hub only if it did not list it twice.
  lemma ParentForgets(w: World, d: int, p: int, orphansTold: set<int>)
    requires Inv(w) && w.wait.None? && d in w.parents && w.parents[d] == p
    requires p in w.procs && p !in w.dead && w.queues[p] == [] && (p in w.parents ==> w.parents[p] != d)
    requires w.procs[p].HubProc? ==> Listing(w.procs[p].list)[d] <= 1
    ensures Shape(Bury(w, d, true, orphansTold)) && !HeldBy(Deliver(Bury(w, d, true, orphansTold), p), p, d)
  {
    BuryKeeps(w, d, true, orphansTold);
    assert Bury(w, d, true, orphansTold).queues[p] == [ChildGone(d)];
    if w.procs[p].HubProc? {
      StillListed(w.procs[p].list, d);
    }
  }

  // ---------------------------------------------------------------- one link command

  // Only processes move while the controller waits.
  ghost function DeliverAll(w: World, ds: seq<int>): (r: World)
    requires Shape(w)
    ensures Shape(r)
    decreases |ds|
  {
    if ds == [] then w else DeliverAll(Deliver(w, ds[0]), ds[1..])
  }

  lemma {:induction false} DeliverAllKeeps(w: World, ds: seq<int>)
    requires Inv(w)
    ensures Inv(DeliverAll(w, ds))
    decreases |ds|
  {
    if ds != [] {
      DeliverKeeps(w, ds[0]);
      DeliverAllKeeps(Deliver(w, ds[0]), ds[1..]);
    }
  }

  // If the controller takes the answer it has, the two sides still agree.
  ghost predicate Honest(w: World)
    requires Shape(w)
  {
    w.wait.Some? && w.wait.value.reply == Some(OK) ==> Faithful(Commit(w))
  }

  // Nothing in front of the notice answers on the controller's FIFO.
  ghost predicate ClearAhead(w: World)
    requires Shape(w) && w.wait.Some? && w.wait.value.req in w.procs
  {
    var r := w.wait.value.req;
    forall m :: m in UpTo(w.queues[r], NewParent(r)) && m.ChildAdded? ==> m.req != r
  }

  // Letting the device behind the notice run makes the controller commit a child that its new
  // parent does not have.
  lemma {:induction false} ThreatIsReal(w: World) returns (ds: seq<int>)
    requires Shape(w) && Threat(w) && ClearAhead(w)
    requires forall m :: m in w.queues[w.wait.value.req] && m.NewParent? ==> m.req == w.wait.value.req
    ensures !Honest(DeliverAll(w, ds))
    decreases |w.queues[w.wait.value.req]|
  {
    var r := w.wait.value.req;
    var queue := w.queues[r];
    var m, w' := queue[0], Deliver(w, r);
    assert queue == [m] + queue[1..];
    if m == NewParent(r) {
      ds := [r];
      assert DeliverAll(w, ds) == DeliverAll(w', []) == w' by {
        assert [r][1..] == [];
      }
      if r == w.wait.value.parent {
        assert [m][1..] == [] && After(Handle(w.procs[r], m).0, []) == Handle(w.procs[r], m).0;
        assert After(w.procs[r], UpTo(queue, m)) == Handle(w.procs[r], m).0;
      }
      var after := Commit(w');
      assert w'.wait == Some(w.wait.value.(reply := Some(OK)));
      assert after.parents[w.wait.value.child] == w.wait.value.parent;
      assert !HeldBy(after, after.parents[w.wait.value.child], w.wait.value.child);
    } else {
      var rest := UpTo(queue[1..], NewParent(r));
      assert UpTo(queue, NewParent(r)) == [m] + rest;
      assert m in [m] + rest && ([m] + rest)[1..] == rest;
      assert After(w.procs[r], [m] + rest) == After(Handle(w.procs[r], m).0, rest);
      var more := ThreatIsReal(w');
      ds := [r] + more;
      assert ds[1..] == more;
    }
  }

  // Exactly when a link command is safe: whatever the processes do while the controller waits,
  // an accepted child is held by its new parent, if and only if no orphan's notice is queued
  // for the device whose id is the request id (or the parent holds the child anyway).
  lemma LinkExact(w: World, c: int, p: int)
    requires Inv(w) && w.wait.None? && c in w.parents && p in w.procs
    ensures Shape(BeginLink(w, c, p))
    ensures !Threat(BeginLink(w, c, p)) <==> forall ds :: Honest(DeliverAll(BeginLink(w, c, p), ds))
  {
    var w' := BeginLink(w, c, p);
    if Threat(w') {
      var r := w'.wait.value.req;
      NoticeFirst(w, c, p);
      forall m | m in w'.queues[r] && m.NewParent? ensures m.req == r {
        assert m in w.queues[r] && MsgOk(w, r, m);
      }
      var ds := ThreatIsReal(w');
    } else {
      BeginLinkKeeps(w, c, p);
      forall ds ensures Honest(DeliverAll(w', ds)) {
        DeliverAllKeeps(w', ds);
        var w'' := DeliverAll(w', ds);
        if w''.wait.Some? && w''.wait.value.reply == Some(OK) {
          CommitKeeps(w'');
        }
      }
    }
  }

  lemma NoticeFirst(w: World, c: int, p: int)
    requires Inv(w) && w.wait.None? && c in w.parents && p in w.procs
    requires Shape(BeginLink(w, c, p)) && Threat(BeginLink(w, c, p))
    ensures ClearAhead(BeginLink(w, c, p))
  {
    var w' := BeginLink(w, c, p);
    var r := w'.wait.value.req;
    assert NewParent(r) in w.queues[r];
    UpToPrefix(w.queues[r], [ChildAdded(c, r)], NewParent(r));
    forall m | m in UpTo(w'.queues[r], NewParent(r)) && m.ChildAdded? ensures m.req != r {
      UpToPart(w.queues[r], NewParent(r), m);
      assert MsgOk(w, r, m);
    }
  }

  lemma {:induction false} UpToPrefix(queue: seq<Msg>, more: seq<Msg>, m: Msg)
    requires m in queue
    ensures UpTo(queue + more, m) == UpTo(queue, m)
  {
    assert (queue + more)[0] == queue[0] && (queue + more)[1..] == queue[1..] + more;
    if queue[0] != m {
      UpToPrefix(queue[1..], more, m);
    }
  }

  lemma {:induction false} UpToPart(queue: seq<Msg>, m: Msg, x: Msg)
    requires x in UpTo(queue, m)
    ensures x in queue
  {
    if queue[0] != m && x != queue[0] {
      UpToPart(queue[1..], m, x);
    }
  }

  // ---------------------------------------------------------------- what the invariant means

  // A timer has at most one child, and it holds that child.
  lemma OneChildPerTimer(w: World, timer: int, c: int, d: int)
    requires Inv(w) && timer in w.procs && w.procs[timer].TimerProc?
    requires c in w.parents && w.parents[c] == timer && d in w.parents && w.parents[d] == timer
    ensures c == d && w.procs[timer] == TimerProc(c, 1)
  {
    assert HeldBy(w, timer, c) && HeldBy(w, timer, d);
  }

  // A hub lists every child it has, lists nothing it was never told, and its counters are in order.
  lemma HubNeverForgets(w: World, hub: int)
    requires Inv(w) && hub in w.procs && w.procs[hub].HubProc?
    ensures var h := w.procs[hub].list;
      && h.base <= h.count <= MAX_DEVICES
      && (forall c :: c in w.parents && w.parents[c] == hub ==> Listed(h, c))
      && (forall c :: Listed(h, c) ==> (hub, c) in w.told)
  {
    forall c | c in w.parents && w.parents[c] == hub ensures Listed(w.procs[hub].list, c) {
      assert HeldBy(w, hub, c);
    }
    forall c | Listed(w.procs[hub].list, c) ensures (hub, c) in w.told {
      assert Holds(w.procs[hub], c);
    }
  }
}
