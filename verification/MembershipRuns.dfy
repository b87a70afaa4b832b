/** Whole runs of the membership protocol, and one that goes wrong. */
module MembershipRuns {
  import opened Domotics
  import opened ChildList
  import opened Membership

  datatype Event =
    | Add(kind: DeviceType)
    | AddFails                                // the process did not come up, but its id is used
    | Link(child: int, parent: int)           // the table check and the LINK exchange went well
    | OtherRequest                            // any other use of a request id
    | Turn(device: int)                       // a process takes one message from its FIFO
    | Accept                                  // the answer was OK and the registry was written
    | GiveUp                                  // anything else
    | Crash(device: int)
    | Bury(device: int, tellParent: bool, orphansTold: set<int>)

  // The controller is single-threaded: while it waits in a link, only processes move.
  ghost predicate Enabled(w: World, e: Event)
    requires Shape(w)
  {
    match e
    case Add(_) => w.wait.None?
    case AddFails => w.wait.None?
    case Link(c, p) => w.wait.None? && c in w.parents && p in w.parents && c != p && !w.procs[p].LeafProc?
    case OtherRequest => w.wait.None?
    case Turn(_) => true
    case Accept => w.wait.Some? && w.wait.value.reply == Some(OK)
    case GiveUp => w.wait.Some?
    case Crash(_) => true
    case Bury(d, _, _) => w.wait.None? && d in w.parents && d in w.dead
  }

  ghost function Next(w: World, e: Event): (r: World)
    requires Shape(w) && Enabled(w, e)
  {
    match e
    case Add(kind) => NewDevice(w, kind)
    case AddFails => w.(nextId := w.nextId + 1)
    case Link(c, p) => BeginLink(w, c, p)
    case OtherRequest => w.(nextReq := w.nextReq + 1)
    case Turn(d) => Deliver(w, d)
    case Accept => Commit(w)
    case GiveUp => w.(wait := None)
    case Crash(d) => w.(dead := w.dead + {d})
    case Bury(d, tellParent, orphansTold) => Membership.Bury(w, d, tellParent, orphansTold)
  }

  // A link is started only when no orphan's notice can answer for the new parent.
  ghost predicate Careful(w: World, e: Event)
    requires Shape(w) && Enabled(w, e)
  {
    e.Link? ==> Shape(Next(w, e)) && !Threat(Next(w, e))
  }

  lemma NextKeeps(w: World, e: Event)
    requires Inv(w) && Enabled(w, e) && Careful(w, e)
    ensures Inv(Next(w, e))
  {
    match e
    case Add(kind) => NewDeviceKeeps(w, kind);
    case AddFails => AddFailsKeeps(w);
    case Link(c, p) => BeginLinkKeeps(w, c, p);
    case OtherRequest => OtherRequestKeeps(w);
    case Turn(d) => DeliverKeeps(w, d);
    case Accept => CommitKeeps(w);
    case GiveUp => GiveUpKeeps(w);
    case Crash(d) => CrashKeeps(w, d);
    case Bury(d, tellParent, orphansTold) => BuryKeeps(w, d, tellParent, orphansTold);
  }

  lemma AddFailsKeeps(w: World)
    requires Inv(w) && w.wait.None?
    ensures Inv(w.(nextId := w.nextId + 1))
  {
    var w' := w.(nextId := w.nextId + 1);
    forall d, m | d in w'.queues && m in w'.queues[d] ensures MsgOk(w', d, m) {
      assert MsgOk(w, d, m);
    }
    forall x | x in w'.parents ensures HeldBy(w', w'.parents[x], x) {
      assert HeldBy(w, w.parents[x], x);
    }
  }

  lemma OtherRequestKeeps(w: World)
    requires Inv(w) && w.wait.None?
    ensures Inv(w.(nextReq := w.nextReq + 1))
  {
    var w' := w.(nextReq := w.nextReq + 1);
    forall d, m | d in w'.queues && m in w'.queues[d] ensures MsgOk(w', d, m) {
      assert MsgOk(w, d, m);
    }
    forall x | x in w'.parents ensures HeldBy(w', w'.parents[x], x) {
      assert HeldBy(w, w.parents[x], x);
    }
  }

  // The world after the events, if each of them was possible at its place.
  ghost function Play(events: seq<Event>): Option<World>
    decreases |events|
  {
    if events == [] then Some(START) else Then(Play(events[..|events| - 1]), events[|events| - 1])
  }

  ghost function Then(w: Option<World>, e: Event): Option<World> {
    if w.Some? && Shape(w.value) && Enabled(w.value, e) then Some(Next(w.value, e)) else None
  }

  ghost predicate CarefulRun(events: seq<Event>) {
    forall n :: 0 <= n < |events| ==> CarefulAt(events, n)
  }

  ghost predicate CarefulAt(events: seq<Event>, n: nat)
    requires n < |events|
  {
    Play(events[..n + 1]).Some? ==>
      Play(events[..n]).Some? && Shape(Play(events[..n]).value) && Enabled(Play(events[..n]).value, events[n]) &&
      Careful(Play(events[..n]).value, events[n])
  }

  // Over all interleavings in which every link is started carefully, the two sides agree at
  // every point, in particular whenever the controller is between commands.
  lemma {:induction false} RunsKeep(events: seq<Event>)
    requires Play(events).Some? && CarefulRun(events)
    ensures Inv(Play(events).value)
    decreases |events|
  {
    if events == [] {
      StartKeeps();
    } else {
      var n := |events| - 1;
      assert events[..n + 1] == events && CarefulAt(events, n);
      forall m | 0 <= m < n ensures CarefulAt(events[..n], m) {
        assert CarefulAt(events, m) && events[..n][..m] == events[..m] && events[..n][..m + 1] == events[..m + 1];
      }
      RunsKeep(events[..n]);
      NextKeeps(Play(events[..n]).value, events[n]);
    }
  }

  // What the controller itself can see before a link: the request id it is about to use is not
  // the id of a running device.
  ghost predicate NumbersApart(w: World) {
    w.nextReq + 1 !in w.procs || w.nextReq + 1 in w.dead
  }

  ghost predicate ApartAt(events: seq<Event>, n: nat)
    requires n < |events|
  {
    events[n].Link? && Play(events[..n]).Some? ==> NumbersApart(Play(events[..n]).value)
  }

  // Runs that respect this are careful, so the two sides agree throughout.
  lemma {:induction false} ApartRunsKeep(events: seq<Event>)
    requires Play(events).Some? && forall n :: 0 <= n < |events| ==> ApartAt(events, n)
    ensures Inv(Play(events).value)
    decreases |events|
  {
    if events == [] {
      StartKeeps();
    } else {
      var n := |events| - 1;
      assert ApartAt(events, n);
      forall m | 0 <= m < n ensures ApartAt(events[..n], m) {
        assert ApartAt(events, m) && events[..n][..m] == events[..m];
      }
      ApartRunsKeep(events[..n]);
      NextKeeps(Play(events[..n]).value, events[n]);
    }
  }

  lemma PlayNext(events: seq<Event>, e: Event)
    ensures Play(events + [e]) == Then(Play(events), e)
  {
    assert (events + [e])[..|events|] == events;
  }

  lemma PlayStep(events: seq<Event>, w: World, e: Event) returns (es: seq<Event>, r: World)
    requires Play(events) == Some(w) && Shape(w) && Enabled(w, e)
    ensures Play(es) == Some(r) && r == Next(w, e)
  {
    es, r := events + [e], Next(w, e);
    PlayNext(events, e);
  }

  // ---------------------------------------------------------------- a run that goes wrong

  // `n` devices were added and nothing else happened yet.
  ghost predicate JustAdded(w: World, n: nat) {
    && Shape(w) && w.wait.None? && w.nextId == n + 1 && w.nextReq == 1 && w.dead == {}
    && (forall d :: d in w.procs <==> 1 <= d <= n)
    && (forall d :: d in w.parents <==> 1 <= d <= n)
    && (forall d :: 1 <= d <= n ==> w.queues[d] == [] && w.parents[d] == 0)
  }

  lemma AddedOne(w: World, n: nat, kind: DeviceType)
    requires JustAdded(w, n)
    ensures JustAdded(NewDevice(w, kind), n + 1)
  {
  }

  lemma AddOne(events: seq<Event>, w: World, n: nat, kind: DeviceType) returns (es: seq<Event>, r: World)
    requires Play(events) == Some(w) && JustAdded(w, n)
    ensures Play(es) == Some(r) && JustAdded(r, n + 1) && r.procs == w.procs[n + 1 := Fresh(kind)]
  {
    AddedOne(w, n, kind);
    es, r := events + [Add(kind)], NewDevice(w, kind);
    PlayNext(events, Add(kind));
  }

  // Further bulbs leave the first two devices as they are.
  lemma {:induction false} AddBulbs(events: seq<Event>, w: World, n: nat, m: nat) returns (es: seq<Event>, r: World)
    requires Play(events) == Some(w) && JustAdded(w, n) && 2 <= n <= m
    ensures Play(es) == Some(r) && JustAdded(r, m) && r.procs[1] == w.procs[1] && r.procs[2] == w.procs[2]
    decreases m - n
  {
    es, r := events, w;
    if n < m {
      es, r := AddOne(es, r, n, Bulb);
      es, r := AddBulbs(es, r, n + 1, m);
    }
  }

  // A hub, a timer and four bulbs.
  lemma SixDevices() returns (es: seq<Event>, w: World)
    ensures Play(es) == Some(w) && JustAdded(w, 6) && w.procs[1] == Fresh(Hub) && w.procs[2] == Fresh(Timer)
  {
    assert Play([]) == Some(START) && JustAdded(START, 0);
    es, w := AddOne([], START, 0, Hub);
    es, w := AddOne(es, w, 1, Timer);
    es, w := AddBulbs(es, w, 2, 6);
  }

  // A link whose new parent answers at once.
  lemma PromptAnswer(w: World, c: int, p: int)
    requires Shape(w) && w.wait.None? && c in w.parents && p in w.parents
    requires p !in w.dead && w.queues[p] == []
    requires Handle(w.procs[p], ChildAdded(c, w.nextReq + 1)).1 == OK
    ensures Shape(BeginLink(w, c, p))
    ensures var answered := Deliver(BeginLink(w, c, p), p);
      && answered.wait == Some(Wait(c, p, w.nextReq + 1, Some(OK))) && answered.queues == w.queues
      && answered.parents == w.parents && answered.nextReq == w.nextReq + 2 && answered.dead == w.dead
      && answered.procs == w.procs[p := Handle(w.procs[p], ChildAdded(c, w.nextReq + 1)).0]
  {
    var begun := BeginLink(w, c, p);
    assert begun.queues[p] == [ChildAdded(c, w.nextReq + 1)];
    assert Deliver(begun, p).queues == w.queues;
  }

  lemma PromptLink(events: seq<Event>, w: World, c: int, p: int) returns (es: seq<Event>, r: World)
    requires Play(events) == Some(w) && Shape(w) && w.wait.None? && c in w.parents && p in w.parents && c != p
    requires p !in w.dead && w.queues[p] == [] && !w.procs[p].LeafProc?
    requires Handle(w.procs[p], ChildAdded(c, w.nextReq + 1)).1 == OK
    ensures Play(es) == Some(r) && Shape(r) && r.wait.None? && r.nextReq == w.nextReq + 2 && r.dead == w.dead
    ensures r.parents == w.parents[c := p] && r.queues == w.queues
    ensures r.procs == w.procs[p := Handle(w.procs[p], ChildAdded(c, w.nextReq + 1)).0]
  {
    PromptAnswer(w, c, p);
    var answered := Deliver(BeginLink(w, c, p), p);
    es, r := PlayStep(events, w, Link(c, p));
    es, r := PlayStep(es, r, Turn(p));
    assert r == answered;
    es, r := PlayStep(es, r, Accept);
  }

  // Bulb 3 is the timer's child, bulb 6 was hub 1's; the hub crashed and was buried, and bulb 6
  // has not yet taken its notice.
  ghost predicate BeforeMishap(w: World) {
    && Shape(w) && w.wait.None? && w.nextReq == 5
    && (forall d :: 2 <= d <= 6 ==> d in w.parents && d in w.procs && d !in w.dead)
    && w.parents[3] == 2 && w.procs[2] == TimerProc(3, 1)
    && w.queues[2] == [] && w.queues[6] == [NewParent(6)]
  }

  // The hub dies; its orphan is told, the timer's world is untouched.
  lemma HubCrash(events: seq<Event>, w: World) returns (es: seq<Event>, r: World)
    requires Play(events) == Some(w) && Shape(w) && w.wait.None? && w.dead == {}
    requires 1 in w.parents && 2 in w.parents && 6 in w.parents && w.parents[6] == 1
    requires w.parents[1] == CONTROLLER_ID && w.parents[2] != 1 && w.queues[6] == [] && w.queues[2] == []
    ensures Play(es) == Some(r) && Shape(r) && r.wait.None? && r.nextReq == w.nextReq && r.dead == {1}
    ensures r.parents == ParentsWithout(w.parents, 1) && r.procs == w.procs
    ensures r.queues[2] == [] && r.queues[6] == [NewParent(6)]
  {
    var crashed := w.(dead := w.dead + {1});
    r := Membership.Bury(crashed, 1, true, {6});
    assert NewsFor(crashed, 1, true, {6}, 6) == [NewParent(6)];
    assert NewsFor(crashed, 1, true, {6}, 2) == [];
    PlayNext(events, Crash(1));
    PlayNext(events + [Crash(1)], Bury(1, true, {6}));
    es := events + [Crash(1)] + [Bury(1, true, {6})];
  }

  // Bulb 3 goes to the timer and bulb 6 to the hub.
  ghost predicate BothLinked(w: World) {
    && Shape(w) && w.wait.None? && w.nextReq == 5 && w.dead == {}
    && (forall d :: 1 <= d <= 6 ==> d in w.parents && d in w.procs && w.queues[d] == [])
    && w.parents[1] == 0 && w.parents[2] == 0 && w.parents[3] == 2 && w.parents[6] == 1
    && w.procs[2] == TimerProc(3, 1)
  }

  lemma LinkBoth() returns (es: seq<Event>, w: World)
    ensures Play(es) == Some(w) && BothLinked(w)
  {
    es, w := SixDevices();
    es, w := PromptLink(es, w, 3, 2);
    es, w := PromptLink(es, w, 6, 1);
  }

  lemma MishapCanArise() returns (es: seq<Event>, w: World)
    ensures Play(es) == Some(w) && BeforeMishap(w)
  {
    es, w := LinkBoth();
    es, w := HubCrash(es, w);
  }

  // Linking bulb 5 to the timer now uses request id 6.  Bulb 6's late answer to its notice is
  // read as the timer's: the controller gives the timer a second child, which the timer, still
  // holding bulb 3, will refuse.
  lemma TimerGetsTwoChildren(w: World)
    requires BeforeMishap(w)
    ensures Shape(BeginLink(w, 5, 2)) && Threat(BeginLink(w, 5, 2))
    ensures var w' := Deliver(BeginLink(w, 5, 2), 6);
      && w'.wait == Some(Wait(5, 2, 6, Some(OK)))
      && Commit(w').parents[3] == 2 && Commit(w').parents[5] == 2 && Commit(w').procs[2] == TimerProc(3, 1)
      && w'.queues[2] == [ChildAdded(5, 6)]
      && Handle(TimerProc(3, 1), ChildAdded(5, 6)) == (TimerProc(3, 1), ERR_NOT_ALLOWED)
  {
    var begun := BeginLink(w, 5, 2);
    assert begun.queues[6] == [NewParent(6)];
  }

  // The whole run: at its end the controller is between commands and its table gives the timer two
  // children, while the timer process holds only the first.
  lemma TwoChildrenRun() returns (es: seq<Event>, w: World)
    ensures Play(es) == Some(w) && Shape(w) && w.wait.None?
    ensures {2, 3, 5} <= w.parents.Keys && w.parents[3] == 2 && w.parents[5] == 2
    ensures 2 in w.procs && w.procs[2] == TimerProc(3, 1) && 2 !in w.dead
  {
    var before, u := MishapCanArise();
    TimerGetsTwoChildren(u);
    var answered := Deliver(BeginLink(u, 5, 2), 6);
    es, w := PlayStep(before, u, Link(5, 2));
    es, w := PlayStep(es, w, Turn(6));
    assert w == answered;
    es, w := PlayStep(es, w, Accept);
  }

  // ---------------------------------------------------------------- a dead child that stays listed

  lemma OnlyParentTold(w: World, d: int)
    requires Shape(w) && d in w.parents && w.parents[d] in w.queues && w.queues[w.parents[d]] == []
    ensures QueuesAfter(w, d, true, {}) == w.queues[w.parents[d] := [ChildGone(d)]]
  {
    forall x | x in w.queues ensures w.queues[x] + NewsFor(w, d, true, {}, x) ==
      if x == w.parents[d] then [ChildGone(d)] else w.queues[x]
    {
      assert NewsFor(w, d, true, {}, x) == if x == w.parents[d] then [ChildGone(d)] else [];
    }
  }

  // The hub reads the notice about its dead child.
  lemma NoticeRead(w: World, d: int)
    requires Shape(w) && w.wait.None? && d in w.parents && w.parents[d] == 1
    requires 1 in w.procs && w.procs[1].HubProc? && 1 !in w.dead && w.queues[1] == []
    ensures var r := Deliver(Membership.Bury(w, d, true, {}), 1);
      && r.wait.None? && r.dead == w.dead && r.queues == w.queues && r.parents == ParentsWithout(w.parents, d)
      && GoodProc(w.procs[1]) && r.procs == w.procs[1 := HubProc(Removed(w.procs[1].list, d))]
  {
    var buried := Membership.Bury(w, d, true, {});
    OnlyParentTold(w, d);
    assert buried.queues[1] == [ChildGone(d)];
    assert Deliver(buried, 1).queues == w.queues;
  }

  // A child of hub 1 dies, is buried, and the hub reads the notice.
  lemma ChildDies(events: seq<Event>, w: World, d: int) returns (es: seq<Event>, r: World)
    requires Play(events) == Some(w) && Shape(w) && w.wait.None?
    requires 1 in w.procs && w.procs[1].HubProc? && 1 !in w.dead && w.queues[1] == []
    requires d in w.parents && w.parents[d] == 1 && d != 1
    ensures Play(es) == Some(r) && Shape(r) && r.wait.None? && r.dead == w.dead + {d} && r.queues == w.queues
    ensures r.parents == ParentsWithout(w.parents, d)
    ensures GoodProc(w.procs[1]) && r.procs == w.procs[1 := HubProc(Removed(w.procs[1].list, d))]
  {
    var crashed := w.(dead := w.dead + {d});
    NoticeRead(crashed, d);
    es, r := PlayStep(events, w, Crash(d));
    es, r := PlayStep(es, r, Bury(d, true, {}));
    es, r := PlayStep(es, r, Turn(1));
  }

  ghost predicate ThreeLinked(w: World) {
    && Shape(w) && w.wait.None? && w.dead == {} && (forall d :: 1 <= d <= 6 ==> d in w.procs && w.queues[d] == [])
    && {3, 4, 5} <= w.parents.Keys && w.parents[3] == w.parents[4] == w.parents[5] == 1
    && w.procs[1].HubProc? && w.procs[1].list == Added(Added(Added(EmptyList(), 3), 4), 5)
  }

  lemma LinkThree() returns (es: seq<Event>, w: World)
    ensures Play(es) == Some(w) && ThreeLinked(w)
  {
    ListOfThree(3, 4, 5);
    es, w := SixDevices();
    es, w := PromptLink(es, w, 3, 1);
    es, w := PromptLink(es, w, 4, 1);
    es, w := PromptLink(es, w, 5, 1);
  }

  lemma ListOfThree(a: int, b: int, c: int)
    requires 1 <= a < b < c
    ensures var none := EmptyList();
      var one := Added(none, a);
      var two := Added(one, b);
      var three := Added(two, c);
      && AddResult(none, a) == AddResult(one, b) == AddResult(two, c) == OK
      && three.count == three.base == 3 && three.ids[..3] == [a, b, c]
  {
    var none := EmptyList();
    assert none.ids[..0] == [];
    var one := Added(none, a);
    assert one.ids[..1] == [a];
    var two := Added(one, b);
    assert two.ids[..2] == [a, b];
  }

  // Hub 1 has the bulbs 3, 4 and 5, which die one after the other.  The hub reads every notice, and
  // still lists bulb 5 in the end.
  lemma DeadChildStaysListed() returns (es: seq<Event>, w: World)
    ensures Play(es) == Some(w) && Shape(w) && w.wait.None?
    ensures 5 in w.dead && 5 !in w.parents
    ensures 1 in w.procs && 1 !in w.dead && w.queues[1] == [] && w.procs[1].HubProc? && Listed(w.procs[1].list, 5)
  {
    var u;
    es, u := LinkThree();
    var list := u.procs[1].list;
    ListOfThree(3, 4, 5);
    ThirdStaysListed(list, 3, 4, 5);
    es, w := ChildDies(es, u, 3);
    assert w.procs[1].list == Removed(list, 3) && w.parents[4] == 1 && w.parents[5] == 1;
    es, w := ChildDies(es, w, 4);
    assert w.procs[1].list == Removed(Removed(list, 3), 4) && w.parents[5] == 1;
    es, w := ChildDies(es, w, 5);
    assert 5 in [5];
  }
}
