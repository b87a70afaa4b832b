/** What becomes of a cascade delete in which every exchange succeeds, said with ids alone: which
    devices go, in which order, which are passed over, and with what code it ends.  A device whose
    retained slot holds a copy of one that is gone answers "not found", because that one's FIFO was
    unlinked; the level above goes on.  A device whose slot holds another one that is still there
    removes that one in its place and times out, and so does a device that would leave children. */
module CascadeFate {
  import opened Domotics
  import opened Forest
  import opened Subtree
  import opened CascadeOrder
  import opened Retained
  import opened Skipping

  // The devices removed, in order; those whose delete came to an end, in order, and which of them
  // answered "not found"; the code; and for a timeout the device whose end timed out, the last of
  // `gone` being what that end removed.
  datatype Fate = Fate(gone: seq<int>, done: seq<int>, skipped: set<int>, rc: Code, stop: int)

  const NOTHING_YET := Fate([], [], {}, OK, NO_PARENT)

  ghost function FateOf(t: seq<Node>, live: set<int>, id: int): Fate
    requires WellFormed(t) && IsDevice(t, id)
    decreases Desc(t, id), 1, 0
  {
    ChildrenOf(t, id);
    EndOf(live, id, FateAll(t, live, id, Children(t, id)))
  }

  ghost function FateAll(t: seq<Node>, live: set<int>, id: int, cs: seq<int>): Fate
    requires WellFormed(t) && IsDevice(t, id) && AreChildren(t, id, cs)
    decreases Desc(t, id), 0, |cs|
  {
    if cs == [] then NOTHING_YET else
      var n := |cs| - 1;
      ChildBelow(t, id, cs[n]);
      var before := FateAll(t, live, id, cs[..n]);
      if before.rc != OK then before
      else GoesOn(before, FateOf(t, live - Elements(before.gone), cs[n]))
  }

  // The loop over the children goes on after "not found", and stops at a timeout.
  ghost function GoesOn(before: Fate, last: Fate): Fate {
    Fate(before.gone + last.gone, before.done + last.done, before.skipped + last.skipped,
         if last.rc == ERR_TIMEOUT then ERR_TIMEOUT else OK, last.stop)
  }

  // The end of a delete, after the devices `below`.
  ghost function EndOf(live: set<int>, id: int, below: Fate): Fate {
    var y := Occupant(live, below.gone, id);
    if below.rc != OK then below
    else if y in below.gone then
      Fate(below.gone, below.done + [id], below.skipped + {id}, ERR_DEVICE_NOT_FOUND, NO_PARENT)
    else if y == id && below.skipped == {} then Fate(below.gone + [id], below.done + [id], {}, OK, NO_PARENT)
    else Fate(below.gone + [y], below.done, below.skipped, ERR_TIMEOUT, id)
  }

  // ---------------------------------------------------------------- along the order

  // What went before the end that timed out, or everything that went.
  ghost function Regular(f: Fate): seq<int> {
    if f.rc == ERR_TIMEOUT && f.gone != [] then f.gone[..|f.gone| - 1] else f.gone
  }

  ghost predicate Coded(f: Fate) {
    && (f.rc == OK || f.rc == ERR_DEVICE_NOT_FOUND || f.rc == ERR_TIMEOUT)
    && (f.rc == OK ==> f.skipped == {}) && (f.rc == ERR_TIMEOUT ==> f.gone != [])
  }

  // The devices came to an end in the order `order`: all of them, unless the end of the next one
  // timed out.
  ghost predicate Follows(f: Fate, order: seq<int>) {
    f.done <= order && if f.rc == ERR_TIMEOUT then f.done < order && f.stop == order[|f.done|] else f.done == order
  }

  lemma {:induction false} FateCoded(t: seq<Node>, live: set<int>, id: int)
    requires WellFormed(t) && IsDevice(t, id)
    ensures var f := FateOf(t, live, id); Coded(f) && (f.rc == ERR_DEVICE_NOT_FOUND ==> id in f.skipped)
    decreases Desc(t, id), 1, 0
  {
    ChildrenOf(t, id);
    FateAllCoded(t, live, id, Children(t, id));
  }

  lemma {:induction false} FateAllCoded(t: seq<Node>, live: set<int>, id: int, cs: seq<int>)
    requires WellFormed(t) && IsDevice(t, id) && AreChildren(t, id, cs)
    ensures var f := FateAll(t, live, id, cs);
      (f.rc == OK || f.rc == ERR_TIMEOUT) && (f.rc == ERR_TIMEOUT ==> f.gone != [])
    decreases Desc(t, id), 0, |cs|
  {
    if cs != [] {
      var n := |cs| - 1;
      ChildBelow(t, id, cs[n]);
      FateAllCoded(t, live, id, cs[..n]);
      FateCoded(t, live - Elements(FateAll(t, live, id, cs[..n]).gone), cs[n]);
    }
  }

  // A cascade follows the post-order.
  lemma {:induction false} FateFollows(t: seq<Node>, live: set<int>, id: int)
    requires WellFormed(t) && IsDevice(t, id)
    ensures Follows(FateOf(t, live, id), Order(t, id))
    decreases Desc(t, id), 1, 0
  {
    ChildrenOf(t, id);
    FateAllCoded(t, live, id, Children(t, id));
    FateAllFollows(t, live, id, Children(t, id));
  }

  lemma {:induction false} FateAllFollows(t: seq<Node>, live: set<int>, id: int, cs: seq<int>)
    requires WellFormed(t) && IsDevice(t, id) && AreChildren(t, id, cs)
    ensures Follows(FateAll(t, live, id, cs), OrderAll(t, id, cs))
    decreases Desc(t, id), 0, |cs|
  {
    if cs != [] {
      var n := |cs| - 1;
      ChildBelow(t, id, cs[n]);
      FateAllCoded(t, live, id, cs[..n]);
      FateAllFollows(t, live, id, cs[..n]);
      FateFollows(t, live - Elements(FateAll(t, live, id, cs[..n]).gone), cs[n]);
    }
  }

  // Each device that came to an end went, or was passed over.
  lemma {:induction false} FateParts(t: seq<Node>, live: set<int>, id: int)
    requires WellFormed(t) && IsDevice(t, id)
    ensures var f := FateOf(t, live, id); Parts(Regular(f), f.skipped, f.done)
    decreases Desc(t, id), 1, 0
  {
    ChildrenOf(t, id);
    OrderIsDesc(t, id);
    var cs := Children(t, id);
    FateAllParts(t, live, id, cs);
    FateAllCoded(t, live, id, cs);
    FateAllFollows(t, live, id, cs);
    if FateAll(t, live, id, cs).rc == OK {
      EndParts(live, id, FateAll(t, live, id, cs));
    }
  }

  lemma EndParts(live: set<int>, id: int, below: Fate)
    requires below.rc == OK && Parts(below.gone, below.skipped, below.done) && id !in Elements(below.done)
    ensures var f := EndOf(live, id, below); Parts(Regular(f), f.skipped, f.done)
  {
    var f := EndOf(live, id, below);
    assert f.rc == ERR_TIMEOUT ==> Regular(f) == below.gone;
    ConcatDistinct(below.done, [id]);
    if f.rc == ERR_DEVICE_NOT_FOUND {
      WithoutMore(below.done, below.skipped, {id});
      assert Without(f.done, f.skipped) == Without(below.done, f.skipped) + [];
    }
  }

  lemma {:induction false} FateAllParts(t: seq<Node>, live: set<int>, id: int, cs: seq<int>)
    requires WellFormed(t) && IsDevice(t, id) && AreChildren(t, id, cs) && Distinct(cs)
    ensures var f := FateAll(t, live, id, cs); Parts(Regular(f), f.skipped, f.done)
    decreases Desc(t, id), 0, |cs|
  {
    if cs != [] {
      var n := |cs| - 1;
      ChildBelow(t, id, cs[n]);
      FateAllParts(t, live, id, cs[..n]);
      var before := FateAll(t, live, id, cs[..n]);
      if before.rc == OK {
        var live' := live - Elements(before.gone);
        FateParts(t, live', cs[n]);
        DoneApart(t, live, live', id, cs);
        FateCoded(t, live', cs[n]);
        GoesOnParts(before, FateOf(t, live', cs[n]));
      }
    }
  }

  lemma GoesOnParts(before: Fate, last: Fate)
    requires before.rc == OK && (last.rc == ERR_TIMEOUT ==> last.gone != [])
    requires Elements(before.done) !! Elements(last.done)
    requires Parts(Regular(before), before.skipped, before.done) && Parts(Regular(last), last.skipped, last.done)
    ensures var f := GoesOn(before, last); Parts(Regular(f), f.skipped, f.done)
  {
    PartsConcat(Regular(before), before.skipped, before.done, Regular(last), last.skipped, last.done);
    RegularGoesOn(before, last);
  }

  lemma RegularGoesOn(before: Fate, last: Fate)
    requires before.rc == OK && (last.rc == ERR_TIMEOUT ==> last.gone != [])
    ensures Regular(GoesOn(before, last)) == before.gone + Regular(last)
  {
    var f := GoesOn(before, last);
    if last.rc == ERR_TIMEOUT {
      assert f.gone[..|f.gone| - 1] == before.gone + last.gone[..|last.gone| - 1];
    }
  }

  // What ends below the last child does not end below an earlier one.
  lemma DoneApart(t: seq<Node>, live: set<int>, live': set<int>, id: int, cs: seq<int>)
    requires WellFormed(t) && IsDevice(t, id) && AreChildren(t, id, cs) && Distinct(cs) && cs != []
    ensures Elements(FateAll(t, live, id, cs[..|cs| - 1]).done) !! Elements(FateOf(t, live', cs[|cs| - 1]).done)
  {
    var n := |cs| - 1;
    FateAllFollows(t, live, id, cs[..n]);
    FateFollows(t, live', cs[n]);
    OrderAllIs(t, id, cs[..n]);
    OrderIsDesc(t, cs[n]);
    EarlierApart(t, id, cs[..n], cs[n]);
    assert forall x :: x in FateAll(t, live, id, cs[..n]).done ==> UnderSome(t, cs[..n], x);
    assert Elements(FateOf(t, live', cs[n]).done) <= Elements(Order(t, cs[n]));
  }

  // If anything was passed over, a child was.
  lemma {:induction false} SomeChildSkipped(t: seq<Node>, live: set<int>, id: int, cs: seq<int>)
    requires WellFormed(t) && IsDevice(t, id) && AreChildren(t, id, cs)
    requires FateAll(t, live, id, cs).rc == OK && FateAll(t, live, id, cs).skipped != {}
    ensures exists c :: c in cs && c in FateAll(t, live, id, cs).skipped
    decreases |cs|
  {
    if cs != [] {
      var n := |cs| - 1;
      ChildBelow(t, id, cs[n]);
      var before := FateAll(t, live, id, cs[..n]);
      FateCoded(t, live - Elements(before.gone), cs[n]);
      if before.skipped != {} {
        SomeChildSkipped(t, live, id, cs[..n]);
      }
    }
  }

  // What went regularly went with everything below it.
  lemma {:induction false} FateDownClosed(t: seq<Node>, live: set<int>, id: int)
    requires WellFormed(t) && IsDevice(t, id)
    ensures var f := FateOf(t, live, id); DownClosed(t, Elements(Regular(f)))
    decreases Desc(t, id), 1, 0
  {
    ChildrenOf(t, id);
    FatesDownClosed(t, live, id, Children(t, id));
    var f, below := FateOf(t, live, id), FateAll(t, live, id, Children(t, id));
    if f.rc == OK {
      FateParts(t, live, id);
      FateFollows(t, live, id);
      FateCoded(t, live, id);
      WithoutIs(f.done, {});
      OrderIsDesc(t, id);
      DescDownClosed(t, id);
    } else {
      assert Regular(f) == Regular(below);
    }
  }

  lemma {:induction false} FatesDownClosed(t: seq<Node>, live: set<int>, id: int, cs: seq<int>)
    requires WellFormed(t) && IsDevice(t, id) && AreChildren(t, id, cs)
    ensures var f := FateAll(t, live, id, cs); DownClosed(t, Elements(Regular(f)))
    decreases Desc(t, id), 0, |cs|
  {
    if cs != [] {
      var n := |cs| - 1;
      ChildBelow(t, id, cs[n]);
      FatesDownClosed(t, live, id, cs[..n]);
      var before := FateAll(t, live, id, cs[..n]);
      if before.rc == OK {
        var last := FateOf(t, live - Elements(before.gone), cs[n]);
        FateDownClosed(t, live - Elements(before.gone), cs[n]);
        FateCoded(t, live - Elements(before.gone), cs[n]);
        RegularGoesOn(before, last);
        ConcatDistinct(before.gone, Regular(last));
      }
    }
  }
}
