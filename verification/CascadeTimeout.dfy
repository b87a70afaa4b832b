/** What a cascade that times out removed last, and where it stopped. */
module CascadeTimeout {
  import opened Domotics
  import opened Forest
  import opened Subtree
  import opened CascadeOrder
  import opened Retained
  import opened Skipping
  import opened CascadeFate
  import opened CascadeFrame

  // What the end at `f.stop` removed: the device in its slot, after `a` had gone before it started
  // and `b` below it.  It is at least `f.stop`, and equals it only when a child was passed over.
  ghost predicate StoppedAt(t: seq<Node>, live: set<int>, f: Fate, a: seq<int>, b: seq<int>)
    requires WellFormed(t)
  {
    && f.gone != [] && Regular(f) == a + b
    && IsDevice(t, f.stop) && Elements(a) !! Desc(t, f.stop) && Elements(b) <= Desc(t, f.stop) - {f.stop}
    && f.gone[|f.gone| - 1] == Occupant(live - Elements(a), b, f.stop) && f.gone[|f.gone| - 1] !in b
    && (f.gone[|f.gone| - 1] == f.stop ==> exists c :: IsDevice(t, c) && Step(t, c) == f.stop && c in f.skipped)
  }

  lemma {:induction false} FateStopped(t: seq<Node>, live: set<int>, id: int) returns (a: seq<int>, b: seq<int>)
    requires WellFormed(t) && IsDevice(t, id) && FateOf(t, live, id).rc == ERR_TIMEOUT
    ensures StoppedAt(t, live, FateOf(t, live, id), a, b) && FateOf(t, live, id).stop in Desc(t, id)
    ensures Elements(a) <= Desc(t, id)
    decreases Desc(t, id), 1, 0
  {
    ChildrenOf(t, id);
    DescDownClosed(t, id);
    var cs := Children(t, id);
    var below := FateAll(t, live, id, cs);
    FateAllCoded(t, live, id, cs);
    if below.rc != OK {
      a, b := FateAllStopped(t, live, id, cs);
    } else {
      a, b := [], below.gone;
      assert live - Elements(a) == live;
      BelowIs(t, live, id);
      if below.skipped != {} {
        SomeChildSkipped(t, live, id, cs);
      }
    }
  }

  lemma {:induction false} FateAllStopped(t: seq<Node>, live: set<int>, id: int, cs: seq<int>)
    returns (a: seq<int>, b: seq<int>)
    requires WellFormed(t) && IsDevice(t, id) && AreChildren(t, id, cs) && Distinct(cs)
    requires FateAll(t, live, id, cs).rc == ERR_TIMEOUT
    ensures StoppedAt(t, live, FateAll(t, live, id, cs), a, b) && FateAll(t, live, id, cs).stop in Desc(t, id)
    ensures Elements(a) <= Desc(t, id)
    decreases Desc(t, id), 0, |cs|
  {
    if cs != [] {
      var n := |cs| - 1;
      ChildBelow(t, id, cs[n]);
      var before := FateAll(t, live, id, cs[..n]);
      if before.rc != OK {
        FateAllCoded(t, live, id, cs[..n]);
        a, b := FateAllStopped(t, live, id, cs[..n]);
      } else {
        var last := FateOf(t, live - Elements(before.gone), cs[n]);
        a, b := FateStopped(t, live - Elements(before.gone), cs[n]);
        BeforeApart(t, live, id, cs);
        DescWithin(t, cs[n], last.stop);
        StoppedLater(t, live, before, last, a, b);
        ConcatDistinct(before.gone, a);
        a := before.gone + a;
      }
    }
  }

  lemma StoppedLater(t: seq<Node>, live: set<int>, before: Fate, last: Fate, a: seq<int>, b: seq<int>)
    requires WellFormed(t) && last.rc == ERR_TIMEOUT && StoppedAt(t, live - Elements(before.gone), last, a, b)
    requires Elements(before.gone) !! Desc(t, last.stop)
    ensures StoppedAt(t, live, GoesOn(before, last), before.gone + a, b)
  {
    var f := GoesOn(before, last);
    ConcatDistinct(before.gone, a);
    assert (live - Elements(before.gone)) - Elements(a) == live - Elements(before.gone + a);
    assert f.gone[..|f.gone| - 1] == before.gone + last.gone[..|last.gone| - 1];
    assert before.gone + (a + b) == before.gone + a + b;
  }

  lemma DescWithin(t: seq<Node>, id: int, x: int)
    requires x in Desc(t, id)
    ensures Desc(t, x) <= Desc(t, id)
  {
    DescIs(t, id);
    DescIs(t, x);
    forall y | y in Desc(t, x) ensures y in Desc(t, id) {
      OnChainTrans(t, id, x, y);
    }
  }
}
