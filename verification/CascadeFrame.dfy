/** When a cascade succeeds, what it leaves alone, and where what it removed comes from. */
module CascadeFrame {
  import opened Domotics
  import opened Forest
  import opened Subtree
  import opened CascadeOrder
  import opened Retained
  import opened Skipping
  import opened CascadeFate

  // ---------------------------------------------------------------- when it succeeds

  // A cascade ends well exactly when its order is safe; then everything went in that order.
  lemma {:induction false} FateSafe(t: seq<Node>, live: set<int>, id: int)
    requires WellFormed(t) && IsDevice(t, id)
    ensures FateOf(t, live, id).rc == OK <==> Safe(t, live, id)
    ensures FateOf(t, live, id).rc == OK ==> FateOf(t, live, id).gone == Order(t, id)
    decreases Desc(t, id), 1, 0
  {
    ChildrenOf(t, id);
    OrderIsDesc(t, id);
    var cs := Children(t, id);
    var below := FateAll(t, live, id, cs);
    FateAllSafe(t, live, id, cs);
    FateAllCoded(t, live, id, cs);
    if SafeAll(t, live, id, cs) {
      assert id !in below.gone by {
        assert id in below.gone ==> id in Elements(below.gone);
      }
      OccupantIsId(live, below.gone, id);
    }
  }

  lemma {:induction false} FateAllSafe(t: seq<Node>, live: set<int>, id: int, cs: seq<int>)
    requires WellFormed(t) && IsDevice(t, id) && AreChildren(t, id, cs) && Distinct(cs)
    ensures var f := FateAll(t, live, id, cs);
      && (f.rc == OK && f.skipped == {} <==> SafeAll(t, live, id, cs))
      && (f.rc == OK && f.skipped == {} ==> f.gone == OrderAll(t, id, cs))
    decreases Desc(t, id), 0, |cs|
  {
    if cs != [] {
      var n := |cs| - 1;
      ChildBelow(t, id, cs[n]);
      OrderAllSnoc(t, id, cs);
      FateAllSafe(t, live, id, cs[..n]);
      var before := FateAll(t, live, id, cs[..n]);
      if before.rc == OK {
        FateSafe(t, live - Elements(before.gone), cs[n]);
        FateCoded(t, live - Elements(before.gone), cs[n]);
      }
    }
  }

  // ---------------------------------------------------------------- framing

  // Devices removed elsewhere make no difference.
  lemma {:induction false} FateFrame(t: seq<Node>, gone: set<int>, id: int, live: set<int>)
    requires WellFormed(t) && IsDevice(t, id) && gone !! Desc(t, id) && WellFormed(Cleared(t, gone))
    ensures IsDevice(Cleared(t, gone), id) && FateOf(Cleared(t, gone), live, id) == FateOf(t, live, id)
    decreases Desc(t, id), 1, 0
  {
    var t', cs := Cleared(t, gone), Children(t, id);
    ClearedLookup(t, gone);
    DescDownClosed(t, id);
    ChildrenOf(t, id);
    ChildrenOf(t', id);
    forall c | c in gone && IsDevice(t, c) ensures Step(t, c) != id {
      if Step(t, c) == id { ChildBelow(t, id, c); }
    }
    ChildrenOfCleared(t, gone, id);
    FateAllFrame(t, gone, id, cs, live);
  }

  lemma {:induction false} FateAllFrame(t: seq<Node>, gone: set<int>, id: int, cs: seq<int>, live: set<int>)
    requires WellFormed(t) && IsDevice(t, id) && gone !! Desc(t, id)
    requires WellFormed(Cleared(t, gone)) && IsDevice(Cleared(t, gone), id)
    requires AreChildren(t, id, cs) && AreChildren(Cleared(t, gone), id, cs)
    ensures FateAll(Cleared(t, gone), live, id, cs) == FateAll(t, live, id, cs)
    decreases Desc(t, id), 0, |cs|
  {
    if cs != [] {
      var n := |cs| - 1;
      ChildBelow(t, id, cs[n]);
      FateAllFrame(t, gone, id, cs[..n], live);
      FateFrame(t, gone, cs[n], live - Elements(FateAll(t, live, id, cs[..n]).gone));
    }
  }

  // A timeout ends the loop.
  lemma {:induction false} FateAllStops(t: seq<Node>, live: set<int>, id: int, cs: seq<int>, i: nat)
    requires WellFormed(t) && IsDevice(t, id) && AreChildren(t, id, cs) && i <= |cs| && AreChildren(t, id, cs[..i])
    requires FateAll(t, live, id, cs[..i]).rc != OK
    ensures FateAll(t, live, id, cs) == FateAll(t, live, id, cs[..i])
    decreases |cs|
  {
    if i < |cs| {
      var n := |cs| - 1;
      assert cs[..n][..i] == cs[..i];
      ChildBelow(t, id, cs[n]);
      FateAllStops(t, live, id, cs[..n], i);
    } else {
      assert cs[..i] == cs;
    }
  }

  // ---------------------------------------------------------------- what went below a device

  // Everything that went below a device is below it, and went once.
  lemma BelowIs(t: seq<Node>, live: set<int>, id: int)
    requires WellFormed(t) && IsDevice(t, id) && AreChildren(t, id, Children(t, id))
    ensures var below := FateAll(t, live, id, Children(t, id));
      && Elements(Regular(below)) <= Desc(t, id) - {id} && Distinct(Regular(below))
      && below.skipped !! Elements(Regular(below)) && below.skipped <= Desc(t, id) - {id}
  {
    ChildrenOf(t, id);
    OrderIsDesc(t, id);
    var cs := Children(t, id);
    var below := FateAll(t, live, id, cs);
    FateAllFollows(t, live, id, cs);
    FateAllParts(t, live, id, cs);
    OrderAllIs(t, id, cs);
    PartsWithin(Regular(below), below.skipped, below.done, OrderAll(t, id, cs));
  }

  // What went below the earlier children is not below the last one.
  lemma BeforeApart(t: seq<Node>, live: set<int>, id: int, cs: seq<int>)
    requires WellFormed(t) && IsDevice(t, id) && AreChildren(t, id, cs) && Distinct(cs) && cs != []
    requires FateAll(t, live, id, cs[..|cs| - 1]).rc == OK
    ensures var gone := Elements(FateAll(t, live, id, cs[..|cs| - 1]).gone);
      gone !! Desc(t, cs[|cs| - 1]) && gone <= Desc(t, id) - {id}
  {
    var n := |cs| - 1;
    var before, all := FateAll(t, live, id, cs[..n]), OrderAll(t, id, cs[..n]);
    FateAllFollows(t, live, id, cs[..n]);
    FateAllParts(t, live, id, cs[..n]);
    WithoutIs(all, before.skipped);
    OrderAllIs(t, id, cs[..n]);
    EarlierApart(t, id, cs[..n], cs[n]);
    forall x | x in Elements(before.gone) ensures x !in Desc(t, cs[n]) && x in Desc(t, id) - {id} {
      assert UnderSome(t, cs[..n], x);
      var c :| c in cs[..n] && x in Desc(t, c);
      ChildBelow(t, id, c);
    }
  }
}
