/** The list of children a hub process keeps, and the one slot of a timer process.  A hub's array
    has two counters: its own and the one of the embedded base device, and a CHILD_REMOVED
    message is processed twice, once with each. */
module ChildList {
  import opened Domotics
  import opened Forest
  import opened Subtree
  import opened Routing

  datatype HubList = HubList(ids: seq<int>, count: nat, base: nat)

  ghost predicate Good(h: HubList) {
    |h.ids| == MAX_DEVICES && h.base <= h.count <= MAX_DEVICES
  }

  ghost function EmptyList(): (h: HubList)
    ensures Good(h)
  {
    HubList(seq(MAX_DEVICES, i => 0), 0, 0)
  }

  ghost predicate Listed(h: HubList, c: int)
    requires Good(h)
  {
    c in h.ids[..h.count]
  }

  // The first place of `c` among the first `n` entries, or n.
  ghost function Place(ids: seq<int>, n: nat, c: int): (i: nat)
    requires n <= |ids|
    ensures i <= n && (i < n ==> ids[i] == c) && forall j :: 0 <= j < i ==> ids[j] != c
  {
    if n == 0 then 0 else
      var i := Place(ids, n - 1, c);
      if i < n - 1 then i else if ids[n - 1] == c then n - 1 else n
  }

  ghost function AddResult(h: HubList, c: int): Code
    requires Good(h)
  {
    if c < 0 then ERR_INVALID_PARAMETERS else if Listed(h, c) || h.count < MAX_DEVICES then OK else ERR_NOT_ALLOWED
  }

  ghost function Added(h: HubList, c: int): (r: HubList)
    requires Good(h)
    ensures Good(r)
  {
    if c < 0 || Listed(h, c) || h.count >= MAX_DEVICES then h
    else HubList(h.ids[h.count := c], h.count + 1, h.count + 1)
  }

  // First pass, over the base counter.
  ghost function BaseRemoved(h: HubList, c: int): (r: HubList)
    requires Good(h)
    ensures Good(r)
  {
    var i := Place(h.ids, h.base, c);
    if i == h.base then h else HubList(h.ids[i := h.ids[h.base - 1]], h.count, h.base - 1)
  }

  // Second pass, over the hub's own counter.
  ghost function OwnRemoved(h: HubList, c: int): (r: HubList)
    requires Good(h)
    ensures Good(r)
  {
    var i := Place(h.ids, h.count, c);
    if c < 0 || i == h.count then h else HubList(h.ids[i := h.ids[h.count - 1]], h.count - 1, h.count - 1)
  }

  ghost function Removed(h: HubList, c: int): (r: HubList)
    requires Good(h)
    ensures Good(r)
  {
    OwnRemoved(BaseRemoved(h, c), c)
  }

  // ---------------------------------------------------------------- laws

  lemma AddedLaw(h: HubList, c: int)
    requires Good(h)
    ensures forall x :: Listed(Added(h, c), x) <==> Listed(h, x) || (x == c && AddResult(h, c) == OK)
    ensures AddResult(h, c) == OK && !Listed(h, c) ==>
      Added(h, c).count == Added(h, c).base == h.count + 1 && Added(h, c).ids[h.count] == c
    ensures AddResult(h, c) != OK || Listed(h, c) ==> Added(h, c) == h
    ensures AddResult(h, c) == OK <==> c >= 0 && (Listed(h, c) || h.count < MAX_DEVICES)
    ensures AddResult(h, c) in {OK, ERR_INVALID_PARAMETERS, ERR_NOT_ALLOWED}
    ensures AddResult(h, c) == ERR_INVALID_PARAMETERS <==> c < 0
  {
    var h' := Added(h, c);
    if h'.count > h.count {
      assert h'.ids[..h'.count] == h.ids[..h.count] + [c];
    }
  }

  lemma SwapOut(ids: seq<int>, n: nat, i: nat, x: int)
    requires i < n <= |ids|
    ensures var ids' := ids[i := ids[n - 1]];
      && (x in ids'[..n - 1] ==> x in ids[..n])
      && (x in ids[..n] && x != ids[i] ==> x in ids'[..n - 1])
  {
    var ids' := ids[i := ids[n - 1]];
    if x in ids'[..n - 1] {
      var j :| 0 <= j < n - 1 && ids'[j] == x;
      assert ids[..n][if j == i then n - 1 else j] == x;
    }
    if x in ids[..n] && x != ids[i] {
      var j :| 0 <= j < n && ids[j] == x;
      assert ids'[..n - 1][if j == n - 1 then i else j] == x;
    }
  }

  // Whatever the two passes do, no other id gets lost and none is invented.
  lemma RemovedLaw(h: HubList, c: int)
    requires Good(h)
    ensures forall x :: Listed(Removed(h, c), x) ==> Listed(h, x)
    ensures forall x :: Listed(h, x) && x != c ==> Listed(Removed(h, c), x)
  {
    var h1 := BaseRemoved(h, c);
    forall x ensures Listed(h1, x) ==> Listed(h, x)
             ensures Listed(h, x) && x != c ==> Listed(h1, x) {
      var i := Place(h.ids, h.base, c);
      if i < h.base {
        assert h1.ids[..h.count][i] == h.ids[..h.count][h.base - 1];
        if Listed(h1, x) {
          var j :| 0 <= j < h.count && h1.ids[j] == x;
          assert h.ids[..h.count][if j == i then h.base - 1 else j] == x;
        }
        if Listed(h, x) && x != c {
          var j :| 0 <= j < h.count && h.ids[j] == x;
          assert h1.ids[..h.count][j] == x;
        }
      }
    }
    forall x ensures Listed(Removed(h, c), x) ==> Listed(h1, x)
             ensures Listed(h1, x) && x != c ==> Listed(Removed(h, c), x) {
      var i := Place(h1.ids, h1.count, c);
      if i < h1.count {
        SwapOut(h1.ids, h1.count, i, x);
      }
    }
  }

  // The listed ids with their multiplicities.
  ghost function Listing(h: HubList): multiset<int>
    requires Good(h)
  {
    multiset(h.ids[..h.count])
  }

  // Overwriting one entry.
  lemma Overwritten(ids: seq<int>, n: nat, i: nat, x: int)
    requires i < n <= |ids|
    ensures multiset(ids[i := x][..n]) == multiset(ids[..n]) - multiset{ids[i]} + multiset{x}
  {
    assert ids[i := x][..n] == ids[..n][i := x];
    assert ids[..n] == ids[..i] + [ids[i]] + ids[i + 1..n];
    assert ids[..n][i := x] == ids[..i] + [x] + ids[i + 1..n];
  }

  // Overwriting one entry with the last one and dropping that.
  lemma TakenOut(ids: seq<int>, n: nat, i: nat)
    requires i < n <= |ids|
    ensures multiset(ids[i := ids[n - 1]][..n - 1]) == multiset(ids[..n]) - multiset{ids[i]}
  {
    var swapped := ids[i := ids[n - 1]];
    Overwritten(ids, n, i, ids[n - 1]);
    assert swapped[..n] == swapped[..n - 1] + [ids[n - 1]];
    assert multiset(swapped[..n]) == multiset(swapped[..n - 1]) + multiset{ids[n - 1]};
    assert multiset(swapped[..n - 1]) == multiset(swapped[..n]) - multiset{ids[n - 1]};
  }

  // The first pass overwrites one `c` with the last entry under the base counter, if there is one.
  lemma BasePass(h: HubList, c: int)
    requires Good(h)
    ensures c in h.ids[..h.base] <==> Place(h.ids, h.base, c) < h.base
    ensures c !in h.ids[..h.base] ==> BaseRemoved(h, c) == h
    ensures c in h.ids[..h.base] ==>
      Listing(BaseRemoved(h, c)) == Listing(h) - multiset{c} + multiset{h.ids[h.base - 1]} &&
      BaseRemoved(h, c).count == h.count && BaseRemoved(h, c).base == h.base - 1
  {
    var i := Place(h.ids, h.base, c);
    if i < h.base {
      assert h.ids[..h.base][i] == c;
      Overwritten(h.ids, h.count, i, h.ids[h.base - 1]);
    }
  }

  // The second pass takes one `c` out, if there is one, and sets both counters.
  lemma OwnPass(h: HubList, c: int)
    requires Good(h) && c >= 0
    ensures Listing(OwnRemoved(h, c)) == Listing(h) - multiset{c}
    ensures Listed(h, c) ==> OwnRemoved(h, c).count == OwnRemoved(h, c).base == h.count - 1
    ensures !Listed(h, c) ==> OwnRemoved(h, c) == h
  {
    var i := Place(h.ids, h.count, c);
    if i < h.count {
      assert h.ids[..h.count][i] == c;
      TakenOut(h.ids, h.count, i);
    } else {
      assert c !in Listing(h) && Listing(h) - multiset{c} == Listing(h);
    }
  }

  // The double processing seen exactly, on any list: what is listed afterwards and how often, and
  // both counters.
  lemma DoubleRemoval(h: HubList, c: int)
    requires Good(h) && c >= 0
    ensures var h' := Removed(h, c);
      var first := if c in h.ids[..h.base] then Listing(h) - multiset{c} + multiset{h.ids[h.base - 1]} else Listing(h);
      && Listing(h') == first - multiset{c}
      && h'.count == (if c in first then h.count - 1 else h.count)
      && h'.base == (if c in first then h.count - 1 else if c in h.ids[..h.base] then h.base - 1 else h.base)
  {
    BasePass(h, c);
    OwnPass(BaseRemoved(h, c), c);
    assert Listed(BaseRemoved(h, c), c) <==> c in Listing(BaseRemoved(h, c));
  }

  // When the removed id is still listed: it stood there at least three times, or twice and the first
  // pass took neither out.
  lemma StillListed(h: HubList, c: int)
    requires Good(h) && c >= 0
    ensures var n := Listing(h)[c];
      Listed(Removed(h, c), c) <==> n >= 3 || (n == 2 && !(c in h.ids[..h.base] && h.ids[h.base - 1] != c))
  {
    DoubleRemoval(h, c);
    assert Listed(Removed(h, c), c) <==> c in Listing(Removed(h, c));
  }

  // From a list with equal counters and without repetition: removing the last entry is clean; any
  // other removal leaves the last id twice and the counters apart.
  lemma FirstRemoval(h: HubList, i: nat)
    requires Good(h) && h.base == h.count && i < h.count && h.ids[i] >= 0
    requires forall j, k :: 0 <= j < k < h.count ==> h.ids[j] != h.ids[k]
    ensures var h' := Removed(h, h.ids[i]);
      if i == h.count - 1 then h' == HubList(h.ids, h.count - 1, h.count - 1)
      else h' == HubList(h.ids[i := h.ids[h.count - 1]], h.count, h.count - 1)
    ensures !Listed(Removed(h, h.ids[i]), h.ids[i])
  {
    var c := h.ids[i];
    var h1 := BaseRemoved(h, c);
    assert Place(h.ids, h.base, c) == i;
    if i == h.count - 1 {
      assert h1.ids == h.ids;
      assert Place(h1.ids, h1.count, c) == i;
      var h' := Removed(h, c);
      assert h'.ids == h.ids;
    } else {
      assert Place(h1.ids, h1.count, c) == h1.count;
    }
  }

  // Three children, removed in the order in which they were added: the third stays listed.
  lemma ThirdStaysListed(h: HubList, a: int, b: int, c: int)
    requires Good(h) && h.count == h.base == 3 && h.ids[..3] == [a, b, c]
    requires 0 <= a && 0 <= b && 0 <= c && a != b && b != c && a != c
    ensures var h' := Removed(Removed(Removed(h, a), b), c); h'.count == 1 && h'.ids[..1] == [c]
  {
    assert h.ids[0] == h.ids[..3][0] && h.ids[1] == h.ids[..3][1] && h.ids[2] == h.ids[..3][2];
    FirstRemoval(h, 0);
    var h1 := Removed(h, a);
    assert h1.ids[..3] == [c, b, c] && h1.base == 2;
    assert Place(h1.ids, 2, b) == 1;
    var h2 := BaseRemoved(h1, b);
    assert h2 == HubList(h1.ids[1 := b], 3, 1);
    assert Place(h2.ids, 3, b) == 1;
    var h3 := Removed(h1, b);
    assert h3 == HubList(h2.ids[1 := c], 2, 2);
    assert Place(h3.ids, 2, c) == 0;
    var h4 := BaseRemoved(h3, c);
    assert h4 == HubList(h3.ids[0 := c], 2, 1);
    assert Place(h4.ids, 2, c) == 0;
  }

  // ---------------------------------------------------------------- the hub process

  class HubDevice {
    const id: int
    const children: array<int>
    var childCount: nat
    var baseChildCount: nat

    ghost predicate Valid()
      reads this
    {
      id >= 1 && children.Length == MAX_DEVICES && baseChildCount <= childCount <= MAX_DEVICES
    }

    ghost function L(): (h: HubList)
      requires Valid()
      reads this, children
      ensures Good(h)
    {
      HubList(children[..], childCount, baseChildCount)
    }

    constructor (id: int)
      requires id >= 1
      ensures Valid() && this.id == id && L() == EmptyList() && fresh(children)
    {
      this.id := id;
      children := new int[MAX_DEVICES](i => 0);
      childCount := 0;
      baseChildCount := 0;
    }

    method AddChildLocal(c: int) returns (rc: Code)
      requires Valid()
      modifies this, children
      ensures Valid()
      ensures rc == AddResult(old(L()), c) && L() == Added(old(L()), c)
    {
      if c < 0 {
        return ERR_INVALID_PARAMETERS;
      }
      for i := 0 to childCount
        invariant Valid() && L() == old(L())
        invariant c !in children[..i]
      {
        if children[i] == c {
          assert L().ids[..childCount][i] == c;
          return OK;
        }
        assert children[..i + 1] == children[..i] + [children[i]];
      }
      if childCount >= MAX_DEVICES {
        return ERR_NOT_ALLOWED;
      }
      children[childCount] := c;
      childCount := childCount + 1;
      baseChildCount := childCount;
      return OK;
    }

    // Runs in the common main loop before the hub sees the message.
    method HandleChildRemovedCommon(c: int)
      requires Valid()
      modifies this, children
      ensures Valid() && L() == BaseRemoved(old(L()), c)
    {
      if baseChildCount == 0 {
        return;
      }
      for i := 0 to baseChildCount
        invariant Valid() && L() == old(L())
        invariant forall j :: 0 <= j < i ==> children[j] != c
      {
        if children[i] == c {
          assert Place(L().ids, L().base, c) == i;
          children[i] := children[baseChildCount - 1];
          baseChildCount := baseChildCount - 1;
          return;
        }
      }
    }

    method RemoveChildLocal(c: int) returns (rc: Code)
      requires Valid()
      modifies this, children
      ensures Valid() && L() == OwnRemoved(old(L()), c)
      ensures rc == if c < 0 then ERR_INVALID_PARAMETERS else if Listed(old(L()), c) then OK else ERR_DEVICE_NOT_FOUND
    {
      if c < 0 {
        return ERR_INVALID_PARAMETERS;
      }
      for i := 0 to childCount
        invariant Valid() && L() == old(L())
        invariant forall j :: 0 <= j < i ==> children[j] != c
      {
        if children[i] == c {
          assert Place(L().ids, L().count, c) == i;
          assert L().ids[..childCount][i] == c;
          children[i] := children[childCount - 1];
          childCount := childCount - 1;
          baseChildCount := childCount;
          return OK;
        }
      }
      return ERR_DEVICE_NOT_FOUND;
    }

    // A CHILD_REMOVED message: both passes, one after the other.
    method ChildRemoved(c: int)
      requires Valid()
      modifies this, children
      ensures Valid() && L() == Removed(old(L()), c)
    {
      HandleChildRemovedCommon(c);
      var _ := RemoveChildLocal(c);
    }

    // The hub process never initialised its own routing table, so there is nothing to load; the
    // branch that copies the array onto itself after clearing it cannot be reached.
    method LoadChildren(routing: RoutingTable) returns (rc: Code)
      requires Valid() && routing.Valid() && routing.nodes as object != children
      requires routing.Table() == seq(MAX_DEVICES, i => ZERO)
      modifies this, children
      ensures Valid() && rc == OK
      ensures L().count == old(L()).count && L().base == old(L()).base
      ensures L().ids[..L().count] == old(L()).ids[..old(L()).count]
    {
      if childCount > 0 {
        return OK;
      }
      for i := 0 to MAX_DEVICES
        invariant Valid() && childCount == 0
      {
        children[i] := 0;
      }
      childCount := 0;
      if baseChildCount > 0 {
        assert false;
      }
      NothingToLoad(id);
      var count;
      rc, count := routing.CollectChildren(id, children);
      if rc != OK {
        return;
      }
      childCount := count;
      baseChildCount := childCount;
    }
  }

  lemma NothingToLoad(id: int)
    requires id >= 1
    ensures Children(seq(MAX_DEVICES, i => ZERO), id) == []
  {
    var t := seq(MAX_DEVICES, i => ZERO);
    NoChildren(t, id);
  }

  lemma {:induction false} NoChildren(t: seq<Node>, id: int)
    requires forall i :: 0 <= i < |t| ==> t[i].parent != id
    ensures Children(t, id) == []
  {
    if t != [] {
      NoChildren(t[..|t| - 1], id);
    }
  }
}
