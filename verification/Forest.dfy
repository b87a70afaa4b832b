/** The logical hierarchy as a value: a table of slots, each naming its parent.  Everything
    here is about one table or about a table before and after a single change. */
module Forest {
  import opened Domotics

  datatype Node = Node(id: int, parent: int, kind: DeviceType)

  const FREE := Node(-1, NO_PARENT, Unknown)

  // ---------------------------------------------------------------- looking up an id

  ghost predicate Has(t: seq<Node>, id: int) {
    exists i :: 0 <= i < |t| && t[i].id == id
  }

  // The first slot that carries `id`.  A free slot carries -1, so IndexOf(t, -1) is the
  // first free slot: looking up the parent of a detached node finds one.
  ghost function IndexOf(t: seq<Node>, id: int): (i: nat)
    requires Has(t, id)
    ensures i < |t| && t[i].id == id
    ensures forall j :: 0 <= j < i ==> t[j].id != id
  {
    FirstFrom(t, id, 0)
  }

  ghost function FirstFrom(t: seq<Node>, id: int, k: nat): (i: nat)
    requires Has(t, id) && forall j :: 0 <= j < k ==> j < |t| && t[j].id != id
    ensures i < |t| && t[i].id == id
    ensures forall j :: 0 <= j < i ==> t[j].id != id
    decreases |t| - k
  {
    if t[k].id == id then k else FirstFrom(t, id, k + 1)
  }

  ghost predicate Live(t: seq<Node>, id: int) {
    id >= 0 && Has(t, id)
  }

  ghost predicate UniqueIds(t: seq<Node>) {
    forall i, j :: 0 <= i < j < |t| && t[i].id >= 0 ==> t[i].id != t[j].id
  }

  lemma IndexOfSlot(t: seq<Node>, i: nat)
    requires UniqueIds(t) && i < |t| && t[i].id >= 0
    ensures Has(t, t[i].id) && IndexOf(t, t[i].id) == i
  {
  }

  // ---------------------------------------------------------------- chains of ancestors

  // One step towards the root.  The controller and ids outside the table stay put.
  ghost function Step(t: seq<Node>, id: int): int {
    if id == CONTROLLER_ID || !Has(t, id) then id else t[IndexOf(t, id)].parent
  }

  ghost function Up(t: seq<Node>, id: int, n: nat): int
    decreases n
  {
    if n == 0 then id else Up(t, Step(t, id), n - 1)
  }

  // `a` is `id` itself or one of the ids met on the way up from it.
  ghost predicate OnChain(t: seq<Node>, a: int, id: int) {
    exists n: nat :: Up(t, id, n) == a
  }

  ghost predicate Rooted(t: seq<Node>, id: int) {
    OnChain(t, CONTROLLER_ID, id)
  }

  // The chain leaves the table without having met the controller.
  ghost predicate DeadEnd(t: seq<Node>, id: int) {
    exists n: nat :: Up(t, id, n) != CONTROLLER_ID && !Has(t, Up(t, id, n))
  }

  ghost predicate AllRooted(t: seq<Node>) {
    forall i {:trigger Rooted(t, t[i].id)} :: 0 <= i < |t| && t[i].id >= 0 ==> Rooted(t, t[i].id)
  }

  lemma {:induction false} UpAdd(t: seq<Node>, id: int, m: nat, n: nat)
    ensures Up(t, id, m + n) == Up(t, Up(t, id, m), n)
    decreases m
  {
    if m > 0 {
      UpAdd(t, Step(t, id), m - 1, n);
    }
  }

  lemma {:induction false} UpStays(t: seq<Node>, id: int, n: nat)
    requires Step(t, id) == id
    ensures Up(t, id, n) == id
  {
    if n > 0 {
      UpStays(t, id, n - 1);
    }
  }

  // Once a chain has reached an id that stays put it never leaves it.
  lemma UpStaysFrom(t: seq<Node>, id: int, m: nat, n: nat)
    requires m <= n && Step(t, Up(t, id, m)) == Up(t, id, m)
    ensures Up(t, id, n) == Up(t, id, m)
  {
    UpAdd(t, id, m, n - m);
    UpStays(t, Up(t, id, m), n - m);
  }

  lemma OnChainTrans(t: seq<Node>, a: int, b: int, c: int)
    requires OnChain(t, a, b) && OnChain(t, b, c)
    ensures OnChain(t, a, c)
  {
    var m: nat :| Up(t, b, m) == a;
    var n: nat :| Up(t, c, n) == b;
    UpAdd(t, c, n, m);
  }

  // Two ids on one chain lie one above the other.
  lemma OnChainLinear(t: seq<Node>, a: int, b: int, c: int)
    requires OnChain(t, a, c) && OnChain(t, b, c)
    ensures OnChain(t, a, b) || OnChain(t, b, a)
  {
    var m: nat :| Up(t, c, m) == a;
    var n: nat :| Up(t, c, n) == b;
    if m <= n {
      UpAdd(t, c, m, n - m);
    } else {
      UpAdd(t, c, n, m - n);
    }
  }

  // A chain that returns to an id repeats for ever, so a rooted id is never met again.
  lemma {:induction false} LoopNeverRoots(t: seq<Node>, id: int, period: nat, n: nat)
    requires id != CONTROLLER_ID && period > 0 && Up(t, id, period) == id
    ensures Up(t, id, n) != CONTROLLER_ID
    decreases n
  {
    if Up(t, id, n) == CONTROLLER_ID {
      if n < period {
        UpStaysFrom(t, id, n, period);
        assert false;
      } else {
        UpAdd(t, id, period, n - period);
        LoopNeverRoots(t, id, period, n - period);
        assert false;
      }
    }
  }

  lemma RootedIsAcyclic(t: seq<Node>, id: int)
    requires Rooted(t, id) && id != CONTROLLER_ID
    ensures !OnChain(t, id, Step(t, id))
  {
    if OnChain(t, id, Step(t, id)) {
      var m: nat :| Up(t, Step(t, id), m) == id;
      assert Up(t, id, m + 1) == id;
      var n: nat :| Up(t, id, n) == CONTROLLER_ID;
      LoopNeverRoots(t, id, m + 1, n);
      assert false;
    }
  }

  lemma RootedStep(t: seq<Node>, id: int)
    ensures Rooted(t, id) <==> Rooted(t, Step(t, id))
    ensures forall a :: OnChain(t, a, id) <==> a == id || OnChain(t, a, Step(t, id))
  {
    forall a ensures OnChain(t, a, id) <==> a == id || OnChain(t, a, Step(t, id)) {
      if OnChain(t, a, id) {
        var n: nat :| Up(t, id, n) == a;
        if n > 0 { assert Up(t, Step(t, id), n - 1) == a; }
      }
      if a == id {
        assert Up(t, id, 0) == a;
      }
      if OnChain(t, a, Step(t, id)) {
        var n: nat :| Up(t, Step(t, id), n) == a;
        assert Up(t, id, n + 1) == a;
      }
    }
    if id == CONTROLLER_ID {
      assert Up(t, id, 0) == CONTROLLER_ID;
    }
  }
}
