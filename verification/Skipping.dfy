/** An order of which some members were passed over. */
module Skipping {
  import opened CascadeOrder

  // The ids of `order` that are not in `skipped`.
  ghost function Without(order: seq<int>, skipped: set<int>): seq<int> {
    if order == [] then [] else
      var n := |order| - 1;
      Without(order[..n], skipped) + (if order[n] in skipped then [] else [order[n]])
  }

  lemma {:induction false} WithoutConcat(a: seq<int>, b: seq<int>, skipped: set<int>)
    ensures Without(a + b, skipped) == Without(a, skipped) + Without(b, skipped)
    decreases |b|
  {
    if b == [] {
      assert a + b == a;
    } else {
      var n := |b| - 1;
      assert (a + b)[..|a + b| - 1] == a + b[..n];
      WithoutConcat(a, b[..n], skipped);
    }
  }

  lemma {:induction false} WithoutIs(order: seq<int>, skipped: set<int>)
    ensures Elements(Without(order, skipped)) == Elements(order) - skipped
    ensures Distinct(order) ==> Distinct(Without(order, skipped))
    ensures skipped !! Elements(order) ==> Without(order, skipped) == order
  {
    if order != [] {
      var n := |order| - 1;
      WithoutIs(order[..n], skipped);
      assert order == order[..n] + [order[n]];
      ConcatDistinct(order[..n], [order[n]]);
      ConcatDistinct(Without(order[..n], skipped), [order[n]]);
      assert Without(order[..n], skipped) + [] == Without(order[..n], skipped);
    }
  }

  lemma {:induction false} WithoutMore(order: seq<int>, skipped: set<int>, more: set<int>)
    requires more !! Elements(order)
    ensures Without(order, skipped + more) == Without(order, skipped)
  {
    if order != [] {
      var n := |order| - 1;
      assert order[n] in Elements(order) && Elements(order[..n]) <= Elements(order);
      WithoutMore(order[..n], skipped, more);
    }
  }

  // The devices of `done` were taken in turn: each went, or was passed over.
  ghost predicate Parts(gone: seq<int>, skipped: set<int>, done: seq<int>) {
    skipped <= Elements(done) && gone == Without(done, skipped)
  }

  lemma PartsConcat(g: seq<int>, k: set<int>, d: seq<int>, g': seq<int>, k': set<int>, d': seq<int>)
    requires Parts(g, k, d) && Parts(g', k', d') && Elements(d) !! Elements(d')
    ensures Parts(g + g', k + k', d + d')
  {
    ConcatDistinct(d, d');
    WithoutConcat(d, d', k + k');
    WithoutMore(d, k, k');
    WithoutMore(d', k', k);
    assert k + k' == k' + k;
  }

  lemma PartsWithin(gone: seq<int>, skipped: set<int>, done: seq<int>, order: seq<int>)
    requires Parts(gone, skipped, done) && done <= order && Distinct(order)
    ensures Elements(gone) <= Elements(order) && skipped <= Elements(order)
    ensures Distinct(gone) && skipped !! Elements(gone)
  {
    WithoutIs(done, skipped);
    assert Elements(done) <= Elements(order);
  }
}
