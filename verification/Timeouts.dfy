/** Whether the controller waits long enough for the answer to a SWITCH.  Every device waits for one
    to three seconds before it does anything, and a hub then asks its children one after the other. */
module Timeouts {
  import opened Domotics
  import opened Pending

  // A device on its way to an answer: how long it waits, and the children it waits for in turn.  A
  // timer waits for none.
  datatype Asked = Asked(delay: nat, children: seq<Asked>)

  // Seconds until it answers.  A hub gives up on a child after TIMEOUT_DEVICE.
  function AnswerTime(t: Asked): nat {
    t.delay + Waits(t.children)
  }

  function Waits(children: seq<Asked>): nat {
    if children == [] then 0 else
      var first := AnswerTime(children[0]);
      (if first < TIMEOUT_DEVICE then first else TIMEOUT_DEVICE) + Waits(children[1..])
  }

  ghost predicate InRange(t: Asked) {
    MIN_RANDOM_DELAY_S <= t.delay <= MAX_RANDOM_DELAY_S && forall c :: c in t.children ==> InRange(c)
  }

  // The same tree with every device taking as long as it may.
  function Slowest(t: Asked): Asked {
    Asked(MAX_RANDOM_DELAY_S, SlowestOf(t.children))
  }

  function SlowestOf(children: seq<Asked>): (r: seq<Asked>)
    ensures |r| == |children|
  {
    if children == [] then [] else [Slowest(children[0])] + SlowestOf(children[1..])
  }

  lemma {:induction false} SlowestInRange(t: Asked)
    ensures InRange(Slowest(t))
  {
    SlowestOfInRange(t.children);
  }

  lemma {:induction false} SlowestOfInRange(children: seq<Asked>)
    ensures forall c :: c in SlowestOf(children) ==> InRange(c)
  {
    if children != [] {
      SlowestInRange(children[0]);
      SlowestOfInRange(children[1..]);
    }
  }

  lemma {:induction false} NoneSlower(t: Asked)
    requires InRange(t)
    ensures AnswerTime(t) <= AnswerTime(Slowest(t))
  {
    NoWaitLonger(t.children);
  }

  lemma {:induction false} NoWaitLonger(children: seq<Asked>)
    requires forall c :: c in children ==> InRange(c)
    ensures Waits(children) <= Waits(SlowestOf(children))
  {
    if children != [] {
      var slow := SlowestOf(children);
      NoneSlower(children[0]);
      NoWaitLonger(children[1..]);
      assert slow[1..] == SlowestOf(children[1..]);
    }
  }

  // None of the children has to wait for others.
  ghost predicate Flat(children: seq<Asked>) {
    forall c :: c in children ==> c.children == []
  }

  lemma {:induction false} SlowWaits(children: seq<Asked>)
    ensures Flat(children) ==> Waits(SlowestOf(children)) == MAX_RANDOM_DELAY_S * |children|
    ensures !Flat(children) ==> Waits(SlowestOf(children)) >= MAX_RANDOM_DELAY_S * (|children| + 1)
  {
    if children != [] {
      var slow, first := SlowestOf(children), children[0];
      SlowWaits(children[1..]);
      assert slow[1..] == SlowestOf(children[1..]) && slow[0] == Slowest(first);
      assert Flat(children) <==> first.children == [] && Flat(children[1..]);
      if first.children == [] {
        assert AnswerTime(slow[0]) == MAX_RANDOM_DELAY_S;
      } else {
        AtLeast(first.children);
      }
    }
  }

  lemma AtLeast(children: seq<Asked>)
    requires children != []
    ensures Waits(SlowestOf(children)) >= MAX_RANDOM_DELAY_S
  {
    assert SlowestOf(children)[0] == Slowest(children[0]);
  }

  // With every message delivered and every device within its time, a hub answers before the
  // controller's deadline whatever the delays exactly if none of its children has to wait for others.
  lemma HubInTime(t: Asked)
    ensures Flat(t.children) <==>
      forall u :: Slowest(u) == Slowest(t) && InRange(u) ==> AnswerTime(u) < RequestTimeout(Hub, |t.children|)
  {
    SlowWaits(t.children);
    forall u | Slowest(u) == Slowest(t) && InRange(u)
      ensures AnswerTime(u) <= MAX_RANDOM_DELAY_S + Waits(SlowestOf(t.children))
    {
      NoneSlower(u);
    }
    if !Flat(t.children) {
      SlowestInRange(t);
      SlowestAgain(t);
      assert AnswerTime(Slowest(t)) >= RequestTimeout(Hub, |t.children|);
    }
  }

  lemma {:induction false} SlowestAgain(t: Asked)
    ensures Slowest(Slowest(t)) == Slowest(t)
  {
    SlowestOfAgain(t.children);
  }

  lemma {:induction false} SlowestOfAgain(children: seq<Asked>)
    ensures SlowestOf(SlowestOf(children)) == SlowestOf(children)
  {
    if children != [] {
      SlowestAgain(children[0]);
      SlowestOfAgain(children[1..]);
      assert SlowestOf(children)[1..] == SlowestOf(children[1..]);
    }
  }

  // A device that waits for no others is always in time, for the controller and for a hub.
  lemma LeafInTime(t: Asked, kind: DeviceType, childCount: nat)
    requires InRange(t) && t.children == []
    ensures AnswerTime(t) < RequestTimeout(kind, childCount) && AnswerTime(t) < TIMEOUT_DEVICE
  {
  }

  // A hub waits long enough for a child hub exactly if that has at most one child, without others
  // below.
  lemma ChildInTime(t: Asked)
    ensures |t.children| <= 1 && Flat(t.children) <==>
      forall u :: Slowest(u) == Slowest(t) && InRange(u) ==> AnswerTime(u) < TIMEOUT_DEVICE
  {
    SlowWaits(t.children);
    forall u | Slowest(u) == Slowest(t) && InRange(u)
      ensures AnswerTime(u) <= MAX_RANDOM_DELAY_S + Waits(SlowestOf(t.children))
    {
      NoneSlower(u);
    }
    if !(|t.children| <= 1 && Flat(t.children)) {
      SlowestInRange(t);
      SlowestAgain(t);
      assert AnswerTime(Slowest(t)) >= TIMEOUT_DEVICE;
    }
  }
}
