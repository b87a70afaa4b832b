/** Switching and querying a tree of hubs, bulbs, windows and fridges (hub.c).  A hub passes a
    SWITCH on to its children one after another, and answers INFO by asking them until two disagree.
    Which messages arrive and which replies come back in time is arbitrary: `reach` holds the
    devices a message gets to, `answers` those whose reply is received. */
module HubTree {
  import opened Domotics
  import opened InfoText
  import opened LeafCommands

  // The state a device takes when everything is switched to `s`, which is On or Off.
  function Matching(kind: DeviceType, s: DeviceState): DeviceState {
    if kind.Window? then (if s == On then Open else Closed) else s
  }

  // A window accepts "open off" and does nothing.
  predicate IsIgnored(name: SwitchName, position: Position) {
    name == OpenSwitch && position == ToOff
  }

  lemma MatchingReads(kind: DeviceType, s: DeviceState)
    requires s == On || s == Off
    ensures Reading(kind, Matching(kind, s)) == Some(s)
  {
  }

  datatype Setting = Setting(state: DeviceState, override: bool)

  class Device {
    const id: int
    const parent: int
    const kind: DeviceType
    const children: seq<Device>
    ghost const height: nat
    ghost const repr: set<Device>
    var state: DeviceState
    var manualOverride: bool

    // This device stands above its children, which have nothing in common.  The list may name a
    // child more than once.
    ghost predicate Joined() {
      && this in repr
      && (kind.Hub? || kind.Bulb? || kind.Window? || kind.Fridge?)
      && (children != [] ==> kind.Hub?)
      && (forall c :: c in children ==> c in c.repr && c.height < height && c.repr <= repr && this !in c.repr)
      && (forall b, c {:trigger Apart(b, c)} :: b in children && c in children ==> Apart(b, c))
      && (forall d {:trigger IsUnder(children, d)} :: d in repr && d != this ==> IsUnder(children, d))
    }

    // The devices below this one form a finite tree.
    ghost predicate Tree()
      decreases height
    {
      Joined() && forall c :: c in children ==> c.Tree()
    }

    lemma LeafIsAlone()
      requires Joined() && children == []
      ensures repr == {this}
    {
      forall d | d in repr
        ensures d == this
      {
        assert d != this ==> IsUnder(children, d);
      }
    }

    constructor (id: int, parent: int, kind: DeviceType, children: seq<Device>)
      requires kind.Hub? || kind.Bulb? || kind.Window? || kind.Fridge?
      requires children != [] ==> kind.Hub?
      requires forall c :: c in children ==> c.Tree()
      requires forall b, c {:trigger Apart(b, c)} :: b in children && c in children ==> Apart(b, c)
      ensures Tree() && this.kind == kind && this.children == children
      ensures repr == {this} + Under(children)
      ensures state == Matching(kind, Off) && !manualOverride
    {
      this.id, this.parent, this.kind, this.children := id, parent, kind, children;
      height := Above(children);
      repr := {this} + Under(children);
      state := Matching(kind, Off);
      manualOverride := false;
    }

    // ---------------------------------------------------------------- switching

    // The devices a SWITCH given to this one gets to.
    ghost function Reached(reach: set<Device>): set<Device>
      decreases height
    {
      {this} + set c, d | c in children && c.height < height && c in reach && d in c.Reached(reach) :: d
    }

    lemma {:induction false} ReachedBelow(reach: set<Device>)
      requires Tree()
      ensures Reached(reach) <= repr && (repr <= reach ==> Reached(reach) == repr)
      decreases height
    {
      forall c | c in children
        ensures c.Reached(reach) <= c.repr && (repr <= reach ==> c.Reached(reach) == c.repr && c in reach)
      {
        c.ReachedBelow(reach);
      }
      if repr <= reach {
        forall d | d in repr && d != this
          ensures d in Reached(reach)
        {
          assert IsUnder(children, d);
          var c :| c in children && d in c.repr;
        }
      }
    }

    // Exactly: this device; of the children of each device reached those the message gets to; nobody
    // else.
    lemma {:induction false} ReachedExactly(reach: set<Device>)
      requires Tree()
      ensures this in Reached(reach)
      ensures forall b, c :: b in Reached(reach) && c in b.children ==> (c in Reached(reach) <==> c in reach)
      ensures forall d :: d in Reached(reach) && d != this ==> exists b :: b in Reached(reach) && d in b.children
      decreases height
    {
      forall c | c in children
        ensures c.Reached(reach) <= c.repr
      {
        c.ReachedBelow(reach);
      }
      forall b, c | b in Reached(reach) && c in b.children
        ensures c in Reached(reach) <==> c in reach
      {
        if b == this {
          BranchReached(c, reach, c);
          c.SelfReached(reach);
        } else {
          var top :| top in children && top in reach && b in top.Reached(reach);
          top.ReachedExactly(reach);
          top.TreeBelow(b);
          BranchReached(top, reach, c);
        }
      }
      forall d | d in Reached(reach) && d != this
        ensures exists b :: b in Reached(reach) && d in b.children
      {
        var top :| top in children && top in reach && d in top.Reached(reach);
        if d != top {
          top.ReachedExactly(reach);
          var b :| b in top.Reached(reach) && d in b.children;
          assert b in Reached(reach);
        } else {
          assert this in Reached(reach);
        }
      }
    }

    lemma SelfReached(reach: set<Device>)
      ensures this in Reached(reach)
    {
    }

    lemma BranchReached(c: Device, reach: set<Device>, d: Device)
      requires Joined() && c in children && d in c.repr && d != this
      requires forall b :: b in children ==> b.Reached(reach) <= b.repr
      ensures d in Reached(reach) <==> d in c.Hits(reach)
    {
      if d in Reached(reach) {
        var b :| b in children && b in reach && d in b.Reached(reach);
        assert Apart(b, c);
      }
    }

    // The devices a SWITCH sent to this one gets to.
    ghost function Hits(reach: set<Device>): set<Device> {
      if this in reach then Reached(reach) else {}
    }

    // What a SWITCH to `s` makes of a device that is hit by it, or is not.
    ghost function After(was: Setting, hit: bool, s: DeviceState): Setting {
      if hit then Setting(Matching(kind, s), if kind.Hub? || kind.Bulb? then false else was.override) else was
    }

    ghost function Now(): Setting
      reads this
    {
      Setting(state, manualOverride)
    }

    ghost function Settings(): (m: map<Device, Setting>)
      reads repr
      ensures m.Keys == repr
    {
      map d | d in repr :: d.Now()
    }

    // The devices that a SWITCH to `s` got to have followed it, the others are as they were.
    ghost predicate Switched(before: map<Device, Setting>, hits: set<Device>, s: DeviceState)
      reads repr
    {
      forall d :: d in repr ==> d in before && d.Now() == d.After(before[d], d in hits, s)
    }

    // Once every child is done the whole tree is.
    lemma ChildrenSwitched(before: map<Device, Setting>, reach: set<Device>, s: DeviceState)
      requires Tree()
      requires forall c :: c in children ==> c.Switched(before, c.Hits(reach), s)
      ensures forall d :: d in repr && d != this ==>
        d in before && d.Now() == d.After(before[d], d in Reached(reach), s)
    {
      forall c | c in children
        ensures c.Reached(reach) <= c.repr
      {
        c.ReachedBelow(reach);
      }
      forall d | d in repr && d != this
        ensures d in before && d.Now() == d.After(before[d], d in Reached(reach), s)
      {
        DeviceSwitched(before, reach, s, d);
      }
    }

    lemma DeviceSwitched(before: map<Device, Setting>, reach: set<Device>, s: DeviceState, d: Device)
      requires Joined() && d in repr && d != this
      requires forall c :: c in children ==> c.Reached(reach) <= c.repr && c.Switched(before, c.Hits(reach), s)
      ensures d in before && d.Now() == d.After(before[d], d in Reached(reach), s)
    {
      assert IsUnder(children, d);
      var c :| c in children && d in c.repr;
      BranchReached(c, reach, d);
    }

    // SWITCH from a hub or the controller.  Whatever gets lost, a hub that accepts the command
    // answers OK, and exactly the devices reached take the state.
    method Switch(name: SwitchName, position: Position, reach: set<Device>, answers: set<Device>) returns (status: Code)
      requires Tree() && answers <= reach
      requires name == SysState || kind.Hub?
      modifies repr
      ensures status == (if (name == PowerSwitch || name == SysState) && (position == ToOn || position == ToOff)
                         then OK else ERR_INVALID_PARAMETERS)
      ensures status != OK ==> Settings() == old(Settings())
      ensures status == OK ==> Switched(old(Settings()), Reached(reach), if position == ToOn then On else Off)
      ensures status == OK ==>
        forall d :: d in repr && d in Reached(reach) && (d.kind.Hub? || d.kind.Bulb?) ==> !d.manualOverride
      decreases height, 1
    {
      if name != PowerSwitch && name != SysState {
        return ERR_INVALID_PARAMETERS;
      }
      if position != ToOn && position != ToOff {
        return ERR_INVALID_PARAMETERS;
      }
      if kind.Hub? {
        state := if position == ToOn then On else Off;
        manualOverride := false;
        status := PropagateToChildren(position, reach, answers);
      } else {
        SysStateIsUniversal(kind, position, IsOn());
        status := LeafSwitch(name, position, false);
      }
    }

    predicate IsOn()
      reads this
    {
      state == if kind.Window? then Open else On
    }

    // Any SWITCH to a leaf, from a hub or from outside: exactly the command the leaf's own process
    // carries out, without the time it keeps.
    method LeafSwitch(name: SwitchName, position: Position, external: bool) returns (status: Code)
      requires IsLeaf(kind)
      modifies this
      ensures status == if Accepts(kind, name, position) then OK else ERR_INVALID_PARAMETERS
      ensures status == OK ==> IsOn() == OnAfter(kind, name, position, old(IsOn()))
      ensures var moves := !(kind.Fridge? && name == Temperature) && !(kind.Window? && IsIgnored(name, position));
        var on := OnAfter(kind, name, position, old(IsOn()));
        state == if status == OK && moves then Matching(kind, if on then On else Off) else old(state)
      ensures manualOverride == if status == OK && kind.Bulb? then external else old(manualOverride)
    {
      if !Accepts(kind, name, position) {
        return ERR_INVALID_PARAMETERS;
      }
      status := OK;
      var on := OnAfter(kind, name, position, IsOn());
      if kind.Bulb? {
        state := if on then On else Off;
        manualOverride := external;
      } else if kind.Window? {
        if !IsIgnored(name, position) {
          state := if on then Open else Closed;
        }
      } else if name != Temperature {
        state := if on then On else Off;
      }
    }

    // Sends a SWITCH to one child: whether a reply came, and the status in it.
    method SwitchChild(c: Device, position: Position, reach: set<Device>, answers: set<Device>,
                       ghost before: map<Device, Setting>)
      returns (rc: Code, status: Code)
      requires c.Tree() && answers <= reach && (position == ToOn || position == ToOff)
      requires var s := if position == ToOn then On else Off;
        c.Switched(before, {}, s) || c.Switched(before, c.Hits(reach), s)
      modifies c.repr
      ensures rc == (if c in answers then OK else ERR_TIMEOUT) && (rc == OK ==> status == OK)
      ensures c.Switched(before, c.Hits(reach), if position == ToOn then On else Off)
      decreases c.height, 2
    {
      rc, status := ERR_TIMEOUT, OK;
      if c in reach {
        ghost var now, wanted := c.Settings(), if position == ToOn then On else Off;
        status := c.Switch(SysState, position, reach, answers);
        forall d | d in c.repr
          ensures d.After(now[d], d in c.Hits(reach), wanted) == d.After(before[d], d in c.Hits(reach), wanted)
        {
        }
        if c in answers {
          rc := OK;
        }
      }
    }

    // The hub itself is already switched; its children follow.
    method PropagateToChildren(position: Position, reach: set<Device>, answers: set<Device>) returns (status: Code)
      requires Tree() && answers <= reach && kind.Hub?
      requires position == ToOn || position == ToOff
      modifies repr
      ensures status == OK
      ensures Switched(old(Settings()), Reached(reach), if position == ToOn then On else Off)
      decreases height, 0
    {
      var expected := if position == ToOn then On else Off;
      ghost var before := Settings();
      var i := 0;
      while i < |children|
        invariant 0 <= i <= |children|
        invariant forall c :: c in children ==>
          c.Switched(before, if c in children[..i] then c.Hits(reach) else {}, expected)
      {
        assert forall c :: c in children ==> Apart(c, children[i]);
        assert children[..i + 1] == children[..i] + [children[i]];
        var rc, reply := SwitchChild(children[i], position, reach, answers, before);
        if rc == OK && reply != OK {
          return reply;
        }
        i := i + 1;
      }
      ChildrenSwitched(before, reach, expected);
      manualOverride := false;
      state := expected;
      return OK;
    }

    // ---------------------------------------------------------------- querying

    // Every device below answers, and every leaf, a hub without children included, is in state `s`.
    ghost predicate Unanimous(answers: set<Device>, s: DeviceState)
      reads repr`state
    {
      && repr - {this} <= answers
      && forall d :: d in repr && d.children == [] ==> Reading(d.kind, d.state) == Some(s)
    }

    lemma LeafUnanimous(answers: set<Device>, s: DeviceState)
      requires Tree() && children == []
      ensures Unanimous(answers, s) <==> Reading(kind, state) == Some(s)
    {
      LeafIsAlone();
    }

    // There is a leaf, so a tree is unanimous about one state only.
    lemma {:induction false} OneState(answers: set<Device>, s: DeviceState, t: DeviceState)
      requires Tree() && Unanimous(answers, s) && Unanimous(answers, t)
      ensures s == t && (s == On || s == Off)
      decreases height
    {
      if children != [] {
        var c := children[0];
        Below(c, answers, s);
        Below(c, answers, t);
        c.OneState(answers, s, t);
      } else {
        LeafUnanimous(answers, s);
        LeafUnanimous(answers, t);
      }
    }

    lemma Below(c: Device, answers: set<Device>, s: DeviceState)
      requires Tree() && c in children && Unanimous(answers, s)
      ensures c in answers && c.Unanimous(answers, s)
    {
    }

    lemma Unclear(c: Device, answers: set<Device>)
      requires Tree() && c in children
      requires c !in answers || forall s :: !c.Unanimous(answers, s)
      ensures forall s :: !Unanimous(answers, s)
    {
      forall s
        ensures !Unanimous(answers, s)
      {
        if Unanimous(answers, s) {
          Below(c, answers, s);
        }
      }
    }

    lemma Differ(b: Device, c: Device, answers: set<Device>, s: DeviceState, t: DeviceState)
      requires Tree() && b in children && c in children
      requires b.Unanimous(answers, s) && c.Unanimous(answers, t) && s != t
      ensures forall u :: !Unanimous(answers, u)
    {
      forall u
        ensures !Unanimous(answers, u)
      {
        if Unanimous(answers, u) {
          Below(b, answers, u);
          b.OneState(answers, s, u);
          Below(c, answers, u);
          c.OneState(answers, t, u);
        }
      }
    }

    // An INFO leaves the leaves alone, except that a fridge may find its door open for too long.
    ghost predicate LeavesKept(before: map<Device, Setting>, due: set<Device>)
      reads repr`state
    {
      forall d :: d in repr && d.children == [] ==>
        d in before && (d.state == before[d].state || (DoorDue(d, due) && before[d].state == On && d.state == Off))
    }

    // No door below is open that is due to close.
    ghost predicate AllClosed(due: set<Device>)
      reads repr`state
    {
      forall d :: d in repr && d.children == [] && DoorDue(d, due) ==> d.state != On
    }

    // These children have answered and are all in state `s`.
    ghost predicate Agreed(asked: seq<Device>, answers: set<Device>, due: set<Device>, s: DeviceState)
      reads repr`state
    {
      forall c :: c in asked ==> c.repr <= repr && c in answers && c.Unanimous(answers, s) && c.AllClosed(due)
    }

    lemma AllAgree(answers: set<Device>, due: set<Device>, s: DeviceState)
      requires Tree() && children != [] && Agreed(children, answers, due, s)
      ensures Unanimous(answers, s) && AllClosed(due)
    {
      forall d | d in repr && d != this
        ensures d in answers
        ensures d.children == [] ==> Reading(d.kind, d.state) == Some(s) && !(DoorDue(d, due) && d.state == On)
      {
        assert IsUnder(children, d);
        var c :| c in children && d in c.repr;
      }
    }

    lemma LeafSpeaks(answers: set<Device>)
      requires Tree() && children == []
      ensures forall s :: WordReads(StateWord(kind, state)) == Some(s) <==> Unanimous(answers, s)
    {
      forall s
        ensures WordReads(StateWord(kind, state)) == Some(s) <==> Unanimous(answers, s)
      {
        LeafUnanimous(answers, s);
      }
    }

    lemma HubSpeaks(answers: set<Device>, consistent: bool)
      requires Tree() && kind.Hub? && (children == [] ==> consistent)
      requires consistent || forall s :: !Unanimous(answers, s)
      requires children != [] && consistent ==> Unanimous(answers, state) && Reading(kind, state) == Some(state)
      ensures var word := if consistent then StateWord(kind, state) else "manual_override";
        forall s :: WordReads(word) == Some(s) <==> Unanimous(answers, s)
      ensures !consistent <==> children != [] && forall s :: !Unanimous(answers, s)
    {
      if children == [] {
        LeafSpeaks(answers);
      } else {
        forall s
          ensures Unanimous(answers, s) ==> s == state
        {
          if Unanimous(answers, s) {
            OneState(answers, s, state);
          }
        }
      }
    }

    // The reply to INFO says `s` exactly if the leaves below are unanimous; `n` are the numbers in it.
    method Info(reach: set<Device>, answers: set<Device>, due: set<Device>) returns (text: string, ghost n: seq<int>)
      requires Tree() && answers <= reach
      modifies repr
      ensures |n| == 6
      ensures text == Text(kind, id, parent,
                           if kind.Hub? && manualOverride then "manual_override" else StateWord(kind, state),
                           manualOverride, n)
      ensures ReadKind(text) == Some(kind)
      ensures ReadNumber(text, "id") == Some(id) && ReadNumber(text, "parent") == Some(parent)
      ensures kind.Bulb? ==> ReadValue(text, "manual_override") == Some(if manualOverride then "true" else "false")
      ensures forall s :: ReadState(text) == Some(s) <==> Unanimous(answers, s)
      ensures kind.Hub? ==> (manualOverride <==> children != [] && forall s :: !Unanimous(answers, s))
      ensures LeavesKept(old(Settings()), due)
      ensures forall s :: Unanimous(answers, s) ==> AllClosed(due)
      decreases height, 3
    {
      var word := Word(reach, answers, due);
      text, n := Reply(word);
    }

    // The state word of the reply.
    method Word(reach: set<Device>, answers: set<Device>, due: set<Device>) returns (word: string)
      requires Tree() && answers <= reach
      modifies repr
      ensures word == if kind.Hub? && manualOverride then "manual_override" else StateWord(kind, state)
      ensures forall s :: WordReads(word) == Some(s) <==> Unanimous(answers, s)
      ensures kind.Hub? ==> (manualOverride <==> children != [] && forall s :: !Unanimous(answers, s))
      ensures LeavesKept(old(Settings()), due)
      ensures forall s :: Unanimous(answers, s) ==> AllClosed(due)
      decreases height, 2
    {
      if kind.Hub? {
        var consistent := CheckConsistency(reach, answers, due);
        HubSpeaks(answers, consistent);
        manualOverride := !consistent;
        word := if consistent then StateWord(kind, state) else "manual_override";
      } else {
        CloseIfDue(due);
        word := StateWord(kind, state);
        LeafSpeaks(answers);
      }
    }

    // A fridge that is asked first closes a door that has been open for too long.
    method CloseIfDue(due: set<Device>)
      requires Tree() && !kind.Hub?
      modifies this`state
      ensures state == if kind.Fridge? && this in due && old(state) == On then Off else old(state)
      ensures LeavesKept(old(Settings()), due) && AllClosed(due)
    {
      if kind.Fridge? && this in due && state == On {
        state := Off;
      }
      LeafIsAlone();
    }

    // The reply with a state word in it, and whatever numbers the device has.
    method Reply(word: string) returns (text: string, ghost n: seq<int>)
      requires Tree() && word in PRINTED
      ensures ReadKind(text) == Some(kind)
      ensures ReadNumber(text, "id") == Some(id) && ReadNumber(text, "parent") == Some(parent)
      ensures kind.Bulb? ==> ReadValue(text, "manual_override") == Some(if manualOverride then "true" else "false")
      ensures ReadState(text) == WordReads(word)
      ensures |n| == 6 && text == Text(kind, id, parent, word, manualOverride, n)
    {
      var numbers: seq<int> := *;
      if |numbers| != 6 {
        numbers := [0, 0, 0, 0, 0, 0];
      }
      ReadsTheState(kind, id, parent, word, manualOverride, numbers);
      ReadsTheDevice(kind, id, parent, word, manualOverride, numbers);
      if kind.Bulb? {
        ReadsTheOverride(id, parent, word, manualOverride, numbers);
      }
      text := Text(kind, id, parent, word, manualOverride, numbers);
      n := numbers;
    }

    // Asks the children in order and stops at the first that is silent, unclear or different.
    method CheckConsistency(reach: set<Device>, answers: set<Device>, due: set<Device>) returns (consistent: bool)
      requires Tree() && answers <= reach && kind.Hub?
      modifies repr
      ensures children == [] ==> consistent && state == old(state)
      ensures consistent || forall s :: !Unanimous(answers, s)
      ensures children != [] && consistent ==> Unanimous(answers, state) && Reading(kind, state) == Some(state)
      ensures LeavesKept(old(Settings()), due)
      ensures consistent ==> AllClosed(due)
      decreases height, 1
    {
      var firstSet, firstState := false, Off;
      if |children| == 0 {
        LeafIsAlone();
        return true;
      }
      ghost var before := Settings();
      var i := 0;
      while i < |children|
        invariant 0 <= i <= |children| && firstSet == (i > 0) && (firstState == On || firstState == Off)
        invariant Agreed(children[..i], answers, due, firstState)
        invariant LeavesKept(before, due)
      {
        var c := children[i];
        var reply := AskNext(i, firstState, reach, answers, due, before);
        assert children[..i + 1] == children[..i] + [c];
        if reply == None {
          Unclear(c, answers);
          return false;
        }
        if !firstSet {
          firstState := reply.value;
          firstSet := true;
        } else if reply.value != firstState {
          assert children[0] in children[..i];
          Differ(children[0], c, answers, firstState, reply.value);
          return false;
        }
        i := i + 1;
      }
      assert children[..i] == children;
      AllAgree(answers, due, firstState);
      state := firstState;
      return true;
    }

    // Asks the next child.  What those asked before it said still holds, whether or not it is one of them.
    method AskNext(i: nat, ghost first: DeviceState, reach: set<Device>, answers: set<Device>, due: set<Device>,
                   ghost before: map<Device, Setting>)
      returns (reply: Option<DeviceState>)
      requires Tree() && i < |children| && answers <= reach
      requires LeavesKept(before, due) && Agreed(children[..i], answers, due, first)
      modifies children[i].repr
      ensures LeavesKept(before, due) && Agreed(children[..i], answers, due, first)
      ensures reply.Some? ==>
        Agreed([children[i]], answers, due, reply.value) && (reply.value == On || reply.value == Off)
      ensures reply.None? ==> children[i] !in answers || forall s :: !children[i].Unanimous(answers, s)
      decreases height, 0
    {
      var c := children[i];
      reply := AskChild(c, first, reach, answers, due, before);
      forall b | b in children[..i]
        ensures b.repr <= repr && b in answers && b.Unanimous(answers, first) && b.AllClosed(due)
      {
        assert Apart(b, c);
      }
    }

    // Asks one child for its state: none if it is silent or its reply names no state.
    method AskChild(c: Device, ghost first: DeviceState, reach: set<Device>, answers: set<Device>, due: set<Device>,
                    ghost before: map<Device, Setting>)
      returns (reply: Option<DeviceState>)
      requires c.Tree() && c.repr <= repr && answers <= reach && LeavesKept(before, due)
      modifies c.repr
      ensures LeavesKept(before, due)
      ensures reply.Some? ==> c in answers && c.Unanimous(answers, reply.value) && c.AllClosed(due)
      ensures reply.Some? ==> reply.value == On || reply.value == Off
      ensures reply.None? ==> c !in answers || forall s :: !c.Unanimous(answers, s)
      ensures old(c.AllClosed(due) && c.Unanimous(answers, first)) ==> c.AllClosed(due) && c.Unanimous(answers, first)
      decreases c.height, 4
    {
      reply := None;
      if c in reach {
        ghost var now := c.Settings();
        var text, _ := c.Info(reach, answers, due);
        if c in answers {
          reply := ReadState(text);
        }
      }
    }

    // ---------------------------------------------------------------- switching, then querying

    lemma {:induction false} TreeBelow(d: Device)
      requires Tree() && d in repr
      ensures d.Tree() && d.repr <= repr
      decreases height
    {
      if d != this {
        assert IsUnder(children, d);
        var c :| c in children && d in c.repr;
        c.TreeBelow(d);
      }
    }

    // After a switch to `wanted` that got to `hits`, every leaf below reads `s`: it was hit and
    // `s` is what was wanted, or it was missed and read `s` before.
    ghost predicate AllReadAfter(before: map<Device, Setting>, hits: set<Device>, wanted: DeviceState, s: DeviceState) {
      forall d :: d in repr && d.children == [] ==>
        if d in hits then s == wanted else d in before && Reading(d.kind, before[d].state) == Some(s)
    }

    lemma UnanimousAfter(before: map<Device, Setting>, hits: set<Device>, wanted: DeviceState, answers: set<Device>)
      requires wanted == On || wanted == Off
      requires repr <= before.Keys
      requires forall d :: d in repr && d.children == [] ==>
        d.state == if d in hits then Matching(d.kind, wanted) else before[d].state
      ensures forall s :: Unanimous(answers, s) <==> repr - {this} <= answers && AllReadAfter(before, hits, wanted, s)
    {
      forall s, d | d in repr && d.children == []
        ensures Reading(d.kind, d.state) == Some(s) <==>
          if d in hits then s == wanted else Reading(d.kind, before[d].state) == Some(s)
      {
        MatchingReads(d.kind, wanted);
      }
    }

    // With no manual command and no door closing by itself in between, an INFO at any device of
    // the tree reports `s` exactly if everything below answers and every leaf below was either
    // reached by the switch, and `s` is what it was switched to, or missed, and was `s` already.
    method SwitchThenInfo(name: SwitchName, position: Position, reach: set<Device>, answers: set<Device>,
                          queried: Device, reach': set<Device>, answers': set<Device>)
      returns (status: Code, text: string)
      requires Tree() && kind.Hub? && queried in repr && answers <= reach && answers' <= reach'
      requires (name == PowerSwitch || name == SysState) && (position == ToOn || position == ToOff)
      modifies repr
      ensures status == OK
      ensures forall s :: ReadState(text) == Some(s) <==>
        queried.repr - {queried} <= answers' &&
        queried.AllReadAfter(old(Settings()), Reached(reach), if position == ToOn then On else Off, s)
      ensures repr <= reach && repr <= answers' ==>
        ReadState(text) == Some(if position == ToOn then On else Off) && (queried.kind.Hub? ==> !queried.manualOverride)
    {
      var expected := if position == ToOn then On else Off;
      ghost var before, hits := Settings(), Reached(reach);
      status := Switch(name, position, reach, answers);
      TreeBelow(queried);
      forall d | d in queried.repr
        ensures d.state == if d in hits then Matching(d.kind, expected) else before[d].state
      {
        assert d in repr;
      }
      ghost var settled := Settings();
      ghost var n;
      text, n := queried.Info(reach', answers', {});
      forall d | d in queried.repr && d.children == []
        ensures d.state == settled[d].state
      {
        assert d in repr;
      }
      queried.UnanimousAfter(before, hits, expected, answers');
      if repr <= reach {
        ReachedBelow(reach);
      }
    }
  }

  // A fridge whose door has been open for too long.
  predicate DoorDue(d: Device, due: set<Device>) {
    d.kind.Fridge? && d in due
  }

  // The same device, or devices with nothing in common.
  ghost predicate Apart(c: Device, d: Device) {
    c == d || c.repr !! d.repr
  }

  ghost predicate IsUnder(children: seq<Device>, d: Device) {
    exists c :: c in children && d in c.repr
  }

  // Everything in the trees of the children.
  ghost function Under(children: seq<Device>): set<Device> {
    set c, d | c in children && d in c.repr :: d
  }

  // A height above those of all the children.
  ghost function Above(children: seq<Device>): (h: nat)
    ensures forall c :: c in children ==> c.height < h
  {
    if children == [] then 0
    else
      var h := Above(children[1..]);
      if children[0].height < h then h else children[0].height + 1
  }
}
