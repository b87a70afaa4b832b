/** The controller's outstanding requests: 64 slots, each with the descriptor its reply will
    arrive on and a deadline. */
module Pending {
  import opened Domotics

  const MAX_PENDING := 64

  datatype RequestKind = NoRequest | InfoRequest | SwitchRequest

  datatype Slot = Slot(inUse: bool, requestId: int, kind: RequestKind, target: int, deadline: int, replyFd: int)

  const CLEAR := Slot(false, 0, NoRequest, 0, 0, -1)

  // What happens on the way to sending a request: the first step that fails, or a descriptor
  // and the result of the send.
  datatype Attempt = NoPath(rc: Code) | NoFifo | NoDescriptor | Opened(fd: int, rc: Code)

  // A request typed at the shell, and what happens on the way to sending it.
  datatype Request = Request(kind: RequestKind, target: int, targetKind: DeviceType, childCount: nat, problem: Attempt)

  // One round of the event loop: the clock at its three looks, what was typed, what could be read.
  datatype Turn = Turn(before: int, now: int, typed: Option<Request>, received: map<int, Code>, after: int)

  function RequestTimeout(kind: DeviceType, childCount: nat): nat {
    if kind.Hub? || kind.Timer? || kind.Controller?
    then MIN_RANDOM_DELAY_S + MAX_RANDOM_DELAY_S * (childCount + 1) else TIMEOUT_DEVICE
  }

  ghost function Count(slots: seq<Slot>): (n: nat)
    ensures n <= |slots|
  {
    if slots == [] then 0 else
      Count(slots[..|slots| - 1]) + (if slots[|slots| - 1].inUse then 1 else 0)
  }

  lemma {:induction false} CountUpdate(slots: seq<Slot>, i: nat, s: Slot)
    requires i < |slots|
    ensures Count(slots[i := s]) == Count(slots) - (if slots[i].inUse then 1 else 0) + (if s.inUse then 1 else 0)
  {
    var n := |slots| - 1;
    if i < n {
      CountUpdate(slots[..n], i, s);
      assert slots[i := s][..n] == slots[..n][i := s];
    } else {
      assert slots[i := s][..n] == slots[..n];
    }
  }

  lemma {:induction false} CountClear(slots: seq<Slot>)
    requires forall i :: 0 <= i < |slots| ==> !slots[i].inUse
    ensures Count(slots) == 0
  {
    if slots != [] {
      CountClear(slots[..|slots| - 1]);
    }
  }

  // Free slots hold no descriptor, used slots hold one each and no two the same.
  ghost predicate GoodSlots(slots: seq<Slot>, openFds: set<int>) {
    && |slots| == MAX_PENDING
    && (forall i :: 0 <= i < |slots| ==>
        if slots[i].inUse then slots[i].kind != NoRequest && slots[i].replyFd in openFds else slots[i].replyFd == -1)
    && (forall i, j :: 0 <= i < j < |slots| && slots[i].inUse && slots[j].inUse ==>
        slots[i].replyFd != slots[j].replyFd)
    && (forall fd :: fd in openFds ==> fd >= 0 && HasFd(slots, fd))
  }

  ghost predicate HasFd(slots: seq<Slot>, fd: int) {
    exists i :: 0 <= i < |slots| && slots[i].inUse && slots[i].replyFd == fd
  }

  lemma ClearOne(slots: seq<Slot>, openFds: set<int>, i: nat)
    requires GoodSlots(slots, openFds) && i < |slots| && slots[i].inUse
    ensures GoodSlots(slots[i := CLEAR], openFds - {slots[i].replyFd})
  {
    var slots' := slots[i := CLEAR];
    forall fd | fd in openFds && fd != slots[i].replyFd ensures HasFd(slots', fd) {
      var j :| 0 <= j < |slots| && slots[j].inUse && slots[j].replyFd == fd;
      assert slots'[j] == slots[j];
    }
  }

  lemma FillOne(slots: seq<Slot>, openFds: set<int>, i: nat, s: Slot)
    requires GoodSlots(slots, openFds) && i < |slots| && !slots[i].inUse
    requires s.inUse && s.kind != NoRequest && s.replyFd >= 0 && s.replyFd !in openFds
    ensures GoodSlots(slots[i := s], openFds + {s.replyFd})
  {
    var slots' := slots[i := s];
    assert slots'[i].inUse;
    forall fd | fd in openFds ensures HasFd(slots', fd) {
      var j :| 0 <= j < |slots| && slots[j].inUse && slots[j].replyFd == fd;
      assert slots'[j] == slots[j];
    }
  }

  // A free slot was filled and nothing else changed.
  ghost predicate Filled(slots: seq<Slot>, slots': seq<Slot>, i: int, s: Slot) {
    0 <= i < |slots| && !slots[i].inUse && s.inUse && slots' == slots[i := s]
  }

  // What one look at the ready descriptors does to a slot.
  function AfterReply(s: Slot, received: map<int, Code>): Slot {
    if s.inUse && s.replyFd in received && received[s.replyFd] != ERR_TIMEOUT then CLEAR else s
  }

  // The code of the read, if the slot's descriptor was ready.
  function Answer(s: Slot, received: map<int, Code>): Option<Code> {
    if s.inUse && s.replyFd in received then Some(received[s.replyFd]) else None
  }

  function AfterExpiry(s: Slot, now: int): Slot {
    if s.inUse && s.deadline <= now then CLEAR else s
  }

  // What a round without a new request makes of a slot.
  function AfterRound(s: Slot, before: int, now: int, received: map<int, Code>, after: int): Slot {
    AfterExpiry(AfterReply(AfterExpiry(AfterExpiry(s, before), now), received), after)
  }

  // A request stays outstanding exactly if its deadline is past at none of the three looks and no reply
  // could be read; an empty read is none.
  lemma RoundLaw(s: Slot, before: int, now: int, received: map<int, Code>, after: int)
    ensures var s' := AfterRound(s, before, now, received, after);
      if !s.inUse then s' == s
      else if s.deadline > before && s.deadline > now && s.deadline > after &&
              (s.replyFd !in received || received[s.replyFd] == ERR_TIMEOUT) then s' == s
      else s' == CLEAR
  {
  }

  // In use when the replies are looked at.
  predicate Waiting(s: Slot, before: int, now: int) {
    s.inUse && s.deadline > before && s.deadline > now
  }

  class PendingTable {
    const slots: array<Slot>
    var nextRequestId: int
    ghost var openFds: set<int>
    ghost var issued: nat
    ghost var answered: nat
    ghost var failed: nat
    ghost var discarded: nat
    ghost var expired: nat

    // Every request ever issued is accounted for, and every open descriptor belongs to a slot.
    ghost predicate Valid()
      reads this, slots
    {
      && GoodSlots(slots[..], openFds)
      && issued == answered + failed + discarded + expired + Count(slots[..])
    }

    constructor ()
      ensures Valid() && fresh(slots) && openFds == {} && issued == 0
    {
      slots := new Slot[MAX_PENDING](i => CLEAR);
      nextRequestId := 1;
      openFds := {};
      issued, answered, failed, discarded, expired := 0, 0, 0, 0, 0;
      new;
      CountClear(slots[..]);
    }

    // Closes the descriptor, if there is one, and frees the slot.
    method ClearPending(i: nat)
      requires slots.Length == MAX_PENDING && i < MAX_PENDING
      modifies this`openFds, slots
      ensures slots[..] == old(slots[..])[i := CLEAR]
      ensures openFds == if old(slots[i]).replyFd >= 0 then old(openFds) - {old(slots[i]).replyFd} else old(openFds)
    {
      if slots[i].replyFd >= 0 {
        openFds := openFds - {slots[i].replyFd};
      }
      slots[i] := CLEAR;
    }

    // The same for a slot in use: its descriptor is closed and it counts no longer.
    method ReleasePending(i: nat)
      requires GoodSlots(slots[..], openFds) && i < MAX_PENDING && slots[i].inUse
      modifies this`openFds, slots
      ensures GoodSlots(slots[..], openFds) && Count(slots[..]) == Count(old(slots[..])) - 1
      ensures slots[..] == old(slots[..])[i := CLEAR] && openFds == old(openFds) - {old(slots[i]).replyFd}
    {
      ClearOne(slots[..], openFds, i);
      CountUpdate(slots[..], i, CLEAR);
      ClearPending(i);
    }

    method AllocPending() returns (index: int)
      requires slots.Length == MAX_PENDING
      modifies slots
      ensures index == -1 ==> slots[..] == old(slots[..]) && forall i :: 0 <= i < MAX_PENDING ==> slots[i].inUse
      ensures index != -1 ==> 0 <= index < MAX_PENDING && !old(slots[index]).inUse
      ensures index != -1 ==> slots[..] == old(slots[..])[index := CLEAR.(inUse := true)]
    {
      for i := 0 to MAX_PENDING
        invariant slots[..] == old(slots[..])
        invariant forall j :: 0 <= j < i ==> slots[j].inUse
      {
        if !slots[i].inUse {
          slots[i] := CLEAR.(inUse := true);
          return i;
        }
      }
      return -1;
    }

    // Gives back the slot of a request that could not be sent.
    method FailRequest(pend: nat, ghost before: seq<Slot>, ghost fds: set<int>)
      requires slots.Length == MAX_PENDING && pend < MAX_PENDING
      requires GoodSlots(before, fds) && !before[pend].inUse && slots[..] == before[pend := slots[pend]]
      requires slots[pend].replyFd !in fds
      requires openFds == if slots[pend].replyFd >= 0 then fds + {slots[pend].replyFd} else fds
      modifies this`openFds, this`failed, slots
      ensures GoodSlots(slots[..], openFds) && openFds == fds && failed == old(failed) + 1
      ensures slots[..] == before[pend := CLEAR] && Count(slots[..]) == Count(before)
    {
      ClearPending(pend);
      failed := failed + 1;
      FreeAgain(before, fds, pend);
      CountUpdate(before, pend, CLEAR);
    }

    // A request that fails on the way out leaves no slot and no descriptor behind.
    method Issue(kind: RequestKind, target: int, targetKind: DeviceType, childCount: nat, now: int, io: Attempt)
      returns (rc: Code)
      requires Valid() && kind != NoRequest
      requires io.NoPath? ==> io.rc != OK
      requires io.Opened? ==> io.fd >= 0 && io.fd !in openFds
      modifies this, slots
      ensures Valid() && old(issued) <= issued <= old(issued) + 1
      ensures rc == OK ==> io.Opened? && openFds == old(openFds) + {io.fd}
      ensures rc == OK ==> issued == old(issued) + 1 && failed == old(failed)
      ensures rc == OK ==> exists i, s: Slot :: Filled(old(slots[..]), slots[..], i, s) &&
                                                s.replyFd == io.fd && s.kind == kind && s.target == target &&
                                                s.deadline == now + RequestTimeout(targetKind, childCount)
      ensures rc != OK ==> openFds == old(openFds) && Count(slots[..]) == Count(old(slots[..]))
      ensures forall i :: 0 <= i < MAX_PENDING && old(slots[i]).inUse ==> slots[i] == old(slots[i])
      ensures (forall i :: 0 <= i < MAX_PENDING ==> old(slots[i]).inUse) ==>
        rc == ERR_NOT_ALLOWED && issued == old(issued)
    {
      var pend := AllocPending();
      if pend == -1 {
        return ERR_NOT_ALLOWED;
      }
      ghost var before, fds := old(slots[..]), openFds;
      issued := issued + 1;
      slots[pend] := slots[pend].(requestId := nextRequestId);
      nextRequestId := nextRequestId + 1;
      assert -1 !in fds;
      if io.NoPath? {
        FailRequest(pend, before, fds);
        return io.rc;
      }
      if io.NoFifo? || io.NoDescriptor? {
        FailRequest(pend, before, fds);
        return ERR_SYSTEM;
      }
      openFds := openFds + {io.fd};
      slots[pend] := slots[pend].(replyFd := io.fd, kind := kind, target := target,
                                  deadline := now + RequestTimeout(targetKind, childCount));
      assert slots[..] == before[pend := slots[pend]];
      if io.rc != OK {
        FailRequest(pend, before, fds);
        return io.rc;
      }
      FillOne(before, fds, pend, slots[pend]);
      CountUpdate(before, pend, slots[pend]);
      assert Filled(before, slots[..], pend, slots[pend]);
      return OK;
    }

    // One reply that can be read: answered, still empty, or broken.
    method Complete(fd: int, received: Code) returns (rc: Code, ghost i: nat)
      requires Valid()
      modifies this`openFds, this`answered, slots
      ensures Valid()
      ensures fd in old(openFds) ==>
        rc == received && i < MAX_PENDING && old(slots[i]).inUse && old(slots[i]).replyFd == fd
      ensures fd in old(openFds) && received == OK ==>
        slots[..] == old(slots[..])[i := CLEAR] && openFds == old(openFds) - {fd} && answered == old(answered) + 1
      ensures fd !in old(openFds) ==> rc == if fd < 0 then ERR_INVALID_PARAMETERS else ERR_DEVICE_NOT_FOUND
      ensures rc != OK ==> slots[..] == old(slots[..]) && openFds == old(openFds) && answered == old(answered)
    {
      i := 0;
      if fd < 0 {
        return ERR_INVALID_PARAMETERS, i;
      }
      for k := 0 to MAX_PENDING
        invariant slots[..] == old(slots[..])
        invariant forall j :: 0 <= j < k ==> !(slots[j].inUse && slots[j].replyFd == fd)
      {
        if slots[k].inUse && slots[k].replyFd == fd {
          i := k;
          if received != OK {
            return received, i;
          }
          ReleasePending(k);
          answered := answered + 1;
          return OK, i;
        }
      }
      return ERR_DEVICE_NOT_FOUND, i;
    }

    // One look at a slot: if its descriptor is ready it is read once.  An answered or broken request
    // frees the slot, an empty read leaves it for later.
    method HandleReply(k: nat, received: map<int, Code>)
      requires Valid() && k < MAX_PENDING
      modifies this`openFds, this`answered, this`discarded, slots
      ensures Valid() && issued == old(issued)
      ensures slots[..] == old(slots[..])[k := AfterReply(old(slots[k]), received)]
      ensures answered == old(answered) + if Answer(old(slots[k]), received) == Some(OK) then 1 else 0
      ensures discarded == old(discarded) +
        if Answer(old(slots[k]), received) in {None, Some(OK), Some(ERR_TIMEOUT)} then 0 else 1
    {
      if slots[k].inUse && slots[k].replyFd >= 0 && slots[k].replyFd in received {
        var fd := slots[k].replyFd;
        var rc, i := Complete(fd, received[fd]);
        assert i == k;
        if rc != ERR_TIMEOUT && rc != OK {
          ReleasePending(k);
          discarded := discarded + 1;
        }
      }
    }

    // Every slot is looked at once, and no other slot is touched on the way.
    method HandleReplies(received: map<int, Code>)
      requires Valid()
      modifies this`openFds, this`answered, this`discarded, slots
      ensures Valid() && issued == old(issued)
      ensures slots[..] == seq(MAX_PENDING, i requires 0 <= i < MAX_PENDING => AfterReply(old(slots[..])[i], received))
    {
      ghost var before := slots[..];
      for k := 0 to MAX_PENDING
        invariant Valid()
        invariant forall j :: 0 <= j < k ==> slots[j] == AfterReply(before[j], received)
        invariant forall j :: k <= j < MAX_PENDING ==> slots[j] == before[j]
      {
        HandleReply(k, received);
      }
    }

    // After each pass every outstanding deadline is in the future.
    method ExpirePending(now: int)
      requires Valid()
      modifies this`openFds, this`expired, slots
      ensures Valid() && issued == old(issued)
      ensures forall i :: 0 <= i < MAX_PENDING && slots[i].inUse ==> slots[i].deadline > now
      ensures slots[..] == seq(MAX_PENDING, i requires 0 <= i < MAX_PENDING => AfterExpiry(old(slots[..])[i], now))
    {
      ghost var before := slots[..];
      for k := 0 to MAX_PENDING
        invariant Valid()
        invariant forall j :: 0 <= j < k ==> slots[j] == AfterExpiry(before[j], now)
        invariant forall j :: k <= j < MAX_PENDING ==> slots[j] == before[j]
      {
        if slots[k].inUse {
          if slots[k].deadline <= now {
            ReleasePending(k);
            expired := expired + 1;
          }
        }
      }
    }

    // One round of the event loop: expire, wait, expire again, carry out what was typed, read what
    // is ready, and expire once more.
    method Round(before: int, now: int, typed: Option<Request>, received: map<int, Code>, after: int)
      requires Valid()
      modifies this, slots
      ensures Valid() && old(issued) <= issued <= old(issued) + 1 && (typed == None ==> issued == old(issued))
      ensures forall i :: 0 <= i < MAX_PENDING && slots[i].inUse ==> slots[i].deadline > after
      ensures forall i :: 0 <= i < MAX_PENDING && (typed == None || Waiting(old(slots[i]), before, now)) ==>
        slots[i] == AfterRound(old(slots[i]), before, now, received, after)
    {
      ExpirePending(before);
      ExpirePending(now);
      if typed.Some? {
        Type(typed.value, now);
      }
      HandleReplies(received);
      ExpirePending(after);
    }

    // INFO or SWITCH typed at the shell.
    method Type(r: Request, now: int)
      requires Valid()
      modifies this, slots
      ensures Valid() && old(issued) <= issued <= old(issued) + 1
      ensures forall i :: 0 <= i < MAX_PENDING && old(slots[i]).inUse ==> slots[i] == old(slots[i])
    {
      var fd := FreshDescriptor();
      var io := if r.problem.Opened? then Opened(fd, r.problem.rc) else r.problem;
      if r.kind != NoRequest && (io.NoPath? ==> io.rc != OK) {
        var _ := Issue(r.kind, r.target, r.targetKind, r.childCount, now, io);
      }
    }

    // What open() returns: any descriptor that no slot has open.
    method FreshDescriptor() returns (fd: int)
      requires Valid()
      ensures fd >= 0 && fd !in openFds
    {
      fd := *;
      var taken, top := fd < 0, 0;
      for i := 0 to MAX_PENDING
        invariant taken || (fd >= 0 && forall j :: 0 <= j < i ==> slots[j].replyFd != fd)
        invariant top >= 0 && forall j :: 0 <= j < i ==> slots[j].replyFd < top
      {
        taken := taken || slots[i].replyFd == fd;
        top := if slots[i].replyFd >= top then slots[i].replyFd + 1 else top;
      }
      fd := if taken then top else fd;
      assert forall j :: 0 <= j < MAX_PENDING ==> slots[j].replyFd != fd;
    }

    // Over any sequence of rounds, with any failures on the way out, no slot and no descriptor is
    // lost, and every request ever issued is answered, failed, discarded, expired or outstanding.
    method Run(rounds: seq<Turn>)
      requires Valid()
      modifies this, slots
      ensures Valid() && old(issued) <= issued <= old(issued) + |rounds|
    {
      for k := 0 to |rounds|
        invariant Valid() && old(issued) <= issued <= old(issued) + k
      {
        Round(rounds[k].before, rounds[k].now, rounds[k].typed, rounds[k].received, rounds[k].after);
      }
    }
  }

  lemma FreeAgain(slots: seq<Slot>, openFds: set<int>, i: nat)
    requires GoodSlots(slots, openFds) && i < |slots| && !slots[i].inUse
    ensures GoodSlots(slots[i := CLEAR], openFds)
  {
    var slots' := slots[i := CLEAR];
    forall fd | fd in openFds ensures HasFd(slots', fd) {
      var j :| 0 <= j < |slots| && slots[j].inUse && slots[j].replyFd == fd;
      assert slots'[j] == slots[j];
    }
  }
}
