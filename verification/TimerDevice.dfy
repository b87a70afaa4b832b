/** The timer process: a schedule, an override flag and one child. */
module TimerProcess {
  import opened Domotics
  import opened TimeOfDay
  import opened Membership

  const UNSET := "00:00"

  // How the report of a child that was switched by hand begins.
  const REPORT := "manual_override,"

  // What a timer process can meet: its look at the clock, a child's STATUS, SWITCH, SET, CHILD_ADDED
  // and CHILD_REMOVED.  `sent` is what sending SWITCH to the child returns.
  datatype Act =
    | Look(hour: nat, minute: nat, sent: Code)
    | Status(payload: string)
    | Command(position: string, sent: Code)
    | SetTime(name: string, value: string)
    | Gain(child: int)
    | Lose(child: int)

  predicate Possible(a: Act) {
    match a
    case Look(hour, minute, _) => hour < 24 && minute < 60
    case Gain(c) => c >= 0
    case Lose(c) => c >= 0
    case _ => true
  }

  // The child slot after the first `n` of the acts.
  ghost function SlotAfter(p: Proc, acts: seq<Act>, n: nat): (r: Proc)
    requires p.TimerProc? && GoodProc(p) && n <= |acts|
    ensures r.TimerProc? && GoodProc(r)
  {
    if n == 0 then p else
      match acts[n - 1]
      case Gain(c) => Handle(SlotAfter(p, acts, n - 1), ChildAdded(c, 0)).0
      case Lose(c) => Handle(SlotAfter(p, acts, n - 1), ChildGone(c)).0
      case _ => SlotAfter(p, acts, n - 1)
  }

  // A SWITCH that got to the child, or that there was no child for.
  ghost predicate Forwarded(p: Proc, acts: seq<Act>, i: nat)
    requires p.TimerProc? && GoodProc(p) && i < |acts|
  {
    acts[i].Command? && (SlotAfter(p, acts, i).count == 0 || acts[i].sent == OK)
  }

  predicate Reported(acts: seq<Act>, i: nat)
    requires i < |acts|
  {
    acts[i].Status? && REPORT <= acts[i].payload
  }

  // No SWITCH was forwarded from the act `i` up to, but not including, the act `n`.
  ghost predicate NoneForwarded(p: Proc, acts: seq<Act>, i: nat, n: nat)
    requires p.TimerProc? && GoodProc(p) && n <= |acts|
  {
    forall j :: i <= j < n ==> !Forwarded(p, acts, j)
  }

  // After the first `n` acts a report has had no forwarded SWITCH after it; `before` is an earlier one.
  ghost predicate Overridden(before: bool, p: Proc, acts: seq<Act>, n: nat)
    requires p.TimerProc? && GoodProc(p) && n <= |acts|
  {
    (before && NoneForwarded(p, acts, 0, n)) ||
    exists i :: 0 <= i < n && Reported(acts, i) && NoneForwarded(p, acts, i + 1, n)
  }

  lemma OverriddenNext(before: bool, p: Proc, acts: seq<Act>, n: nat)
    requires p.TimerProc? && GoodProc(p) && n < |acts|
    ensures Overridden(before, p, acts, n + 1) <==>
      Reported(acts, n) || (!Forwarded(p, acts, n) && Overridden(before, p, acts, n))
  {
    assert NoneForwarded(p, acts, n + 1, n + 1);
    if !Forwarded(p, acts, n) && Overridden(before, p, acts, n) {
      if i :| 0 <= i < n && Reported(acts, i) && NoneForwarded(p, acts, i + 1, n) {
        assert NoneForwarded(p, acts, i + 1, n + 1);
      }
    }
    if i :| 0 <= i < n && Reported(acts, i) && NoneForwarded(p, acts, i + 1, n + 1) {
      assert NoneForwarded(p, acts, i + 1, n) && !Forwarded(p, acts, n);
    }
  }

  class TimerDevice {
    var begin: string
    var end: string
    var manualOverride: bool
    var state: DeviceState
    var child: int
    var childCount: nat

    ghost predicate Valid()
      reads this
    {
      Accepted(begin) && Accepted(end) && childCount <= 1
    }

    // The child slot as the membership protocol sees it.
    ghost function P(): (p: Proc)
      requires Valid()
      reads this
      ensures GoodProc(p)
    {
      TimerProc(child, childCount)
    }

    constructor ()
      ensures Valid() && P() == Fresh(DeviceType.Timer) && childCount == 0 && child == NO_PARENT
      ensures !manualOverride && state == Off && begin == UNSET && end == UNSET
    {
      begin, end := UNSET, UNSET;
      manualOverride := false;
      state := Off;
      child, childCount := NO_PARENT, 0;
      new;
      ClockTextAccepted(0, 0);
      assert ClockText(0, 0) == UNSET;
    }

    // The three-way test against the window.
    method ScheduledOn(hour: nat, minute: nat) returns (isOn: bool)
      requires Valid() && hour < 24 && minute < 60
      ensures isOn <==> InWindow(60 * hour + minute, MinuteOf(begin), MinuteOf(end))
    {
      var now := ClockText(hour, minute);
      ClockTextAccepted(hour, minute);
      WindowIsModular(now, begin, end);
      isOn := false;
      if CompareTimes(begin, end) < 0 {
        if CompareTimes(now, begin) >= 0 && CompareTimes(now, end) < 0 {
          isOn := true;
        }
      } else if CompareTimes(begin, end) > 0 {
        if CompareTimes(now, begin) >= 0 || CompareTimes(now, end) < 0 {
          isOn := true;
        }
      }
    }

    // One look at the clock.  `sent` is what sending SWITCH to the child returns.
    method Update(hour: nat, minute: nat, sent: Code)
      requires Valid() && hour < 24 && minute < 60
      modifies this`state
      ensures Valid()
      ensures manualOverride ==> state == old(state)
      ensures begin == UNSET && end == UNSET ==> state == old(state)
      ensures childCount == 0 || sent != OK ==> state == old(state)
      ensures !manualOverride && (begin != UNSET || end != UNSET) && childCount > 0 && sent == OK ==>
        state == if InWindow(60 * hour + minute, MinuteOf(begin), MinuteOf(end)) then On else Off
    {
      if begin == UNSET && end == UNSET {
        return;
      }
      if manualOverride {
        return;
      }
      var isOn := ScheduledOn(hour, minute);
      var target := if isOn then On else Off;
      if state != target && childCount > 0 {
        if sent == OK {
          state := target;
        }
      }
    }

    // STATUS: the child was switched by hand.
    method Report(payload: string)
      requires Valid()
      modifies this`manualOverride
      ensures Valid()
      ensures manualOverride == (old(manualOverride) || REPORT <= payload)
    {
      if |payload| >= |REPORT| && payload[..|REPORT|] == REPORT {
        manualOverride := true;
      }
    }

    // SET begin / SET end: only accepted times are stored.
    method Set(name: string, value: string) returns (status: Code)
      requires Valid()
      modifies this`begin, this`end
      ensures Valid()
      ensures status == OK <==> (name == "begin" || name == "end") && Accepted(value)
      ensures begin == if status == OK && name == "begin" then value else old(begin)
      ensures end == if status == OK && name == "end" then value else old(end)
    {
      if name == "begin" {
        if ValidateTimeFormat(value) != OK {
          return ERR_INVALID_PARAMETERS;
        }
        begin := value[..5];
        assert begin == value;
        return OK;
      }
      if name == "end" {
        if ValidateTimeFormat(value) != OK {
          return ERR_INVALID_PARAMETERS;
        }
        end := value[..5];
        assert end == value;
        return OK;
      }
      return ERR_INVALID_PARAMETERS;
    }

    // SWITCH: a command that reaches the child ends the override, even when the position then
    // turns out to be neither on nor off.
    method Switch(position: string, sent: Code) returns (status: Code)
      requires Valid()
      modifies this`manualOverride, this`state
      ensures Valid()
      ensures childCount > 0 && sent != OK ==>
        status == sent && state == old(state) && manualOverride == old(manualOverride)
      ensures childCount == 0 || sent == OK ==> !manualOverride
      ensures status == OK ==> state == if position == "on" then On else Off
      ensures childCount == 0 || sent == OK ==>
        (status == OK <==> position == "on" || position == "off") && (status != OK ==> state == old(state))
    {
      if childCount > 0 {
        if sent != OK {
          return sent;
        }
      }
      manualOverride := false;
      if position == "on" {
        state := On;
      } else if position == "off" {
        state := Off;
      } else {
        return ERR_INVALID_PARAMETERS;
      }
      return OK;
    }

    method AddChild(c: int) returns (status: Code)
      requires Valid() && c >= 0
      modifies this`child, this`childCount
      ensures Valid()
      ensures status == if old(childCount) >= 1 then ERR_NOT_ALLOWED else OK
      ensures forall req :: Handle(old(P()), ChildAdded(c, req)) == (P(), status)
      ensures if status == OK then childCount == 1 && child == c
              else child == old(child) && childCount == old(childCount)
    {
      if childCount >= 1 {
        return ERR_NOT_ALLOWED;
      }
      child := c;
      childCount := 1;
      return OK;
    }

    // CHILD_REMOVED: first the common pass over the list of one, then the timer's own, which
    // never finds anything left to do.
    method RemoveChild(c: int)
      requires Valid() && c >= 0
      modifies this`child, this`childCount
      ensures Valid()
      ensures childCount == if old(child) == c then 0 else old(childCount)
      ensures child == old(child) && P() == Handle(old(P()), ChildGone(c)).0
    {
      if childCount != 0 {
        if child == c {
          childCount := childCount - 1;
        }
      }
      if childCount == 1 && child == c {
        assert false;
      }
    }

    // One act after others, of which `acts` keeps account.
    method Meet(acts: seq<Act>, i: nat, ghost p: Proc, ghost before: bool)
      requires Valid() && i < |acts| && Possible(acts[i]) && p.TimerProc? && GoodProc(p)
      requires P() == SlotAfter(p, acts, i) && manualOverride == Overridden(before, p, acts, i)
      modifies this
      ensures Valid() && P() == SlotAfter(p, acts, i + 1) && manualOverride == Overridden(before, p, acts, i + 1)
      ensures old(manualOverride) && !Forwarded(p, acts, i) ==> state == old(state)
    {
      OverriddenNext(before, p, acts, i);
      match acts[i] {
        case Look(hour, minute, sent) =>
          Update(hour, minute, sent);
        case Status(payload) =>
          Report(payload);
        case Command(position, sent) =>
          var _ := Switch(position, sent);
        case SetTime(name, value) =>
          var _ := Set(name, value);
        case Gain(c) =>
          var _ := AddChild(c);
        case Lose(c) =>
          RemoveChild(c);
      }
    }

    // Whatever a timer meets, it is overridden exactly if a report has had no forwarded SWITCH after
    // it, and from a report to the next forwarded SWITCH its state does not change.
    method Serve(acts: seq<Act>)
      requires Valid() && forall a :: a in acts ==> Possible(a)
      modifies this
      ensures Valid() && P() == SlotAfter(old(P()), acts, |acts|)
      ensures manualOverride == Overridden(old(manualOverride), old(P()), acts, |acts|)
      ensures old(manualOverride) && NoneForwarded(old(P()), acts, 0, |acts|) ==> state == old(state)
    {
      ghost var p, before := P(), manualOverride;
      for i := 0 to |acts|
        invariant Valid() && P() == SlotAfter(p, acts, i) && manualOverride == Overridden(before, p, acts, i)
        invariant before && NoneForwarded(p, acts, 0, i) ==> manualOverride && state == old(state)
      {
        assert acts[i] in acts;
        Meet(acts, i, p, before);
        assert NoneForwarded(p, acts, 0, i + 1) ==> NoneForwarded(p, acts, 0, i) && !Forwarded(p, acts, i);
      }
    }

    // A report, anything but a forwarded SWITCH, then a forwarded SWITCH and a look at the clock: the
    // state stays as it was until the SWITCH, and the look brings back the window's.
    method Episode(payload: string, acts: seq<Act>, position: string, hour: nat, minute: nat)
      returns (meanwhile: DeviceState, status: Code)
      requires Valid() && REPORT <= payload && hour < 24 && minute < 60
      requires forall a :: a in acts ==> Possible(a)
      requires NoneForwarded(P(), acts, 0, |acts|)
      modifies this
      ensures Valid() && meanwhile == old(state) && !manualOverride
      ensures childCount > 0 && (begin != UNSET || end != UNSET) ==>
        state == if InWindow(60 * hour + minute, MinuteOf(begin), MinuteOf(end)) then On else Off
    {
      Report(payload);
      Serve(acts);
      meanwhile := state;
      status := Resume(position, hour, minute);
    }

    // A forwarded SWITCH, and the next look at the clock.
    method Resume(position: string, hour: nat, minute: nat) returns (status: Code)
      requires Valid() && hour < 24 && minute < 60
      modifies this`manualOverride, this`state
      ensures Valid() && !manualOverride
      ensures childCount > 0 && (begin != UNSET || end != UNSET) ==>
        state == if InWindow(60 * hour + minute, MinuteOf(begin), MinuteOf(end)) then On else Off
    {
      status := Switch(position, OK);
      Update(hour, minute, OK);
    }
  }
}
