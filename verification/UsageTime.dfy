/** Lazily accumulated on-time against the true on-time, for bulbs, windows and fridges.  Each
    handler is given the clock reading it takes; readings never go back. */
module UsageTime {
  import opened Domotics
  import opened LeafCommands

  // ---------------------------------------------------------------- the true time

  // At time `at` a handler ran and left the device on or off.
  datatype Tick = Tick(at: int, on: bool)

  ghost predicate Chronological(log: seq<Tick>) {
    log != [] && Last(log).at >= 1 &&
    (|log| > 1 ==> log[|log| - 2].at <= Last(log).at && Chronological(log[..|log| - 1]))
  }

  // The time spent on up to the last tick.
  ghost function OnTime(log: seq<Tick>): int {
    if |log| <= 1 then 0 else
      var n := |log| - 1;
      OnTime(log[..n]) + (if log[n - 1].on then log[n].at - log[n - 1].at else 0)
  }

  ghost function Last(log: seq<Tick>): Tick
    requires log != []
  {
    log[|log| - 1]
  }

  // The time spent on up to `now`.
  ghost function OnTimeAt(log: seq<Tick>, now: int): int
    requires log != []
  {
    OnTime(log) + (if Last(log).on then now - Last(log).at else 0)
  }

  lemma OnTimeNext(log: seq<Tick>, t: Tick)
    requires log != []
    ensures OnTime(log + [t]) == OnTimeAt(log, t.at)
    ensures Chronological(log) && Last(log).at <= t.at ==> Chronological(log + [t])
    ensures Last(log + [t]) == t
  {
    assert (log + [t])[..|log|] == log;
  }

  // The total and the open interval, running since `since`, together are the true time.
  ghost predicate Accounted(log: seq<Tick>, on: bool, since: int, total: int) {
    && Chronological(log) && Last(log).on == on
    && (on ==> 1 <= since <= Last(log).at)
    && total + (if on then Last(log).at - since else 0) == OnTime(log)
  }

  // Bringing the total up to date at `now` and leaving the device on or off.
  lemma Account(log: seq<Tick>, on: bool, since: int, total: int, now: int, on': bool)
    requires Accounted(log, on, since, total) && Last(log).at <= now
    ensures var total' := total + (if on then now - since else 0);
      total' == OnTimeAt(log, now) && Accounted(log + [Tick(now, on')], on', now, total')
  {
    OnTimeNext(log, Tick(now, on'));
  }

  // ---------------------------------------------------------------- bulb

  class Bulb {
    var on: bool
    var manualOverride: bool
    var lastStateChange: int
    var totalUsageTime: int
    ghost var log: seq<Tick>

    ghost predicate Valid()
      reads this
    {
      Accounted(log, on, lastStateChange, totalUsageTime)
    }

    constructor (now: int)
      requires now >= 1
      ensures Valid() && !on && totalUsageTime == 0 && log == [Tick(now, false)]
    {
      on, manualOverride, lastStateChange, totalUsageTime := false, false, 0, 0;
      log := [Tick(now, false)];
    }

    method UpdateUsageTime(now: int)
      requires Valid() && Last(log).at <= now
      modifies this`lastStateChange, this`totalUsageTime
      ensures totalUsageTime == OnTimeAt(log, now)
      ensures totalUsageTime == old(totalUsageTime) + if on then now - old(lastStateChange) else 0
      ensures on ==> lastStateChange == now
    {
      Account(log, on, lastStateChange, totalUsageTime, now, on);
      if on && lastStateChange != 0 {
        if now > lastStateChange {
          totalUsageTime := totalUsageTime + (now - lastStateChange);
        }
        lastStateChange := now;
      }
    }

    // INFO reports the true time.
    method Info(now: int) returns (time: int)
      requires Valid() && Last(log).at <= now
      modifies this
      ensures Valid() && on == old(on) && log == old(log) + [Tick(now, on)]
      ensures time == OnTimeAt(old(log), now)
    {
      Account(log, on, lastStateChange, totalUsageTime, now, on);
      UpdateUsageTime(now);
      log := log + [Tick(now, on)];
      time := totalUsageTime;
    }

    method Switch(name: SwitchName, position: Position, external: bool, now: int) returns (status: Code)
      requires Valid() && Last(log).at <= now
      modifies this
      ensures Valid()
      ensures status == if Accepts(DeviceType.Bulb, name, position) then OK else ERR_INVALID_PARAMETERS
      ensures status == OK ==>
        on == OnAfter(DeviceType.Bulb, name, position, old(on)) && manualOverride == external
      ensures status != OK ==> on == old(on) && manualOverride == old(manualOverride)
      ensures log == if name == PowerSwitch || name == SysState then old(log) + [Tick(now, on)] else old(log)
    {
      if name != PowerSwitch && name != SysState {
        return ERR_INVALID_PARAMETERS;
      }
      Account(log, on, lastStateChange, totalUsageTime, now,
              if position == ToOn then true else if position == ToOff then false else on);
      UpdateUsageTime(now);
      if position == ToOn {
        on := true;
        manualOverride := external;
        lastStateChange := now;
      } else if position == ToOff {
        on := false;
        manualOverride := external;
        lastStateChange := 0;
      } else {
        status := ERR_INVALID_PARAMETERS;
        log := log + [Tick(now, on)];
        return;
      }
      log := log + [Tick(now, on)];
      return OK;
    }
  }

  // ---------------------------------------------------------------- window

  class Window {
    var open: bool
    var lastStateChange: int
    var totalOpenTime: int
    var openSwitch: int
    var closeSwitch: int
    ghost var log: seq<Tick>

    ghost predicate Valid()
      reads this
    {
      Accounted(log, open, lastStateChange, totalOpenTime) &&
      openSwitch == (if open then 1 else 0) && closeSwitch == 1 - openSwitch
    }

    constructor (now: int)
      requires now >= 1
      ensures Valid() && !open && totalOpenTime == 0 && log == [Tick(now, false)]
    {
      open, lastStateChange, totalOpenTime, openSwitch, closeSwitch := false, 0, 0, 0, 1;
      log := [Tick(now, false)];
    }

    method UpdateUsageTime(now: int)
      requires Valid() && Last(log).at <= now
      modifies this`lastStateChange, this`totalOpenTime
      ensures totalOpenTime == OnTimeAt(log, now)
      ensures totalOpenTime == old(totalOpenTime) + if open then now - old(lastStateChange) else 0
      ensures open ==> lastStateChange == now
    {
      Account(log, open, lastStateChange, totalOpenTime, now, open);
      if open && lastStateChange != 0 {
        if now > lastStateChange {
          totalOpenTime := totalOpenTime + (now - lastStateChange);
        }
        lastStateChange := now;
      }
    }

    // Runs in every round of the main loop, before every message, and in INFO.
    method Update(now: int) returns (time: int)
      requires Valid() && Last(log).at <= now
      modifies this
      ensures Valid() && open == old(open) && log == old(log) + [Tick(now, open)]
      ensures time == OnTimeAt(old(log), now)
    {
      Account(log, open, lastStateChange, totalOpenTime, now, open);
      UpdateUsageTime(now);
      log := log + [Tick(now, open)];
      time := totalOpenTime;
    }

    // "open off" is accepted and does nothing; every other accepted pair sets the window.
    method Switch(name: SwitchName, position: Position, now: int) returns (status: Code)
      requires Valid() && Last(log).at <= now
      modifies this
      ensures Valid()
      ensures status == if Accepts(DeviceType.Window, name, position) then OK else ERR_INVALID_PARAMETERS
      ensures status == OK ==> open == OnAfter(DeviceType.Window, name, position, old(open))
      ensures status != OK ==> open == old(open) && log == old(log)
      ensures status == OK ==> log == old(log) + [Tick(now, open)]
    {
      if position != ToOn && position != ToOff {
        return ERR_INVALID_PARAMETERS;
      }
      if name != OpenSwitch && name != CloseSwitch && name != SysState {
        return ERR_INVALID_PARAMETERS;
      }
      Account(log, open, lastStateChange, totalOpenTime, now, open);
      Account(log, open, lastStateChange, totalOpenTime, now, !open);
      UpdateUsageTime(now);
      if position == ToOn {
        if name == OpenSwitch || name == SysState {
          open := true;
          lastStateChange := now;
          openSwitch, closeSwitch := 1, 0;
        } else if name == CloseSwitch {
          open := false;
          lastStateChange := 0;
          closeSwitch, openSwitch := 1, 0;
        }
      } else if position == ToOff {
        if name == SysState || name == CloseSwitch {
          open := false;
          lastStateChange := 0;
          closeSwitch, openSwitch := 1, 0;
        }
      }
      log := log + [Tick(now, open)];
      return OK;
    }
  }

  // ---------------------------------------------------------------- fridge

  const AUTO_CLOSE_DELAY := 30
  const DEFAULT_TEMPERATURE := 4

  class Fridge {
    var open: bool
    var lastStateChange: int
    var lastOpenTime: int
    var totalOpenTime: int
    var thermostat: int
    ghost var log: seq<Tick>
    ghost var openedAt: int      // the last opening command
    ghost var lost: int          // open time that no total will ever contain
    ghost var interrupted: nat   // door commands handled while the door was open
    ghost var longestDelay: nat  // the longest delay such a command had

    ghost predicate Valid()
      reads this
    {
      && Accounted(log, open, lastOpenTime, totalOpenTime + lost)
      && (open ==> 1 <= lastStateChange == openedAt)
      && 0 <= lost <= longestDelay * interrupted
    }

    constructor (now: int)
      requires now >= 1
      ensures Valid() && !open && totalOpenTime == 0 && log == [Tick(now, false)]
      ensures interrupted == longestDelay == 0
      ensures thermostat == DEFAULT_TEMPERATURE
    {
      open, lastStateChange, lastOpenTime, totalOpenTime := false, 0, 0, 0;
      thermostat := DEFAULT_TEMPERATURE;
      log := [Tick(now, false)];
      openedAt, lost, interrupted, longestDelay := 0, 0, 0, 0;
    }

    // The total never exceeds the true open time, and together with the open interval misses at
    // most the longest delay for each door command that found the door open.
    lemma NeverMoreThanTrueTime(now: int)
      requires Valid() && Last(log).at <= now
      ensures var counted := totalOpenTime + if open then now - lastOpenTime else 0;
        totalOpenTime <= counted <= OnTimeAt(log, now) <= counted + longestDelay * interrupted
    {
      Account(log, open, lastOpenTime, totalOpenTime + lost, now, open);
    }

    method UpdateOpenTime(now: int)
      requires Valid() && Last(log).at <= now
      modifies this`totalOpenTime, this`lastOpenTime
      ensures totalOpenTime + lost == OnTimeAt(log, now)
      ensures totalOpenTime == old(totalOpenTime) + if open then now - old(lastOpenTime) else 0
      ensures open ==> lastOpenTime == now
    {
      Account(log, open, lastOpenTime, totalOpenTime + lost, now, open);
      if open && lastOpenTime != 0 {
        if now > lastOpenTime {
          totalOpenTime := totalOpenTime + (now - lastOpenTime);
        }
        lastOpenTime := now;
      }
    }

    // After every update an open door was opened by a command less than 30 seconds ago.
    method Update(now: int)
      requires Valid() && Last(log).at <= now
      modifies this`open, this`lastStateChange, this`lastOpenTime, this`totalOpenTime, this`log
      ensures Valid()
      ensures open <==> old(open) && now - openedAt < AUTO_CLOSE_DELAY
      ensures open ==> lastOpenTime == now
      ensures log == old(log) + [Tick(now, open)]
    {
      Account(log, open, lastOpenTime, totalOpenTime + lost, now, open);
      Account(log, open, lastOpenTime, totalOpenTime + lost, now, false);
      UpdateOpenTime(now);
      if open && lastStateChange != 0 {
        if now - lastStateChange >= AUTO_CLOSE_DELAY {
          open := false;
          lastOpenTime := 0;
          lastStateChange := 0;
        }
      }
      log := log + [Tick(now, open)];
    }

    // INFO: updated before the delay and again after it; nothing is lost.
    method Info(before: int, now: int) returns (sinceOpen: int, time: int)
      requires Valid() && Last(log).at <= before <= now
      modifies this`open, this`lastStateChange, this`lastOpenTime, this`totalOpenTime, this`log
      ensures Valid() && time == OnTime(log) - lost && Last(log) == Tick(now, open)
      ensures sinceOpen == if open then now - openedAt else 0
    {
      Update(before);
      sinceOpen := 0;
      if open && lastStateChange != 0 {
        sinceOpen := now - lastStateChange;
      }
      Account(log, open, lastOpenTime, totalOpenTime + lost, now, open);
      OnTimeNext(log, Tick(now, open));
      UpdateOpenTime(now);
      log := log + [Tick(now, open)];
      time := totalOpenTime;
    }

    // The door is moved at `now`; its open time was last brought up to date at `before`.
    method MoveDoor(opens: bool, before: int, now: int)
      requires Valid() && Last(log).at <= before <= now && (open ==> lastOpenTime == before)
      modifies this
      ensures thermostat == old(thermostat)
      ensures Valid() && open == opens && Last(log) == Tick(now, open)
      ensures open ==> openedAt == now
      ensures lost == old(lost) + if old(open) then now - before else 0
      ensures interrupted == old(interrupted) + if old(open) then 1 else 0
      ensures longestDelay == if old(open) then Max(old(longestDelay), now - before) else old(longestDelay)
    {
      Account(log, open, lastOpenTime, totalOpenTime + lost, now, opens);
      if open {
        CountDelay(lost, longestDelay, interrupted, now - before);
        lost := lost + (now - before);
        longestDelay := Max(longestDelay, now - before);
        interrupted := interrupted + 1;
      }
      OnTimeNext(log, Tick(now, opens));
      log := log + [Tick(now, opens)];
      if opens {
        open := true;
        lastOpenTime := now;
        lastStateChange := now;
        openedAt := now;
      } else {
        open := false;
        lastOpenTime := 0;
      }
    }

    // The command moves the door while it is open, and not due to close by itself at `before`.
    ghost predicate Interrupts(name: SwitchName, position: Position, before: int)
      reads this
    {
      DoorMoves(name, position) && open && before - openedAt < AUTO_CLOSE_DELAY
    }

    // A SWITCH: updated at `before`, carried out at `now`.  What is lost is exactly the delay
    // between the two, and only if the door is moved while it is open.  The thermostat follows "up"
    // and "down" without limit and leaves the door alone.
    method Switch(name: SwitchName, position: Position, before: int, now: int) returns (status: Code)
      requires Valid() && Last(log).at <= before <= now
      modifies this
      ensures Valid()
      ensures status == if Accepts(DeviceType.Fridge, name, position) then OK else ERR_INVALID_PARAMETERS
      ensures status == OK ==>
        open == OnAfter(DeviceType.Fridge, name, position, old(open) && before - old(openedAt) < AUTO_CLOSE_DELAY)
      ensures DoorMoves(name, position) ==> Last(log) == Tick(now, open) && (open ==> openedAt == now)
      ensures !DoorMoves(name, position) ==>
        (open <==> old(open) && before - openedAt < AUTO_CLOSE_DELAY) && log == old(log) + [Tick(before, open)]
      ensures lost == old(lost) + if old(Interrupts(name, position, before)) then now - before else 0
      ensures interrupted == old(interrupted) + if old(Interrupts(name, position, before)) then 1 else 0
      ensures longestDelay ==
        if old(Interrupts(name, position, before)) then Max(old(longestDelay), now - before) else old(longestDelay)
      ensures thermostat == old(thermostat) +
        if name != Temperature || status != OK then 0 else if position == ToUp then 1 else -1
    {
      Update(before);
      OnTimeNext(old(log), Last(log));
      if name != Temperature {
        if position != ToOn && position != ToOff {
          return ERR_INVALID_PARAMETERS;
        }
      }
      if name == OpenSwitch || name == SysState {
        MoveDoor(position == ToOn, before, now);
        return OK;
      }
      if name == CloseSwitch {
        MoveDoor(position == ToOff, before, now);
        return OK;
      }
      if name == Temperature {
        if position == ToUp {
          thermostat := thermostat + 1;
        } else if position == ToDown {
          thermostat := thermostat - 1;
        } else {
          return ERR_INVALID_PARAMETERS;
        }
        return OK;
      }
      return ERR_INVALID_PARAMETERS;
    }

    // What the process handles, one after the other.  At the end no more is missing from the total
    // than the longest delay for every door command among it.
    method Serve(events: seq<Handled>)
      requires Valid() && InOrder(Last(log).at, events)
      modifies this
      ensures Valid() && Last(log).at <= EndOf(old(Last(log).at), events)
      ensures interrupted <= old(interrupted) + DoorCommands(events)
      ensures longestDelay <= Max(old(longestDelay), LongestOf(events))
    {
      ghost var start := Last(log).at;
      for i := 0 to |events|
        invariant Valid() && Last(log).at <= EndOf(start, events[..i])
        invariant interrupted <= old(interrupted) + DoorCommands(events[..i])
        invariant longestDelay <= Max(old(longestDelay), LongestOf(events[..i]))
      {
        InOrderAt(start, events, i);
        assert events[..i + 1][..i] == events[..i];
        match events[i] {
          case Round(now) =>
            Update(now);
          case Asked(before, now) =>
            var _, _ := Info(before, now);
          case Commanded(name, position, before, now) =>
            var _ := Switch(name, position, before, now);
        }
      }
      assert events[..|events|] == events;
    }

    // With delays of at most MAX_RANDOM_DELAY_S seconds on the clock, a new fridge misses at most that
    // many seconds per door command it has handled.
    lemma AtMostTheDelays(now: int, commands: nat)
      requires Valid() && Last(log).at <= now
      requires longestDelay <= MAX_RANDOM_DELAY_S && interrupted <= commands
      ensures var counted := totalOpenTime + if open then now - lastOpenTime else 0;
        totalOpenTime <= counted <= OnTimeAt(log, now) <= counted + MAX_RANDOM_DELAY_S * commands
    {
      NeverMoreThanTrueTime(now);
      assert longestDelay * interrupted <= MAX_RANDOM_DELAY_S * interrupted;
    }
  }

  function Max(a: int, b: int): int {
    if b > a then b else a
  }

  // A round of the main loop, an INFO or a SWITCH; a message is handled from `before` to `now`.
  datatype Handled =
    | Round(now: int)
    | Asked(before: int, now: int)
    | Commanded(name: SwitchName, position: Position, before: int, now: int)

  function StartOf(e: Handled): int {
    if e.Round? then e.now else e.before
  }

  // The clock after the events, started at `start`.
  function EndOf(start: int, events: seq<Handled>): int {
    if events == [] then start else events[|events| - 1].now
  }

  // Each event starts after the one before has ended.
  ghost predicate InOrder(start: int, events: seq<Handled>) {
    events == [] ||
    (var n := |events| - 1;
     InOrder(start, events[..n]) && EndOf(start, events[..n]) <= StartOf(events[n]) <= events[n].now)
  }

  lemma {:induction false} InOrderAt(start: int, events: seq<Handled>, i: nat)
    requires InOrder(start, events) && i < |events|
    ensures EndOf(start, events[..i]) <= StartOf(events[i]) <= events[i].now
    decreases |events|
  {
    if i < |events| - 1 {
      InOrderAt(start, events[..|events| - 1], i);
      assert events[..|events| - 1][..i] == events[..i];
    }
  }

  function DoorCommands(events: seq<Handled>): nat {
    if events == [] then 0 else
      var n := |events| - 1;
      DoorCommands(events[..n]) +
        if events[n].Commanded? && DoorMoves(events[n].name, events[n].position) then 1 else 0
  }

  // The longest time a door command took.
  function LongestOf(events: seq<Handled>): int {
    if events == [] then 0 else
      var n := |events| - 1;
      if events[n].Commanded? && DoorMoves(events[n].name, events[n].position)
      then Max(LongestOf(events[..n]), events[n].now - events[n].before) else LongestOf(events[..n])
  }

  lemma CountDelay(lost: int, longest: nat, count: nat, delay: int)
    requires 0 <= lost <= longest * count && 0 <= delay
    ensures 0 <= lost + delay <= Max(longest, delay) * (count + 1)
  {
    assert longest * count <= Max(longest, delay) * count;
  }
}
