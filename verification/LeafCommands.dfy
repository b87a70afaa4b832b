/** What a SWITCH means to a bulb, a window and a fridge (bulb.c, window.c, fridge.c): which commands
    each accepts, and what becomes of the light or the door. */
module LeafCommands {
  import opened Domotics

  predicate IsLeaf(kind: DeviceType) {
    kind.Bulb? || kind.Window? || kind.Fridge?
  }

  predicate Accepts(kind: DeviceType, name: SwitchName, position: Position) {
    match kind
    case Bulb => (name == PowerSwitch || name == SysState) && (position == ToOn || position == ToOff)
    case Window => DoorMoves(name, position)
    case Fridge => DoorMoves(name, position) || (name == Temperature && (position == ToUp || position == ToDown))
    case _ => false
  }

  // The commands that move a window or a fridge's door.
  predicate DoorMoves(name: SwitchName, position: Position) {
    (name == OpenSwitch || name == SysState || name == CloseSwitch) && (position == ToOn || position == ToOff)
  }

  // Whether the light is on, or the door open, after an accepted command.  A window ignores "open
  // off"; a fridge opens at "close off".
  predicate OnAfter(kind: DeviceType, name: SwitchName, position: Position, on: bool) {
    match kind
    case Bulb => position == ToOn
    case Window => if name == OpenSwitch && position == ToOff then on else position == ToOn && name != CloseSwitch
    case Fridge => if DoorMoves(name, position) then (position == ToOn) == (name != CloseSwitch) else on
    case _ => on
  }

  // The command a hub sends is understood by every leaf, and means the same to all.
  lemma SysStateIsUniversal(kind: DeviceType, position: Position, on: bool)
    requires IsLeaf(kind) && (position == ToOn || position == ToOff)
    ensures Accepts(kind, SysState, position) && (OnAfter(kind, SysState, position, on) <==> position == ToOn)
  {
  }

  // ---------------------------------------------------------------- label by label

  // A bulb follows the position of "power" and "sys_state" and knows no other switch.
  lemma BulbObeys(name: SwitchName, position: Position, on: bool)
    ensures Accepts(Bulb, name, position) <==>
      (name, position) in {(PowerSwitch, ToOn), (PowerSwitch, ToOff), (SysState, ToOn), (SysState, ToOff)}
    ensures (name, position) in {(PowerSwitch, ToOn), (SysState, ToOn)} ==> OnAfter(Bulb, name, position, on)
    ensures (name, position) in {(PowerSwitch, ToOff), (SysState, ToOff)} ==> !OnAfter(Bulb, name, position, on)
  {
  }

  // "open on" opens a window, "close" closes it at either position, "open off" leaves it as it is.
  lemma WindowObeys(name: SwitchName, position: Position, open: bool)
    ensures Accepts(Window, name, position) <==>
      (name, position) in {(OpenSwitch, ToOn), (OpenSwitch, ToOff), (CloseSwitch, ToOn), (CloseSwitch, ToOff),
                           (SysState, ToOn), (SysState, ToOff)}
    ensures (name, position) in {(OpenSwitch, ToOn), (SysState, ToOn)} ==> OnAfter(Window, name, position, open)
    ensures (name, position) in {(CloseSwitch, ToOn), (CloseSwitch, ToOff), (SysState, ToOff)} ==>
      !OnAfter(Window, name, position, open)
    ensures (name, position) == (OpenSwitch, ToOff) ==> OnAfter(Window, name, position, open) == open
  {
  }

  // "open off" closes a fridge and "close off" opens it; the temperature leaves the door alone.
  lemma FridgeObeys(name: SwitchName, position: Position, open: bool)
    ensures Accepts(Fridge, name, position) <==>
      (name, position) in {(OpenSwitch, ToOn), (OpenSwitch, ToOff), (CloseSwitch, ToOn), (CloseSwitch, ToOff),
                           (SysState, ToOn), (SysState, ToOff), (Temperature, ToUp), (Temperature, ToDown)}
    ensures (name, position) in {(OpenSwitch, ToOn), (SysState, ToOn), (CloseSwitch, ToOff)} ==>
      OnAfter(Fridge, name, position, open)
    ensures (name, position) in {(OpenSwitch, ToOff), (SysState, ToOff), (CloseSwitch, ToOn)} ==>
      !OnAfter(Fridge, name, position, open)
    ensures name == Temperature ==> OnAfter(Fridge, name, position, open) == open
  {
  }
}
