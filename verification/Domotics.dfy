/** Names shared by every part of the model: the size of the two tables, the reserved ids,
    the return codes and the device types (code/include/common.h, error_codes.h, device.h). */
module Domotics {

  const MAX_DEVICES := 128
  const CONTROLLER_ID := 0
  const NO_PARENT := -1

  // Seconds.
  const TIMEOUT_DEVICE := 7
  const MIN_RANDOM_DELAY_S := 1
  const MAX_RANDOM_DELAY_S := 3

  type Code = int

  const OK: Code := 0
  const ERR_DEVICE_NOT_FOUND: Code := 1
  const ERR_INVALID_COMMAND: Code := 2
  const ERR_IPC_FAILURE: Code := 3
  const ERR_INVALID_PARAMETERS: Code := 4
  const ERR_DEVICE_TYPE_MISMATCH: Code := 6
  const ERR_SELF_LINK: Code := 8
  const ERR_CYCLE_DETECTED: Code := 9
  const ERR_NOT_ALLOWED: Code := 10
  const ERR_TIMEOUT: Code := 12
  const ERR_INVALID_STATE: Code := 13
  const ERR_SYSTEM: Code := 100

  datatype DeviceType = Controller | Hub | Timer | Bulb | Window | Fridge | Unknown

  // The words of a SWITCH command, as the handlers compare them: the name of the switch
  // ("power", "sys_state", "open", "close", "temperature", anything else) and its position.
  datatype SwitchName = PowerSwitch | SysState | OpenSwitch | CloseSwitch | Temperature | OtherSwitch
  datatype Position = ToOn | ToOff | ToUp | ToDown | OtherPosition

  // The states a device can be in; windows are Open or Closed, all others On or Off.
  datatype DeviceState = Off | On | Open | Closed

  // The types that may have children.
  predicate IsControl(kind: DeviceType) {
    kind.Controller? || kind.Hub? || kind.Timer?
  }

  // The types the controller can start a process for.
  predicate IsSpawnable(kind: DeviceType) {
    !kind.Controller? && !kind.Unknown?
  }

  datatype Option<+T> = None | Some(value: T)

  // The pigeonhole principle in the form the proofs use: a repetition-free sequence of
  // numbers below n has at most n elements.
  lemma {:induction false} Pigeonhole(s: seq<int>, n: nat)
    requires forall i :: 0 <= i < |s| ==> 0 <= s[i] < n
    requires forall i, j :: 0 <= i < j < |s| ==> s[i] != s[j]
    ensures |s| <= n
  {
    if |s| == 0 {
      return;
    }
    assert s[0] < n;
    if k :| 0 <= k < |s| && s[k] == n - 1 {
      Pigeonhole(s[..k] + s[k + 1..], n - 1);
    } else {
      Pigeonhole(s, n - 1);
    }
  }
}
