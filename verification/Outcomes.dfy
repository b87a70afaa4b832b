/** What the operating system and the device processes may answer.  Each call picks its result
    afresh; with `calm` every exchange with a running device succeeds and no process dies on its
    own. */
module Outcomes {
  import opened Domotics

  // Sending a message, waiting for a process, writing the registry file, starting a FIFO.
  method Attempt(calm: bool) returns (rc: Code)
    ensures calm ==> rc == OK
  {
    if calm {
      rc := OK;
    } else {
      rc := *;
    }
  }

  // Waiting for one process to end.
  method WaitDeviceExit(pid: int, calm: bool) returns (rc: Code)
    ensures pid <= 0 ==> rc == ERR_INVALID_PARAMETERS
    ensures pid > 0 && calm ==> rc == OK
  {
    if pid <= 0 {
      return ERR_INVALID_PARAMETERS;
    }
    rc := Attempt(calm);
  }

  // The pids that waitpid(-1, WNOHANG) hands out at each of `looks` looks.
  method DeadPids(looks: nat, calm: bool) returns (pids: seq<seq<int>>)
    ensures |pids| == looks && (calm ==> Quiet(pids))
  {
    pids := *;
    if calm || |pids| != looks {
      pids := seq(looks, k => []);
    }
  }

  predicate Quiet(lists: seq<seq<int>>) {
    forall k :: 0 <= k < |lists| ==> lists[k] == []
  }

  // The pid of a process that was started.
  method Spawned() returns (pid: int)
    ensures pid > 0
  {
    pid := *;
    if pid <= 0 {
      pid := 1;
    }
  }

  // The code of a step, or of what follows if the step went well.
  function Else(step: Code, rest: Code): Code {
    if step != OK then step else rest
  }
}
