/** One supervised program (process.cpp). The functions give the effect of every operation on the
    fields and on the operating system; class `Process` updates the fields step by step as the
    source does and is proved to have exactly those effects. */
module ProcessModel {
  import opened Kernel

  datatype State = STOPPED | STARTING | RUNNING | BACKOFF | STOPPING | EXITED | FATAL

  /** `rest` stands for the settings that only spawning and equality look at. */
  datatype ProgramConfig = ProgramConfig(
    name: string, command: string, autorestart: bool, startsecs: int, startretries: int,
    stopwaitsecs: int, stopsignal: string, rest: map<string, string>)

  datatype Proc = Proc(
    id: nat, config: ProgramConfig, state: State, pid: int, exitStatus: int, retryCount: int, changed: int)

  datatype Sys = Sys(os: OS, p: Proc)

  function NewProc(id: nat, config: ProgramConfig, now: int): Proc {
    Proc(id, config, STOPPED, -1, 0, 0, now)
  }

  function Max(a: int, b: int): int {
    if a >= b then a else b
  }

  function Min(a: int, b: int): int {
    if a <= b then a else b
  }

  // ---- The effect of each operation ----

  function SetState(p: Proc, s: State, now: int): Proc {
    if s != p.state then p.(state := s, changed := now) else p
  }

  predicate UpOrComingUp(s: State) {
    s.RUNNING? || s.STARTING?
  }

  /** One more failed start: give up or back off. */
  function CountFailure(p: Proc, now: int): Proc {
    var q := p.(retryCount := p.retryCount + 1);
    SetState(q, if q.retryCount >= p.config.startretries then FATAL else BACKOFF, now)
  }

  function StartStep(os: OS, p: Proc, fork: Fork): Sys {
    if UpOrComingUp(p.state) then Sys(os, p) else
    var os' := DoFork(os, p.id, fork);
    if ForkSucceeds(os, fork)
    then Sys(os', SetState(p.(pid := fork.pid), STARTING, os'.now))
    else Sys(os', CountFailure(p, os'.now))
  }

  function StopSignal(name: string): SignalKind {
    if name == "INT" then SIGINT
    else if name == "QUIT" then SIGQUIT
    else if name == "KILL" then SIGKILL
    else if name == "HUP" then SIGHUP
    else SIGTERM
  }

  predicate StopRefused(p: Proc) {
    p.pid <= 0 || p.state.STOPPED?
  }

  function StopStep(os: OS, p: Proc): Sys {
    if StopRefused(p) then Sys(os, p)
    else Sys(DoSignal(os, p.id, p.pid, StopSignal(p.config.stopsignal)), SetState(p, STOPPING, os.now))
  }

  function KillStep(os: OS, p: Proc, took: nat): Sys {
    if p.pid <= 0 then Sys(os, p) else
    var os' := DoWait(DoSignal(os, p.id, p.pid, SIGKILL), p.pid, took);
    Sys(os', SetState(p.(pid := -1), STOPPED, os'.now))
  }

  function RecordedStatus(status: ExitStatus): int {
    match status
    case Exited(code) => code
    case Signaled(sig) => -sig
    case OtherStatus(raw) => raw
  }

  predicate ShouldAutorestart(p: Proc) {
    p.config.autorestart && !p.state.FATAL?
  }

  function OnExitStep(p: Proc, status: ExitStatus, now: int): Proc {
    var q := p.(exitStatus := RecordedStatus(status), pid := -1);
    if q.state.STOPPING? then SetState(q, STOPPED, now).(retryCount := 0)
    else if !ShouldAutorestart(q) then SetState(q, EXITED, now)
    else if q.state.STARTING? then CountFailure(q, now)
    else SetState(q, BACKOFF, now)
  }

  /** Whole seconds in the present state; the duration is never negative, so truncation is `/`. */
  function Elapsed(p: Proc, now: int): int {
    (now - p.changed) / SECOND
  }

  function Pow2(n: nat): (r: nat)
    ensures r >= 1
  {
    if n == 0 then 1 else 2 * Pow2(n - 1)
  }

  /** `1 << r` on a 32-bit int: exact below 31, the sign bit at 31, and undefined from 32 on
      (also for a negative count), where it may be any value `undef`. */
  function ShiftOne(r: int, undef: int): int {
    if 0 <= r < 31 then Pow2(r) else if r == 31 then -0x8000_0000 else undef
  }

  function BackoffDelay(r: int, undef: int): int {
    Min(ShiftOne(r, undef), 60)
  }

  predicate RestartDue(p: Proc, now: int, undef: int) {
    p.state.BACKOFF? && Elapsed(p, now) >= BackoffDelay(p.retryCount, undef)
  }

  function UpdateStep(os: OS, p: Proc, fork: Fork, undef: int): Sys {
    if p.state.STARTING? && Elapsed(p, os.now) >= p.config.startsecs then
      Sys(os, SetState(p, RUNNING, os.now).(retryCount := 0))
    else if p.state.STOPPING? && Elapsed(p, os.now) >= p.config.stopwaitsecs then
      Sys(DoSignal(os, p.id, p.pid, SIGKILL), p)
    else if RestartDue(p, os.now, undef) then
      StartStep(os, p, fork)
    else
      Sys(os, p)
  }

  // ---- The object ----

  class Process {
    const config: ProgramConfig
    const id: nat
    const kernel: Kernel
    var state: State
    var pid: int
    var exitStatus: int
    var retryCount: int
    var stateChangeTime: int

    ghost function View(): Proc
      reads this
    {
      Proc(id, config, state, pid, exitStatus, retryCount, stateChangeTime)
    }

    ghost function Whole(): Sys
      reads this, kernel
    {
      Sys(kernel.View(), View())
    }

    constructor (id: nat, config: ProgramConfig, kernel: Kernel)
      ensures View() == NewProc(id, config, kernel.now) && this.kernel == kernel
    {
      this.id, this.config, this.kernel := id, config, kernel;
      state, pid, exitStatus, retryCount := STOPPED, -1, 0, 0;
      stateChangeTime := kernel.now;
    }

    method SetStateTo(s: State)
      modifies this`state, this`stateChangeTime
      ensures View() == SetState(old(View()), s, kernel.now)
    {
      if s != state {
        state := s;
        stateChangeTime := kernel.now;
      }
    }

    method Start() returns (ok: bool, ghost fork: Fork)
      modifies this, kernel
      ensures Whole() == StartStep(old(kernel.View()), old(View()), fork)
      ensures ok <==> UpOrComingUp(old(state)) || ForkSucceeds(old(kernel.View()), fork)
    {
      fork := Fork(-1, 0);
      if state == RUNNING || state == STARTING {
        return true, fork;
      }
      var childPid: int;
      childPid, fork := kernel.ForkChild(id);
      if childPid < 0 {
        retryCount := retryCount + 1;
        if retryCount >= config.startretries {
          SetStateTo(FATAL);
        } else {
          SetStateTo(BACKOFF);
        }
        return false, fork;
      }
      pid := childPid;
      SetStateTo(STARTING);
      ok := true;
    }

    method Stop() returns (ok: bool)
      modifies this, kernel
      ensures Whole() == StopStep(old(kernel.View()), old(View()))
      ensures ok <==> !StopRefused(old(View())) && old(pid) in old(kernel.children)
    {
      if pid <= 0 || state == STOPPED {
        return false;
      }
      SetStateTo(STOPPING);
      ok := kernel.SendSignal(id, pid, StopSignal(config.stopsignal));
    }

    method Kill() returns (ghost took: nat)
      modifies this, kernel
      ensures Whole() == KillStep(old(kernel.View()), old(View()), took)
    {
      took := 0;
      if pid <= 0 {
        return;
      }
      var _ := kernel.SendSignal(id, pid, SIGKILL);
      took := kernel.WaitFor(pid);
      pid := -1;
      SetStateTo(STOPPED);
    }

    method OnExit(status: ExitStatus)
      modifies this
      ensures View() == OnExitStep(old(View()), status, kernel.now)
    {
      match status {
        case Exited(code) => exitStatus := code;
        case Signaled(sig) => exitStatus := -sig;
        case OtherStatus(raw) => exitStatus := raw;
      }
      pid := -1;
      if state == STOPPING {
        SetStateTo(STOPPED);
        retryCount := 0;
      } else if config.autorestart && state != FATAL {
        if state == STARTING {
          retryCount := retryCount + 1;
          if retryCount >= config.startretries {
            SetStateTo(FATAL);
          } else {
            SetStateTo(BACKOFF);
          }
        } else {
          SetStateTo(BACKOFF);
        }
      } else {
        SetStateTo(EXITED);
      }
    }

    /** `undef` is the value an undefined shift happens to yield. */
    method Update(undef: int) returns (ghost fork: Fork)
      modifies this, kernel
      ensures Whole() == UpdateStep(old(kernel.View()), old(View()), fork, undef)
    {
      fork := Fork(-1, 0);
      var elapsed := (kernel.now - stateChangeTime) / SECOND;
      match state {
        case STARTING =>
          if elapsed >= config.startsecs {
            SetStateTo(RUNNING);
            retryCount := 0;
          }
        case STOPPING =>
          if elapsed >= config.stopwaitsecs {
            var _ := kernel.SendSignal(id, pid, SIGKILL);
          }
        case BACKOFF =>
          var delay := Min(ShiftOne(retryCount, undef), 60);
          if elapsed >= delay {
            var _, attempt := Start();
            fork := attempt;
          }
        case _ =>
      }
    }
  }
}
