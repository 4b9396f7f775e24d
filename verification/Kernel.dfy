/** The part of the operating system that the supervisor depends on: a clock that never goes
    back, the children that have been forked and not yet waited for, the signals sent and the forks tried.
    `OS` is the value; class `Kernel` is the mutable system whose calls have arbitrary outcomes. */
module Kernel {
  import opened Wrappers

  /** One second on the steady clock, which counts nanoseconds. */
  const SECOND: int := 1_000_000_000

  datatype ExitStatus = Exited(code: int) | Signaled(sig: int) | OtherStatus(raw: int)

  /** An unreaped child: the process object that forked it, and how it ended if it has ended. */
  datatype Child = Child(owner: nat, exit: Option<ExitStatus>)

  datatype SignalKind = SIGTERM | SIGINT | SIGQUIT | SIGKILL | SIGHUP

  /** A record of one kill(2) call: who called it, and whether the target was at that moment an
      unreaped child of the caller. */
  datatype Signal = Signal(from: nat, pid: int, kind: SignalKind, at: int, hit: bool)

  /** `forks` lists who called fork(2), whether it succeeded or not. */
  datatype OS = OS(now: int, children: map<int, Child>, signals: seq<Signal>, forks: seq<nat>)

  /** What a fork does: the pid it would hand out (anything unusable means failure) and the time it takes. */
  datatype Fork = Fork(pid: int, took: nat)

  predicate ForkSucceeds(os: OS, fork: Fork) {
    fork.pid > 0 && fork.pid !in os.children
  }

  function DoFork(os: OS, owner: nat, fork: Fork): OS {
    os.(now := os.now + fork.took, forks := os.forks + [owner],
        children := if ForkSucceeds(os, fork) then os.children[fork.pid := Child(owner, None)] else os.children)
  }

  predicate IsChildOf(os: OS, pid: int, owner: nat) {
    pid in os.children && os.children[pid].owner == owner
  }

  function DoSignal(os: OS, from: nat, pid: int, kind: SignalKind): OS {
    os.(signals := os.signals + [Signal(from, pid, kind, os.now, IsChildOf(os, pid, from))])
  }

  /** Waiting for one given child, which takes as long as the child takes to end. */
  function DoWait(os: OS, pid: int, took: nat): OS {
    os.(now := os.now + took, children := os.children - {pid})
  }

  predicate IsZombie(os: OS, pid: int) {
    pid in os.children && os.children[pid].exit.Some?
  }

  predicate HasZombie(os: OS) {
    exists pid :: pid in os.children && IsZombie(os, pid)
  }

  class Kernel {
    var now: int
    var children: map<int, Child>
    var signals: seq<Signal>
    var forks: seq<nat>

    ghost function View(): OS
      reads this
    {
      OS(now, children, signals, forks)
    }

    constructor ()
      ensures View() == OS(0, map[], [], [])
    {
      now, children, signals, forks := 0, map[], [], [];
    }

    method ForkChild(owner: nat) returns (pid: int, ghost fork: Fork)
      modifies this
      ensures View() == DoFork(old(View()), owner, fork)
      ensures pid == if ForkSucceeds(old(View()), fork) then fork.pid else -1
    {
      var candidate: int :| true;
      var took: nat :| true;
      fork := Fork(candidate, took);
      now, forks := now + took, forks + [owner];
      if candidate > 0 && candidate !in children {
        children := children[candidate := Child(owner, None)];
        pid := candidate;
      } else {
        pid := -1;
      }
    }

    method SendSignal(from: nat, pid: int, kind: SignalKind) returns (ok: bool)
      modifies this
      ensures View() == DoSignal(old(View()), from, pid, kind)
      ensures ok <==> pid in old(children)
    {
      ok := pid in children;
      signals := signals + [Signal(from, pid, kind, now, pid in children && children[pid].owner == from)];
    }

    method WaitFor(pid: int) returns (ghost took: nat)
      modifies this
      ensures View() == DoWait(old(View()), pid, took)
    {
      var t: nat :| true;
      took := t;
      now := now + t;
      children := children - {pid};
    }

    /** waitpid(-1, WNOHANG): picks any ended child, or returns -1. */
    method WaitAny() returns (pid: int, status: ExitStatus)
      requires forall c :: c in children ==> c > 0
      modifies this
      ensures pid <= 0 ==> View() == old(View()) && !HasZombie(View())
      ensures pid > 0 ==> IsZombie(old(View()), pid) && old(children)[pid].exit == Some(status)
                          && View() == DoWait(old(View()), pid, 0)
    {
      status := OtherStatus(0);
      if c :| c in children && children[c].exit.Some? {
        pid, status := c, children[c].exit.value;
        children := children - {c};
      } else {
        pid := -1;
      }
    }

    /** Lets time pass and lets any one child end. */
    method Elapse(least: nat) returns (ghost d: nat)
      modifies this
      ensures d >= least
      ensures View() == old(View()).(now := old(now) + d)
    {
      var more: nat :| true;
      d := least + more;
      now := now + least + more;
    }

    method EndChild(pid: int, status: ExitStatus)
      modifies this
      ensures View() == DoEndChild(old(View()), pid, status)
    {
      if pid in children && children[pid].exit.None? {
        children := children[pid := children[pid].(exit := Some(status))];
      }
    }
  }

  function DoEndChild(os: OS, pid: int, status: ExitStatus): OS {
    if pid in os.children && os.children[pid].exit.None?
    then os.(children := os.children[pid := os.children[pid].(exit := Some(status))])
    else os
  }
}
