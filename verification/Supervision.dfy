/** The supervisor as a transition system: the managed processes, the operating system they run on,
    and the indivisible events whose interleavings make up every run. Waiting loops and the requests
    nested inside them contribute their events to the run one by one. */
module Supervision {
  import opened Kernel
  import opened ProcessModel

  datatype World = World(os: OS, procs: map<string, Proc>, nextId: nat)

  datatype Event =
    | Elapse(d: nat)
    | EndChild(pid: int, status: ExitStatus)          // a child ends and waits to be reaped
    | Reap(pid: int)                                  // waitpid returns it
    | Start(name: string, fork: Fork)                 // start() on request
    | Stop(name: string)                              // stop() on request
    | Kill(name: string, took: nat)                   // kill()
    | Update(name: string, fork: Fork, undef: int)    // update() from the timer
    | Add(config: ProgramConfig, took: nat)           // add_process
    | Remove(name: string, took: nat)                 // erasing the map entry destroys the process

  const EMPTY_WORLD := World(OS(0, map[], [], []), map[], 0)

  function Put(w: World, n: string, s: Sys): World {
    w.(os := s.os, procs := w.procs[n := s.p])
  }

  /** The destructor kills a child that is still there. */
  function DestroyStep(w: World, n: string, took: nat): OS {
    if n in w.procs then KillStep(w.os, w.procs[n], took).os else w.os
  }

  ghost predicate HasPid(w: World, pid: int) {
    exists n :: n in w.procs && w.procs[n].pid == pid
  }

  ghost function HolderOf(w: World, pid: int): (n: string)
    requires HasPid(w, pid)
    ensures n in w.procs && w.procs[n].pid == pid
  {
    var n :| n in w.procs && w.procs[n].pid == pid; n
  }

  ghost function ReapStep(w: World, pid: int): World {
    if !IsZombie(w.os, pid) then w else
    var os' := DoWait(w.os, pid, 0);
    if HasPid(w, pid) then
      var n := HolderOf(w, pid);
      Put(w, n, Sys(os', OnExitStep(w.procs[n], w.os.children[pid].exit.value, os'.now)))
    else
      w.(os := os')
  }

  ghost function Step(w: World, e: Event): World {
    match e
    case Elapse(d) => w.(os := w.os.(now := w.os.now + d))
    case EndChild(pid, status) => w.(os := DoEndChild(w.os, pid, status))
    case Reap(pid) => ReapStep(w, pid)
    case Start(n, fork) => if n in w.procs then Put(w, n, StartStep(w.os, w.procs[n], fork)) else w
    case Stop(n) => if n in w.procs then Put(w, n, StopStep(w.os, w.procs[n])) else w
    case Kill(n, took) => if n in w.procs then Put(w, n, KillStep(w.os, w.procs[n], took)) else w
    case Update(n, fork, undef) => if n in w.procs then Put(w, n, UpdateStep(w.os, w.procs[n], fork, undef)) else w
    case Add(config, took) =>
      World(DestroyStep(w, config.name, took),
            w.procs[config.name := NewProc(w.nextId, config, w.os.now)], w.nextId + 1)
    case Remove(n, took) => w.(os := DestroyStep(w, n, took), procs := w.procs - {n})
  }

  ghost function RunFrom(w: World, es: seq<Event>): World {
    if es == [] then w else Step(RunFrom(w, es[..|es|-1]), es[|es|-1])
  }

  ghost function Run(es: seq<Event>): World {
    RunFrom(EMPTY_WORLD, es)
  }

  // ---- What every reachable state satisfies ----

  predicate Active(s: State) {
    s.STARTING? || s.RUNNING? || s.STOPPING?
  }

  predicate ProcInv(p: Proc) {
    && p.retryCount >= 0
    && (p.pid > 0 || p.pid == -1)
    && (Active(p.state) ==> p.pid > 0)
    && (p.state.STOPPED? || p.state.EXITED? ==> p.pid == -1)
    && (p.state.RUNNING? ==> p.retryCount == 0)
    && (p.state.BACKOFF? ==> p.retryCount == 0 || p.retryCount < p.config.startretries)
    && (p.state.FATAL? ==> p.retryCount >= Max(1, p.config.startretries))
  }

  predicate ProcOk(os: OS, p: Proc) {
    && ProcInv(p)
    && (p.pid > 0 ==> IsChildOf(os, p.pid, p.id))
    && p.changed <= os.now
  }

  ghost predicate OsOk(os: OS) {
    && (forall c :: c in os.children ==> c > 0)
    && (forall i :: 0 <= i < |os.signals| ==> os.signals[i].hit)
  }

  /** `os'` differs from `os` only in the children of `id`. */
  ghost predicate Local(os: OS, os': OS, id: nat) {
    && os.now <= os'.now
    && os.signals <= os'.signals
    && (forall c :: c in os.children && os.children[c].owner != id ==> c in os'.children && os'.children[c] == os.children[c])
    && (forall c :: c in os'.children && os'.children[c].owner != id ==> c in os.children && os.children[c].owner != id)
  }

  ghost predicate WorldInv(w: World) {
    && OsOk(w.os)
    && (forall n :: n in w.procs ==> ProcOk(w.os, w.procs[n]) && w.procs[n].config.name == n && w.procs[n].id < w.nextId)
    && (forall n, m :: n in w.procs && m in w.procs && n != m ==> w.procs[n].id != w.procs[m].id)
    && (forall c :: c in w.os.children ==> w.os.children[c].owner < w.nextId)
  }

  ghost predicate GoodStep(os: OS, p: Proc, s: Sys) {
    && OsOk(s.os) && ProcOk(s.os, s.p) && Local(os, s.os, p.id)
    && s.p.id == p.id && s.p.config == p.config
  }

  lemma StartGood(os: OS, p: Proc, fork: Fork)
    requires OsOk(os) && ProcOk(os, p)
    ensures GoodStep(os, p, StartStep(os, p, fork))
  {
  }

  lemma ProcStepsGood(os: OS, p: Proc, fork: Fork, undef: int, took: nat)
    requires OsOk(os) && ProcOk(os, p)
    ensures GoodStep(os, p, StartStep(os, p, fork))
    ensures GoodStep(os, p, StopStep(os, p))
    ensures GoodStep(os, p, KillStep(os, p, took))
    ensures GoodStep(os, p, UpdateStep(os, p, fork, undef))
    ensures KillStep(os, p, took).p.pid == -1
  {
    StartGood(os, p, fork);
  }

  lemma ExitGood(os: OS, p: Proc, status: ExitStatus)
    requires OsOk(os) && ProcOk(os, p) && p.pid > 0
    ensures var os' := DoWait(os, p.pid, 0); GoodStep(os, p, Sys(os', OnExitStep(p, status, os'.now)))
  {
  }

  lemma PutKeepsInv(w: World, n: string, s: Sys)
    requires WorldInv(w) && n in w.procs && GoodStep(w.os, w.procs[n], s)
    ensures WorldInv(Put(w, n, s))
  {
    var w' := Put(w, n, s);
    forall m | m in w'.procs
      ensures ProcOk(w'.os, w'.procs[m])
    {
    }
  }

  lemma DestroyKeepsInv(w: World, n: string, took: nat)
    requires WorldInv(w)
    ensures WorldInv(w.(os := DestroyStep(w, n, took), procs := w.procs - {n}))
  {
    if n in w.procs {
      ProcStepsGood(w.os, w.procs[n], Fork(-1, 0), 0, took);
      PutKeepsInv(w, n, KillStep(w.os, w.procs[n], took));
    } else {
      assert w.procs - {n} == w.procs;
    }
  }

  /** The one process that an event runs an operation of. */
  ghost function ProcEvent(w: World, e: Event): Sys
    requires (e.Start? || e.Stop? || e.Kill? || e.Update?) && e.name in w.procs
  {
    var p := w.procs[e.name];
    match e
    case Start(_, fork) => StartStep(w.os, p, fork)
    case Stop(_) => StopStep(w.os, p)
    case Kill(_, took) => KillStep(w.os, p, took)
    case Update(_, fork, undef) => UpdateStep(w.os, p, fork, undef)
  }

  lemma {:induction false} ProcEventGood(w: World, e: Event)
    requires WorldInv(w) && (e.Start? || e.Stop? || e.Kill? || e.Update?) && e.name in w.procs
    ensures GoodStep(w.os, w.procs[e.name], ProcEvent(w, e))
    ensures Step(w, e) == Put(w, e.name, ProcEvent(w, e))
  {
    var fork := if e.Start? || e.Update? then e.fork else Fork(-1, 0);
    ProcStepsGood(w.os, w.procs[e.name], fork, if e.Update? then e.undef else 0, if e.Kill? then e.took else 0);
  }

  lemma {:induction false} ReapKeepsInv(w: World, pid: int)
    requires WorldInv(w)
    ensures WorldInv(ReapStep(w, pid)) && ReapStep(w, pid).os.now == w.os.now
  {
    if IsZombie(w.os, pid) && HasPid(w, pid) {
      var n := HolderOf(w, pid);
      ExitGood(w.os, w.procs[n], w.os.children[pid].exit.value);
      PutKeepsInv(w, n, Sys(DoWait(w.os, pid, 0), OnExitStep(w.procs[n], w.os.children[pid].exit.value, w.os.now)));
    }
  }

  lemma AddKeepsInv(w: World, config: ProgramConfig, took: nat)
    requires WorldInv(w)
    ensures WorldInv(Step(w, Add(config, took)))
  {
    DestroyKeepsInv(w, config.name, took);
    var v := w.(os := DestroyStep(w, config.name, took), procs := w.procs - {config.name});
    assert forall n :: n in Step(w, Add(config, took)).procs && n != config.name ==> n in v.procs;
  }

  lemma {:induction false} StepKeepsInv(w: World, e: Event)
    requires WorldInv(w)
    ensures WorldInv(Step(w, e))
    ensures w.os.now <= Step(w, e).os.now
  {
    match e
    case Elapse(_) =>
    case EndChild(_, _) =>
    case Reap(pid) => ReapKeepsInv(w, pid);
    case Add(config, took) => AddKeepsInv(w, config, took);
    case Remove(n, took) => DestroyKeepsInv(w, n, took);
    case _ =>
      if e.name in w.procs {
        ProcEventGood(w, e);
        PutKeepsInv(w, e.name, ProcEvent(w, e));
      }
  }

  /** What one event does to the process called `n`, provided it stays in the map. */
  function EffectOn(w: World, e: Event, n: string): Proc
    requires n in w.procs
  {
    var p := w.procs[n];
    match e
    case Reap(pid) =>
      if IsZombie(w.os, pid) && p.pid == pid then OnExitStep(p, w.os.children[pid].exit.value, w.os.now) else p
    case Start(m, fork) => if m == n then StartStep(w.os, p, fork).p else p
    case Stop(m) => if m == n then StopStep(w.os, p).p else p
    case Kill(m, took) => if m == n then KillStep(w.os, p, took).p else p
    case Update(m, fork, undef) => if m == n then UpdateStep(w.os, p, fork, undef).p else p
    case Add(config, _) => if config.name == n then NewProc(w.nextId, config, w.os.now) else p
    case _ => p
  }

  lemma StepEffect(w: World, e: Event, n: string)
    requires WorldInv(w) && n in w.procs && !(e.Remove? && e.name == n)
    ensures n in Step(w, e).procs && Step(w, e).procs[n] == EffectOn(w, e, n)
  {
    if e.Reap? && IsZombie(w.os, e.pid) && HasPid(w, e.pid) {
      var h := HolderOf(w, e.pid);
      assert w.procs[h].pid > 0;
      assert w.procs[n].pid == e.pid ==> n == h;
    }
  }

  /** `n` is about to fork: on request, or because its back-off delay has passed. */
  predicate RestartAttempt(w: World, e: Event, n: string) {
    && n in w.procs
    && ((e.Start? && e.name == n && !UpOrComingUp(w.procs[n].state))
        || (e.Update? && e.name == n && RestartDue(w.procs[n], w.os.now, e.undef)))
  }
}
