/** What becomes of a process that is started, stopped or killed, or that ends by itself, over every run. */
module Lifecycle {
  import opened Kernel
  import opened ProcessModel
  import opened Supervision
  import opened Ownership
  import opened Backoff
  import opened StopDeadline
  import opened Progress

  // ---- Starting ----

  /** A request to start a process that is neither RUNNING nor STARTING makes it RUNNING with the child that
      was forked, at most `u` after startsecs, unless that child is reaped or another request comes. */
  lemma StartedComesUp(w: World, n: string, fork: Fork, es: seq<Event>, u: int)
    requires WorldInv(w) && n in w.procs && !w.procs[n].state.RUNNING? && !w.procs[n].state.STARTING?
    requires fork.pid > 0 && fork.pid !in w.os.children
    requires Untouched(es, n) && NotReaped(es, fork.pid)
    requires TicksEvery(Step(w, Start(n, fork)), es, n, u)
    requires var v := Step(w, Start(n, fork));
      RunFrom(v, es).os.now > v.os.now + Max(0, w.procs[n].config.startsecs) * SECOND + u
    ensures var v := RunFrom(Step(w, Start(n, fork)), es);
      && n in v.procs && v.procs[n].state.RUNNING? && v.procs[n].pid == fork.pid && v.procs[n].retryCount == 0
      && v.procs[n].id == w.procs[n].id && v.procs[n].config == w.procs[n].config
  {
    StartForks(w, n, fork);
    StepKeepsInv(w, Start(n, fork));
    UpInTime(Step(w, Start(n, fork)), es, n, u);
  }

  /** Who is about to fork. */
  ghost function Forker(w: World, e: Event): seq<nat> {
    if (e.Start? || e.Update?) && RestartAttempt(w, e, e.name) then [w.procs[e.name].id] else []
  }

  ghost function Attempts(es: seq<Event>): seq<nat> {
    if es == [] then [] else Attempts(es[..|es|-1]) + Forker(Run(es[..|es|-1]), es[|es|-1])
  }

  /** In every run fork(2) is called once for each attempt, by the process concerned, and at no other time. */
  lemma {:induction false} ForksAreAttempts(es: seq<Event>)
    ensures Run(es).os.forks == Attempts(es)
  {
    if es != [] {
      var before, e := es[..|es|-1], es[|es|-1];
      ForksAreAttempts(before);
      ForksOfStep(Run(before), e);
    }
  }

  lemma ForksOfStep(w: World, e: Event)
    ensures Step(w, e).os.forks == w.os.forks + Forker(w, e)
  {
  }

  // ---- Ending by itself ----

  /** When the child of a RUNNING process with autorestart has ended, the process backs off without child,
      with its status recorded and no failure counted. */
  lemma CrashBacksOff(w: World, pid: int, n: string)
    requires WorldInv(w) && IsZombie(w.os, pid) && n in w.procs && w.procs[n].pid == pid
    requires w.procs[n].state.RUNNING? && w.procs[n].config.autorestart
    ensures n in Step(w, Reap(pid)).procs
    ensures var p, q := w.procs[n], Step(w, Reap(pid)).procs[n];
      && q.state.BACKOFF? && q.pid == -1 && q.retryCount == 0 && q.changed == w.os.now
      && q.id == p.id && q.config == p.config
      && match w.os.children[pid].exit.value
         case Exited(code) => q.exitStatus == code
         case Signaled(sig) => q.exitStatus == -sig
         case OtherStatus(raw) => q.exitStatus == raw
  {
    StepEffect(w, Reap(pid), n);
  }

  /** And then it is started again between 1 second and 1 second + `u` later, whatever stop requests come;
      only a start request or a removal can forestall that. */
  lemma CrashIsRestarted(w: World, pid: int, n: string, es: seq<Event>, u: int)
    requires WorldInv(w) && IsZombie(w.os, pid) && n in w.procs && w.procs[n].pid == pid
    requires w.procs[n].state.RUNNING? && w.procs[n].config.autorestart
    requires NoRequests(es, n) && TicksEvery(Step(w, Reap(pid)), es, n, u)
    requires RunFrom(Step(w, Reap(pid)), es).os.now > w.os.now + SECOND + u
    ensures RetriedBetween(Step(w, Reap(pid)), es, n, w.os.now + SECOND, w.os.now + SECOND + u)
  {
    var v := Step(w, Reap(pid));
    CrashBacksOff(w, pid, n);
    StepKeepsInv(w, Reap(pid));
    ReapKeepsInv(w, pid);
    assert Pow2(0) == 1;
    assert RetryTime(v.procs[n]) == w.os.now + SECOND;
    RetriedInTime(v, es, n, u);
  }

  /** How the last child of `n` that was reaped had ended, read off the run; 0 before the first one. */
  ghost function LastStatus(es: seq<Event>, n: string): int {
    if es == [] then 0 else NextStatus(Run(es[..|es|-1]), es[|es|-1], n, LastStatus(es[..|es|-1], n))
  }

  ghost function NextStatus(w: World, e: Event, n: string, last: int): int {
    if e.Add? && e.config.name == n then 0
    else if e.Reap? && IsZombie(w.os, e.pid) && n in w.procs && w.procs[n].pid == e.pid then
      match w.os.children[e.pid].exit.value
      case Exited(code) => code
      case Signaled(sig) => -sig
      case OtherStatus(raw) => raw
    else last
  }

  /** In every run and every state the status on record is that one. */
  lemma {:induction false} StatusIsRecorded(es: seq<Event>, n: string)
    requires n in Run(es).procs
    ensures Run(es).procs[n].exitStatus == LastStatus(es, n)
  {
    if es != [] {
      var before, e := es[..|es|-1], es[|es|-1];
      RunFromInv(EMPTY_WORLD, before);
      if n in Run(before).procs {
        StatusIsRecorded(before, n);
      }
      StatusStep(Run(before), e, n);
    }
  }

  lemma StatusStep(w: World, e: Event, n: string)
    requires WorldInv(w) && n in Step(w, e).procs
    ensures Step(w, e).procs[n].exitStatus == NextStatus(w, e, n, if n in w.procs then w.procs[n].exitStatus else 0)
  {
    if n in w.procs {
      StepEffect(w, e, n);
    }
  }

  /** A process that was given up is never started by the supervisor itself, also if it still has a child. */
  lemma {:induction false} GivenUpStaysDown(w: World, es: seq<Event>, n: string)
    requires WorldInv(w) && n in w.procs && w.procs[n].state.FATAL? && Untouched(es, n)
    ensures n in RunFrom(w, es).procs
    ensures var p, q := w.procs[n], RunFrom(w, es).procs[n];
      q == p || (q.state.EXITED? && q.pid == -1 && q.retryCount == p.retryCount && q.id == p.id && q.config == p.config)
  {
    if es != [] {
      var before, e := es[..|es|-1], es[|es|-1];
      GivenUpStaysDown(w, before, n);
      RunFromInv(w, before);
      assert e == es[|before|];
      StepEffect(RunFrom(w, before), e, n);
      ZombiesArePositive(RunFrom(w, before));
    }
  }

  // ---- Being stopped ----

  /** A stop request makes a process with a child STOPPING, since the first such request, and does nothing
      to one without. */
  lemma StopBegins(w: World, n: string)
    requires WorldInv(w) && n in w.procs
    ensures var p, v := w.procs[n], Step(w, Stop(n));
      if p.pid > 0 then
        && v.procs == w.procs[n := p.(state := STOPPING, changed := if p.state.STOPPING? then p.changed else w.os.now)]
        && v.os.children == w.os.children && v.os.now == w.os.now
      else v == w
  {
    if w.procs[n].pid <= 0 {
      assert w.procs[n := w.procs[n]] == w.procs;
    }
  }

  /** Neither an operation of `n` nor its replacement. */
  predicate Elsewhere(e: Event, n: string) {
    !Touches(e, n) && !TickOf(e, n)
  }

  /** What happens elsewhere takes no child from `n` and gives it none, except that a child is reaped. */
  lemma ChildElsewhere(w: World, e: Event, n: string, c: int)
    requires WorldInv(w) && n in w.procs && Elsewhere(e, n)
    ensures var id := w.procs[n].id;
      IsChildOf(Step(w, e).os, c, id) <==> IsChildOf(w.os, c, id) && !(e == Reap(c) && IsZombie(w.os, c))
  {
    match e
    case Elapse(_) =>
    case EndChild(_, _) =>
    case Reap(_) =>
    case Add(config, took) => DestroyElsewhere(w, config.name, took, n, c);
    case Remove(m, took) => DestroyElsewhere(w, m, took, n, c);
    case _ =>
      if e.name in w.procs {
        ProcEventGood(w, e);
      }
  }

  lemma DestroyElsewhere(w: World, m: string, took: nat, n: string, c: int)
    requires WorldInv(w) && n in w.procs && m != n
    ensures IsChildOf(DestroyStep(w, m, took), c, w.procs[n].id) <==> IsChildOf(w.os, c, w.procs[n].id)
  {
    if m in w.procs {
      ProcStepsGood(w.os, w.procs[m], Fork(-1, 0), 0, took);
    }
  }

  ghost predicate NotKilled(es: seq<Event>, n: string) {
    forall k :: 0 <= k < |es| ==> !(es[k].Kill? && es[k].name == n)
  }

  /** While its child is there a process that is being stopped stays as it is; then it is STOPPED. */
  predicate StoppedAs(q: Proc, p: Proc, os: OS) {
    if IsChildOf(os, p.pid, p.id) then q == p
    else q.state.STOPPED? && q.pid == -1 && q.retryCount == 0 && q.id == p.id && q.config == p.config
  }

  lemma StoppedStep(v: World, e: Event, n: string, p: Proc)
    requires WorldInv(v) && n in v.procs && p.state.STOPPING? && p.pid > 0 && StoppedAs(v.procs[n], p, v.os)
    requires !Requests(e, n) && !(e.Kill? && e.name == n)
    ensures n in Step(v, e).procs && StoppedAs(Step(v, e).procs[n], p, Step(v, e).os)
  {
    StepEffect(v, e, n);
    if Elsewhere(e, n) {
      ChildElsewhere(v, e, n, p.pid);
      ZombiesArePositive(v);
    }
  }

  /** After a stop request, and until a request to start or replace the process or a kill: it is STOPPING as
      long as its child has not been reaped, and then STOPPED without child and without failures, and it
      stays so. */
  lemma {:induction false} StopEndsInStopped(w: World, n: string, es: seq<Event>)
    requires WorldInv(w) && n in w.procs && w.procs[n].pid > 0 && NoRequests(es, n) && NotKilled(es, n)
    ensures var v := RunFrom(Step(w, Stop(n)), es);
      n in v.procs && StoppedAs(v.procs[n], Step(w, Stop(n)).procs[n], v.os)
  {
    var v := Step(w, Stop(n));
    StopBegins(w, n);
    StepKeepsInv(w, Stop(n));
    if es == [] {
      assert ProcOk(w.os, w.procs[n]);
    } else {
      var before, e := es[..|es|-1], es[|es|-1];
      StopEndsInStopped(w, n, before);
      RunFromInv(v, before);
      assert e == es[|before|];
      StoppedStep(RunFrom(v, before), e, n, v.procs[n]);
    }
  }

  // ---- Being killed ----

  ghost predicate KilledIn(w: World, v: World, p: Proc) {
    && v.os.signals == w.os.signals + [Signal(p.id, p.pid, SIGKILL, w.os.now, true)]
    && v.os.children == w.os.children - {p.pid}
  }

  /** A kill sends SIGKILL to the child, waits for it, and leaves the process STOPPED until a request. */
  lemma KillIsFinal(w: World, n: string, took: nat, es: seq<Event>)
    requires WorldInv(w) && n in w.procs && w.procs[n].pid > 0 && NoRequests(es, n)
    ensures var p, v := w.procs[n], Step(w, Kill(n, took));
      && KilledIn(w, v, p) && v.os.now == w.os.now + took
      && n in RunFrom(v, es).procs
      && RunFrom(v, es).procs[n] == p.(state := STOPPED, pid := -1, changed := w.os.now + took)
  {
    var v := Step(w, Kill(n, took));
    assert ProcOk(w.os, w.procs[n]);
    StepEffect(w, Kill(n, took), n);
    StepKeepsInv(w, Kill(n, took));
    RestsUntilRequested(v, es, n);
  }

  /** Replacing or removing a process that has a child kills that child in the same way. */
  lemma ErasingKills(w: World, n: string, e: Event)
    requires WorldInv(w) && n in w.procs && w.procs[n].pid > 0
    requires (e.Remove? && e.name == n) || (e.Add? && e.config.name == n)
    ensures KilledIn(w, Step(w, e), w.procs[n]) && Step(w, e).os.now == w.os.now + e.took
    ensures if e.Remove? then n !in Step(w, e).procs
            else n in Step(w, e).procs && Step(w, e).procs[n] == NewProc(w.nextId, e.config, w.os.now)
  {
    assert ProcOk(w.os, w.procs[n]);
  }
}
