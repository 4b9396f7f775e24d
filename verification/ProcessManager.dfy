/** The manager (process_manager.cpp) as an object that updates its map and its processes in place,
    together with the daemon's reload guard and signal handler (supervisord.cpp). Every change is an
    event of a run: `trace` is the run so far, and `Valid` says that the objects are in the state the
    run leads to, so that everything proved over runs holds of the objects. `log` is what happened to
    the daemon. `depth` bounds how deeply requests may nest inside waits; it is arbitrary. */
module ProcessManagerModel {
  import opened Kernel
  import opened ProcessModel
  import opened Supervision
  import opened Ownership
  import opened Backoff
  import opened Wrappers
  import opened Sequences
  import opened Daemon
  import opened Grace

  datatype Waiting = UntilNoneRuns | UntilGone(p: Process)

  ghost predicate Enumerates(ks: seq<string>, names: set<string>) {
    && (forall k :: k in ks <==> k in names)
    && (forall i, j :: 0 <= i < j < |ks| ==> ks[i] != ks[j])
  }

  function AfterExit(p: Proc, pid: int, status: ExitStatus, now: int): Proc {
    if p.pid == pid then OnExitStep(p, status, now) else p
  }

  // ---- What a new configuration asks for ----

  predicate Names(progs: seq<ProgramConfig>, n: string) {
    exists i :: 0 <= i < |progs| && progs[i].name == n
  }

  /** The last entry for a name wins. */
  predicate IsLastEntry(progs: seq<ProgramConfig>, c: ProgramConfig) {
    exists i :: 0 <= i < |progs| && progs[i] == c && forall j :: i < j < |progs| ==> progs[j].name != c.name
  }

  predicate AllEntriesAre(progs: seq<ProgramConfig>, c: ProgramConfig) {
    forall i :: 0 <= i < |progs| && progs[i].name == c.name ==> progs[i] == c
  }

  /** Since event `from`, a process was created with `c` and a start was attempted at once. */
  ghost predicate StartAttempted(trace: seq<Event>, from: nat, c: ProgramConfig) {
    exists k :: from <= k && k + 1 < |trace| && trace[k].Add? && trace[k].config == c
      && trace[k+1].Start? && trace[k+1].name == c.name
  }

  /** The run `es` leads to `w`; the quantifier keeps the run folded up where `Run` is not mentioned. */
  ghost predicate Leads(es: seq<Event>, w: World) {
    forall fs :: fs == es ==> Run(fs) == w
  }

  lemma LeadsOn(es: seq<Event>, w: World, e: Event)
    requires Leads(es, w)
    ensures Leads(es + [e], Step(w, e))
  {
    RunSnoc(EMPTY_WORLD, es, e);
    assert Run(es) == w;
  }

  /** A map has gone from `m0` to the configuration `progs`: exactly the new names, each with the last
      entry for it; an object is kept exactly when every entry for its name equals its configuration;
      and every other one had a start attempted when it was created. */
  ghost predicate Reconfigured(progs: seq<ProgramConfig>, m0: map<string, Process>, m: map<string, Process>,
                               trace: seq<Event>, from: nat)
  {
    && (forall n :: n in m <==> Names(progs, n))
    && (forall n :: n in m ==> m[n].config.name == n && IsLastEntry(progs, m[n].config))
    && (forall n :: n in m && n in m0 ==> (m[n] == m0[n] <==> AllEntriesAre(progs, m0[n].config)))
    && (forall n :: n in m && !(n in m0 && m[n] == m0[n]) ==> StartAttempted(trace, from, m[n].config))
  }

  /** What happened to the daemon during a call that leaves the same reloads in progress: without a
      reload that begins meanwhile no iterator is lost. */
  ghost predicate Onward(log0: Log, log: Log, derailed0: bool, derailed: bool) {
    && log0 <= log && InProgress(log) == InProgress(log0)
    && (derailed0 ==> derailed)
    && (Without(log, |log0|, Began) ==> derailed == derailed0)
  }

  /** What a wait may have done, and what it cannot have done unless a reload began or a shutdown signal
      was handled meanwhile. */
  ghost predicate Waited(log0: Log, log: Log, derailed0: bool, derailed: bool,
                         m0: map<string, Process>, m: map<string, Process>)
  {
    && Onward(log0, log, derailed0, derailed)
    && (Without(log, |log0|, Began) ==> m == m0)
    && (Without(log, |log0|, Signalled) ==> derailed == derailed0)
  }

  /** No iterator has been lost, or at least no reload began that could lose one. */
  ghost predicate Sound(log0: Log, log: Log, derailed: bool) {
    !derailed || Without(log, |log0|, Began)
  }

  lemma SignalFirst(log0: Log, log: Log, derailed0: bool, derailed: bool, m0: map<string, Process>, m: map<string, Process>)
    requires Waited(log0 + [Signalled], log, derailed0, derailed, m0, m)
    ensures Waited(log0, log, derailed0, derailed, m0, m)
    ensures Sound(log0, log, derailed) ==> Sound(log0 + [Signalled], log, derailed)
  {
    Snoc(log0, Signalled);
    assert log[|log0|] == Signalled;
  }

  lemma FairOnward(from: nat, t: seq<Event>, t': seq<Event>, log0: Log, log1: Log, log2: Log, derailed1: bool, derailed2: bool)
    requires from <= |t| && t <= t' && log0 <= log1 <= log2 && (derailed1 ==> derailed2)
    requires Fair(t, from, Sound(log0, log1, derailed1)) && Fair(t', |t|, Sound(log1, log2, derailed2))
    ensures Fair(t', from, Sound(log0, log2, derailed2))
  {
    FairWeaker(t, from, Sound(log0, log1, derailed1), Sound(log0, log2, derailed2));
    FairWeaker(t', |t|, Sound(log1, log2, derailed2), Sound(log0, log2, derailed2));
    FairInTurn(t, t', from, Sound(log0, log2, derailed2));
  }

  ghost predicate AllWanted(progs: seq<ProgramConfig>, m: map<string, Process>) {
    forall n :: n in m ==> Names(progs, n)
  }

  /** The map is what `progs` asks for. */
  ghost predicate AlreadyThere(progs: seq<ProgramConfig>, m: map<string, Process>) {
    && AllWanted(progs, m)
    && (forall i :: 0 <= i < |progs| ==> progs[i].name in m && m[progs[i].name].config == progs[i])
  }

  class ProcessManager {
    const kernel: Kernel
    /** Whether the event loop belongs to a daemon, which handles signals and reloads on request. */
    const hasDaemon: bool
    var processMap: map<string, Process>
    var daemonState: DaemonState
    /** The handler of SIGTERM and SIGINT waits; it is set once. */
    var armed: bool
    /** io_context::stop has been called, after which nothing more is delivered. */
    var loopStopped: bool
    /** An iterator has been used although its entry was erased. C++ says nothing about what follows;
        the model goes on without the erase or the loop. */
    var derailed: bool
    var nextId: nat
    ghost var trace: seq<Event>
    ghost var world: World
    ghost var log: Log
    ghost var Repr: set<object>

    ghost predicate WellFormed()
      reads this, Repr
    {
      && Repr == {this, kernel} + processMap.Values
      && (forall n :: n in processMap ==> processMap[n] in Repr && processMap[n].kernel == kernel)
      && (forall n, m :: n in processMap && m in processMap && n != m ==> processMap[n] != processMap[m])
    }

    /** The objects are in the state `w`. */
    ghost predicate Shows(w: World)
      requires WellFormed()
      reads this, Repr
    {
      && kernel.View() == w.os
      && processMap.Keys == w.procs.Keys
      && (forall n :: n in processMap ==> processMap[n].View() == w.procs[n])
      && nextId == w.nextId
    }

    ghost predicate InState(w: World)
      reads this, Repr
    {
      WellFormed() && DaemonOk() && Shows(w) && Leads(trace, w)
    }

    /** The quantifier keeps the state folded up wherever `InState` is not mentioned. */
    ghost predicate Valid()
      reads this, Repr
    {
      Footprint() && forall w :: w == world ==> InState(w)
    }

    ghost predicate Footprint()
      reads this
    {
      this in Repr && kernel in Repr && processMap.Values <= Repr
    }

    ghost predicate DaemonOk()
      reads this
    {
      Legal(log) && daemonState == StateAfter(log) && (armed ==> Signalled !in log)
    }

    lemma Reachable()
      requires Valid()
      ensures InState(world) && world == Run(trace) && WorldInv(world)
    {
      assert InState(world);
      assert world == Run(trace);
      RunFromInv(EMPTY_WORLD, trace);
    }

    constructor (hasDaemon: bool)
      ensures Valid() && processMap == map[] && trace == [] && this.hasDaemon == hasDaemon
      ensures daemonState == DaemonState.RUNNING && armed && !loopStopped && !derailed && log == []
      ensures fresh(Repr)
    {
      this.hasDaemon := hasDaemon;
      kernel := new Kernel();
      processMap, nextId, trace, world := map[], 0, [], EMPTY_WORLD;
      daemonState, armed, loopStopped, derailed, log := DaemonState.RUNNING, true, false, false, [];
      Repr := {this, kernel};
      new;
      assert InState(world);
    }

    // ---- Indivisible operations ----

    method Keys() returns (ks: seq<string>)
      ensures Enumerates(ks, processMap.Keys)
    {
      ks := [];
      var rest := processMap.Keys;
      while rest != {}
        invariant rest <= processMap.Keys
        invariant Enumerates(ks, processMap.Keys - rest)
      {
        var k :| k in rest;
        ks, rest := ks + [k], rest - {k};
      }
    }

    ghost method Record(e: Event)
      requires WellFormed() && DaemonOk() && Leads(trace, world) && Shows(Step(world, e))
      modifies this`trace, this`world
      ensures Valid() && trace == old(trace) + [e] && world == Step(old(world), e)
    {
      LeadsOn(trace, world, e);
      trace, world := trace + [e], Step(world, e);
      assert InState(world);
    }

    /** Records an event in which only the process `name` and the kernel took part. */
    ghost method RecordFor(name: string, e: Event, s: Sys)
      requires WellFormed() && DaemonOk() && Leads(trace, world) && name in processMap && Step(world, e) == Put(world, name, s)
      requires kernel.View() == s.os && processMap[name].View() == s.p && nextId == world.nextId
      requires processMap.Keys == world.procs.Keys
      requires forall n :: n in processMap && n != name ==> processMap[n].View() == world.procs[n]
      modifies this`trace, this`world
      ensures Valid() && trace == old(trace) + [e]
    {
      Record(e);
    }

    /** A process that has a pid is the parent of an unreaped child. */
    lemma HasChild(name: string)
      requires Valid() && name in processMap
      ensures var p := processMap[name]; p.pid > 0 ==> p.pid in kernel.children && p.state != STOPPED
    {
      Reachable();
      assert ProcOk(world.os, world.procs[name]);
    }

    lemma ChildrenArePositive()
      requires Valid()
      ensures forall c :: c in kernel.children ==> c > 0
    {
      Reachable();
    }

    lemma DistinctPids(w: World)
      requires Leads(trace, w)
      ensures forall n, m :: n in w.procs && m in w.procs && n != m && w.procs[n].pid > 0 ==> w.procs[n].pid != w.procs[m].pid
    {
      assert w == Run(trace);
      RunFromInv(EMPTY_WORLD, trace);
      assert forall n :: n in w.procs ==> ProcOk(w.os, w.procs[n]);
    }

    method ElapseTime(least: nat)
      requires Valid()
      modifies this`trace, this`world, kernel
      ensures Valid() && old(trace) <= trace
      ensures kernel.now >= old(kernel.now) + least && PeacefulFrom(trace, |old(trace)|)
    {
      assert InState(world);
      ghost var d := kernel.Elapse(least);
      Record(Elapse(d));
    }

    method EndSomeChild()
      requires Valid()
      modifies this`trace, this`world, kernel
      ensures Valid() && old(trace) <= trace && kernel.now == old(kernel.now)
      ensures PeacefulFrom(trace, |old(trace)|)
    {
      var pid: int :| true;
      var code: int :| true;
      var kind: int :| true;
      var status := if kind == 0 then Exited(code) else if kind == 1 then Signaled(code) else OtherStatus(code);
      assert InState(world);
      kernel.EndChild(pid, status);
      Record(EndChild(pid, status));
    }

    method StartProcess(name: string) returns (ok: bool, ghost fork: Fork)
      requires Valid()
      modifies this`trace, this`world, Repr - {this}
      ensures Valid() && kernel.now >= old(kernel.now)
      ensures name !in processMap ==> !ok && trace == old(trace)
      ensures name in processMap ==> trace == old(trace) + [Start(name, fork)]
      ensures name in processMap ==>
        (ok <==> UpOrComingUp(old(processMap[name].state)) || ForkSucceeds(old(kernel.View()), fork))
    {
      fork := Fork(-1, 0);
      if name !in processMap {
        return false, fork;
      }
      assert InState(world);
      ok, fork := processMap[name].Start();
      RecordFor(name, Start(name, fork), StartStep(world.os, world.procs[name], fork));
    }

    /** stop() on one process: it is refused exactly when there is no child, and when it is not
        refused the signal always finds its target. */
    method StopOne(name: string) returns (ok: bool)
      requires Valid() && name in processMap
      modifies this`trace, this`world, Repr - {this}
      ensures Valid() && trace == old(trace) + [Stop(name)] && kernel.now == old(kernel.now)
      ensures ok <==> old(processMap[name].pid) > 0
      ensures forall n :: n in processMap ==> processMap[n].pid == old(processMap[n].pid)
    {
      HasChild(name);
      assert InState(world);
      ok := processMap[name].Stop();
      RecordFor(name, Stop(name), StopStep(world.os, world.procs[name]));
    }

    method KillOne(name: string)
      requires Valid() && name in processMap
      modifies this`trace, this`world, Repr - {this}
      ensures Valid() && old(trace) <= trace && kernel.now >= old(kernel.now)
      ensures |trace| == |old(trace)| + 1 && trace[|old(trace)|].Kill? && trace[|old(trace)|].name == name
      ensures processMap[name].pid <= 0
      ensures forall n :: n in processMap && n != name ==> processMap[n].pid == old(processMap[n].pid)
    {
      assert InState(world);
      ghost var took := processMap[name].Kill();
      RecordFor(name, Kill(name, took), KillStep(world.os, world.procs[name], took));
    }

    method UpdateOne(name: string)
      requires Valid() && name in processMap
      modifies this`trace, this`world, Repr - {this}
      ensures Valid() && kernel.now >= old(kernel.now)
      ensures |trace| == |old(trace)| + 1 && old(trace) <= trace
      ensures trace[|old(trace)|].Update? && trace[|old(trace)|].name == name
    {
      var undef: int :| true;
      assert InState(world);
      ghost var fork := processMap[name].Update(undef);
      RecordFor(name, Update(name, fork, undef), UpdateStep(world.os, world.procs[name], fork, undef));
    }

    /** The destructor of a process that is about to leave the map. */
    method Destroy(name: string) returns (ghost took: nat)
      requires WellFormed() && Shows(world)
      modifies Repr - {this}
      ensures WellFormed() && kernel.View() == DestroyStep(world, name, took)
      ensures forall n :: n in processMap && n != name ==> processMap[n].View() == old(processMap[n].View())
      ensures name in processMap ==> processMap[name].pid <= 0
    {
      took := 0;
      if name in processMap {
        took := processMap[name].Kill();
      }
    }

    method AddProcess(config: ProgramConfig)
      requires Valid()
      modifies this`processMap, this`nextId, this`Repr, this`trace, this`world, Repr - {this}
      ensures Valid()
      ensures config.name in processMap && fresh(processMap[config.name]) && Repr <= old(Repr) + {processMap[config.name]}
      ensures processMap == old(processMap)[config.name := processMap[config.name]]
      ensures processMap[config.name].config == config
      ensures |trace| == |old(trace)| + 1 && old(trace) <= trace
      ensures trace[|old(trace)|].Add? && trace[|old(trace)|].config == config
      ensures kernel.now >= old(kernel.now)
    {
      assert InState(world);
      var p := new Process(nextId, config, kernel);
      ghost var took := Destroy(config.name);
      Install(p, took);
    }

    method Install(p: Process, ghost took: nat)
      requires WellFormed() && DaemonOk() && p !in Repr && p.kernel == kernel && Leads(trace, world)
      requires kernel.View() == DestroyStep(world, p.config.name, took) && nextId == world.nextId
      requires processMap.Keys == world.procs.Keys
      requires forall n :: n in processMap && n != p.config.name ==> processMap[n].View() == world.procs[n]
      requires p.View() == NewProc(nextId, p.config, world.os.now)
      modifies this`processMap, this`nextId, this`Repr, this`trace, this`world
      ensures Valid()
      ensures processMap == old(processMap)[p.config.name := p] && Repr <= old(Repr) + {p}
      ensures trace == old(trace) + [Add(p.config, took)]
    {
      Insert(p);
      ghost var e := Add(p.config, took);
      assert Step(world, e).procs == world.procs[p.config.name := p.View()];
      Record(e);
    }

    method Insert(p: Process)
      requires WellFormed() && p !in Repr && p.kernel == kernel
      modifies this`processMap, this`nextId, this`Repr
      ensures WellFormed() && processMap == old(processMap)[p.config.name := p]
      ensures nextId == old(nextId) + 1 && Repr <= old(Repr) + {p}
    {
      processMap := processMap[p.config.name := p];
      nextId := nextId + 1;
      Repr := {this, kernel} + processMap.Values;
      assert processMap[p.config.name] == p;
    }

    /** Erasing a map entry destroys the process, and the destructor kills a child that is left. */
    method Erase(name: string)
      requires Valid() && name in processMap
      modifies this`processMap, this`Repr, this`trace, this`world, Repr - {this}
      ensures Valid() && kernel.now >= old(kernel.now)
      ensures processMap == old(processMap) - {name} && old(processMap)[name].pid <= 0 && Repr <= old(Repr)
      ensures |trace| == |old(trace)| + 1 && old(trace) <= trace
      ensures trace[|old(trace)|].Remove? && trace[|old(trace)|].name == name
    {
      assert InState(world);
      ghost var took := Destroy(name);
      Forget(name);
      Record(Remove(name, took));
    }

    method Forget(name: string)
      requires WellFormed()
      modifies this`processMap, this`Repr
      ensures WellFormed() && processMap == old(processMap) - {name} && Repr <= old(Repr)
    {
      processMap := processMap - {name};
      Repr := {this, kernel} + processMap.Values;
    }

    // ---- Loops over the map ----

    method StartAll()
      requires Valid()
      modifies this`trace, this`world, Repr - {this}
      ensures Valid() && old(trace) <= trace && kernel.now >= old(kernel.now)
      ensures forall i, j :: |old(trace)| <= i < j < |trace| ==> trace[i].Start? && trace[j].Start? && trace[i].name != trace[j].name
      ensures PeacefulFrom(trace, |old(trace)|)
      ensures forall n :: n in processMap ==>
        exists i :: |old(trace)| <= i < |trace| && trace[i].Start? && trace[i].name == n
    {
      var ks := Keys();
      for i := 0 to |ks|
        invariant Valid() && old(trace) <= trace && kernel.now >= old(kernel.now)
        invariant |trace| == |old(trace)| + i
        invariant forall k :: |old(trace)| <= k < |trace| ==> trace[k].Start? && trace[k].name == ks[k - |old(trace)|]
      {
        var _, _ := StartProcess(ks[i]);
      }
      forall n | n in processMap
        ensures exists i :: |old(trace)| <= i < |trace| && trace[i].Start? && trace[i].name == n
      {
        var j :| 0 <= j < |ks| && ks[j] == n;
        assert trace[|old(trace)| + j].Start?;
      }
    }

    /** One timer tick updates every process exactly once. */
    method OnTimer() returns (ghost order: seq<string>)
      requires Valid()
      modifies this`trace, this`world, Repr - {this}
      ensures Valid() && old(trace) <= trace && kernel.now >= old(kernel.now)
      ensures Enumerates(order, processMap.Keys) && |trace| == |old(trace)| + |order|
      ensures forall k :: |old(trace)| <= k < |trace| ==> trace[k].Update? && trace[k].name == order[k - |old(trace)|]
    {
      var ks := Keys();
      for i := 0 to |ks|
        invariant Valid() && old(trace) <= trace && kernel.now >= old(kernel.now)
        invariant |trace| == |old(trace)| + i
        invariant forall k :: |old(trace)| <= k < |trace| ==> trace[k].Update? && trace[k].name == ks[k - |old(trace)|]
      {
        UpdateOne(ks[i]);
      }
      order := ks;
    }

    method HasRunningProcesses() returns (r: bool)
      ensures r <==> exists n :: n in processMap && processMap[n].pid > 0
    {
      var ks := Keys();
      for i := 0 to |ks|
        invariant forall j :: 0 <= j < i ==> processMap[ks[j]].pid <= 0
      {
        if processMap[ks[i]].pid > 0 {
          return true;
        }
      }
      r := false;
    }

    /** The first-match loop: since at most one process has the pid, the exit goes to the one that
        has it and to no other. */
    method Deliver(pid: int, status: ExitStatus)
      requires WellFormed()
      requires forall n, m :: n in processMap && m in processMap && n != m ==>
        !(processMap[n].pid == pid && processMap[m].pid == pid)
      requires pid > 0
      modifies processMap.Values
      ensures forall n :: n in processMap ==> processMap[n].View() == AfterExit(old(processMap[n].View()), pid, status, kernel.now)
    {
      var ks := Keys();
      var i := 0;
      while i < |ks|
        invariant 0 <= i <= |ks|
        invariant forall n :: n in processMap ==> processMap[n].View() == old(processMap[n].View())
        invariant forall j :: 0 <= j < i ==> processMap[ks[j]].pid != pid
      {
        if processMap[ks[i]].pid == pid {
          processMap[ks[i]].OnExit(status);
          return;
        }
        i := i + 1;
      }
    }

    lemma ReapIsDelivery(w: World, pid: int)
      requires WorldInv(w) && IsZombie(w.os, pid)
      ensures var w' := Step(w, Reap(pid));
        && w'.os == DoWait(w.os, pid, 0) && w'.nextId == w.nextId && w'.procs.Keys == w.procs.Keys
        && forall n :: n in w.procs ==> w'.procs[n] == AfterExit(w.procs[n], pid, w.os.children[pid].exit.value, w.os.now)
    {
      if HasPid(w, pid) {
        var h := HolderOf(w, pid);
        assert forall n :: n in w.procs && w.procs[n].pid == pid ==> n == h;
      } else {
        assert forall n :: n in w.procs ==> w.procs[n].pid != pid;
      }
    }

    ghost method RecordReap(pid: int, status: ExitStatus)
      requires WellFormed() && DaemonOk() && Leads(trace, world) && IsZombie(world.os, pid)
      requires world.os.children[pid].exit == Some(status)
      requires kernel.View() == DoWait(world.os, pid, 0) && nextId == world.nextId
      requires processMap.Keys == world.procs.Keys
      requires forall n :: n in processMap ==> processMap[n].View() == AfterExit(world.procs[n], pid, status, world.os.now)
      modifies this`trace, this`world
      ensures Valid() && trace == old(trace) + [Reap(pid)]
    {
      assert Run(trace) == world;
      RunFromInv(EMPTY_WORLD, trace);
      ReapIsDelivery(world, pid);
      Record(Reap(pid));
    }

    method ReapOne() returns (pid: int)
      requires Valid()
      modifies this`trace, this`world, Repr - {this}
      ensures Valid() && old(trace) <= trace && kernel.now == old(kernel.now)
      ensures pid <= 0 <==> !HasZombie(old(kernel.View()))
      ensures pid <= 0 ==> kernel.View() == old(kernel.View()) && trace == old(trace)
      ensures pid > 0 ==> trace == old(trace) + [Reap(pid)] && |kernel.children| < |old(kernel.children)|
    {
      ChildrenArePositive();
      assert InState(world);
      var status;
      pid, status := kernel.WaitAny();
      if pid > 0 {
        FewerChildren(old(kernel.children), pid);
        HandOver(pid, status);
      }
    }

    /** The child has been reaped; its process takes the exit. */
    method HandOver(pid: int, status: ExitStatus)
      requires WellFormed() && DaemonOk() && Leads(trace, world) && IsZombie(world.os, pid)
      requires world.os.children[pid].exit == Some(status) && pid > 0
      requires kernel.View() == DoWait(world.os, pid, 0) && nextId == world.nextId
      requires processMap.Keys == world.procs.Keys
      requires forall n :: n in processMap ==> processMap[n].View() == world.procs[n]
      modifies this`trace, this`world, processMap.Values
      ensures Valid() && trace == old(trace) + [Reap(pid)]
    {
      DistinctPids(world);
      Deliver(pid, status);
      RecordReap(pid, status);
    }

    lemma FewerChildren(children: map<int, Child>, pid: int)
      requires pid in children
      ensures |children - {pid}| < |children|
    {
      assert (children - {pid}).Keys == children.Keys - {pid};
      assert |(children - {pid}).Keys| < |children.Keys|;
    }

    /** Reaps every child that has ended; nobody is left waiting to be reaped. */
    method HandleSigchld() returns (reaped: bool)
      requires Valid()
      modifies this`trace, this`world, Repr - {this}
      ensures Valid() && old(trace) <= trace && kernel.now == old(kernel.now)
      ensures !HasZombie(kernel.View())
      ensures reaped <==> HasZombie(old(kernel.View()))
      ensures forall i :: |old(trace)| <= i < |trace| ==> trace[i].Reap?
    {
      reaped := false;
      while true
        invariant Valid() && old(trace) <= trace && kernel.now == old(kernel.now)
        invariant !reaped ==> kernel.View() == old(kernel.View())
        invariant reaped ==> HasZombie(old(kernel.View()))
        invariant forall i :: |old(trace)| <= i < |trace| ==> trace[i].Reap?
        decreases |kernel.children|
      {
        var pid := ReapOne();
        if pid <= 0 {
          return;
        }
        reaped := true;
      }
    }

    // ---- Waits, with arbitrary events nested inside them ----

    /** One thing the event loop may deliver. */
    method SomeEvent(depth: nat)
      requires Valid()
      modifies Repr
      ensures Valid() && old(trace) <= trace && kernel.now >= old(kernel.now)
      ensures Waited(old(log), log, old(derailed), derailed, old(processMap), processMap)
      ensures Fair(trace, |old(trace)|, Sound(old(log), log, derailed))
      ensures fresh(Repr - old(Repr))
      decreases depth, 0
    {
      var choice: int :| true;
      var name: string :| true;
      if depth == 0 || choice <= 5 {
        SimpleEvent(choice, name);
        PeacefulIsFair(trace, |old(trace)|, Sound(old(log), log, derailed));
      } else if choice == 6 {
        var _ := StopProcess(name, depth - 1);
      } else if choice == 7 {
        StopAll(depth - 1);
      } else {
        DaemonEvent(choice, depth - 1);
      }
    }

    /** One that does not wait for anything itself. */
    method SimpleEvent(choice: int, name: string)
      requires Valid()
      modifies this`trace, this`world, Repr - {this}
      ensures Valid() && old(trace) <= trace && kernel.now >= old(kernel.now) && PeacefulFrom(trace, |old(trace)|)
    {
      if choice == 1 {
        EndSomeChild();
      } else if choice == 2 {
        var _ := HandleSigchld();
      } else if choice == 3 {
        ghost var _ := OnTimer();
      } else if choice == 4 {
        var _, _ := StartProcess(name);
      } else if choice == 5 {
        StartAll();
      } else {
        ElapseTime(0);
      }
    }

    /** What only a daemon handles: a signal to shut down, a request to shut down, a request to reload. */
    method DaemonEvent(choice: int, depth: nat)
      requires Valid()
      modifies Repr
      ensures Valid() && old(trace) <= trace && kernel.now >= old(kernel.now)
      ensures Waited(old(log), log, old(derailed), derailed, old(processMap), processMap)
      ensures Fair(trace, |old(trace)|, Sound(old(log), log, derailed))
      ensures fresh(Repr - old(Repr))
      decreases depth, 8
    {
      if hasDaemon && choice == 8 && armed {
        HandleShutdownSignal(depth);
      } else if hasDaemon && choice == 9 {
        ShutdownOnRequest(depth);
      } else if hasDaemon {
        var parsed: Option<seq<ProgramConfig>> :| true;
        ReloadConfig(parsed, depth);
      } else {
        PeacefulIsFair(trace, |old(trace)|, Sound(old(log), log, derailed));
      }
    }

    /** io_context::run_for: takes time and delivers any number of events, until it is stopped. */
    method RunFor(depth: nat)
      requires Valid()
      modifies Repr
      ensures Valid() && old(trace) <= trace && kernel.now > old(kernel.now)
      ensures Waited(old(log), log, old(derailed), derailed, old(processMap), processMap)
      ensures Fair(trace, |old(trace)|, Sound(old(log), log, derailed))
      ensures fresh(Repr - old(Repr))
      decreases depth, 1
    {
      ElapseTime(1);
      PeacefulIsFair(trace, |old(trace)|, Sound(old(log), log, derailed));
      var n: nat :| true;
      while n > 0 && !loopStopped
        invariant Valid() && old(trace) <= trace && kernel.now > old(kernel.now)
        invariant Waited(old(log), log, old(derailed), derailed, old(processMap), processMap)
        invariant Fair(trace, |old(trace)|, Sound(old(log), log, derailed))
        invariant fresh(Repr - old(Repr))
      {
        ghost var t, l, d := trace, log, derailed;
        SomeEvent(depth);
        FairOnward(|old(trace)|, t, trace, old(log), l, log, d, derailed);
        n := n - 1;
      }
    }

    ghost predicate Holds(w: Waiting)
      reads this, processMap.Values, if w.UntilGone? then {w.p} else {}
    {
      match w
      case UntilNoneRuns => exists n :: n in processMap && processMap[n].pid > 0
      case UntilGone(p) => p.pid > 0
    }

    method KeepWaiting(w: Waiting) returns (r: bool)
      ensures r <==> Holds(w)
    {
      match w
      case UntilNoneRuns => r := HasRunningProcesses();
      case UntilGone(p) => r := p.pid > 0;
    }

    /** Ends as soon as the awaited condition is seen, and at the deadline at the latest: the loop
        terminates because each round either reaps what has ended or takes time. */
    method ReapUntil(duration: int, w: Waiting, depth: nat)
      requires Valid()
      modifies Repr
      ensures Valid() && old(trace) <= trace && kernel.now >= old(kernel.now)
      ensures Waited(old(log), log, old(derailed), derailed, old(processMap), processMap)
      ensures Fair(trace, |old(trace)|, Sound(old(log), log, derailed))
      ensures fresh(Repr - old(Repr))
      ensures Holds(w) ==> kernel.now >= old(kernel.now) + duration
      ensures !old(Holds(w)) ==> trace == old(trace) && log == old(log)
      decreases depth, 2, 1
    {
      var deadline := kernel.now + duration;
      var keep := KeepWaiting(w);
      PeacefulIsFair(trace, |old(trace)|, Sound(old(log), log, derailed));
      while keep && kernel.now < deadline
        invariant Valid() && old(trace) <= trace && kernel.now >= old(kernel.now)
        invariant Waited(old(log), log, old(derailed), derailed, old(processMap), processMap)
        invariant Fair(trace, |old(trace)|, Sound(old(log), log, derailed))
        invariant fresh(Repr - old(Repr))
        invariant keep <==> Holds(w)
        invariant !old(Holds(w)) ==> !keep && trace == old(trace) && log == old(log)
        decreases deadline - kernel.now, if HasZombie(kernel.View()) then 1 else 0
      {
        ghost var t, l, d := trace, log, derailed;
        ReapOrRun(depth);
        FairOnward(|old(trace)|, t, trace, old(log), l, log, d, derailed);
        keep := KeepWaiting(w);
      }
    }

    method ReapOrRun(depth: nat)
      requires Valid()
      modifies Repr
      ensures Valid() && old(trace) <= trace && kernel.now >= old(kernel.now)
      ensures Waited(old(log), log, old(derailed), derailed, old(processMap), processMap)
      ensures Fair(trace, |old(trace)|, Sound(old(log), log, derailed))
      ensures fresh(Repr - old(Repr))
      ensures kernel.now > old(kernel.now) || (old(HasZombie(kernel.View())) && !HasZombie(kernel.View()))
      decreases depth, 2, 0
    {
      ghost var t0, l0, d0 := trace, log, derailed;
      var reaped := HandleSigchld();
      PeacefulIsFair(trace, |t0|, Sound(l0, log, derailed));
      if !reaped {
        ghost var t := trace;
        RunFor(depth);
        FairOnward(|t0|, t, trace, l0, l0, log, d0, derailed);
      }
    }

    method StopProcess(name: string, depth: nat) returns (ok: bool)
      requires Valid()
      modifies Repr
      ensures Valid() && old(trace) <= trace && kernel.now >= old(kernel.now)
      ensures Waited(old(log), log, old(derailed), derailed, old(processMap), processMap)
      ensures Fair(trace, |old(trace)|, Sound(old(log), log, derailed))
      ensures fresh(Repr - old(Repr))
      ensures ok <==> name in old(processMap) && old(processMap[name].pid) > 0
      ensures name !in old(processMap) ==> trace == old(trace)
      ensures name in old(processMap) ==> old(trace) + [Stop(name)] <= trace
      ensures name in old(processMap) && !ok ==> trace == old(trace) + [Stop(name)]
      ensures ok && old(processMap)[name].pid > 0 ==>
        kernel.now >= old(kernel.now) + (old(processMap)[name].config.stopwaitsecs + 1) * SECOND
      decreases depth, 3
    {
      ghost var t0, l0, d0 := trace, log, derailed;
      PeacefulIsFair(trace, |t0|, Sound(l0, log, derailed));
      if name !in processMap {
        return false;
      }
      var p := processMap[name];
      ok := StopOne(name);
      PeacefulIsFair(trace, |t0|, Sound(l0, log, derailed));
      if !ok {
        return;
      }
      ghost var t := trace;
      ReapUntil((p.config.stopwaitsecs + 1) * SECOND, UntilGone(p), depth);
      FairOnward(|t0|, t, trace, l0, l0, log, d0, derailed);
    }

    /** The objects are where the run has led. */
    lemma Facts()
      requires Valid()
      ensures var w := Run(trace);
        && w.os.now == kernel.now && w.procs.Keys == processMap.Keys
        && forall n :: n in processMap ==> w.procs[n] == processMap[n].View()
    {
      Reachable();
    }

    /** Whatever is interleaved in the wait, on return no managed process has a child. */
    method StopAll(depth: nat)
      requires Valid()
      modifies Repr
      ensures Valid() && old(trace) <= trace && kernel.now >= old(kernel.now)
      ensures Waited(old(log), log, old(derailed), derailed, old(processMap), processMap)
      ensures Fair(trace, |old(trace)|, Sound(old(log), log, derailed))
      ensures fresh(Repr - old(Repr))
      ensures forall n :: n in processMap ==> processMap[n].pid <= 0
      ensures forall n :: n in old(processMap) && old(processMap[n].pid) > 0 ==> Stop(n) in trace[|old(trace)|..]
      ensures (forall n :: n in old(processMap) ==> old(processMap[n].pid) <= 0) ==> trace == old(trace) && log == old(log)
      decreases depth, 3
    {
      ghost var t0, l0, d0 := trace, log, derailed;
      PeacefulIsFair(trace, |t0|, Sound(l0, log, derailed));
      if processMap == map[] {
        return;
      }
      var signaled, maxWait := WarnAll();
      if signaled == 0 {
        return;
      }
      ghost var t1 := trace;
      WaitForAll(maxWait, depth);
      ghost var t2 := trace;
      ForceKill();
      StillThere(t1, trace, |t0|);
      StopAllIsFair(t0, t1, t2, trace, maxWait, Sound(l0, log, derailed));
    }

    /** Sends the stop signals, and finds out how long to wait. */
    method WarnAll() returns (signaled: nat, maxWait: nat)
      requires Valid()
      modifies this`trace, this`world, Repr - {this}
      ensures Valid() && old(trace) <= trace && kernel.now == old(kernel.now)
      ensures signaled == 0 <==> forall n :: n in processMap ==> processMap[n].pid <= 0
      ensures signaled == 0 <==> forall n :: n in processMap ==> old(processMap[n].pid) <= 0
      ensures signaled == 0 ==> trace == old(trace)
      ensures forall n :: n in processMap && old(processMap[n].pid) > 0 ==> Stop(n) in trace[|old(trace)|..]
      ensures AllWarned(old(trace), trace, maxWait)
    {
      Facts();
      ghost var sent;
      signaled, sent := SignalAll();
      StopsArePeaceful(old(trace), sent);
      Facts();
      maxWait := LongestStop();
    }

    method WaitForAll(maxWait: nat, depth: nat)
      requires Valid()
      modifies Repr
      ensures Valid() && old(trace) <= trace && kernel.now >= old(kernel.now)
      ensures Waited(old(log), log, old(derailed), derailed, old(processMap), processMap)
      ensures Fair(trace, |old(trace)|, Sound(old(log), log, derailed))
      ensures fresh(Repr - old(Repr))
      ensures AllWaitedFor(old(trace), trace, maxWait)
      decreases depth, 2, 2
    {
      Facts();
      ReapUntil((maxWait + 1) * SECOND, UntilNoneRuns, depth);
      Facts();
    }

    method SignalAll() returns (signaled: nat, ghost sent: seq<Event>)
      requires Valid()
      modifies this`trace, this`world, Repr - {this}
      ensures Valid() && trace == old(trace) + sent && kernel.now == old(kernel.now)
      ensures forall n :: n in processMap ==> processMap[n].pid == old(processMap[n].pid)
      ensures signaled == 0 <==> forall n :: n in processMap ==> processMap[n].pid <= 0
      ensures forall n :: n in processMap && processMap[n].pid > 0 ==> Stop(n) in sent
      ensures signaled == |sent| && AllStops(sent)
    {
      var ks := Keys();
      signaled, sent := 0, [];
      for i := 0 to |ks|
        invariant Valid() && trace == old(trace) + sent && kernel.now == old(kernel.now)
        invariant signaled == |sent| && AllStops(sent)
        invariant forall n :: n in processMap ==> processMap[n].pid == old(processMap[n].pid)
        invariant signaled == 0 <==> forall j :: 0 <= j < i ==> processMap[ks[j]].pid <= 0
        invariant forall j :: 0 <= j < i && processMap[ks[j]].pid > 0 ==> Stop(ks[j]) in sent
      {
        if processMap[ks[i]].pid > 0 {
          var _ := StopOne(ks[i]);
          sent := sent + [Stop(ks[i])];
          signaled := signaled + 1;
        }
      }
    }

    method LongestStop() returns (longest: nat)
      requires Valid()
      ensures forall n :: n in processMap && processMap[n].pid > 0 ==> processMap[n].config.stopwaitsecs <= longest
      ensures forall n :: n in Run(trace).procs && Run(trace).procs[n].pid > 0 ==>
        Run(trace).procs[n].config.stopwaitsecs <= longest
    {
      var ks := Keys();
      longest := 0;
      Facts();
      for i := 0 to |ks|
        invariant forall j :: 0 <= j < i && processMap[ks[j]].pid > 0 ==> processMap[ks[j]].config.stopwaitsecs <= longest
      {
        if processMap[ks[i]].pid > 0 {
          longest := Max(longest, processMap[ks[i]].config.stopwaitsecs);
        }
      }
    }

    method ForceKill()
      requires Valid()
      modifies this`trace, this`world, Repr - {this}
      ensures Valid() && old(trace) <= trace && kernel.now >= old(kernel.now)
      ensures forall k :: |old(trace)| <= k < |trace| ==> trace[k].Kill?
      ensures forall n :: n in processMap ==> processMap[n].pid <= 0
    {
      var ks := Keys();
      for i := 0 to |ks|
        invariant Valid() && old(trace) <= trace && kernel.now >= old(kernel.now)
        invariant forall k :: |old(trace)| <= k < |trace| ==> trace[k].Kill?
        invariant forall j :: 0 <= j < i ==> processMap[ks[j]].pid <= 0
      {
        if processMap[ks[i]].pid > 0 {
          KillOne(ks[i]);
        }
      }
    }

    // ---- The daemon ----

    /** The state is stored and nothing else happens. */
    method StoreState(s: DaemonState, ghost h: Happening)
      requires Valid() && Possible(log, h) && s == StateAfter(log + [h]) && (h.Signalled? ==> !armed)
      modifies this`daemonState, this`log
      ensures Valid() && daemonState == s && log == old(log) + [h]
    {
      assert InState(world);
      Snoc(log, h);
      daemonState, log := s, log + [h];
      assert InState(world);
    }

    method TakeShutdownSignal()
      requires Valid() && armed
      modifies this`armed, this`daemonState, this`log
      ensures Valid() && !armed && daemonState == SHUTDOWN && log == old(log) + [Signalled]
    {
      assert InState(world);
      armed := false;
      StoreState(SHUTDOWN, Signalled);
    }

    /** SIGTERM or SIGINT. */
    method HandleShutdownSignal(depth: nat)
      requires Valid() && armed
      modifies Repr
      ensures Valid() && old(trace) <= trace && kernel.now >= old(kernel.now)
      ensures Waited(old(log), log, old(derailed), derailed, old(processMap), processMap)
      ensures Fair(trace, |old(trace)|, Sound(old(log), log, derailed))
      ensures fresh(Repr - old(Repr))
      ensures loopStopped && forall n :: n in processMap ==> processMap[n].pid <= 0
      ensures old(log) + [Signalled] <= log
      decreases depth, 4
    {
      ghost var t0, l0, d0, m0 := trace, log, derailed, processMap;
      TakeShutdownSignal();
      StopAll(depth);
      SignalFirst(l0, log, d0, derailed, m0, processMap);
      FairWeaker(trace, |t0|, Sound(l0 + [Signalled], log, derailed), Sound(l0, log, derailed));
      StopLoop();
    }

    /** The request to shut down leaves the state alone. */
    method ShutdownOnRequest(depth: nat)
      requires Valid()
      modifies Repr
      ensures Valid() && old(trace) <= trace && kernel.now >= old(kernel.now)
      ensures Waited(old(log), log, old(derailed), derailed, old(processMap), processMap)
      ensures Fair(trace, |old(trace)|, Sound(old(log), log, derailed))
      ensures fresh(Repr - old(Repr))
      ensures loopStopped && forall n :: n in processMap ==> processMap[n].pid <= 0
      decreases depth, 4
    {
      StopAll(depth);
      StopLoop();
    }

    method StopLoop()
      requires Valid()
      modifies this`loopStopped
      ensures Valid() && loopStopped
    {
      assert InState(world);
      loopStopped := true;
      assert InState(world);
    }

    // ---- Reconfiguration ----

    /** The entry is held during the wait and then erased, so that what happens depends on whether it is
        still there; it is unless a reload began in the wait. */
    method RemoveProcess(name: string, depth: nat) returns (found: bool)
      requires Valid()
      modifies Repr
      ensures Valid() && old(trace) <= trace && kernel.now >= old(kernel.now)
      ensures fresh(Repr - old(Repr))
      ensures Onward(old(log), log, old(derailed), derailed)
      ensures Fair(trace, |old(trace)|, Sound(old(log), log, derailed))
      ensures found <==> name in old(processMap)
      ensures !found ==> processMap == old(processMap) && trace == old(trace) && log == old(log)
      ensures Without(log, |old(log)|, Began) ==> processMap == old(processMap) - {name}
      ensures found && old(processMap[name].pid) > 0 ==> old(trace) + [Stop(name)] <= trace
      ensures found && old(processMap[name].pid) <= 0 ==> |trace| == |old(trace)| + 1
      ensures found && Sound(old(log), log, derailed) ==>
        && name !in processMap && old(processMap)[name].pid <= 0
        && trace != [] && trace[|trace|-1].Remove? && trace[|trace|-1].name == name
      decreases depth, 4
    {
      ghost var t0, l0 := trace, log;
      PeacefulIsFair(trace, |t0|, Sound(l0, log, derailed));
      if name !in processMap {
        assert processMap - {name} == processMap;
        return false;
      }
      var held := processMap[name];
      StopHeld(name, held, depth);
      ghost var t, d := trace, derailed;
      EraseHeld(name, held);
      FairWeaker(t, |t0|, Sound(l0, log, d), Sound(l0, log, derailed));
      if t != trace {
        assert trace == t + [Remove(name, trace[|t|].took)];
        RemovalIsFair(t0, t, name, trace[|t|].took, Sound(l0, log, derailed));
      }
      found := true;
    }

    /** Asks the process to stop if it has a child, and waits for that child. */
    method StopHeld(name: string, held: Process, depth: nat)
      requires Valid() && name in processMap && processMap[name] == held
      modifies Repr
      ensures Valid() && old(trace) <= trace && kernel.now >= old(kernel.now)
      ensures Waited(old(log), log, old(derailed), derailed, old(processMap), processMap)
      ensures Fair(trace, |old(trace)|, Sound(old(log), log, derailed))
      ensures fresh(Repr - old(Repr))
      ensures if old(held.pid) > 0 then old(trace) + [Stop(name)] <= trace else trace == old(trace) && log == old(log)
      ensures StillHeld(name, held) && name in Run(trace).procs && Run(trace).procs[name].pid > 0 ==>
        && old(trace) + [Stop(name)] <= trace
        && Run(trace).os.now >= Run(old(trace)).os.now + (Run(trace).procs[name].config.stopwaitsecs + 1) * SECOND
      decreases depth, 4, 0
    {
      Facts();
      PeacefulIsFair(trace, |old(trace)|, Sound(old(log), log, derailed));
      if held.pid > 0 {
        var _ := StopProcess(name, depth);
      }
      Facts();
    }

    /** Whether an iterator at the entry `name` still points to it. An entry is replaced only after it
        has been erased, so the object tells. */
    predicate StillHeld(name: string, held: Process)
      reads this
    {
      name in processMap && processMap[name] == held
    }

    /** Uses an iterator that was held across a wait: it erases its entry, or it is lost. */
    method EraseHeld(name: string, held: Process)
      requires Valid()
      modifies this`processMap, this`Repr, this`trace, this`world, this`derailed, Repr - {this}
      ensures Valid() && old(trace) <= trace && kernel.now >= old(kernel.now) && Repr <= old(Repr)
      ensures derailed == (old(derailed) || !old(StillHeld(name, held)))
      ensures if old(StillHeld(name, held)) then
          && processMap == old(processMap) - {name} && held.pid <= 0
          && |trace| == |old(trace)| + 1 && trace[|trace|-1].Remove? && trace[|trace|-1].name == name
        else processMap == old(processMap) && trace == old(trace)
    {
      if StillHeld(name, held) {
        Erase(name);
      } else {
        Derail();
      }
    }

    method Derail()
      requires Valid()
      modifies this`derailed
      ensures Valid() && derailed
    {
      assert InState(world);
      derailed := true;
      assert InState(world);
    }

    /** Unless a reload begins in one of its waits it reaches the new configuration. What is there already it
        leaves alone. */
    method SyncProcesses(progs: seq<ProgramConfig>, depth: nat)
      requires Valid()
      modifies Repr
      ensures Valid() && old(trace) <= trace && kernel.now >= old(kernel.now)
      ensures fresh(Repr - old(Repr))
      ensures Onward(old(log), log, old(derailed), derailed)
      ensures Fair(trace, |old(trace)|, Sound(old(log), log, derailed))
      ensures Without(log, |old(log)|, Began) ==>
        && Reconfigured(progs, old(processMap), processMap, trace, |old(trace)|)
        && forall n :: n in processMap && !(n in old(processMap) && processMap[n] == old(processMap)[n]) ==> fresh(processMap[n])
      ensures AlreadyThere(progs, old(processMap)) ==> trace == old(trace) && log == old(log) && processMap == old(processMap)
      decreases depth, 6, 0
    {
      ConfigNames();
      ghost var m0, from, log0, l0 := processMap, |trace|, |log|, log;
      RemoveUnwanted(progs, depth);
      ghost var t, l, d := trace, log, derailed;
      if Without(log, log0, Began) {
        SyncBegins(progs, m0, processMap, trace, from);
      }
      SyncEntries(progs, depth, m0, from, log0);
      FairOnward(from, t, trace, l0, l, log, d, derailed);
    }

    method SyncEntries(progs: seq<ProgramConfig>, depth: nat, ghost m0: map<string, Process>, ghost from: nat, ghost log0: nat)
      requires Valid() && from <= |trace| && log0 <= |log|
      requires Without(log, log0, Began) ==>
        Synced(progs, [], m0, processMap, trace, from) && forall n :: n in processMap ==> n in m0 && processMap[n] == m0[n]
      modifies Repr
      ensures Valid() && old(trace) <= trace && kernel.now >= old(kernel.now)
      ensures fresh(Repr - old(Repr))
      ensures Onward(old(log), log, old(derailed), derailed)
      ensures Fair(trace, |old(trace)|, Sound(old(log), log, derailed))
      ensures Without(log, log0, Began) ==>
        && Synced(progs, progs, m0, processMap, trace, from)
        && forall n :: n in processMap && !(n in m0 && processMap[n] == m0[n]) ==> fresh(processMap[n])
      ensures AlreadyThere(progs, old(processMap)) ==> trace == old(trace) && log == old(log) && processMap == old(processMap)
      decreases depth, 5, 1
    {
      assert progs[..0] == [];
      PeacefulIsFair(trace, |old(trace)|, Sound(old(log), log, derailed));
      for i := 0 to |progs|
        invariant Valid() && old(trace) <= trace && kernel.now >= old(kernel.now)
        invariant fresh(Repr - old(Repr))
        invariant Onward(old(log), log, old(derailed), derailed)
        invariant Fair(trace, |old(trace)|, Sound(old(log), log, derailed))
        invariant AlreadyThere(progs, old(processMap)) ==> trace == old(trace) && log == old(log) && processMap == old(processMap)
        invariant Without(log, log0, Began) ==>
          && Synced(progs, progs[..i], m0, processMap, trace, from)
          && forall n :: n in processMap && !(n in m0 && processMap[n] == m0[n]) ==> fresh(processMap[n])
      {
        ghost var m, t, l, d := processMap, trace, log, derailed;
        SyncEntry(progs[i], depth);
        FairOnward(|old(trace)|, t, trace, old(log), l, log, d, derailed);
        if Without(log, log0, Began) {
          SyncedStep(progs, i, m0, m, processMap, t, trace, from);
        }
      }
      assert progs[..|progs|] == progs;
    }

    lemma ConfigNames()
      requires Valid()
      ensures forall n :: n in processMap ==> processMap[n].config.name == n
    {
      Reachable();
      assert forall n :: n in processMap ==> world.procs[n].config.name == n && processMap[n].View() == world.procs[n];
    }

    /** The first entry, or the one that follows `after`, in the order of the map; None at the end. */
    method NextEntry(after: Option<string>) returns (it: Option<string>)
      ensures it.Some? ==> it.value in processMap && Follows(after, it.value)
      ensures forall n :: n in processMap && Follows(after, n) ==> it.Some? && !Before(n, it.value)
    {
      it := None;
      var ks := Keys();
      for i := 0 to |ks|
        invariant it.Some? ==> it.value in processMap && Follows(after, it.value)
        invariant forall j :: 0 <= j < i && Follows(after, ks[j]) ==> it.Some? && !Before(ks[j], it.value)
      {
        if Follows(after, ks[i]) && (it == None || Before(ks[i], it.value)) {
          if it.Some? {
            NotLess(it.value, ks[i]);
          }
          BeforeIsStrict(ks[i], ks[i]);
          it := Some(ks[i]);
        }
      }
    }

    /** Walks through the live map. The iterator to the next entry is held across the wait of a removal.
        `turns` bounds the walk, which reloads in those waits can make longer; it is any number that
        is enough without them. */
    method RemoveUnwanted(progs: seq<ProgramConfig>, depth: nat)
      requires Valid()
      modifies Repr
      ensures Valid() && old(trace) <= trace && kernel.now >= old(kernel.now)
      ensures fresh(Repr - old(Repr))
      ensures Onward(old(log), log, old(derailed), derailed)
      ensures Fair(trace, |old(trace)|, Sound(old(log), log, derailed))
      ensures Without(log, |old(log)|, Began) ==> Kept(progs, old(processMap), processMap)
      ensures AllWanted(progs, old(processMap)) ==> trace == old(trace) && log == old(log) && processMap == old(processMap)
      decreases depth, 5, 2
    {
      var newNames := NewNames(progs);
      ghost var m0, log0 := processMap, |log|;
      var more: nat :| true;
      var turns := |processMap| + more;
      var it := NextEntry(None);
      WalkBegins(progs, processMap, it);
      PeacefulIsFair(trace, |old(trace)|, Sound(old(log), log, derailed));
      while it.Some? && turns > 0
        invariant Valid() && old(trace) <= trace && kernel.now >= old(kernel.now)
        invariant fresh(Repr - old(Repr))
        invariant Onward(old(log), log, old(derailed), derailed)
        invariant Fair(trace, |old(trace)|, Sound(old(log), log, derailed))
        invariant it.Some? ==> it.value in processMap
        invariant AllWanted(progs, old(processMap)) ==> trace == old(trace) && log == old(log) && processMap == old(processMap)
        invariant Without(log, log0, Began) ==> Walked(progs, m0, processMap, it) && |Rest(processMap, it)| <= turns
        decreases turns
      {
        var lost;
        ghost var t, l, d := trace, log, derailed;
        it, lost := VisitEntry(progs, newNames, it.value, depth, m0, log0);
        FairOnward(|old(trace)|, t, trace, old(log), l, log, d, derailed);
        if lost {
          return;
        }
        turns := turns - 1;
      }
      WalkGoesOn(processMap, it);
      if Without(log, log0, Began) {
        WalkEnds(progs, m0, processMap);
      }
    }

    /** One step of the walk: moves on, and removes the entry `name` if it is not wanted. */
    method VisitEntry(progs: seq<ProgramConfig>, newNames: set<string>, name: string, depth: nat,
                      ghost m0: map<string, Process>, ghost log0: nat)
      returns (it: Option<string>, lost: bool)
      requires Valid() && name in processMap && log0 <= |log| && forall n :: n in newNames <==> Names(progs, n)
      modifies Repr
      ensures Valid() && old(trace) <= trace && kernel.now >= old(kernel.now)
      ensures fresh(Repr - old(Repr))
      ensures Onward(old(log), log, old(derailed), derailed)
      ensures Fair(trace, |old(trace)|, Sound(old(log), log, derailed))
      ensures lost ==> !Without(log, log0, Began)
      ensures !lost && it.Some? ==> it.value in processMap
      ensures Without(log, log0, Began) && Walked(progs, m0, old(processMap), Some(name)) ==>
        Walked(progs, m0, processMap, it) && |Rest(processMap, it)| < |Rest(old(processMap), Some(name))|
      ensures Names(progs, name) ==> !lost && trace == old(trace) && log == old(log) && processMap == old(processMap)
      decreases depth, 5, 1
    {
      ghost var m := processMap;
      it := NextEntry(Some(name));
      BeforeIsStrict(name, name);
      PeacefulIsFair(trace, |old(trace)|, Sound(old(log), log, derailed));
      lost := false;
      if name !in newNames {
        lost := RemoveBefore(name, it, depth);
      }
      if Without(log, log0, Began) && Walked(progs, m0, m, Some(name)) {
        WalkStep(progs, m0, m, processMap, name, it);
      }
    }

    /** Removes an entry while an iterator to the next one is held. */
    method RemoveBefore(name: string, it: Option<string>, depth: nat) returns (lost: bool)
      requires Valid() && name in processMap && (it.Some? ==> it.value in processMap && it.value != name)
      modifies Repr
      ensures Valid() && old(trace) <= trace && kernel.now >= old(kernel.now)
      ensures fresh(Repr - old(Repr))
      ensures Onward(old(log), log, old(derailed), derailed)
      ensures Fair(trace, |old(trace)|, Sound(old(log), log, derailed))
      ensures lost ==> derailed
      ensures !lost && it.Some? ==> it.value in processMap
      ensures Without(log, |old(log)|, Began) ==> !lost && processMap == old(processMap) - {name}
      decreases depth, 5, 0
    {
      var held := if it.Some? then Some(processMap[it.value]) else None;
      var _ := RemoveProcess(name, depth);
      ghost var d := derailed;
      lost := it.Some? && !StillHeld(it.value, held.value);
      if lost {
        Derail();
      }
      FairWeaker(trace, |old(trace)|, Sound(old(log), log, d), Sound(old(log), log, derailed));
    }

    /** One entry of the new configuration: add it, restart with it, or leave it alone. */
    method SyncEntry(c: ProgramConfig, depth: nat)
      requires Valid()
      modifies Repr
      ensures Valid() && old(trace) <= trace && kernel.now >= old(kernel.now)
      ensures fresh(Repr - old(Repr))
      ensures Onward(old(log), log, old(derailed), derailed)
      ensures Fair(trace, |old(trace)|, Sound(old(log), log, derailed))
      ensures c.name in processMap && processMap[c.name].config == c
      ensures c.name in old(processMap) && old(processMap)[c.name].config == c ==> trace == old(trace) && log == old(log) && processMap == old(processMap)
      ensures !(c.name in old(processMap) && old(processMap)[c.name].config == c) ==>
        fresh(processMap[c.name]) && StartAttempted(trace, |old(trace)|, c)
      ensures Without(log, |old(log)|, Began) ==> forall n :: n != c.name ==>
        (n in processMap <==> n in old(processMap)) && (n in processMap ==> processMap[n] == old(processMap)[n])
      decreases depth, 5, 0
    {
      ghost var t0, l0 := trace, log;
      PeacefulIsFair(trace, |t0|, Sound(l0, log, derailed));
      if c.name !in processMap {
        AddAndStart(c, Sound(l0, log, derailed));
      } else if processMap[c.name].config != c {
        var _ := RemoveProcess(c.name, depth);
        ghost var t := trace;
        AddAndStart(c, Sound(l0, log, derailed));
        FairInTurn(t, trace, |t0|, Sound(l0, log, derailed));
      }
    }

    method AddAndStart(c: ProgramConfig, ghost erasures: bool)
      requires Valid() && (erasures ==> c.name !in processMap)
      modifies this`processMap, this`nextId, this`Repr, this`trace, this`world, Repr - {this}
      ensures Valid() && old(trace) <= trace && kernel.now >= old(kernel.now)
      ensures fresh(Repr - old(Repr))
      ensures c.name in processMap && fresh(processMap[c.name]) && processMap[c.name].config == c
      ensures processMap == old(processMap)[c.name := processMap[c.name]]
      ensures |trace| == |old(trace)| + 2
      ensures trace[|old(trace)|].Add? && trace[|old(trace)|].config == c
      ensures trace[|old(trace)| + 1].Start? && trace[|old(trace)| + 1].name == c.name
      ensures Fair(trace, |old(trace)|, erasures)
    {
      Facts();
      AddProcess(c);
      var _, _ := StartProcess(c.name);
      ghost var t := old(trace);
      assert trace == t + [trace[|t|]] + [trace[|t| + 1]];
      AdditionIsFair(t, c, trace[|t|].took, trace[|t| + 1], erasures);
    }

    /** The guard refuses a reload when the state is RESTARTING. Otherwise a configuration that cannot be
        parsed (None) changes nothing, and one that can is reached, unless a reload begins in the waits
        of this one; and none does unless a shutdown signal is handled in them. */
    method ReloadConfig(parsed: Option<seq<ProgramConfig>>, depth: nat)
      requires Valid()
      modifies Repr
      ensures Valid() && old(trace) <= trace && kernel.now >= old(kernel.now)
      ensures fresh(Repr - old(Repr))
      ensures Waited(old(log), log, old(derailed), derailed, old(processMap), processMap)
      ensures Fair(trace, |old(trace)|, Sound(old(log), log, derailed))
      ensures old(daemonState) != RESTARTING ==> Fair(trace, |old(trace)|, Sound(old(log) + [Began], log, derailed))
      ensures if old(daemonState) == RESTARTING
        then log == old(log) + [Refused] && daemonState == RESTARTING
        else old(log) + [Began] <= log && log[|log|-1] == Ended && daemonState == DaemonState.RUNNING
      ensures old(daemonState) == RESTARTING || parsed == None || AlreadyThere(parsed.value, old(processMap)) ==>
        processMap == old(processMap) && trace == old(trace)
      ensures old(daemonState) != RESTARTING && Without(log, |old(log)|, Signalled) ==> Without(log, |old(log)| + 1, Began)
      ensures old(daemonState) != RESTARTING && parsed.Some? && Without(log, |old(log)| + 1, Began) ==>
        && Reconfigured(parsed.value, old(processMap), processMap, trace, |old(trace)|)
        && forall n :: n in processMap && !(n in old(processMap) && processMap[n] == old(processMap)[n]) ==> fresh(processMap[n])
      decreases depth, 7
    {
      if daemonState == RESTARTING {
        RefuseReload();
        PeacefulIsFair(trace, |old(trace)|, Sound(old(log), log, derailed));
      } else {
        BeginReload();
        Reload(parsed, depth, old(log));
        FairWeaker(trace, |old(trace)|, Sound(old(log) + [Began], log, derailed), Sound(old(log), log, derailed));
      }
    }

    /** The part of a reload after the guard. */
    method Reload(parsed: Option<seq<ProgramConfig>>, depth: nat, ghost log0: Log)
      requires Valid() && log == log0 + [Began] && InProgress(log) == InProgress(log0) + [|log0|]
      modifies Repr
      ensures Valid() && old(trace) <= trace && kernel.now >= old(kernel.now)
      ensures fresh(Repr - old(Repr))
      ensures old(log) < log && log[|log|-1] == Ended && daemonState == DaemonState.RUNNING
      ensures InProgress(log) == InProgress(log0) && (old(derailed) ==> derailed)
      ensures Without(log, |log0|, Signalled) ==> Without(log, |log0| + 1, Began)
      ensures Without(log, |old(log)|, Began) ==> derailed == old(derailed)
      ensures Fair(trace, |old(trace)|, Sound(old(log), log, derailed))
      ensures parsed == None || AlreadyThere(parsed.value, old(processMap)) ==>
        processMap == old(processMap) && trace == old(trace)
      ensures parsed.Some? && Without(log, |old(log)|, Began) ==>
        && Reconfigured(parsed.value, old(processMap), processMap, trace, |old(trace)|)
        && forall n :: n in processMap && !(n in old(processMap) && processMap[n] == old(processMap)[n]) ==> fresh(processMap[n])
      decreases depth, 6, 1
    {
      PeacefulIsFair(trace, |old(trace)|, Sound(old(log), log, derailed));
      if parsed.Some? {
        SyncProcesses(parsed.value, depth);
      }
      ghost var l := log;
      EndReload(log0);
      FairWeaker(trace, |old(trace)|, Sound(old(log), l, derailed), Sound(old(log), log, derailed));
    }

    method RefuseReload()
      requires Valid() && daemonState == RESTARTING
      modifies this`daemonState, this`log
      ensures Valid() && daemonState == RESTARTING && log == old(log) + [Refused] && InProgress(log) == InProgress(old(log))
    {
      assert InState(world);
      RequestPossible(log);
      StoreState(RESTARTING, Refused);
    }

    method BeginReload()
      requires Valid() && daemonState != RESTARTING
      modifies this`daemonState, this`log
      ensures Valid() && daemonState == RESTARTING
      ensures log == old(log) + [Began] && InProgress(log) == InProgress(old(log)) + [|old(log)|]
    {
      assert InState(world);
      RequestPossible(log);
      StoreState(RESTARTING, Began);
    }

    method EndReload(ghost log0: Log)
      requires Valid() && log0 + [Began] <= log && InProgress(log) == InProgress(log0) + [|log0|]
      modifies this`daemonState, this`log
      ensures Valid() && daemonState == DaemonState.RUNNING
      ensures log == old(log) + [Ended] && InProgress(log) == InProgress(log0)
      ensures Without(log, |log0|, Signalled) ==> Without(log, |log0| + 1, Began)
    {
      assert InState(world);
      EndOfReload(log0, log);
      StoreState(DaemonState.RUNNING, Ended);
    }
  }

  /** What the theorems about runs say about the objects, whatever has been called and nested so far:
      an active process is the parent of the child it names, kill(2) never went astray, FATAL was
      earned, and as long as no process with a pid was forked for every child is owned. */
  lemma ManagerIsSafe(m: ProcessManager)
    requires m.Valid()
    ensures forall n :: n in m.processMap && Active(m.processMap[n].state) ==>
      m.processMap[n].pid > 0 && IsChildOf(m.kernel.View(), m.processMap[n].pid, m.processMap[n].id)
    ensures forall i :: 0 <= i < |m.kernel.signals| ==> m.kernel.signals[i].hit
    ensures forall n :: n in m.processMap && m.processMap[n].state == FATAL ==>
      Failures(EMPTY_WORLD, m.trace, n) >= Max(1, m.processMap[n].config.startretries)
    ensures NeverOrphans(m.trace) ==> forall c :: c in m.kernel.children ==>
      exists n :: n in m.processMap && m.processMap[n].pid == c && m.processMap[n].id == m.kernel.children[c].owner
  {
    m.Reachable();
    var w := m.world;
    assert forall n :: n in m.processMap ==> ProcOk(w.os, w.procs[n]) && m.processMap[n].View() == w.procs[n];
    forall n | n in m.processMap && m.processMap[n].state == FATAL
      ensures Failures(EMPTY_WORLD, m.trace, n) >= Max(1, m.processMap[n].config.startretries)
    {
      FatalNeverSpurious(m.trace, n);
    }
    if NeverOrphans(m.trace) {
      ChildrenAreOwned(m);
    }
  }

  /** The guard at any time, whatever has been called and nested so far: it refuses a reload if and only
      if one is in progress and no shutdown signal has been handled since the innermost one began. At most
      two are ever in progress. */
  lemma GuardOfManager(m: ProcessManager)
    requires m.Valid()
    ensures m.daemonState == RESTARTING <==> Guarded(m.log)
    ensures |InProgress(m.log)| <= 2
  {
    assert m.InState(m.world);
    RefusedIff(m.log);
    AtMostTwo(m.log);
  }

  /** Two reloads to an empty configuration, of which the second one arrives in the wait of the stop_all of
      a shutdown signal, which itself arrives in a wait of the first. Step by step as the daemon takes
      them: the first reload loses the entry that it is about to erase. */
  method ReloadErasesHeldEntry(m: ProcessManager, name: string)
    requires m.Valid() && m.armed && m.daemonState == DaemonState.RUNNING && !m.derailed
    requires name in m.processMap && m.processMap[name].pid > 0
    modifies m.Repr
    ensures m.Valid() && m.derailed && m.processMap == map[]
    ensures old(m.log) + [Began, Signalled, Began] <= m.log
    ensures InProgress(m.log) == InProgress(old(m.log)) + [|old(m.log)|]
  {
    var held := HoldsAcrossSignal(m, name);
    var nothing: seq<ProgramConfig> := [];
    m.ReloadConfig(Some(nothing), 0);
    NoSecondSignal(m, |old(m.log)| + 1);
    assert m.processMap == map[];
    m.EraseHeld(name, held);
  }

  /** The first three steps: a reload asks the program to stop, and a shutdown signal asks everybody. */
  method HoldsAcrossSignal(m: ProcessManager, name: string) returns (held: Process)
    requires m.Valid() && m.armed && m.daemonState == DaemonState.RUNNING && name in m.processMap
    modifies m.Repr
    ensures m.Valid() && m.Repr == old(m.Repr) && m.daemonState == SHUTDOWN && m.derailed == old(m.derailed)
    ensures m.log == old(m.log) + [Began, Signalled]
    ensures InProgress(m.log) == InProgress(old(m.log)) + [|old(m.log)|]
    ensures m.processMap == old(m.processMap) && m.processMap[name] == held
  {
    ghost var log0 := m.log;
    m.BeginReload();
    held := m.processMap[name];
    var _ := m.StopOne(name);
    m.TakeShutdownSignal();
    var _, _ := m.SignalAll();
    Snoc(log0 + [Began], Signalled);
  }

  lemma NoSecondSignal(m: ProcessManager, k: nat)
    requires m.Valid() && k < |m.log| && m.log[k].Signalled?
    ensures Without(m.log, k + 1, Signalled)
  {
    assert m.InState(m.world);
    forall l | k < l < |m.log|
      ensures m.log[l] != Signalled
    {
      SignalledOnce(m.log, k, l);
    }
  }

  lemma ChildrenAreOwned(m: ProcessManager)
    requires m.Valid() && NeverOrphans(m.trace)
    ensures forall c :: c in m.kernel.children ==>
      exists n :: n in m.processMap && m.processMap[n].pid == c && m.processMap[n].id == m.kernel.children[c].owner
  {
    m.Reachable();
    assert m.trace[..|m.trace|] == m.trace;
    ExactUpTo(m.trace, |m.trace|);
    forall c | c in m.kernel.children
      ensures exists n :: n in m.processMap && m.processMap[n].pid == c && m.processMap[n].id == m.kernel.children[c].owner
    {
      var n := HolderOf(m.world, c);
      assert m.processMap[n].View() == m.world.procs[n] && ProcOk(m.world.os, m.world.procs[n]);
    }
  }

  // ---- A walk through a map ----

  lemma NotLess(was: string, k: string)
    requires Before(k, was)
    ensures forall n :: !Before(n, was) ==> !Before(n, k)
  {
    forall n | Before(n, k)
      ensures Before(n, was)
    {
      BeforeIsTransitive(n, k, was);
    }
  }

  predicate Follows(after: Option<string>, n: string) {
    after == None || Before(after.value, n)
  }

  /** What the iterator `it` has not passed. */
  function Rest(m: map<string, Process>, it: Option<string>): set<string> {
    set n | n in m && it.Some? && !Before(n, it.value)
  }

  function NewNames(progs: seq<ProgramConfig>): (s: set<string>)
    ensures forall n :: n in s <==> Names(progs, n)
  {
    set c | c in progs :: c.name
  }

  /** What is left of `m0` when everything is removed that is not in `progs`. */
  ghost predicate Kept(progs: seq<ProgramConfig>, m0: map<string, Process>, m: map<string, Process>) {
    && (forall n :: n in m <==> n in m0 && Names(progs, n))
    && (forall n :: n in m ==> m[n] == m0[n])
  }

  predicate AllStops(es: seq<Event>) {
    forall i :: 0 <= i < |es| ==> es[i].Stop?
  }

  lemma StopsArePeaceful(t: seq<Event>, es: seq<Event>)
    requires AllStops(es)
    ensures (t + es)[|t|..] == es && PeacefulFrom(t + es, |t|)
  {
    forall k | |t| <= k < |t + es|
      ensures Peaceful((t + es)[k])
    {
      assert (t + es)[k] == es[k - |t|];
    }
  }

  /** Where a walk that removes what is not in `progs` stands: `m0` is the map it began with. */
  ghost predicate Walked(progs: seq<ProgramConfig>, m0: map<string, Process>, m: map<string, Process>, it: Option<string>) {
    && (forall n :: n in m ==> n in m0 && m[n] == m0[n])
    && (forall n :: n in m0 ==> (n in m <==> Names(progs, n) || (it.Some? && !Before(n, it.value))))
  }

  lemma WalkBegins(progs: seq<ProgramConfig>, m: map<string, Process>, it: Option<string>)
    requires forall n :: n in m ==> it.Some? && !Before(n, it.value)
    ensures Walked(progs, m, m, it) && |Rest(m, it)| <= |m|
  {
    assert Rest(m, it) <= m.Keys;
    Smaller(Rest(m, it), m.Keys);
  }

  lemma WalkGoesOn(m: map<string, Process>, it: Option<string>)
    ensures it.Some? && it.value in m ==> |Rest(m, it)| > 0
  {
    if it.Some? && it.value in m {
      BeforeIsStrict(it.value, it.value);
      assert it.value in Rest(m, it);
    }
  }

  lemma WalkEnds(progs: seq<ProgramConfig>, m0: map<string, Process>, m: map<string, Process>)
    requires Walked(progs, m0, m, None)
    ensures Kept(progs, m0, m)
  {
  }

  lemma {:induction false} Smaller(a: set<string>, b: set<string>)
    requires a <= b
    ensures |a| <= |b|
  {
    if a != {} {
      var x :| x in a;
      Smaller(a - {x}, b - {x});
    }
  }

  lemma WalkStep(progs: seq<ProgramConfig>, m0: map<string, Process>, m: map<string, Process>, m': map<string, Process>,
                 name: string, it: Option<string>)
    requires Walked(progs, m0, m, Some(name)) && name in m
    requires m' == if Names(progs, name) then m else m - {name}
    requires it.Some? ==> it.value in m && Before(name, it.value)
    requires forall n :: n in m && Before(name, n) ==> it.Some? && !Before(n, it.value)
    ensures Walked(progs, m0, m', it) && |Rest(m', it)| < |Rest(m, Some(name))|
  {
    BeforeIsStrict(name, name);
    forall n
      ensures it.Some? && Before(n, name) ==> Before(n, it.value)
      ensures n == name || Before(n, name) || Before(name, n)
      ensures !(Before(n, name) && Before(name, n))
    {
      BeforeIsTotal(n, name);
      BeforeIsStrict(n, name);
      if it.Some? && Before(n, name) {
        BeforeIsTransitive(n, name, it.value);
      }
    }
    Smaller(Rest(m', it), Rest(m, Some(name)) - {name});
  }

  /** Where a synchronisation stands after the entries `done`: `m0` is the map it began with. */
  ghost predicate Synced(progs: seq<ProgramConfig>, done: seq<ProgramConfig>, m0: map<string, Process>,
                         m: map<string, Process>, trace: seq<Event>, from: nat)
  {
    && (forall n :: n in m0 ==> m0[n].config.name == n)
    && (forall n :: n in m ==> m[n].config.name == n)
    && (forall n :: n in m <==> Names(done, n) || (n in m0 && Names(progs, n)))
    && (forall n :: n in m && Names(done, n) ==> IsLastEntry(done, m[n].config))
    && (forall n :: n in m && !Names(done, n) ==> n in m0 && m[n] == m0[n])
    && (forall n :: n in m && n in m0 ==> (m[n] == m0[n] <==> AllEntriesAre(done, m0[n].config)))
    && (forall n :: n in m && !(n in m0 && m[n] == m0[n]) ==> StartAttempted(trace, from, m[n].config))
  }

  lemma NamesAppended(done: seq<ProgramConfig>, c: ProgramConfig, n: string)
    ensures Names(done + [c], n) <==> Names(done, n) || n == c.name
  {
    var all := done + [c];
    if Names(done, n) {
      var i :| 0 <= i < |done| && done[i].name == n;
      assert all[i].name == n;
    }
    if n == c.name {
      assert all[|done|].name == n;
    }
  }

  lemma LastEntryAppended(done: seq<ProgramConfig>, c: ProgramConfig, d: ProgramConfig)
    requires IsLastEntry(done, d) && d.name != c.name
    ensures IsLastEntry(done + [c], d)
  {
    var i :| 0 <= i < |done| && done[i] == d && forall j :: i < j < |done| ==> done[j].name != d.name;
    assert (done + [c])[i] == d;
  }

  lemma AllEntriesAppended(done: seq<ProgramConfig>, c: ProgramConfig, d: ProgramConfig)
    ensures AllEntriesAre(done + [c], d) <==> AllEntriesAre(done, d) && (c.name == d.name ==> c == d)
  {
    var all := done + [c];
    assert all[|done|] == c;
    assert forall i :: 0 <= i < |done| ==> all[i] == done[i];
  }

  lemma EntryAppended(done: seq<ProgramConfig>, c: ProgramConfig)
    ensures IsLastEntry(done + [c], c)
    ensures forall n :: Names(done + [c], n) <==> Names(done, n) || n == c.name
    ensures forall d :: IsLastEntry(done, d) && d.name != c.name ==> IsLastEntry(done + [c], d)
    ensures forall d :: AllEntriesAre(done + [c], d) <==> AllEntriesAre(done, d) && (c.name == d.name ==> c == d)
  {
    assert (done + [c])[|done|] == c;
    forall n {
      NamesAppended(done, c, n);
    }
    forall d | IsLastEntry(done, d) && d.name != c.name {
      LastEntryAppended(done, c, d);
    }
    forall d {
      AllEntriesAppended(done, c, d);
    }
  }

  lemma StillThere(t: seq<Event>, t': seq<Event>, from: nat)
    requires from <= |t| && t <= t'
    ensures forall e :: e in t[from..] ==> e in t'[from..]
  {
    assert t'[from..] == t[from..] + t'[|t|..];
  }

  lemma SyncBegins(progs: seq<ProgramConfig>, m0: map<string, Process>, m: map<string, Process>, trace: seq<Event>, from: nat)
    requires forall n :: n in m0 ==> m0[n].config.name == n
    requires forall n :: n in m <==> n in m0 && Names(progs, n)
    requires forall n :: n in m ==> m[n] == m0[n]
    ensures Synced(progs, [], m0, m, trace, from)
  {
  }

  lemma StartAttemptedLater(t: seq<Event>, t': seq<Event>, from: nat, c: ProgramConfig)
    requires StartAttempted(t, from, c) && t <= t'
    ensures StartAttempted(t', from, c)
  {
    var k :| from <= k && k + 1 < |t| && t[k].Add? && t[k].config == c && t[k+1].Start? && t[k+1].name == c.name;
    assert t'[k] == t[k] && t'[k+1] == t[k+1];
  }

  /** What `SyncEntry` does to the map and the run for one entry. */
  ghost predicate EntrySynced(c: ProgramConfig, m0: map<string, Process>, m: map<string, Process>,
                              m': map<string, Process>, t: seq<Event>, t': seq<Event>)
  {
    && t <= t'
    && c.name in m' && m'[c.name].config == c
    && (forall n :: n != c.name ==> (n in m' <==> n in m) && (n in m' ==> m'[n] == m[n]))
    && (c.name in m && m[c.name].config == c ==> m' == m)
    && (!(c.name in m && m[c.name].config == c) ==> m'[c.name] !in m0.Values && StartAttempted(t', |t|, c))
  }

  lemma KeptAfterEntry(progs: seq<ProgramConfig>, i: nat, m0: map<string, Process>, m: map<string, Process>,
                       m': map<string, Process>, t: seq<Event>, t': seq<Event>, from: nat, n: string)
    requires i < |progs| && Synced(progs, progs[..i], m0, m, t, from) && EntrySynced(progs[i], m0, m, m', t, t')
    requires n in m' && n in m0
    ensures m'[n] == m0[n] <==> AllEntriesAre(progs[..i] + [progs[i]], m0[n].config)
  {
    var c := progs[i];
    EntryAppended(progs[..i], c);
    if n == c.name {
      assert Names(progs, n) && n in m;
      assert m0[n] in m0.Values;
    }
  }

  lemma StartedAfterEntry(progs: seq<ProgramConfig>, i: nat, m0: map<string, Process>, m: map<string, Process>,
                          m': map<string, Process>, t: seq<Event>, t': seq<Event>, from: nat, n: string)
    requires i < |progs| && from <= |t|
    requires Synced(progs, progs[..i], m0, m, t, from) && EntrySynced(progs[i], m0, m, m', t, t')
    requires n in m' && !(n in m0 && m'[n] == m0[n])
    ensures StartAttempted(t', from, m'[n].config)
  {
    if n in m && m[n] == m'[n] {
      StartAttemptedLater(t, t', from, m[n].config);
    } else {
      assert n == progs[i].name && StartAttempted(t', |t|, progs[i]);
    }
  }

  lemma NamesAfterEntry(progs: seq<ProgramConfig>, i: nat, m0: map<string, Process>, m: map<string, Process>,
                        m': map<string, Process>, t: seq<Event>, t': seq<Event>, from: nat, n: string)
    requires i < |progs| && Synced(progs, progs[..i], m0, m, t, from) && EntrySynced(progs[i], m0, m, m', t, t')
    ensures n in m' <==> Names(progs[..i] + [progs[i]], n) || (n in m0 && Names(progs, n))
    ensures n in m' ==> m'[n].config.name == n
    ensures n in m' && Names(progs[..i] + [progs[i]], n) ==> IsLastEntry(progs[..i] + [progs[i]], m'[n].config)
    ensures n in m' && !Names(progs[..i] + [progs[i]], n) ==> n in m0 && m'[n] == m0[n]
  {
    EntryAppended(progs[..i], progs[i]);
    if n != progs[i].name && n in m {
      assert m'[n] == m[n];
    }
  }

  lemma SyncedStep(progs: seq<ProgramConfig>, i: nat, m0: map<string, Process>, m: map<string, Process>,
                   m': map<string, Process>, t: seq<Event>, t': seq<Event>, from: nat)
    requires i < |progs| && from <= |t|
    requires Synced(progs, progs[..i], m0, m, t, from) && EntrySynced(progs[i], m0, m, m', t, t')
    ensures Synced(progs, progs[..i+1], m0, m', t', from)
  {
    assert progs[..i+1] == progs[..i] + [progs[i]];
    forall n {
      NamesAfterEntry(progs, i, m0, m, m', t, t', from, n);
    }
    forall n | n in m' && n in m0 {
      KeptAfterEntry(progs, i, m0, m, m', t, t', from, n);
    }
    forall n | n in m' && !(n in m0 && m'[n] == m0[n]) {
      StartedAfterEntry(progs, i, m0, m, m', t, t', from, n);
    }
  }
}
