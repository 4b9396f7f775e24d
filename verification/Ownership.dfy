/** Who owns which child, over every run. */
module Ownership {
  import opened Kernel
  import opened ProcessModel
  import opened Supervision

  lemma RunSnoc(w: World, es: seq<Event>, e: Event)
    ensures RunFrom(w, es + [e]) == Step(RunFrom(w, es), e)
  {
    assert (es + [e])[..|es + [e]| - 1] == es;
  }

  lemma {:induction false} RunFromInv(w: World, es: seq<Event>)
    requires WorldInv(w)
    ensures WorldInv(RunFrom(w, es)) && w.os.now <= RunFrom(w, es).os.now
  {
    if es != [] {
      RunFromInv(w, es[..|es|-1]);
      StepKeepsInv(RunFrom(w, es[..|es|-1]), es[|es|-1]);
    }
  }

  /** Safety of signals over every run, also the runs that start a STOPPING process: an active
      process has a positive pid which is an unreaped child that it forked itself, no two processes
      share one, and each kill(2) ever issued went to an unreaped child of its sender. */
  lemma SignalsOnlyReachOwnedChildren(es: seq<Event>)
    ensures var w := Run(es);
      && (forall n :: n in w.procs && Active(w.procs[n].state) ==> w.procs[n].pid > 0)
      && (forall n :: n in w.procs && w.procs[n].pid > 0 ==> IsChildOf(w.os, w.procs[n].pid, w.procs[n].id))
      && (forall n, m :: n in w.procs && m in w.procs && n != m && w.procs[n].pid > 0 ==> w.procs[n].pid != w.procs[m].pid)
      && (forall i :: 0 <= i < |w.os.signals| ==> w.os.signals[i].hit && w.os.signals[i].pid > 0)
  {
    RunFromInv(EMPTY_WORLD, es);
    SignalTargetsPositive(es);
  }

  lemma {:induction false} SignalTargetsPositive(es: seq<Event>)
    ensures PositiveTargets(Run(es).os)
  {
    if es != [] {
      SignalTargetsPositive(es[..|es|-1]);
      RunFromInv(EMPTY_WORLD, es[..|es|-1]);
      StepTargetsPositive(Run(es[..|es|-1]), es[|es|-1]);
    }
  }

  ghost predicate PositiveTargets(os: OS) {
    forall i :: 0 <= i < |os.signals| ==> os.signals[i].pid > 0
  }

  lemma StepTargetsPositive(w: World, e: Event)
    requires WorldInv(w) && PositiveTargets(w.os)
    ensures PositiveTargets(Step(w, e).os)
  {
  }

  // ---- Exact ownership ----

  /** The unreaped children are exactly the positive pids of the managed processes. */
  ghost predicate Exact(w: World) {
    forall c :: c in w.os.children <==> c > 0 && HasPid(w, c)
  }

  /** The one kind of event that breaks it: a fork for a process that still has a pid. */
  predicate Orphans(w: World, e: Event) {
    (e.Start? || e.Update?) && RestartAttempt(w, e, e.name) && ForkSucceeds(w.os, e.fork) && w.procs[e.name].pid > 0
  }

  predicate OnlyChild(os: OS, p: Proc) {
    forall c :: c in os.children && os.children[c].owner == p.id ==> c == p.pid
  }

  lemma ExactGivesOnlyChild(w: World, n: string)
    requires WorldInv(w) && Exact(w) && n in w.procs
    ensures OnlyChild(w.os, w.procs[n])
  {
    forall c | c in w.os.children && w.os.children[c].owner == w.procs[n].id
      ensures c == w.procs[n].pid
    {
      var m := HolderOf(w, c);
      assert w.procs[m].id == w.procs[n].id;
    }
  }

  lemma PutKeepsExact(w: World, n: string, s: Sys)
    requires WorldInv(w) && Exact(w) && n in w.procs && GoodStep(w.os, w.procs[n], s) && OnlyChild(s.os, s.p)
    ensures Exact(Put(w, n, s))
  {
    PutKeepsInv(w, n, s);
    var w' := Put(w, n, s);
    forall c | c in w'.os.children
      ensures HasPid(w', c)
    {
      if w'.os.children[c].owner == s.p.id {
        assert w'.procs[n].pid == c;
      } else {
        var m := HolderOf(w, c);
        assert m != n;
        assert w'.procs[m].pid == c;
      }
    }
  }

  lemma RemoveKeepsExact(w: World, n: string, took: nat)
    requires WorldInv(w) && Exact(w)
    ensures Exact(w.(os := DestroyStep(w, n, took), procs := w.procs - {n}))
  {
    DestroyKeepsInv(w, n, took);
    if n in w.procs {
      var w' := w.(os := DestroyStep(w, n, took), procs := w.procs - {n});
      forall c | c in w'.os.children
        ensures HasPid(w', c)
      {
        var m := HolderOf(w, c);
        assert m != n;
        assert w'.procs[m].pid == c;
      }
    } else {
      assert w.procs - {n} == w.procs;
    }
  }

  /** The child that the process had before loses its process. */
  lemma OrphaningBreaks(w: World, e: Event)
    requires WorldInv(w) && Orphans(w, e)
    ensures var lost := w.procs[e.name].pid; lost in Step(w, e).os.children && !HasPid(Step(w, e), lost)
  {
    assert forall m :: m in w.procs ==> ProcOk(w.os, w.procs[m]);
  }

  lemma ProcEventConserves(w: World, e: Event)
    requires WorldInv(w) && Exact(w) && !Orphans(w, e)
    requires e.Start? || e.Stop? || e.Kill? || e.Update?
    ensures Exact(Step(w, e))
  {
    if e.name in w.procs {
      ExactGivesOnlyChild(w, e.name);
      ProcEventGood(w, e);
      StaysOnlyChild(w, e);
      PutKeepsExact(w, e.name, ProcEvent(w, e));
    }
  }

  lemma StaysOnlyChild(w: World, e: Event)
    requires e.Start? || e.Stop? || e.Kill? || e.Update?
    requires e.name in w.procs && !Orphans(w, e) && OnlyChild(w.os, w.procs[e.name])
    requires OsOk(w.os) && ProcOk(w.os, w.procs[e.name])
    ensures OnlyChild(ProcEvent(w, e).os, ProcEvent(w, e).p)
  {
  }

  lemma ReapConserves(w: World, pid: int)
    requires WorldInv(w) && Exact(w)
    ensures Exact(ReapStep(w, pid))
  {
    if IsZombie(w.os, pid) {
      var n := HolderOf(w, pid);
      ExactGivesOnlyChild(w, n);
      ExitGood(w.os, w.procs[n], w.os.children[pid].exit.value);
      PutKeepsExact(w, n, Sys(DoWait(w.os, pid, 0), OnExitStep(w.procs[n], w.os.children[pid].exit.value, w.os.now)));
    }
  }

  lemma AddConserves(w: World, config: ProgramConfig, took: nat)
    requires WorldInv(w) && Exact(w)
    ensures Exact(Step(w, Add(config, took)))
  {
    var w' := Step(w, Add(config, took));
    AddKeepsInv(w, config, took);
    RemoveKeepsExact(w, config.name, took);
    var v := w.(os := DestroyStep(w, config.name, took), procs := w.procs - {config.name});
    forall c | HasPid(v, c)
      ensures HasPid(w', c)
    {
      var m := HolderOf(v, c);
      assert w'.procs[m].pid == c;
    }
    StepKeepsInv(w, Add(config, took));
    ChildrenOfHolders(w');
  }

  lemma ChildrenOfHolders(w: World)
    requires WorldInv(w)
    ensures forall c :: c > 0 && HasPid(w, c) ==> c in w.os.children
  {
    forall c | c > 0 && HasPid(w, c)
      ensures c in w.os.children
    {
      var n := HolderOf(w, c);
      assert ProcOk(w.os, w.procs[n]);
    }
  }

  lemma ClockConserves(w: World, e: Event)
    requires WorldInv(w) && Exact(w) && (e.Elapse? || e.EndChild?)
    ensures Exact(Step(w, e))
  {
    StepKeepsInv(w, e);
    assert forall c :: HasPid(Step(w, e), c) <==> HasPid(w, c);
  }

  /** An event keeps ownership exact if and only if it does not fork for a process that has a pid. */
  lemma StepConservesExact(w: World, e: Event)
    requires WorldInv(w) && Exact(w)
    ensures Exact(Step(w, e)) <==> !Orphans(w, e)
  {
    if Orphans(w, e) {
      OrphaningBreaks(w, e);
    } else {
      match e
      case Elapse(_) => ClockConserves(w, e);
      case EndChild(_, _) => ClockConserves(w, e);
      case Reap(pid) => ReapConserves(w, pid);
      case Add(config, took) => AddConserves(w, config, took);
      case Remove(n, took) => RemoveKeepsExact(w, n, took);
      case _ => ProcEventConserves(w, e);
    }
  }

  lemma PrefixStep(es: seq<Event>, k: nat)
    requires k < |es|
    ensures Run(es[..k+1]) == Step(Run(es[..k]), es[k])
  {
    assert es[..k+1] == es[..k] + [es[k]];
    RunSnoc(EMPTY_WORLD, es[..k], es[k]);
  }

  ghost predicate NeverOrphans(es: seq<Event>) {
    forall k :: 0 <= k < |es| ==> !Orphans(Run(es[..k]), es[k])
  }

  lemma {:induction false} ExactUpTo(es: seq<Event>, k: nat)
    requires NeverOrphans(es) && k <= |es|
    ensures Exact(Run(es[..k])) && WorldInv(Run(es[..k]))
  {
    if k != 0 {
      ExactUpTo(es, k - 1);
      PrefixStep(es, k - 1);
      StepKeepsInv(Run(es[..k-1]), es[k-1]);
      StepConservesExact(Run(es[..k-1]), es[k-1]);
    }
  }

  /** The unreaped children are exactly the managed pids all along a run if and only if no event of the
      run forks for a process that still has a pid. */
  lemma OwnershipExactIff(es: seq<Event>)
    ensures NeverOrphans(es) <==> forall k :: 0 <= k <= |es| ==> Exact(Run(es[..k]))
  {
    if NeverOrphans(es) {
      forall k | 0 <= k <= |es|
        ensures Exact(Run(es[..k]))
      {
        ExactUpTo(es, k);
      }
    }
    if forall k :: 0 <= k <= |es| ==> Exact(Run(es[..k])) {
      forall k | 0 <= k < |es|
        ensures !Orphans(Run(es[..k]), es[k])
      {
        PrefixStep(es, k);
        RunFromInv(EMPTY_WORLD, es[..k]);
        assert Exact(Run(es[..k])) && Exact(Run(es[..k+1]));
        StepConservesExact(Run(es[..k]), es[k]);
      }
    }
  }

  // ---- What a user has to keep to ----

  /** The request that leads there: starting a STOPPING process. */
  predicate StartsStopping(w: World, e: Event) {
    e.Start? && e.name in w.procs && w.procs[e.name].state.STOPPING?
  }

  /** A process has a pid exactly when it is active. */
  predicate OrderlyProc(p: Proc) {
    p.pid > 0 <==> Active(p.state)
  }

  ghost predicate Orderly(w: World) {
    forall n :: n in w.procs ==> OrderlyProc(w.procs[n])
  }

  ghost predicate ExactlyOwned(w: World) {
    WorldInv(w) && Exact(w) && Orderly(w)
  }

  lemma EffectIsOrderly(w: World, e: Event, n: string)
    requires n in w.procs && ProcOk(w.os, w.procs[n]) && OrderlyProc(w.procs[n]) && !StartsStopping(w, e)
    ensures OrderlyProc(EffectOn(w, e, n))
  {
  }

  lemma StepStaysOrderly(w: World, e: Event)
    requires WorldInv(w) && Orderly(w) && !StartsStopping(w, e)
    ensures Orderly(Step(w, e)) && !Orphans(w, e)
  {
    forall n | n in Step(w, e).procs
      ensures OrderlyProc(Step(w, e).procs[n])
    {
      if n in w.procs {
        StepEffect(w, e, n);
        EffectIsOrderly(w, e, n);
      }
    }
  }

  /** Starting a STOPPING process orphans the old child when the fork succeeds, and leaves a process
      that is not active with a pid, to be orphaned by a later retry, when it fails. */
  lemma StartWhileStoppingBreaks(w: World, e: Event)
    requires ExactlyOwned(w) && StartsStopping(w, e)
    ensures if ForkSucceeds(w.os, e.fork) then !Exact(Step(w, e)) else Exact(Step(w, e)) && !Orderly(Step(w, e))
  {
    assert w.procs[e.name].pid > 0;
    StepConservesExact(w, e);
    StepEffect(w, e, e.name);
  }

  /** Every other event keeps exact ownership and orderliness, and that request never keeps both. */
  lemma StepConservesOwnership(w: World, e: Event)
    requires ExactlyOwned(w)
    ensures ExactlyOwned(Step(w, e)) <==> !StartsStopping(w, e)
  {
    StepKeepsInv(w, e);
    if StartsStopping(w, e) {
      StartWhileStoppingBreaks(w, e);
    } else {
      StepStaysOrderly(w, e);
      StepConservesExact(w, e);
    }
  }

  ghost predicate Disciplined(es: seq<Event>) {
    forall k :: 0 <= k < |es| ==> !StartsStopping(Run(es[..k]), es[k])
  }

  lemma {:induction false} DisciplinedPrefixOwned(es: seq<Event>, k: nat)
    requires Disciplined(es) && k <= |es|
    ensures ExactlyOwned(Run(es[..k]))
  {
    if k != 0 {
      DisciplinedPrefixOwned(es, k - 1);
      PrefixStep(es, k - 1);
      StepConservesOwnership(Run(es[..k-1]), es[k-1]);
    }
  }

  /** Exact ownership and orderliness hold together all along a run if and only if the run never starts
      a STOPPING process; such a run never orphans a child. */
  lemma OwnershipConserved(es: seq<Event>)
    ensures Disciplined(es) <==> forall k :: 0 <= k <= |es| ==> ExactlyOwned(Run(es[..k]))
    ensures Disciplined(es) ==> NeverOrphans(es)
  {
    if Disciplined(es) {
      forall k | 0 <= k <= |es|
        ensures ExactlyOwned(Run(es[..k]))
      {
        DisciplinedPrefixOwned(es, k);
      }
      OwnershipExactIff(es);
    }
    if forall k :: 0 <= k <= |es| ==> ExactlyOwned(Run(es[..k])) {
      forall k | 0 <= k < |es|
        ensures !StartsStopping(Run(es[..k]), es[k])
      {
        PrefixStep(es, k);
        assert ExactlyOwned(Run(es[..k])) && ExactlyOwned(Run(es[..k+1]));
        StepConservesOwnership(Run(es[..k]), es[k]);
      }
    }
  }

  /** In a run that never orphans a child no exit is lost: a reaped child belongs to exactly one process, that
      process takes the exit, and no other process notices. */
  lemma ExitReachesItsOwner(es: seq<Event>, pid: int)
    requires NeverOrphans(es) && IsZombie(Run(es).os, pid)
    ensures var w := Run(es); var w' := Step(w, Reap(pid));
      exists n :: n in w.procs && w.procs[n].pid == pid && w.procs[n].id == w.os.children[pid].owner
        && (forall m :: m in w.procs && w.procs[m].pid == pid ==> m == n)
        && w'.procs == w.procs[n := OnExitStep(w.procs[n], w.os.children[pid].exit.value, w.os.now)]
        && w'.os.children == w.os.children - {pid}
  {
    var w := Run(es);
    assert es[..|es|] == es;
    ExactUpTo(es, |es|);
    var n := HolderOf(w, pid);
    assert w.procs[n].pid == pid && w.procs[n].id == w.os.children[pid].owner;
  }

  /** A run that starts a STOPPING process and loses a child: pid 5 stays unreaped and nobody has it. */
  lemma StartWhileStoppingLosesChild(config: ProgramConfig)
    ensures var w := Run([Add(config, 0), Start(config.name, Fork(5, 0)), Stop(config.name), Start(config.name, Fork(6, 0))]);
      5 in w.os.children && !HasPid(w, 5)
  {
    var n := config.name;
    var es := [Add(config, 0), Start(n, Fork(5, 0)), Stop(n), Start(n, Fork(6, 0))];
    RunSnoc(EMPTY_WORLD, [], es[0]);
    RunSnoc(EMPTY_WORLD, es[..1], es[1]);
    RunSnoc(EMPTY_WORLD, es[..2], es[2]);
    RunSnoc(EMPTY_WORLD, es[..3], es[3]);
    assert [] + [es[0]] == es[..1] && es[..1] + [es[1]] == es[..2] && es[..2] + [es[2]] == es[..3] && es[..3] + [es[3]] == es;
    var w1, w2, w3 := Run(es[..1]), Run(es[..2]), Run(es[..3]);
    assert w1.procs.Keys == {n};
    assert w2.procs[n].pid == 5 && w2.procs.Keys == {n};
    assert w3.procs[n].state == STOPPING && w3.procs.Keys == {n};
  }
}
