/** The SIGKILL that ends a stop cannot be put off, over every run. */
module StopDeadline {
  import opened Kernel
  import opened ProcessModel
  import opened Supervision
  import opened Ownership
  import opened Backoff

  /** `n` is STOPPING all along; in particular it is neither started nor removed meanwhile. */
  ghost predicate StillStopping(w: World, es: seq<Event>, n: string) {
    forall k :: 0 <= k <= |es| ==>
      n in RunFrom(w, es[..k]).procs && RunFrom(w, es[..k]).procs[n].state.STOPPING?
  }

  lemma Prefixes(w: World, es: seq<Event>, n: string)
    requires es != [] && StillStopping(w, es, n)
    ensures StillStopping(w, es[..|es|-1], n)
  {
    var before := es[..|es|-1];
    assert forall k :: 0 <= k <= |before| ==> before[..k] == es[..k];
  }

  /** Nothing that happens while a process is STOPPING touches it: repeated stop requests, ticks and
      the SIGKILL itself keep the pid and the time of the first stop. */
  lemma {:induction false} StoppingIsFrozen(w: World, es: seq<Event>, n: string)
    requires WorldInv(w) && StillStopping(w, es, n)
    ensures n in w.procs && n in RunFrom(w, es).procs && RunFrom(w, es).procs[n] == w.procs[n]
  {
    assert es[..0] == [];
    if es != [] {
      var before, e := es[..|es|-1], es[|es|-1];
      Prefixes(w, es, n);
      StoppingIsFrozen(w, before, n);
      RunFromInv(w, before);
      assert es[..|es|] == es;
      assert RunFrom(w, es).procs[n].state.STOPPING?;
      StepEffect(RunFrom(w, before), e, n);
    }
  }

  /** The moment from which SIGKILL may be sent. */
  function KillTime(p: Proc): int {
    p.changed + Max(0, p.config.stopwaitsecs) * SECOND
  }

  predicate IsKillOf(s: Signal, p: Proc) {
    s.from == p.id && s.pid == p.pid && s.kind.SIGKILL?
  }

  lemma SignalsOf(w: World, e: Event, n: string, i: int)
    requires WorldInv(w) && n in w.procs && w.procs[n].state.STOPPING?
    requires n in Step(w, e).procs && Step(w, e).procs[n].state.STOPPING?
    requires |w.os.signals| <= i < |Step(w, e).os.signals| && IsKillOf(Step(w, e).os.signals[i], w.procs[n])
    requires StopSignal(w.procs[n].config.stopsignal) != SIGKILL
    ensures Step(w, e).os.signals[i].at >= KillTime(w.procs[n])
  {
    StepEffect(w, e, n);
  }

  lemma SignalsGrow(w: World, e: Event)
    ensures w.os.signals <= Step(w, e).os.signals
  {
  }

  /** Not too early: unless the configured stop signal is KILL itself, no SIGKILL is sent before
      stopwaitsecs have passed since the first stop. */
  lemma {:induction false} KilledNoEarlier(w: World, es: seq<Event>, n: string, i: int)
    requires WorldInv(w) && StillStopping(w, es, n) && n in w.procs
    requires StopSignal(w.procs[n].config.stopsignal) != SIGKILL
    requires |w.os.signals| <= i < |RunFrom(w, es).os.signals|
    requires IsKillOf(RunFrom(w, es).os.signals[i], w.procs[n])
    ensures RunFrom(w, es).os.signals[i].at >= KillTime(w.procs[n])
  {
    if es != [] {
      var before, e := es[..|es|-1], es[|es|-1];
      var v := RunFrom(w, before);
      Prefixes(w, es, n);
      StoppingIsFrozen(w, before, n);
      StoppingIsFrozen(w, es, n);
      RunFromInv(w, before);
      SignalsGrow(v, e);
      if i < |v.os.signals| {
        KilledNoEarlier(w, before, n, i);
      } else {
        SignalsOf(v, e, n, i);
      }
    }
  }

  /** When the timer last updated `n`; the start of the run if it has not yet. */
  ghost function LastTick(w: World, es: seq<Event>, n: string): int {
    if es == [] then w.os.now
    else if es[|es|-1].Update? && es[|es|-1].name == n then RunFrom(w, es[..|es|-1]).os.now
    else LastTick(w, es[..|es|-1], n)
  }

  /** Never more than `u` without a tick. */
  ghost predicate TicksEvery(w: World, es: seq<Event>, n: string, u: int) {
    forall k :: 0 <= k <= |es| ==> RunFrom(w, es[..k]).os.now - LastTick(w, es[..k], n) <= u
  }

  ghost predicate KilledBetween(w: World, ss: seq<Signal>, p: Proc, u: int) {
    exists i :: |w.os.signals| <= i < |ss| && IsKillOf(ss[i], p) && KillTime(p) <= ss[i].at <= KillTime(p) + u
  }

  lemma KilledBetweenGrows(w: World, ss: seq<Signal>, ss': seq<Signal>, p: Proc, u: int)
    requires KilledBetween(w, ss, p, u) && ss <= ss'
    ensures KilledBetween(w, ss', p, u)
  {
    var i :| |w.os.signals| <= i < |ss| && IsKillOf(ss[i], p) && KillTime(p) <= ss[i].at <= KillTime(p) + u;
    assert ss'[i] == ss[i];
  }

  lemma {:induction false} SignalsGrowFrom(w: World, es: seq<Event>)
    ensures |w.os.signals| <= |RunFrom(w, es).os.signals|
  {
    if es != [] {
      SignalsGrowFrom(w, es[..|es|-1]);
      SignalsGrow(RunFrom(w, es[..|es|-1]), es[|es|-1]);
    }
  }

  /** A tick at or after the kill time sends SIGKILL. */
  lemma TickKills(w: World, v: World, e: Event, n: string, u: int)
    requires n in v.procs && v.procs[n].state.STOPPING? && e.Update? && e.name == n
    requires |w.os.signals| <= |v.os.signals|
    requires KillTime(v.procs[n]) <= v.os.now <= KillTime(v.procs[n]) + u && v.procs[n].changed <= v.os.now
    ensures KilledBetween(w, Step(v, e).os.signals, v.procs[n], u)
  {
    var ss := Step(v, e).os.signals;
    assert Elapsed(v.procs[n], v.os.now) >= v.procs[n].config.stopwaitsecs;
    assert IsKillOf(ss[|v.os.signals|], v.procs[n]);
  }

  lemma {:induction false} KilledOrTickPending(w: World, es: seq<Event>, n: string, u: int)
    requires WorldInv(w) && StillStopping(w, es, n) && n in w.procs && TicksEvery(w, es, n, u)
    requires w.os.now == w.procs[n].changed && u >= 0
    ensures KilledBetween(w, RunFrom(w, es).os.signals, w.procs[n], u) || LastTick(w, es, n) <= KillTime(w.procs[n])
  {
    if es != [] {
      var before, e := es[..|es|-1], es[|es|-1];
      var v := RunFrom(w, before);
      Prefixes(w, es, n);
      assert forall k :: 0 <= k <= |before| ==> before[..k] == es[..k];
      KilledOrTickPending(w, before, n, u);
      StoppingIsFrozen(w, before, n);
      RunFromInv(w, before);
      SignalsGrow(v, e);
      if KilledBetween(w, v.os.signals, w.procs[n], u) {
        KilledBetweenGrows(w, v.os.signals, Step(v, e).os.signals, w.procs[n], u);
      } else if e.Update? && e.name == n && v.os.now > KillTime(w.procs[n]) {
        assert es[..|before|] == before;
        SignalsGrowFrom(w, before);
        TickKills(w, v, e, n, u);
      }
    }
  }

  /** Not too late: counting from the first stop, with ticks at most `u` apart, a child that is still
      STOPPING after stopwaitsecs + u has been sent SIGKILL within that window. */
  lemma {:induction false} KilledNoLater(w: World, es: seq<Event>, n: string, u: int)
    requires WorldInv(w) && StillStopping(w, es, n) && n in w.procs && TicksEvery(w, es, n, u)
    requires w.os.now == w.procs[n].changed && u >= 0
    requires RunFrom(w, es).os.now > KillTime(w.procs[n]) + u
    ensures KilledBetween(w, RunFrom(w, es).os.signals, w.procs[n], u)
  {
    KilledOrTickPending(w, es, n, u);
    assert es[..|es|] == es;
  }

  /** In every run a stop request for a process with a child sends that child one signal at once, and
      it arrives; the signal is the one configured, or else SIGTERM. */
  lemma StopSignalIsImmediate(es: seq<Event>, n: string)
    requires n in Run(es).procs && Run(es).procs[n].pid > 0
    ensures var w, w' := Run(es), Run(es + [Stop(n)]); var p := w.procs[n];
      && |w'.os.signals| == |w.os.signals| + 1 && w.os.signals <= w'.os.signals
      && var s := w'.os.signals[|w.os.signals|];
         && s.from == p.id && s.pid == p.pid && s.at == w.os.now && s.hit
         && (s.kind.SIGKILL? <==> p.config.stopsignal == "KILL")
         && (s.kind.SIGINT? <==> p.config.stopsignal == "INT")
         && (s.kind.SIGQUIT? <==> p.config.stopsignal == "QUIT")
         && (s.kind.SIGHUP? <==> p.config.stopsignal == "HUP")
  {
    RunSnoc(EMPTY_WORLD, es, Stop(n));
    RunFromInv(EMPTY_WORLD, es);
    assert ProcOk(Run(es).os, Run(es).procs[n]);
  }
}
