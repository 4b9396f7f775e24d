/** Failed starts, back-off and FATAL, over every run. */
module Backoff {
  import opened Kernel
  import opened ProcessModel
  import opened Supervision
  import opened Ownership
  import opened Wrappers

  // ---- FATAL is never spurious ----

  /** A start failed: the fork failed, or the child died while STARTING and is to be restarted. */
  predicate FailedStart(w: World, e: Event, n: string) {
    || (RestartAttempt(w, e, n) && !ForkSucceeds(w.os, e.fork))
    || (e.Reap? && n in w.procs && w.procs[n].pid == e.pid && IsZombie(w.os, e.pid)
        && w.procs[n].state.STARTING? && w.procs[n].config.autorestart)
  }

  /** The process is created, comes up, or completes a requested stop. */
  ghost predicate ClearsFailures(w: World, e: Event, n: string) {
    || (e.Add? && e.config.name == n)
    || (n in w.procs && n in Step(w, e).procs && !w.procs[n].state.RUNNING? && Step(w, e).procs[n].state.RUNNING?)
    || (e.Reap? && n in w.procs && w.procs[n].pid == e.pid && IsZombie(w.os, e.pid) && w.procs[n].state.STOPPING?)
  }

  /** Failed starts of `n` since the last event that clears them, read off the run. */
  ghost function Failures(w: World, es: seq<Event>, n: string): nat {
    if es == [] then 0 else
    var before, e := es[..|es|-1], es[|es|-1];
    if FailedStart(RunFrom(w, before), e, n) then Failures(w, before, n) + 1
    else if ClearsFailures(RunFrom(w, before), e, n) then 0
    else Failures(w, before, n)
  }

  lemma CountStep(w: World, e: Event, n: string, before: nat)
    requires WorldInv(w) && n in Step(w, e).procs && (n in w.procs ==> w.procs[n].retryCount == before)
    ensures Step(w, e).procs[n].retryCount ==
              if FailedStart(w, e, n) then before + 1 else if ClearsFailures(w, e, n) then 0 else before
  {
    if n in w.procs {
      StepEffect(w, e, n);
    }
  }

  /** The retry counter is exactly the number of failed starts since the process was created, last
      came up, or last stopped cleanly. */
  lemma {:induction false} RetryCountIsFailures(w: World, es: seq<Event>, n: string)
    requires WorldInv(w) && (n in w.procs ==> w.procs[n].retryCount == 0)
    requires n in RunFrom(w, es).procs
    ensures RunFrom(w, es).procs[n].retryCount == Failures(w, es, n)
  {
    if es != [] {
      var before, e := es[..|es|-1], es[|es|-1];
      RunFromInv(w, before);
      if n in RunFrom(w, before).procs {
        RetryCountIsFailures(w, before, n);
      }
      CountStep(RunFrom(w, before), e, n, Failures(w, before, n));
    }
  }

  /** In every run a FATAL process has had its full number of failed starts with no success and no
      clean stop among them, and a RUNNING process starts again from none. */
  lemma FatalNeverSpurious(es: seq<Event>, n: string)
    requires n in Run(es).procs
    ensures var p := Run(es).procs[n];
      && (p.state.FATAL? ==> Failures(EMPTY_WORLD, es, n) >= Max(1, p.config.startretries))
      && (p.state.RUNNING? ==> Failures(EMPTY_WORLD, es, n) == 0)
  {
    RetryCountIsFailures(EMPTY_WORLD, es, n);
    RunFromInv(EMPTY_WORLD, es);
  }

  // ---- A program that nobody touches and that never comes up ----

  /** No request concerns `n` except starting it from STOPPED, and it does not reach RUNNING. */
  ghost predicate LeftAlone(w: World, e: Event, n: string) {
    && n in w.procs
    && !(e.Stop? && e.name == n) && !(e.Kill? && e.name == n) && !(e.Remove? && e.name == n)
    && !(e.Add? && e.config.name == n)
    && (e.Start? && e.name == n ==> w.procs[n].state.STOPPED?)
    && !EffectOn(w, e, n).state.RUNNING?
  }

  ghost predicate NeverComesUp(w: World, es: seq<Event>, n: string) {
    forall k :: 0 <= k < |es| ==> LeftAlone(RunFrom(w, es[..k]), es[k], n)
  }

  predicate Fresh(w: World, n: string) {
    n in w.procs && w.procs[n].state.STOPPED? && w.procs[n].retryCount == 0
  }

  function Limit(config: ProgramConfig): int {
    Max(1, config.startretries)
  }

  predicate OnTheWayToFatal(p: Proc) {
    (p.pid > 0 ==> p.state.STARTING?) &&
    match p.state
    case STOPPED => p.retryCount == 0
    case STARTING => p.retryCount < Limit(p.config)
    case BACKOFF => 1 <= p.retryCount < Limit(p.config)
    case FATAL => p.retryCount == Limit(p.config)
    case EXITED => p.retryCount < Limit(p.config)
    case _ => false
  }

  lemma PrefixOfPrefix(w: World, es: seq<Event>, n: string)
    requires es != [] && NeverComesUp(w, es, n)
    ensures NeverComesUp(w, es[..|es|-1], n)
    ensures LeftAlone(RunFrom(w, es[..|es|-1]), es[|es|-1], n)
  {
    var before := es[..|es|-1];
    assert forall k :: 0 <= k <= |before| ==> before[..k] == es[..k];
  }

  lemma OnTheWayStep(w: World, e: Event, n: string)
    requires WorldInv(w) && LeftAlone(w, e, n) && OnTheWayToFatal(w.procs[n])
    ensures OnTheWayToFatal(EffectOn(w, e, n)) && EffectOn(w, e, n).config == w.procs[n].config
  {
  }

  lemma {:induction false} StaysOnTheWay(w: World, es: seq<Event>, n: string)
    requires WorldInv(w) && Fresh(w, n) && NeverComesUp(w, es, n)
    ensures var w' := RunFrom(w, es);
      n in w'.procs && w'.procs[n].config == w.procs[n].config && OnTheWayToFatal(w'.procs[n])
  {
    if es != [] {
      var before, e := es[..|es|-1], es[|es|-1];
      PrefixOfPrefix(w, es, n);
      StaysOnTheWay(w, before, n);
      RunFromInv(w, before);
      OnTheWayStep(RunFrom(w, before), e, n);
      StepEffect(RunFrom(w, before), e, n);
    }
  }

  /** Without user commands the number of failures decides everything: FATAL comes with exactly the
      last allowed one. */
  lemma {:induction false} ExactlyLimitFailuresReachFatal(w: World, es: seq<Event>, n: string)
    requires WorldInv(w) && Fresh(w, n) && NeverComesUp(w, es, n)
    ensures var w' := RunFrom(w, es);
      && n in w'.procs && w'.procs[n].config == w.procs[n].config
      && Failures(w, es, n) <= Limit(w.procs[n].config)
      && (w'.procs[n].state.FATAL? <==> Failures(w, es, n) == Limit(w.procs[n].config))
  {
    StaysOnTheWay(w, es, n);
    RetryCountIsFailures(w, es, n);
  }

  /** Seconds of waiting between the first `k + 1` attempts: the sum of min(2^i, 60) for i in 1..k. */
  function TotalDelay(k: nat): nat {
    if k == 0 then 0 else TotalDelay(k - 1) + Min(Pow2(k), 60)
  }

  lemma {:induction false} TotalDelayClosedForm(n: nat)
    requires 1 <= n
    ensures n <= 6 ==> TotalDelay(n - 1) == Pow2(n) - 2
    ensures 6 <= n ==> TotalDelay(n - 1) == 62 + 60 * (n - 6)
  {
    if n > 6 {
      TotalDelayClosedForm(n - 1);
      Pow2Monotone(6, n - 1);
      assert Pow2(6) == 64;
    } else if n > 1 {
      TotalDelayClosedForm(n - 1);
      Pow2Monotone(n - 1, 5);
      assert Pow2(5) == 32;
    }
  }

  lemma {:induction false} Pow2Monotone(a: nat, b: nat)
    requires a <= b
    ensures Pow2(a) <= Pow2(b)
  {
    if a < b {
      Pow2Monotone(a, b - 1);
    }
  }

  /** A retry that, if its fork failed, would leave further retries. The delay before the next one would
      not start anew, because BACKOFF to BACKOFF is no change of state. */
  predicate CriticalRetry(w: World, e: Event, n: string) {
    RestartAttempt(w, e, n) && w.procs[n].state.BACKOFF? && w.procs[n].retryCount + 1 < w.procs[n].config.startretries
  }

  /** The first and the last attempt may fail to fork, but no retry in between. */
  ghost predicate CriticalForksSucceed(w: World, es: seq<Event>, n: string) {
    forall k :: 0 <= k < |es| && CriticalRetry(RunFrom(w, es[..k]), es[k], n) ==>
      ForkSucceeds(RunFrom(w, es[..k]).os, es[k].fork)
  }

  predicate WaitedEnough(p: Proc, t0: int) {
    match p.state
    case STARTING => p.retryCount >= 0 && p.changed >= t0 + TotalDelay(p.retryCount) * SECOND
    case BACKOFF => p.retryCount >= 1 && p.changed >= t0 + TotalDelay(p.retryCount - 1) * SECOND
    case FATAL => p.retryCount >= 1 && p.changed >= t0 + TotalDelay(p.retryCount - 1) * SECOND
    case _ => true
  }

  lemma DueMeansElapsed(p: Proc, now: int, undef: int)
    requires RestartDue(p, now, undef) && 0 <= p.retryCount <= 30
    ensures now - p.changed >= Min(Pow2(p.retryCount), 60) * SECOND
  {
  }

  lemma RetryWaits(os: OS, p: Proc, fork: Fork, undef: int, t0: int)
    requires RestartDue(p, os.now, undef) && OnTheWayToFatal(p) && WaitedEnough(p, t0) && p.config.startretries <= 31
    requires p.retryCount + 1 < p.config.startretries ==> ForkSucceeds(os, fork)
    ensures WaitedEnough(StartStep(os, p, fork).p, t0)
  {
    DueMeansElapsed(p, os.now, undef);
    assert TotalDelay(p.retryCount) == TotalDelay(p.retryCount - 1) + Min(Pow2(p.retryCount), 60);
  }

  lemma WaitStep(w: World, e: Event, n: string, t0: int)
    requires WorldInv(w) && t0 <= w.os.now && LeftAlone(w, e, n)
    requires OnTheWayToFatal(w.procs[n]) && WaitedEnough(w.procs[n], t0) && w.procs[n].config.startretries <= 31
    requires CriticalRetry(w, e, n) ==> ForkSucceeds(w.os, e.fork)
    ensures WaitedEnough(EffectOn(w, e, n), t0)
  {
    if e.Update? && RestartAttempt(w, e, n) {
      RetryWaits(w.os, w.procs[n], e.fork, e.undef, t0);
    }
  }

  lemma {:induction false} WaitsAddUp(w: World, es: seq<Event>, n: string)
    requires WorldInv(w) && Fresh(w, n) && NeverComesUp(w, es, n) && CriticalForksSucceed(w, es, n)
    requires w.procs[n].config.startretries <= 31
    ensures n in RunFrom(w, es).procs && WaitedEnough(RunFrom(w, es).procs[n], w.os.now)
  {
    if es != [] {
      var before, e := es[..|es|-1], es[|es|-1];
      PrefixOfPrefix(w, es, n);
      assert forall k :: 0 <= k <= |before| ==> before[..k] == es[..k];
      assert CriticalForksSucceed(w, before, n);
      WaitsAddUp(w, before, n);
      StaysOnTheWay(w, before, n);
      RunFromInv(w, before);
      StepEffect(RunFrom(w, before), e, n);
      assert e == es[|before|];
      WaitStep(RunFrom(w, before), e, n, w.os.now);
    }
  }

  /** When no critical fork fails, and whatever else fails or dies while STARTING, FATAL is not reached
      before all the back-off delays have passed one after the other. */
  lemma {:induction false} MinimumTimeToFatal(w: World, es: seq<Event>, n: string)
    requires WorldInv(w) && Fresh(w, n) && NeverComesUp(w, es, n) && CriticalForksSucceed(w, es, n)
    requires w.procs[n].config.startretries <= 31
    ensures n in RunFrom(w, es).procs
    ensures RunFrom(w, es).procs[n].state.FATAL? ==>
              RunFrom(w, es).os.now - w.os.now >= LeastTimeToFatal(w.procs[n].config) * SECOND
  {
    WaitsAddUp(w, es, n);
    StaysOnTheWay(w, es, n);
    RunFromInv(w, es);
    var w' := RunFrom(w, es);
    if w'.procs[n].state.FATAL? {
      FatalWaitedEnough(w'.procs[n], w.os.now);
    }
  }

  /** In seconds: 2^n - 2 for up to six attempts, and 60 more for each one above. */
  function LeastTimeToFatal(config: ProgramConfig): int {
    var limit := Limit(config);
    if limit <= 6 then Pow2(limit) - 2 else 62 + 60 * (limit - 6)
  }

  lemma FatalWaitedEnough(p: Proc, t0: int)
    requires p.state.FATAL? && OnTheWayToFatal(p) && WaitedEnough(p, t0)
    ensures p.changed >= t0 + LeastTimeToFatal(p.config) * SECOND
  {
    TotalDelayClosedForm(Limit(p.config));
  }

  /** The delay of the next attempt counts from this one exactly when this one forked: a failed fork
      leaves the process in BACKOFF, and a transition to the same state keeps the old time. */
  lemma FailedForkKeepsOldDelay(os: OS, p: Proc, fork: Fork, undef: int)
    requires RestartDue(p, os.now, undef) && p.retryCount + 1 < p.config.startretries && p.changed < os.now
    ensures UpdateStep(os, p, fork, undef).p.changed != p.changed <==> ForkSucceeds(os, fork)
  {
  }

  // ---- Without anything known about forks ----

  ghost predicate FatalInTime(w: World, es: seq<Event>, n: string, config: ProgramConfig) {
    WorldInv(w) && Fresh(w, n) && w.procs[n].config == config && NeverComesUp(w, es, n)
      && n in RunFrom(w, es).procs && RunFrom(w, es).procs[n].state.FATAL? ==>
        RunFrom(w, es).os.now - w.os.now >= LeastTimeToFatal(config) * SECOND
  }

  /** FATAL takes at least the sum of the delays, from any state and in any run in which nobody touches
      the program and it never comes up. */
  ghost predicate DelaysAlwaysAddUp(config: ProgramConfig) {
    forall w: World, es: seq<Event>, n: string :: FatalInTime(w, es, n, config)
  }

  function LongestDelay(config: ProgramConfig): nat
    requires config.startretries >= 3
  {
    Min(Pow2(config.startretries - 1), 60) * SECOND
  }

  predicate AfterHasty(w: World, config: ProgramConfig, ticks: nat)
    requires config.startretries >= 3
  {
    && config.name in w.procs
    && w.os.now == LongestDelay(config)
    && var p := w.procs[config.name];
       && p.config == config && p.pid == -1 && p.retryCount == ticks + 1
       && if ticks + 1 < config.startretries then p.state.BACKOFF? && p.changed == 0 else p.state.FATAL?
  }

  lemma HastyTick(w: World, config: ProgramConfig, ticks: nat)
    requires 3 <= config.startretries && 0 < ticks < config.startretries && AfterHasty(w, config, ticks - 1)
    ensures var e := Update(config.name, Fork(-1, 0), 0);
      AfterHasty(Step(w, e), config, ticks) && LeftAlone(w, e, config.name)
  {
    var p := w.procs[config.name];
    if p.retryCount < 31 {
      Pow2Monotone(p.retryCount, config.startretries - 1);
    }
    assert Elapsed(p, w.os.now) >= BackoffDelay(p.retryCount, 0);
  }

  lemma HastyStart(w: World, config: ProgramConfig)
    requires config.startretries >= 3
    requires config.name in w.procs && w.procs[config.name] == NewProc(0, config, 0) && w.os.now == 0
    ensures var e1, e2 := Start(config.name, Fork(-1, 0)), Elapse(LongestDelay(config));
      && AfterHasty(Step(Step(w, e1), e2), config, 0)
      && LeftAlone(w, e1, config.name) && LeftAlone(Step(w, e1), e2, config.name)
  {
  }

  lemma NeverComesUpSnoc(w: World, es: seq<Event>, e: Event, n: string)
    requires NeverComesUp(w, es, n) && LeftAlone(RunFrom(w, es), e, n)
    ensures NeverComesUp(w, es + [e], n) && RunFrom(w, es + [e]) == Step(RunFrom(w, es), e)
  {
    var all := es + [e];
    RunSnoc(w, es, e);
    forall k | 0 <= k < |all|
      ensures LeftAlone(RunFrom(w, all[..k]), all[k], n)
    {
      assert all[..k] == es[..k];
      assert k == |es| ==> es[..k] == es;
    }
  }

  lemma HastyRunBegins(w: World, config: ProgramConfig) returns (es: seq<Event>)
    requires config.startretries >= 3
    requires config.name in w.procs && w.procs[config.name] == NewProc(0, config, 0) && w.os.now == 0
    ensures NeverComesUp(w, es, config.name) && AfterHasty(RunFrom(w, es), config, 0)
  {
    var n, e1, e2 := config.name, Start(config.name, Fork(-1, 0)), Elapse(LongestDelay(config));
    HastyStart(w, config);
    NeverComesUpSnoc(w, [], e1, n);
    NeverComesUpSnoc(w, [] + [e1], e2, n);
    es := [] + [e1] + [e2];
  }

  /** The first fork fails, the longest delay passes, and then every tick finds the retry due. */
  lemma {:induction false} HastyRun(w: World, config: ProgramConfig, ticks: nat) returns (es: seq<Event>)
    requires 3 <= config.startretries && ticks < config.startretries
    requires config.name in w.procs && w.procs[config.name] == NewProc(0, config, 0) && w.os.now == 0
    ensures NeverComesUp(w, es, config.name) && AfterHasty(RunFrom(w, es), config, ticks)
  {
    if ticks == 0 {
      es := HastyRunBegins(w, config);
    } else {
      var before := HastyRun(w, config, ticks - 1);
      HastyRunGoesOn(w, before, config, ticks);
      es := before + [Update(config.name, Fork(-1, 0), 0)];
    }
  }

  lemma HastyRunGoesOn(w: World, es: seq<Event>, config: ProgramConfig, ticks: nat)
    requires 3 <= config.startretries && 0 < ticks < config.startretries
    requires NeverComesUp(w, es, config.name) && AfterHasty(RunFrom(w, es), config, ticks - 1)
    ensures var es' := es + [Update(config.name, Fork(-1, 0), 0)];
      NeverComesUp(w, es', config.name) && AfterHasty(RunFrom(w, es'), config, ticks)
  {
    HastyTick(RunFrom(w, es), config, ticks);
    NeverComesUpSnoc(w, es, Update(config.name, Fork(-1, 0), 0), config.name);
  }

  lemma Created(config: ProgramConfig)
    ensures var w := Run([Add(config, 0)]); WorldInv(w) && w.os.now == 0
    ensures config.name in Run([Add(config, 0)]).procs && Run([Add(config, 0)]).procs[config.name] == NewProc(0, config, 0)
  {
    RunFromInv(EMPTY_WORLD, [Add(config, 0)]);
    RunSnoc(EMPTY_WORLD, [], Add(config, 0));
    assert [] + [Add(config, 0)] == [Add(config, 0)];
  }

  lemma LongestDelayTooShort(config: ProgramConfig)
    requires 3 <= config.startretries
    ensures LongestDelay(config) < LeastTimeToFatal(config) * SECOND
  {
    assert Pow2(config.startretries) == 2 * Pow2(config.startretries - 1);
    Pow2Monotone(2, config.startretries - 1);
    assert Pow2(2) == 4;
  }

  lemma FewRetriesAddUp(w: World, es: seq<Event>, n: string, config: ProgramConfig)
    requires config.startretries <= 2
    ensures FatalInTime(w, es, n, config)
  {
    if WorldInv(w) && Fresh(w, n) && w.procs[n].config == config && NeverComesUp(w, es, n) {
      NoCriticalRetry(w, es, n);
      MinimumTimeToFatal(w, es, n);
    }
  }

  lemma ManyRetriesDoNot(config: ProgramConfig) returns (es: seq<Event>)
    requires 3 <= config.startretries
    ensures !FatalInTime(Run([Add(config, 0)]), es, config.name, config)
  {
    var w := Run([Add(config, 0)]);
    Created(config);
    es := HastyRun(w, config, config.startretries - 1);
    LongestDelayTooShort(config);
    HastyIsFatal(RunFrom(w, es), config);
    assert Fresh(w, config.name);
  }

  lemma HastyIsFatal(w: World, config: ProgramConfig)
    requires config.startretries >= 3 && AfterHasty(w, config, config.startretries - 1)
    ensures w.procs[config.name].state.FATAL? && w.os.now == LongestDelay(config)
  {
  }

  /** With at most two retries no retry is critical; for every larger number there is a run of failing
      forks, from the creation of the process on, that is over after its longest delay alone. The
      settings other than startretries do not matter. */
  lemma DelaysAddUpIff(config: ProgramConfig)
    ensures DelaysAlwaysAddUp(config) <==> config.startretries <= 2
  {
    if config.startretries <= 2 {
      forall w: World, es: seq<Event>, n: string
        ensures FatalInTime(w, es, n, config)
      {
        FewRetriesAddUp(w, es, n, config);
      }
    } else {
      var _ := ManyRetriesDoNot(config);
    }
  }

  lemma NoCriticalRetry(w: World, es: seq<Event>, n: string)
    requires WorldInv(w) && Fresh(w, n) && NeverComesUp(w, es, n) && w.procs[n].config.startretries <= 2
    ensures CriticalForksSucceed(w, es, n)
  {
    forall k | 0 <= k < |es|
      ensures !CriticalRetry(RunFrom(w, es[..k]), es[k], n)
    {
      assert NeverComesUp(w, es[..k], n) by {
        assert forall j :: 0 <= j < k ==> es[..k][..j] == es[..j];
      }
      StaysOnTheWay(w, es[..k], n);
    }
  }

  // ---- When the critical forks succeed ----

  ghost predicate FatalInTimeWithForks(w: World, es: seq<Event>, n: string, config: ProgramConfig) {
    WorldInv(w) && Fresh(w, n) && w.procs[n].config == config && Forking(w, es, n)
      && n in RunFrom(w, es).procs && RunFrom(w, es).procs[n].state.FATAL? ==>
        RunFrom(w, es).os.now - w.os.now >= LeastTimeToFatal(config) * SECOND
  }

  ghost predicate Forking(w: World, es: seq<Event>, n: string) {
    NeverComesUp(w, es, n) && CriticalForksSucceed(w, es, n)
  }

  /** FATAL takes at least the sum of the delays in every run whose critical forks succeed. */
  ghost predicate ForksMakeDelaysAddUp(config: ProgramConfig) {
    forall w: World, es: seq<Event>, n: string :: FatalInTimeWithForks(w, es, n, config)
  }

  lemma ForkingSnoc(w: World, es: seq<Event>, e: Event, n: string)
    requires Forking(w, es, n) && LeftAlone(RunFrom(w, es), e, n)
    requires CriticalRetry(RunFrom(w, es), e, n) ==> ForkSucceeds(RunFrom(w, es).os, e.fork)
    ensures Forking(w, es + [e], n) && RunFrom(w, es + [e]) == Step(RunFrom(w, es), e)
  {
    var all := es + [e];
    NeverComesUpSnoc(w, es, e, n);
    forall k | 0 <= k < |all| && CriticalRetry(RunFrom(w, all[..k]), all[k], n)
      ensures ForkSucceeds(RunFrom(w, all[..k]).os, all[k].fork)
    {
      assert all[..k] == es[..k];
      assert k == |es| ==> es[..k] == es;
    }
  }

  /** The delays that are waited before the attempt after `k` failures; none from 31 failures on. */
  function DelaysBefore(k: nat): nat {
    TotalDelay(Min(k, 30))
  }

  /** `k` attempts have forked and died at once. */
  predicate AfterDeaths(v: World, config: ProgramConfig, k: nat) {
    && config.name in v.procs && v.os.children == map[]
    && var p := v.procs[config.name];
       && p.config == config && p.pid == -1 && p.retryCount == k && p.changed == v.os.now
       && if k == 0 then p.state.STOPPED? && v.os.now == 0
          else v.os.now == DelaysBefore(k - 1) * SECOND && p.state == if k < config.startretries then BACKOFF else FATAL
  }

  /** The attempt after `k` failures has forked. */
  predicate Forked(v: World, config: ProgramConfig, k: nat) {
    && config.name in v.procs
    && var p := v.procs[config.name];
       && p.config == config && p.pid == 5 && p.retryCount == k && p.state.STARTING? && p.changed == v.os.now
       && v.os.children == map[5 := Child(p.id, None)] && v.os.now == DelaysBefore(k) * SECOND
  }

  lemma Dies(v: World, config: ProgramConfig, k: nat)
    requires WorldInv(v) && Forked(v, config, k) && config.autorestart
    ensures var e1, e2 := EndChild(5, Exited(0)), Reap(5);
      && AfterDeaths(Step(Step(v, e1), e2), config, k + 1)
      && LeftAlone(v, e1, config.name) && LeftAlone(Step(v, e1), e2, config.name)
  {
    var v1 := Step(v, EndChild(5, Exited(0)));
    StepKeepsInv(v, EndChild(5, Exited(0)));
    assert IsZombie(v1.os, 5);
    StepEffect(v1, Reap(5), config.name);
    assert v1.os.children - {5} == map[];
  }

  function Attempt(config: ProgramConfig, k: nat): Event {
    if k == 0 then Start(config.name, Fork(5, 0)) else Update(config.name, Fork(5, 0), 0)
  }

  function WaitBefore(k: nat): nat {
    (if 0 < k <= 30 then Min(Pow2(k), 60) else 0) * SECOND
  }

  lemma DueAfterWait(p: Proc, k: nat)
    requires 0 < k && p.state.BACKOFF? && p.retryCount == k
    ensures RestartDue(p, p.changed + WaitBefore(k), 0)
    ensures DelaysBefore(k) * SECOND == DelaysBefore(k - 1) * SECOND + WaitBefore(k)
  {
  }

  lemma AttemptForks(v: World, config: ProgramConfig, k: nat)
    requires config.name in v.procs && v.os.children == map[] && v.os.now == DelaysBefore(k) * SECOND
    requires var p := v.procs[config.name];
      && p.config == config && p.retryCount == k
      && if k == 0 then p.state.STOPPED? else RestartDue(p, v.os.now, 0)
    ensures Forked(Step(v, Attempt(config, k)), config, k)
    ensures LeftAlone(v, Attempt(config, k), config.name) && ForkSucceeds(v.os, Attempt(config, k).fork)
  {
  }

  lemma Retries(v: World, config: ProgramConfig, k: nat)
    requires AfterDeaths(v, config, k) && k < config.startretries
    ensures var e1, e2 := Elapse(WaitBefore(k)), Attempt(config, k);
      && Forked(Step(Step(v, e1), e2), config, k)
      && LeftAlone(v, e1, config.name) && LeftAlone(Step(v, e1), e2, config.name)
      && ForkSucceeds(Step(v, e1).os, e2.fork)
  {
    if k > 0 {
      DueAfterWait(v.procs[config.name], k);
    }
    AttemptForks(Step(v, Elapse(WaitBefore(k))), config, k);
  }

  lemma OneDeathMore(w: World, es: seq<Event>, config: ProgramConfig, k: nat) returns (all: seq<Event>)
    requires WorldInv(w) && Forking(w, es, config.name) && AfterDeaths(RunFrom(w, es), config, k)
    requires config.autorestart && k < config.startretries
    ensures Forking(w, all, config.name) && AfterDeaths(RunFrom(w, all), config, k + 1)
  {
    var n := config.name;
    Retries(RunFrom(w, es), config, k);
    ForkingSnoc(w, es, Elapse(WaitBefore(k)), n);
    all := es + [Elapse(WaitBefore(k))];
    ForkingSnoc(w, all, Attempt(config, k), n);
    all := all + [Attempt(config, k)];
    RunFromInv(w, all);
    Dies(RunFrom(w, all), config, k);
    ForkingSnoc(w, all, EndChild(5, Exited(0)), n);
    all := all + [EndChild(5, Exited(0))];
    ForkingSnoc(w, all, Reap(5), n);
    all := all + [Reap(5)];
  }

  /** Every attempt forks and its child dies at once; every retry comes as soon as it is due. */
  lemma {:induction false} DyingRun(w: World, config: ProgramConfig, k: nat) returns (es: seq<Event>)
    requires WorldInv(w) && AfterDeaths(w, config, 0) && config.autorestart && k <= config.startretries
    ensures Forking(w, es, config.name) && AfterDeaths(RunFrom(w, es), config, k)
  {
    es := [];
    if k > 0 {
      es := DyingRun(w, config, k - 1);
      es := OneDeathMore(w, es, config, k - 1);
    }
  }

  lemma ADelayShort(config: ProgramConfig)
    requires config.startretries >= 32
    ensures DelaysBefore(config.startretries - 1) + 60 <= LeastTimeToFatal(config)
  {
    TotalDelayClosedForm(31);
  }

  lemma CreatedAlone(config: ProgramConfig)
    ensures AfterDeaths(Run([Add(config, 0)]), config, 0)
  {
    Created(config);
    RunSnoc(EMPTY_WORLD, [], Add(config, 0));
    assert [] + [Add(config, 0)] == [Add(config, 0)];
  }

  lemma ShiftTooFar(config: ProgramConfig) returns (es: seq<Event>)
    requires config.autorestart && config.startretries >= 32
    ensures !FatalInTimeWithForks(Run([Add(config, 0)]), es, config.name, config)
  {
    var w := Run([Add(config, 0)]);
    Created(config);
    CreatedAlone(config);
    es := DyingRun(w, config, config.startretries);
    ADelayShort(config);
    var v := RunFrom(w, es);
    assert v.os.now == DelaysBefore(config.startretries - 1) * SECOND && v.procs[config.name].state.FATAL?;
    assert Fresh(w, config.name);
  }

  /** Without autorestart a death is final, so that only the first attempt can fail before FATAL. */
  lemma {:induction false} AtMostOneFailure(w: World, es: seq<Event>, n: string)
    requires WorldInv(w) && Fresh(w, n) && Forking(w, es, n)
    requires !w.procs[n].config.autorestart && w.procs[n].config.startretries >= 3
    ensures n in RunFrom(w, es).procs && RunFrom(w, es).procs[n].retryCount <= 1
  {
    if es != [] {
      var before, e := es[..|es|-1], es[|es|-1];
      PrefixOfPrefix(w, es, n);
      assert forall k :: 0 <= k <= |before| ==> before[..k] == es[..k];
      assert CriticalForksSucceed(w, before, n);
      AtMostOneFailure(w, before, n);
      StaysOnTheWay(w, before, n);
      RunFromInv(w, before);
      StepEffect(RunFrom(w, before), e, n);
      assert e == es[|before|];
      FailsOnce(RunFrom(w, before), e, n);
    }
  }

  lemma FailsOnce(v: World, e: Event, n: string)
    requires LeftAlone(v, e, n) && OnTheWayToFatal(v.procs[n]) && v.procs[n].retryCount <= 1
    requires !v.procs[n].config.autorestart && v.procs[n].config.startretries >= 3
    requires CriticalRetry(v, e, n) ==> ForkSucceeds(v.os, e.fork)
    ensures EffectOn(v, e, n).retryCount <= 1
  {
  }

  lemma ForksSuffice(w: World, es: seq<Event>, n: string, config: ProgramConfig)
    requires config.startretries <= 31 || !config.autorestart
    ensures FatalInTimeWithForks(w, es, n, config)
  {
    if WorldInv(w) && Fresh(w, n) && w.procs[n].config == config && Forking(w, es, n) {
      if config.startretries <= 31 {
        MinimumTimeToFatal(w, es, n);
      } else {
        AtMostOneFailure(w, es, n);
        StaysOnTheWay(w, es, n);
      }
    }
  }

  /** The delays add up in every run whose critical forks succeed exactly when the shift stays in range; or
      when there is no autorestart, because then no such run fails more than once. */
  lemma ForksMakeDelaysAddUpIff(config: ProgramConfig)
    ensures ForksMakeDelaysAddUp(config) <==> config.startretries <= 31 || !config.autorestart
  {
    if config.startretries <= 31 || !config.autorestart {
      forall w: World, es: seq<Event>, n: string
        ensures FatalInTimeWithForks(w, es, n, config)
      {
        ForksSuffice(w, es, n, config);
      }
    } else {
      var _ := ShiftTooFar(config);
    }
  }

  // ---- The back-off delay ----

  /** Over every run, also one that starts a STOPPING process, and whatever an undefined shift
      yields: the delay is the documented one, and the timer tries again exactly when it has passed. */
  lemma BackoffBound(es: seq<Event>, n: string, fork: Fork, undef: int)
    requires n in Run(es).procs && Run(es).procs[n].state.BACKOFF? && Run(es).procs[n].config.startretries <= 31
    ensures var w := Run(es); var p := w.procs[n];
      && 0 <= p.retryCount <= 30
      && BackoffDelay(p.retryCount, undef) == Min(Pow2(p.retryCount), 60)
      && 1 <= BackoffDelay(p.retryCount, undef) <= 60
      && (UpdateStep(w.os, p, fork, undef) != Sys(w.os, p) <==>
            w.os.now - p.changed >= Min(Pow2(p.retryCount), 60) * SECOND)
  {
    RunFromInv(EMPTY_WORLD, es);
    var w := Run(es);
    if RestartDue(w.procs[n], w.os.now, undef) {
      DueMeansElapsed(w.procs[n], w.os.now, undef);
    }
  }

  /** The only way to RUNNING is a timer tick on a STARTING process that has survived startsecs, and
      such a tick always leads there. */
  lemma RunningExactlyAfterStartsecs(es: seq<Event>, e: Event, n: string)
    requires n in Run(es).procs && n in Step(Run(es), e).procs
    ensures var w := Run(es); var p := w.procs[n];
      (!p.state.RUNNING? && Step(w, e).procs[n].state.RUNNING?) <==>
        (e.Update? && e.name == n && p.state.STARTING? && w.os.now - p.changed >= p.config.startsecs * SECOND)
  {
    RunFromInv(EMPTY_WORLD, es);
    if !(e.Remove? && e.name == n) {
      StepEffect(Run(es), e, n);
    }
  }

  // ---- Staying down ----

  /** No child, and in none of the states from which the supervisor acts by itself. */
  predicate Resting(p: Proc) {
    p.pid == -1 && (p.state.STOPPED? || p.state.EXITED? || p.state.FATAL?)
  }

  predicate Requests(e: Event, n: string) {
    (e.Start? && e.name == n) || (e.Add? && e.config.name == n) || (e.Remove? && e.name == n)
  }

  ghost predicate NoRequests(es: seq<Event>, n: string) {
    forall k :: 0 <= k < |es| ==> !Requests(es[k], n)
  }

  /** A process at rest stays exactly as it is until it is started, replaced or removed on request. */
  lemma {:induction false} RestsUntilRequested(w: World, es: seq<Event>, n: string)
    requires WorldInv(w) && n in w.procs && Resting(w.procs[n]) && NoRequests(es, n)
    ensures n in RunFrom(w, es).procs && RunFrom(w, es).procs[n] == w.procs[n]
  {
    if es != [] {
      var before, e := es[..|es|-1], es[|es|-1];
      RestsUntilRequested(w, before, n);
      RunFromInv(w, before);
      assert e == es[|before|];
      StepEffect(RunFrom(w, before), e, n);
      ZombiesArePositive(RunFrom(w, before));
    }
  }

  lemma ZombiesArePositive(w: World)
    requires WorldInv(w)
    ensures forall pid :: IsZombie(w.os, pid) ==> pid > 0
  {
  }

  /** A program without autorestart that ends by itself is not brought back: its exit leads to EXITED
      with the status recorded, and there it stays until a request. */
  lemma StaysDownWithoutAutorestart(w: World, pid: int, es: seq<Event>, n: string)
    requires WorldInv(w) && IsZombie(w.os, pid) && n in w.procs && w.procs[n].pid == pid
    requires UpOrComingUp(w.procs[n].state) && !w.procs[n].config.autorestart && NoRequests(es, n)
    ensures n in RunFrom(Step(w, Reap(pid)), es).procs
    ensures var p := RunFrom(Step(w, Reap(pid)), es).procs[n];
      && p.state.EXITED? && p.pid == -1
      && match w.os.children[pid].exit.value
         case Exited(code) => p.exitStatus == code
         case Signaled(sig) => p.exitStatus == -sig
         case OtherStatus(raw) => p.exitStatus == raw
  {
    StepEffect(w, Reap(pid), n);
    StepKeepsInv(w, Reap(pid));
    RestsUntilRequested(Step(w, Reap(pid)), es, n);
  }

  ghost predicate DelayAlwaysInRange(config: ProgramConfig) {
    forall es: seq<Event>, n: string, undef: int ::
      n in Run(es).procs && Run(es).procs[n].config == config && Run(es).procs[n].state.BACKOFF? ==>
        1 <= BackoffDelay(Run(es).procs[n].retryCount, undef) <= 60
  }

  function FailingRun(config: ProgramConfig, k: nat): (es: seq<Event>) {
    if k == 0 then [Add(config, 0)] else FailingRun(config, k - 1) + [Start(config.name, Fork(-1, 0))]
  }

  lemma {:induction false} FailingRunBacksOff(config: ProgramConfig, k: nat)
    requires k < config.startretries
    ensures config.name in Run(FailingRun(config, k)).procs
    ensures InBackoffAfter(Run(FailingRun(config, k)).procs[config.name], config, k)
  {
    if k == 0 {
      RunSnoc(EMPTY_WORLD, [], Add(config, 0));
      assert [] + [Add(config, 0)] == [Add(config, 0)];
    } else {
      FailingRunBacksOff(config, k - 1);
      var w, e := Run(FailingRun(config, k - 1)), Start(config.name, Fork(-1, 0));
      RunSnoc(EMPTY_WORLD, FailingRun(config, k - 1), e);
      FailingStart(w, config, k);
      assert Run(FailingRun(config, k)) == Step(w, e);
    }
  }

  predicate InBackoffAfter(p: Proc, config: ProgramConfig, k: nat) {
    p.config == config && p.retryCount == k && p.state == if k == 0 then STOPPED else BACKOFF
  }

  lemma FailingStart(w: World, config: ProgramConfig, k: nat)
    requires 0 < k < config.startretries
    requires config.name in w.procs && InBackoffAfter(w.procs[config.name], config, k - 1)
    ensures InBackoffAfter(Step(w, Start(config.name, Fork(-1, 0))).procs[config.name], config, k)
  {
  }

  /** The shift stays inside the int, so that the delay is always between 1 and 60 seconds, exactly
      when startretries is at most 31; at 32 the delay after 31 failures is negative. */
  lemma DelayInRangeIff(config: ProgramConfig)
    ensures DelayAlwaysInRange(config) <==> config.startretries <= 31
  {
    if config.startretries <= 31 {
      forall es: seq<Event>, n: string, undef: int
        | n in Run(es).procs && Run(es).procs[n].config == config && Run(es).procs[n].state.BACKOFF?
        ensures 1 <= BackoffDelay(Run(es).procs[n].retryCount, undef) <= 60
      {
        BackoffBound(es, n, Fork(-1, 0), undef);
      }
    } else {
      FailingRunBacksOff(config, 31);
      var w := Run(FailingRun(config, 31));
      assert BackoffDelay(w.procs[config.name].retryCount, 0) < 0;
    }
  }
}
