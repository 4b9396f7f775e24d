/** What the timer brings about in time, over every run. */
module Progress {
  import opened Kernel
  import opened ProcessModel
  import opened Supervision
  import opened Ownership
  import opened Backoff
  import opened StopDeadline

  predicate Touches(e: Event, n: string) {
    Requests(e, n) || (e.Stop? && e.name == n) || (e.Kill? && e.name == n)
  }

  /** No request concerns `n`. */
  ghost predicate Untouched(es: seq<Event>, n: string) {
    forall k :: 0 <= k < |es| ==> !Touches(es[k], n)
  }

  predicate TickOf(e: Event, n: string) {
    e.Update? && e.name == n
  }

  lemma ShorterRun(w: World, es: seq<Event>, n: string, u: int)
    requires es != [] && TicksEvery(w, es, n, u)
    ensures var before := es[..|es|-1];
      && TicksEvery(w, before, n, u)
      && (Untouched(es, n) ==> Untouched(before, n) && !Touches(es[|es|-1], n))
      && (NoRequests(es, n) ==> NoRequests(before, n) && !Requests(es[|es|-1], n))
      && RunFrom(w, before).os.now - LastTick(w, before, n) <= u
  {
    var before := es[..|es|-1];
    assert forall k :: 0 <= k <= |before| ==> before[..k] == es[..k];
  }

  // ---- An attempt ----

  /** What an attempt to start `n` comes to. */
  ghost predicate Attempted(v: World, e: Event, n: string)
    requires (e.Start? || e.Update?) && n in v.procs
  {
    var v', p := Step(v, e), v.procs[n];
    && n in v'.procs && v'.os.forks == v.os.forks + [p.id]
    && var q := v'.procs[n];
       if e.fork.pid > 0 && e.fork.pid !in v.os.children then
         && q == p.(state := STARTING, pid := e.fork.pid, changed := v'.os.now)
         && IsChildOf(v'.os, q.pid, q.id) && v'.os.now == v.os.now + e.fork.took
       else
         && q.pid == p.pid && q.retryCount == p.retryCount + 1 && v'.os.children == v.os.children
         && q.state == if q.retryCount >= p.config.startretries then FATAL else BACKOFF
  }

  /** A request to start forks in all states but two, in which it does nothing. */
  lemma StartForks(w: World, n: string, fork: Fork)
    requires WorldInv(w) && n in w.procs
    ensures if w.procs[n].state.RUNNING? || w.procs[n].state.STARTING? then Step(w, Start(n, fork)) == w
            else Attempted(w, Start(n, fork), n)
  {
    if w.procs[n].state.RUNNING? || w.procs[n].state.STARTING? {
      assert w.procs[n := w.procs[n]] == w.procs;
    }
  }

  // ---- A retry ----

  /** When the back-off delay of a process has passed. */
  function RetryTime(p: Proc): int
    requires p.retryCount >= 0
  {
    p.changed + Min(Pow2(p.retryCount), 60) * SECOND
  }

  predicate BacksOffAs(q: Proc, p: Proc) {
    && q.state.BACKOFF? && q.retryCount == p.retryCount && q.changed == p.changed && q.config == p.config
    && (q.pid == -1 || (q.config.autorestart && p.pid != -1))
  }

  /** Without child only a start or a replacement can disturb the back-off; a stop or a kill is refused. */
  ghost predicate Undisturbed(es: seq<Event>, n: string, p: Proc) {
    if p.pid == -1 then NoRequests(es, n) else p.config.autorestart && Untouched(es, n)
  }

  ghost predicate RetriedBetween(w: World, es: seq<Event>, n: string, lo: int, hi: int) {
    exists k :: 0 <= k < |es| && TickOf(es[k], n) && n in RunFrom(w, es[..k]).procs && Attempted(RunFrom(w, es[..k]), es[k], n)
      && lo <= RunFrom(w, es[..k]).os.now <= hi
  }

  lemma RetriedStill(w: World, es: seq<Event>, n: string, lo: int, hi: int)
    requires es != [] && RetriedBetween(w, es[..|es|-1], n, lo, hi)
    ensures RetriedBetween(w, es, n, lo, hi)
  {
    var before := es[..|es|-1];
    var k :| 0 <= k < |before| && TickOf(before[k], n) && n in RunFrom(w, before[..k]).procs
      && Attempted(RunFrom(w, before[..k]), before[k], n)
      && lo <= RunFrom(w, before[..k]).os.now <= hi;
    assert before[..k] == es[..k] && before[k] == es[k];
  }

  /** A tick retries exactly from the retry time on; any other event leaves the back-off as it is. */
  lemma BackoffStep(v: World, e: Event, n: string, p: Proc)
    requires WorldInv(v) && n in v.procs && BacksOffAs(v.procs[n], p) && 0 <= p.retryCount <= 30
    requires !Requests(e, n) && (p.pid == -1 || !Touches(e, n))
    ensures TickOf(e, n) && v.os.now >= RetryTime(p) ==> Attempted(v, e, n)
    ensures (TickOf(e, n) && v.os.now >= RetryTime(p)) || (n in Step(v, e).procs && BacksOffAs(Step(v, e).procs[n], p))
  {
    StepEffect(v, e, n);
  }

  lemma {:induction false} RetriedOrBackingOff(w: World, es: seq<Event>, n: string, u: int)
    requires WorldInv(w) && n in w.procs && Undisturbed(es, n, w.procs[n]) && TicksEvery(w, es, n, u)
    requires BacksOffAs(w.procs[n], w.procs[n]) && 0 <= w.procs[n].retryCount <= 30
    ensures var p := w.procs[n]; var due := Max(w.os.now, RetryTime(p));
      || RetriedBetween(w, es, n, RetryTime(p), due + u)
      || (n in RunFrom(w, es).procs && BacksOffAs(RunFrom(w, es).procs[n], p) && LastTick(w, es, n) <= due)
  {
    if es != [] {
      var before, e, p := es[..|es|-1], es[|es|-1], w.procs[n];
      var due := Max(w.os.now, RetryTime(p));
      ShorterRun(w, es, n, u);
      RetriedOrBackingOff(w, before, n, u);
      if RetriedBetween(w, before, n, RetryTime(p), due + u) {
        RetriedStill(w, es, n, RetryTime(p), due + u);
      } else {
        RunFromInv(w, before);
        BackoffStep(RunFrom(w, before), e, n, p);
        assert e == es[|before|] && before == es[..|before|];
      }
    }
  }

  /** With ticks at most `u` apart a process in BACKOFF is started again between the end of its delay and
      `u` later, also when it is asked to stop: that is refused without a child. One that kept a pid may
      exit instead if it has no autorestart, and then it must not be stopped. */
  lemma {:induction false} RetriedInTime(w: World, es: seq<Event>, n: string, u: int)
    requires WorldInv(w) && n in w.procs && Undisturbed(es, n, w.procs[n]) && TicksEvery(w, es, n, u)
    requires w.procs[n].state.BACKOFF? && w.procs[n].retryCount <= 30
    requires RunFrom(w, es).os.now > Max(w.os.now, RetryTime(w.procs[n])) + u
    ensures var p := w.procs[n]; RetriedBetween(w, es, n, RetryTime(p), Max(w.os.now, RetryTime(p)) + u)
  {
    RetriedOrBackingOff(w, es, n, u);
    assert es[..|es|] == es;
  }

  // ---- Coming up ----

  /** When a process has been STARTING for long enough. */
  function UpTime(p: Proc): int {
    p.changed + Max(0, p.config.startsecs) * SECOND
  }

  /** `q` is what becomes of `p` when it comes up in time. */
  predicate CameUpAs(q: Proc, p: Proc, hi: int) {
    q == p.(state := RUNNING, retryCount := 0, changed := q.changed) && UpTime(p) <= q.changed <= hi
  }

  ghost predicate NotReaped(es: seq<Event>, pid: int) {
    forall k :: 0 <= k < |es| ==> es[k] != Reap(pid)
  }

  lemma ComingUpStep(v: World, e: Event, n: string, p: Proc, hi: int)
    requires WorldInv(v) && n in v.procs && p.state.STARTING? && !Touches(e, n) && e != Reap(p.pid)
    requires v.procs[n] == p || CameUpAs(v.procs[n], p, hi)
    ensures n in Step(v, e).procs
    ensures var q := Step(v, e).procs[n];
      if v.procs[n] == p && TickOf(e, n) && v.os.now >= UpTime(p)
      then q == p.(state := RUNNING, retryCount := 0, changed := v.os.now) else q == v.procs[n]
  {
    StepEffect(v, e, n);
  }

  lemma {:induction false} UpOrTickPending(w: World, es: seq<Event>, n: string, u: int)
    requires WorldInv(w) && n in w.procs && w.procs[n].state.STARTING?
    requires Untouched(es, n) && NotReaped(es, w.procs[n].pid) && TicksEvery(w, es, n, u)
    ensures n in RunFrom(w, es).procs
    ensures var p, q := w.procs[n], RunFrom(w, es).procs[n]; var due := Max(w.os.now, UpTime(p));
      CameUpAs(q, p, due + u) || (q == p && LastTick(w, es, n) <= due)
  {
    if es != [] {
      var before, e, p := es[..|es|-1], es[|es|-1], w.procs[n];
      ShorterRun(w, es, n, u);
      UpOrTickPending(w, before, n, u);
      RunFromInv(w, before);
      assert e == es[|before|];
      ComingUpStep(RunFrom(w, before), e, n, p, Max(w.os.now, UpTime(p)) + u);
    }
  }

  /** With ticks at most `u` apart a STARTING process that nobody touches and whose child is not reaped is
      RUNNING, since a moment between the end of startsecs and `u` later, and with no failures counted. */
  lemma {:induction false} UpInTime(w: World, es: seq<Event>, n: string, u: int)
    requires WorldInv(w) && n in w.procs && w.procs[n].state.STARTING?
    requires Untouched(es, n) && NotReaped(es, w.procs[n].pid) && TicksEvery(w, es, n, u)
    requires RunFrom(w, es).os.now > Max(w.os.now, UpTime(w.procs[n])) + u
    ensures n in RunFrom(w, es).procs
    ensures var p := w.procs[n]; CameUpAs(RunFrom(w, es).procs[n], p, Max(w.os.now, UpTime(p)) + u)
  {
    UpOrTickPending(w, es, n, u);
    assert es[..|es|] == es;
  }
}
