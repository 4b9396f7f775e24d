/** Who is given time to stop before being killed, read off a run. */
module Grace {
  import opened Kernel
  import opened ProcessModel
  import opened Supervision
  import opened Ownership

  /** From event `from` to event `k` of the run `t` the process `n` has had one and the same child. */
  ghost predicate KeepsChild(t: seq<Event>, from: nat, k: nat, n: string) {
    && from <= k <= |t|
    && (forall i :: from <= i <= k ==> n in Run(t[..i]).procs)
    && (forall i :: from <= i <= k ==> Run(t[..i]).procs[n].pid == Run(t[..from]).procs[n].pid > 0)
  }

  /** Before event `k`, and since event `from`, `n` was asked to stop, stopwaitsecs and a second before. */
  ghost predicate Warned(t: seq<Event>, from: nat, k: nat, n: string)
    requires k <= |t| && n in Run(t[..k]).procs
  {
    exists j :: from <= j < k && t[j] == Stop(n) &&
      Run(t[..k]).os.now - Run(t[..j]).os.now >= (Run(t[..k]).procs[n].config.stopwaitsecs + 1) * SECOND
  }

  /** A kill that takes the child which its process already had at event `from` comes after a warning. */
  ghost predicate KillsAreFair(t: seq<Event>, from: nat) {
    forall k :: from <= k < |t| && t[k].Kill? && KeepsChild(t, from, k, t[k].name) ==> Warned(t, from, k, t[k].name)
  }

  predicate Erases(e: Event, n: string) {
    (e.Remove? && e.name == n) || (e.Add? && e.config.name == n)
  }

  ghost predicate HasChildAt(t: seq<Event>, k: nat, n: string)
    requires k <= |t|
  {
    n in Run(t[..k]).procs && Run(t[..k]).procs[n].pid > 0
  }

  /** Removing or replacing a process that has a child comes after a warning. */
  ghost predicate ErasuresAreFair(t: seq<Event>, from: nat) {
    forall k, n :: from <= k < |t| && Erases(t[k], n) && HasChildAt(t, k, n) ==> Warned(t, from, k, n)
  }

  ghost predicate FairFrom(t: seq<Event>, from: nat, erasures: bool) {
    KillsAreFair(t, from) && (erasures ==> ErasuresAreFair(t, from))
  }

  /** What the run does from event `from` on is fair. The quantifier keeps this folded up where `FairFrom`
      is not mentioned. */
  ghost predicate Fair(t: seq<Event>, from: nat, erasures: bool) {
    forall f: nat :: f == from ==> FairFrom(t, f, erasures)
  }

  lemma FairMeans(t: seq<Event>, from: nat, erasures: bool)
    ensures Fair(t, from, erasures) <==> KillsAreFair(t, from) && (erasures ==> ErasuresAreFair(t, from))
  {
    assert Fair(t, from, erasures) ==> FairFrom(t, from, erasures);
  }

  // ---- Peaceful runs ----

  predicate Peaceful(e: Event) {
    !e.Kill? && !e.Add? && !e.Remove?
  }

  predicate PeacefulFrom(t: seq<Event>, from: nat) {
    forall k :: from <= k < |t| ==> Peaceful(t[k])
  }

  lemma PeacefulIsFair(t: seq<Event>, from: nat, erasures: bool)
    requires PeacefulFrom(t, from)
    ensures Fair(t, from, erasures)
  {
    FairMeans(t, from, erasures);
  }

  // ---- One part of a run after another ----

  lemma SameUpTo(t: seq<Event>, t': seq<Event>, k: nat)
    requires t <= t' && k <= |t|
    ensures t'[..k] == t[..k]
  {
  }

  lemma WarnedStill(t: seq<Event>, t': seq<Event>, from: nat, from': nat, k: nat, n: string)
    requires t <= t' && k <= |t| && from' <= from && n in Run(t[..k]).procs && Warned(t, from, k, n)
    ensures n in Run(t'[..k]).procs && Warned(t', from', k, n)
  {
    SameUpTo(t, t', k);
    var j :| from <= j < k && t[j] == Stop(n) &&
      Run(t[..k]).os.now - Run(t[..j]).os.now >= (Run(t[..k]).procs[n].config.stopwaitsecs + 1) * SECOND;
    SameUpTo(t, t', j);
    assert t'[j] == t[j];
  }

  lemma KeptInPart(t: seq<Event>, t': seq<Event>, from: nat, mid: nat, k: nat, n: string)
    requires t <= t' && from <= mid <= k <= |t| && KeepsChild(t', from, k, n)
    ensures KeepsChild(t, mid, k, n)
  {
    forall i | mid <= i <= k
      ensures n in Run(t[..i]).procs && Run(t[..i]).procs[n].pid == Run(t'[..from]).procs[n].pid > 0
    {
      SameUpTo(t, t', i);
    }
  }

  lemma KillsInTurn(t: seq<Event>, t': seq<Event>, from: nat)
    requires t <= t' && from <= |t| && KillsAreFair(t, from) && KillsAreFair(t', |t|)
    ensures KillsAreFair(t', from)
  {
    forall k | from <= k < |t'| && t'[k].Kill? && KeepsChild(t', from, k, t'[k].name)
      ensures Warned(t', from, k, t'[k].name)
    {
      var n := t'[k].name;
      if k < |t| {
        KeptInPart(t, t', from, from, k, n);
        WarnedStill(t, t', from, from, k, n);
      } else {
        KeptInPart(t', t', from, |t|, k, n);
        WarnedStill(t', t', |t|, from, k, n);
      }
    }
  }

  lemma ErasuresInTurn(t: seq<Event>, t': seq<Event>, from: nat)
    requires t <= t' && from <= |t| && ErasuresAreFair(t, from) && ErasuresAreFair(t', |t|)
    ensures ErasuresAreFair(t', from)
  {
    forall k, n | from <= k < |t'| && Erases(t'[k], n) && HasChildAt(t', k, n)
      ensures Warned(t', from, k, n)
    {
      if k < |t| {
        SameUpTo(t, t', k);
        assert t[k] == t'[k] && HasChildAt(t, k, n);
        WarnedStill(t, t', from, from, k, n);
      } else {
        WarnedStill(t', t', |t|, from, k, n);
      }
    }
  }

  lemma FairInTurn(t: seq<Event>, t': seq<Event>, from: nat, erasures: bool)
    requires t <= t' && from <= |t| && Fair(t, from, erasures) && Fair(t', |t|, erasures)
    ensures Fair(t', from, erasures)
  {
    FairMeans(t, from, erasures);
    FairMeans(t', |t|, erasures);
    KillsInTurn(t, t', from);
    if erasures {
      ErasuresInTurn(t, t', from);
    }
    FairMeans(t', from, erasures);
  }

  lemma FairWeaker(t: seq<Event>, from: nat, erasures: bool, fewer: bool)
    requires Fair(t, from, erasures) && (fewer ==> erasures)
    ensures Fair(t, from, fewer)
  {
    FairMeans(t, from, erasures);
    FairMeans(t, from, fewer);
  }

  // ---- The three places where children are taken ----

  lemma {:induction false} LaterIsLater(t: seq<Event>, j: nat, k: nat)
    requires j <= k <= |t|
    ensures Run(t[..j]).os.now <= Run(t[..k]).os.now
    decreases k - j
  {
    if j < k {
      PrefixStep(t, k - 1);
      RunFromInv(EMPTY_WORLD, t[..k-1]);
      StepKeepsInv(Run(t[..k-1]), t[k-1]);
      LaterIsLater(t, j, k - 1);
    }
  }

  lemma {:induction false} KeepsConfig(t: seq<Event>, from: nat, k: nat, n: string)
    requires KeepsChild(t, from, k, n)
    ensures Run(t[..k]).procs[n].config == Run(t[..from]).procs[n].config
    decreases k - from
  {
    if from < k {
      KeepsConfig(t, from, k - 1, n);
      PrefixStep(t, k - 1);
      RunFromInv(EMPTY_WORLD, t[..k-1]);
      StepKeepsConfig(Run(t[..k-1]), t[k-1], n);
    }
  }

  lemma StepKeepsConfig(w: World, e: Event, n: string)
    requires WorldInv(w) && n in w.procs && n in Step(w, e).procs && Step(w, e).procs[n].pid > 0
    ensures Step(w, e).procs[n].config == w.procs[n].config
  {
    if !(e.Remove? && e.name == n) {
      StepEffect(w, e, n);
    }
  }

  /** Everybody with a child is asked to stop, then comes a wait that is long enough for each of them or ends
      with nobody left, then kills. */
  lemma ForceIsFair(t1: seq<Event>, t2: seq<Event>, t3: seq<Event>, from: nat, longest: int, erasures: bool)
    requires from <= |t1| && t1 <= t2 <= t3
    requires Fair(t1, from, erasures) && Fair(t2, |t1|, erasures)
    requires Run(t1).os.now == Run(t1[..from]).os.now
    requires forall n :: n in Run(t1).procs && Run(t1).procs[n].pid > 0 ==>
      Stop(n) in t1[from..] && Run(t1).procs[n].config.stopwaitsecs <= longest
    requires forall n :: n in Run(t2).procs && Run(t2).procs[n].pid > 0 ==>
      Run(t2).os.now >= Run(t1).os.now + (longest + 1) * SECOND
    requires forall k :: |t2| <= k < |t3| ==> t3[k].Kill?
    ensures Fair(t3, from, erasures)
  {
    FairInTurn(t1, t2, from, erasures);
    FairMeans(t2, from, erasures);
    forall k | from <= k < |t3| && t3[k].Kill? && KeepsChild(t3, from, k, t3[k].name)
      ensures Warned(t3, from, k, t3[k].name)
    {
      var n := t3[k].name;
      if k < |t2| {
        KeptInPart(t2, t3, from, from, k, n);
        WarnedStill(t2, t3, from, from, k, n);
      } else {
        ForcedIsWarned(t1, t2, t3, from, longest, k, n);
      }
    }
    if erasures {
      forall k, n | from <= k < |t3| && Erases(t3[k], n) && HasChildAt(t3, k, n)
        ensures Warned(t3, from, k, n)
      {
        assert k < |t2|;
        SameUpTo(t2, t3, k);
        assert t2[k] == t3[k] && HasChildAt(t2, k, n);
        WarnedStill(t2, t3, from, from, k, n);
      }
    }
    FairMeans(t3, from, erasures);
  }

  lemma ForcedIsWarned(t1: seq<Event>, t2: seq<Event>, t3: seq<Event>, from: nat, longest: int, k: nat, n: string)
    requires from <= |t1| && t1 <= t2 <= t3 && |t2| <= k < |t3| && KeepsChild(t3, from, k, n)
    requires Run(t1).os.now == Run(t1[..from]).os.now
    requires forall n :: n in Run(t1).procs && Run(t1).procs[n].pid > 0 ==>
      Stop(n) in t1[from..] && Run(t1).procs[n].config.stopwaitsecs <= longest
    requires forall n :: n in Run(t2).procs && Run(t2).procs[n].pid > 0 ==>
      Run(t2).os.now >= Run(t1).os.now + (longest + 1) * SECOND
    ensures Warned(t3, from, k, n)
  {
    assert t3[..|t1|] == t1 && t3[..|t2|] == t2;
    KeptInPart(t3, t3, from, |t1|, k, n);
    KeepsConfig(t3, |t1|, k, n);
    var i :| 0 <= i < |t1[from..]| && t1[from..][i] == Stop(n);
    var j := from + i;
    assert t3[j] == Stop(n);
    SameUpTo(t1, t3, from);
    LaterIsLater(t3, j, |t1|);
    LaterIsLater(t3, |t2|, k);
  }

  /** Between `t0` and `t1` nothing happened but that everybody who has a child was asked to stop. */
  ghost predicate AllWarned(t0: seq<Event>, t1: seq<Event>, longest: int) {
    && t0 <= t1 && PeacefulFrom(t1, |t0|) && Run(t1).os.now == Run(t0).os.now
    && (forall n :: n in Run(t1).procs && Run(t1).procs[n].pid > 0 ==>
          Stop(n) in t1[|t0|..] && Run(t1).procs[n].config.stopwaitsecs <= longest)
  }

  /** Between `t1` and `t2` that time has passed, or nobody has a child any more. */
  ghost predicate AllWaitedFor(t1: seq<Event>, t2: seq<Event>, longest: int) {
    forall n :: n in Run(t2).procs && Run(t2).procs[n].pid > 0 ==>
      Run(t2).os.now >= Run(t1).os.now + (longest + 1) * SECOND
  }

  lemma StopAllIsFair(t0: seq<Event>, t1: seq<Event>, t2: seq<Event>, t3: seq<Event>, longest: int, erasures: bool)
    requires t0 <= t1 <= t2 <= t3 && AllWarned(t0, t1, longest) && AllWaitedFor(t1, t2, longest)
    requires Fair(t2, |t1|, erasures) && forall k :: |t2| <= k < |t3| ==> t3[k].Kill?
    ensures Fair(t3, |t0|, erasures)
  {
    assert t1[..|t0|] == t0;
    PeacefulIsFair(t1, |t0|, erasures);
    ForceIsFair(t1, t2, t3, |t0|, longest, erasures);
  }

  lemma OneMore(t: seq<Event>, e: Event)
    ensures (t + [e])[..|t|] == t && t <= t + [e]
  {
  }

  /** A removal: nobody has a child to lose, or it was asked to stop and given its time. */
  lemma RemovalIsFair(t0: seq<Event>, t: seq<Event>, n: string, took: nat, erasures: bool)
    requires t0 <= t && Fair(t, |t0|, erasures)
    requires n in Run(t).procs && Run(t).procs[n].pid > 0 ==>
      t0 + [Stop(n)] <= t && Run(t).os.now >= Run(t0).os.now + (Run(t).procs[n].config.stopwaitsecs + 1) * SECOND
    ensures Fair(t + [Remove(n, took)], |t0|, erasures)
  {
    var t' := t + [Remove(n, took)];
    OneMore(t, Remove(n, took));
    forall m | HasChildAt(t', |t|, m) && Erases(t'[|t|], m)
      ensures Warned(t', |t0|, |t|, m)
    {
      assert t'[|t0|] == Stop(n) && t'[..|t0|] == t0;
    }
    LastIsFair(t, Remove(n, took), |t0|, erasures);
  }

  lemma LastIsFair(t: seq<Event>, e: Event, from: nat, erasures: bool)
    requires from <= |t| && Fair(t, from, erasures) && !e.Kill?
    requires erasures ==> forall n :: Erases(e, n) && HasChildAt(t + [e], |t|, n) ==> Warned(t + [e], from, |t|, n)
    ensures Fair(t + [e], from, erasures)
  {
    var t' := t + [e];
    OneMore(t, e);
    FairMeans(t, from, erasures);
    forall k | from <= k < |t'| && t'[k].Kill? && KeepsChild(t', from, k, t'[k].name)
      ensures Warned(t', from, k, t'[k].name)
    {
      KeptInPart(t, t', from, from, k, t'[k].name);
      WarnedStill(t, t', from, from, k, t'[k].name);
    }
    if erasures {
      forall k, n | from <= k < |t'| && Erases(t'[k], n) && HasChildAt(t', k, n)
        ensures Warned(t', from, k, n)
      {
        if k < |t| {
          SameUpTo(t, t', k);
          assert t[k] == t'[k] && HasChildAt(t, k, n);
          WarnedStill(t, t', from, from, k, n);
        }
      }
    }
    FairMeans(t', from, erasures);
  }

  /** A new process takes nobody's place. */
  lemma AdditionIsFair(t: seq<Event>, c: ProgramConfig, took: nat, e: Event, erasures: bool)
    requires erasures ==> c.name !in Run(t).procs
    requires Peaceful(e)
    ensures Fair(t + [Add(c, took)] + [e], |t|, erasures)
  {
    var t1 := t + [Add(c, took)];
    PeacefulIsFair(t, |t|, erasures);
    OneMore(t, Add(c, took));
    LastIsFair(t, Add(c, took), |t|, erasures);
    LastIsFair(t1, e, |t|, erasures);
  }
}
