/** The guard of the daemon against reloading while it reloads (supervisord.cpp). A log says what has
    happened to it; reloads nest, because the waits inside one deliver events. */
module Daemon {
  /** The daemon never stores FATAL. */
  datatype DaemonState = SHUTDOWN | RESTARTING | RUNNING

  /** A reload begins, is refused, or ends, or the handler of SIGTERM and SIGINT is run. */
  datatype Happening = Began | Refused | Ended | Signalled

  type Log = seq<Happening>

  /** What was stored last. */
  function StateAfter(log: Log): DaemonState {
    if log == [] then DaemonState.RUNNING else
    match log[|log|-1]
    case Began => RESTARTING
    case Refused => StateAfter(log[..|log|-1])
    case Ended => DaemonState.RUNNING
    case Signalled => SHUTDOWN
  }

  /** Where the reloads began that have not ended, the innermost one last. */
  function InProgress(log: Log): (r: seq<nat>)
    ensures forall i :: 0 <= i < |r| ==> r[i] < |log|
  {
    if log == [] then [] else
    var before := log[..|log|-1];
    match log[|log|-1]
    case Began => InProgress(before) + [|before|]
    case Ended => AllButLast(InProgress(before))
    case _ => InProgress(before)
  }

  function AllButLast(r: seq<nat>): seq<nat> {
    if r == [] then [] else r[..|r|-1]
  }

  /** What can come next: the guard looks at the state only, and the signal handler is never set again. */
  predicate Possible(log: Log, h: Happening) {
    match h
    case Began => !StateAfter(log).RESTARTING?
    case Refused => StateAfter(log).RESTARTING?
    case Ended => InProgress(log) != []
    case Signalled => Signalled !in log
  }

  predicate Legal(log: Log) {
    log == [] || (Legal(log[..|log|-1]) && Possible(log[..|log|-1], log[|log|-1]))
  }

  predicate Without(log: Log, from: nat, h: Happening) {
    forall k :: from <= k < |log| ==> log[k] != h
  }

  predicate SignalIn(log: Log, from: nat, to: nat) {
    exists k :: from <= k < to && k < |log| && log[k].Signalled?
  }

  /** In a reload, and no shutdown signal has been handled since the innermost one began. */
  predicate Guarded(log: Log) {
    var r := InProgress(log);
    r != [] && Without(log, r[|r|-1], Signalled)
  }

  /** Between the beginnings of a reload and of the one inside it a signal was handled. */
  ghost predicate SignalBetween(log: Log, r: seq<nat>) {
    forall i, j :: 0 <= i && j == i + 1 && j < |r| ==> SignalIn(log, r[i], r[j])
  }

  ghost predicate Nested(log: Log) {
    (StateAfter(log).RESTARTING? <==> Guarded(log)) && SignalBetween(log, InProgress(log))
  }

  lemma StillBetween(log: Log, h: Happening, r: seq<nat>)
    requires SignalBetween(log, r)
    ensures SignalBetween(log + [h], r) && SignalBetween(log + [h], AllButLast(r))
  {
    forall i, j | 0 <= i && j == i + 1 && j < |r|
      ensures SignalIn(log + [h], r[i], r[j])
    {
      var k :| r[i] <= k < r[j] && k < |log| && log[k].Signalled?;
      assert (log + [h])[k].Signalled?;
    }
  }

  lemma Snoc(log: Log, h: Happening)
    ensures (log + [h])[..|log + [h]|-1] == log
    ensures Legal(log + [h]) <==> Legal(log) && Possible(log, h)
  {
    assert (log + [h])[..|log|] == log;
  }

  lemma BeginsNested(log: Log)
    requires Nested(log) && Possible(log, Began)
    ensures Nested(log + [Began])
  {
    var r := InProgress(log);
    Snoc(log, Began);
    StillBetween(log, Began, r);
    if r != [] {
      var k :| r[|r|-1] <= k < |log| && log[k] == Signalled;
      assert (log + [Began])[k].Signalled?;
    }
  }

  lemma EndsNested(log: Log)
    requires Nested(log) && Possible(log, Ended)
    ensures Nested(log + [Ended])
  {
    var r := InProgress(log);
    Snoc(log, Ended);
    StillBetween(log, Ended, r);
    if |r| >= 2 {
      assert SignalIn(log, r[|r|-2], r[|r|-1]);
      var k :| r[|r|-2] <= k < r[|r|-1] && k < |log| && log[k].Signalled?;
      assert (log + [Ended])[k] == Signalled;
    }
  }

  lemma SignalNested(log: Log)
    requires Nested(log)
    ensures Nested(log + [Signalled])
  {
    Snoc(log, Signalled);
    StillBetween(log, Signalled, InProgress(log));
    assert (log + [Signalled])[|log|] == Signalled;
  }

  lemma RefusalNested(log: Log)
    requires Nested(log)
    ensures Nested(log + [Refused])
  {
    Snoc(log, Refused);
    StillBetween(log, Refused, InProgress(log));
    assert forall from :: Without(log + [Refused], from, Signalled) <==> Without(log, from, Signalled);
  }

  lemma {:induction false} LegalIsNested(log: Log)
    requires Legal(log)
    ensures Nested(log)
  {
    if log != [] {
      var before, h := log[..|log|-1], log[|log|-1];
      LegalIsNested(before);
      assert log == before + [h];
      match h
      case Began => BeginsNested(before);
      case Refused => RefusalNested(before);
      case Ended => EndsNested(before);
      case Signalled => SignalNested(before);
    }
  }

  /** A request to reload is refused if and only if a reload is in progress and no shutdown signal has
      been handled since the innermost one began; otherwise a reload begins. */
  lemma RefusedIff(log: Log)
    requires Legal(log)
    ensures Legal(log + [Refused]) <==> Guarded(log)
    ensures Legal(log + [Began]) <==> !Guarded(log)
  {
    LegalIsNested(log);
    Snoc(log, Refused);
    Snoc(log, Began);
  }

  lemma {:induction false} SignalledOnce(log: Log, k: nat, l: nat)
    requires Legal(log) && k < l < |log| && log[k].Signalled?
    ensures !log[l].Signalled?
  {
    var before := log[..|log|-1];
    if l < |before| {
      SignalledOnce(before, k, l);
    } else {
      assert before[k] == Signalled;
    }
  }

  /** Never more than two reloads are in progress, and two only if the signal was handled in the first. */
  lemma AtMostTwo(log: Log)
    requires Legal(log)
    ensures |InProgress(log)| <= 2
    ensures |InProgress(log)| == 2 ==> SignalIn(log, InProgress(log)[0], InProgress(log)[1])
  {
    LegalIsNested(log);
    var r := InProgress(log);
    if |r| >= 2 {
      assert SignalIn(log, r[0], r[1]);
    }
    if |r| > 2 {
      assert SignalIn(log, r[1], r[2]);
      var k :| r[0] <= k < r[1] && k < |log| && log[k].Signalled?;
      var l :| r[1] <= l < r[2] && l < |log| && log[l].Signalled?;
      SignalledOnce(log, k, l);
    }
  }

  lemma StaysOutside(log: Log, h: Happening, b: nat)
    requires Legal(log + [h]) && b < |log| && b in InProgress(log + [h])
    ensures Legal(log) && Possible(log, h) && b in InProgress(log)
  {
    Snoc(log, h);
  }

  lemma NothingBegins(log: Log, h: Happening, b: nat)
    requires Legal(log + [h]) && b < |log| && b in InProgress(log + [h]) && Without(log + [h], b, Signalled)
    requires Without(log, b + 1, Began) && InProgress(log) != [] && InProgress(log)[|InProgress(log)|-1] == b
    ensures h == Refused
  {
    Snoc(log, h);
    assert forall k :: 0 <= k < |log| ==> (log + [h])[k] == log[k];
    assert Guarded(log);
    LegalIsNested(log);
    assert (log + [h])[|log|] == h;
    if h.Ended? {
      LastIsNew(log, b);
    }
  }

  lemma {:induction false} Increasing(log: Log, i: nat, j: nat)
    requires i < j < |InProgress(log)|
    ensures InProgress(log)[i] < InProgress(log)[j]
  {
    var before := log[..|log|-1];
    if j < |InProgress(before)| {
      Increasing(before, i, j);
    }
  }

  lemma LastIsNew(log: Log, b: nat)
    requires var r := InProgress(log); r != [] && r[|r|-1] == b
    ensures b !in AllButLast(InProgress(log))
  {
    var r := InProgress(log);
    forall i | 0 <= i < |r| - 1
      ensures r[i] < b
    {
      Increasing(log, i, |r| - 1);
    }
  }

  /** Until a shutdown signal is handled, a reload that is in progress is the only one that began. */
  lemma {:induction false} AloneUntilSignal(log: Log, b: nat)
    requires Legal(log) && b in InProgress(log) && Without(log, b, Signalled)
    ensures Without(log, b + 1, Began) && InProgress(log)[|InProgress(log)|-1] == b
  {
    var before, h := log[..|log|-1], log[|log|-1];
    assert log == before + [h];
    if b < |before| {
      StaysOutside(before, h, b);
      AloneUntilSignal(before, b);
      NothingBegins(before, h, b);
    }
  }

  lemma RequestPossible(log: Log)
    ensures if StateAfter(log) == RESTARTING
      then Possible(log, Refused) && StateAfter(log + [Refused]) == RESTARTING && InProgress(log + [Refused]) == InProgress(log)
      else Possible(log, Began) && StateAfter(log + [Began]) == RESTARTING && InProgress(log + [Began]) == InProgress(log) + [|log|]
  {
    Snoc(log, Refused);
    Snoc(log, Began);
  }

  /** A reload that began after `log0` can end, which leaves in progress what was, and unless a signal was
      handled meanwhile no other began. */
  lemma EndOfReload(log0: Log, log: Log)
    requires Legal(log) && log0 + [Began] <= log && InProgress(log) == InProgress(log0) + [|log0|]
    ensures Possible(log, Ended) && StateAfter(log + [Ended]) == DaemonState.RUNNING
    ensures InProgress(log + [Ended]) == InProgress(log0)
    ensures Without(log + [Ended], |log0|, Signalled) ==> Without(log + [Ended], |log0| + 1, Began)
  {
    Snoc(log, Ended);
    assert log[|log0|] == Began;
    if Without(log + [Ended], |log0|, Signalled) {
      assert forall k :: 0 <= k < |log| ==> (log + [Ended])[k] == log[k];
      assert InProgress(log)[|InProgress(log0)|] == |log0|;
      AloneUntilSignal(log, |log0|);
    }
  }

  /** A second reload in the first: after the signal the guard lets it in, and its end makes a daemon
      that is shutting down RUNNING. */
  lemma SignalLetsReloadIn()
    ensures var log := [Began, Signalled, Began];
      && Legal(log) && InProgress(log) == [0, 2]
      && Legal(log + [Ended]) && StateAfter(log + [Ended]) == DaemonState.RUNNING && InProgress(log + [Ended]) == [0]
  {
    Snoc([], Began);
    Snoc([Began], Signalled);
    Snoc([Began, Signalled], Began);
    Snoc([Began, Signalled, Began], Ended);
    assert [] + [Began] == [Began];
    assert [Began] + [Signalled] == [Began, Signalled];
    assert [Began, Signalled] + [Began] == [Began, Signalled, Began];
  }
}
