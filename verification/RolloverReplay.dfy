/** How many operators at once the two promises about requests survive: that a request is backed on disk
    before it leaves, and that it is not blindly sent again. */
module RolloverReplay {
  import opened RolloverMachine
  import opened RolloverSafety
  import opened RolloverTheorems
  import opened RolloverOperators
  import opened RolloverLoss

  // ---- the promises for several operators ----

  /** Whichever request can leave now is backed in every directory a loss of power may leave. */
  ghost predicate SendsAreBacked(m: Site) {
    forall i, n | Can(m, Do(i, Send(n))) :: BackedEverywhere(m.shared, n)
  }

  predicate SendsAt(log: seq<Act>, i: nat, n: Key) {
    i < |log| && log[i].Do? && log[i].e == Send(n)
  }

  predicate ClearsAt(log: seq<Act>, i: nat, n: Key) {
    i < |log| && log[i].Do? && log[i].e == ClearPending(n)
  }

  /** Between two requests for one replacement key lies the removal of its pending envelope. */
  ghost predicate ReplayFree(log: seq<Act>) {
    forall i: nat, j: nat, n: Key | i < j && SendsAt(log, i, n) && SendsAt(log, j, n) ::
      exists k: nat :: i < k < j && ClearsAt(log, k, n)
  }

  // ---- one operator ----

  lemma OneOperatorIsBacked(m0: Site, k: nat, log: seq<Act>)
    requires Fresh(m0, k) && k <= 1 && Runs(m0, log).At?
    ensures SendsAreBacked(Runs(m0, log).m)
  {
    var m := Runs(m0, log).m;
    if k == 0 {
      NobodyActs(m0, log);
    } else {
      var events := OneOperatorIsTheMachine(m0, log);
      forall i, n | Can(m, Do(i, Send(n)))
        ensures BackedEverywhere(m.shared, n)
      {
        RequestIsBacked(m0.shared, events, n);
      }
    }
  }

  lemma OneOperatorIsReplayFree(m0: Site, k: nat, log: seq<Act>)
    requires Fresh(m0, k) && k <= 1 && Runs(m0, log).At?
    ensures ReplayFree(log)
  {
    if k == 0 {
      NobodyActs(m0, log);
    } else {
      var events := OneOperatorIsTheMachine(m0, log);
      forall i: nat, j: nat, n: Key | i < j && SendsAt(log, i, n) && SendsAt(log, j, n)
        ensures exists k: nat :: i < k < j && ClearsAt(log, k, n)
      {
        assert events[i] == Send(n) && events[j] == Send(n);
        NoBlindReplay(m0.shared, events, i, j, n);
        var k :| i < k < j && events[k] == ClearPending(n);
        assert ClearsAt(log, k, n);
      }
    }
  }

  // ---- two operators ----

  /** From the load to the retired copy. */
  function SecureLog(): seq<Event> {
    [LoadForExecute(1, 0), KeepRetired(Written)]
  }

  function SecuredFirst(s: State): State
    requires 1 in s.disk.bundles && s.disk.bundles[1].Complete?
  {
    var d := s.disk.(retired := map[(0, 1) := Complete(Envelope(0, 0, 0))]);
    s.(disk := d, survivors := {d}, command := Secured(Bundle(0, 1, 0)))
  }

  lemma SecuresFirst()
    ensures Run(Prepared(Start()), SecureLog()) == Reached(SecuredFirst(Prepared(Start())))
  {
    var s := Prepared(Start());
    var log, t := Then(s, [], s, LoadForExecute(1, 0));
    log, t := Then(s, log, t, KeepRetired(Written));
    assert t.disk.retired == map[(0, 1) := Complete(Envelope(0, 0, 0))];
    assert log == SecureLog();
  }

  /** The first operator has secured the first replacement, everyone else is idle. */
  lemma FirstSecured(k: nat) returns (m0: Site, m: Site)
    requires k >= 2
    ensures m0 == Site(Start(), Idlers(k), false) && Runs(m0, Acts(0, PrepareLog(0)) + Acts(0, SecureLog())) == At(m)
    ensures m == Site(SecuredFirst(Prepared(Start())).(command := Idle), Idlers(k)[0 := Secured(Bundle(0, 1, 0))], false)
  {
    hide Run, Runs;
    m0 := Site(Start(), Idlers(k), false);
    var log;
    Prepares(Start());
    assert As(m0, 0) == Start();
    NothingDoneYet(m0);
    log, m := Continue(m0, [], m0, 0, PrepareLog(0));
    assert [] + Acts(0, PrepareLog(0)) == Acts(0, PrepareLog(0));
    assert As(m, 0) == Prepared(Start());
    SecuresFirst();
    log, m := Continue(m0, log, m, 0, SecureLog());
  }

  lemma FirstStaged(k: nat) returns (m0: Site, log: seq<Act>, m: Site)
    requires k >= 2
    ensures Fresh(m0, k) && Runs(m0, log) == At(m) && !m.broken && |m.commands| == k
    ensures m.commands[0] == Staged(Bundle(0, 1, 0)) && m.commands[1] == Idle && m.shared.command.Idle?
    ensures m.shared.wrap == 0 && m.shared.ca == m.shared.disk.active.key
    ensures LoadsProbeState(m.shared.disk, 0, 1) && RetiredAgrees(m.shared.disk, m.shared.disk.active, 1)
  {
    hide Run, Runs;
    m0, m := FirstSecured(k);
    log := Acts(0, PrepareLog(0)) + Acts(0, SecureLog());
    NothingRunYet(As(m, 0));
    var events, t := Then(As(m, 0), [], As(m, 0), WritePending(0, Written));
    log, m := Continue(m0, log, m, 0, events);
  }

  /** The first operator has staged its request; the second finds the old key authoritative and clears the
      pending envelope. The request then leaves without one. */
  lemma RequestLeavesUnbacked(k: nat) returns (m0: Site, log: seq<Act>)
    requires k >= 2
    ensures Fresh(m0, k) && Runs(m0, log).At? && !SendsAreBacked(Runs(m0, log).m)
  {
    hide Run, Runs, LoadsProbeState, RetiredAgrees, AfterRecovery;
    var m;
    m0, log, m := FirstStaged(k);
    var s := As(m, 1);
    assert s == m.shared;
    RecoveryStops(s, 1);
    ClearedFirst(s);
    log, m := Continue(m0, log, m, 1, RecoverLog(1, 0, OldAuthoritative));
    assert Can(m, Do(0, Send(1)));
    assert m.shared.disk in m.shared.survivors && 1 !in m.shared.disk.pending;
  }

  lemma ClearedFirst(s: State)
    requires LoadsProbeState(s.disk, s.wrap, 1) && s.ca == s.disk.active.key
    ensures AfterRecovery(s, 1).command.Idle?
    ensures 1 !in AfterRecovery(s, 1).disk.pending && AfterRecovery(s, 1).disk in AfterRecovery(s, 1).survivors
  {
  }

  /** The second operator has its own request for the replacement confirmed and activated. */
  function ActivateLog(): seq<Event> {
    [CaApply((0, 1)), ReplySuccess, Activate(1)]
  }

  /** Then the first one stages and sends its own, knowing nothing of it. */
  function ResendLog(): seq<Event> {
    [WritePending(0, Written), Send(1)]
  }

  lemma ActivatesSecond(s: State) returns (t: State)
    requires s == AfterRequest(SecuredFirst(Prepared(Start())).(command := Idle), 1)
    ensures Run(s, ActivateLog()) == Reached(t)
    ensures 1 !in t.disk.pending && t.command.Changed?
  {
    var log;
    log, t := Then(s, [], s, CaApply((0, 1)));
    log, t := Then(s, log, t, ReplySuccess);
    log, t := Then(s, log, t, Activate(1));
    assert log == ActivateLog();
  }

  lemma Resends(s: State) returns (t: State)
    requires s.command == Secured(Bundle(0, 1, 0)) && 1 !in s.disk.pending
    ensures Run(s, ResendLog()) == Reached(t)
  {
    var log;
    log, t := Then(s, [], s, WritePending(0, Written));
    log, t := Then(s, log, t, Send(1));
    assert log == ResendLog();
  }

  function ReplayRun(): seq<Act> {
    Acts(0, PrepareLog(0)) + Acts(0, SecureLog()) + Acts(1, ExecuteLog(1, 0)) + Acts(1, ActivateLog()) + Acts(0, ResendLog())
  }

  lemma ReplayRunRuns(k: nat) returns (m0: Site)
    requires k >= 2
    ensures Fresh(m0, k) && Runs(m0, ReplayRun()).At?
  {
    hide Run, Runs;
    var m;
    m0, m := FirstSecured(k);
    var log := Acts(0, PrepareLog(0)) + Acts(0, SecureLog());
    var s := As(m, 1);
    assert s == SecuredFirst(Prepared(Start())).(command := Idle);
    ExecuteReaches(s, 1);
    log, m := Continue(m0, log, m, 1, ExecuteLog(1, 0));
    assert As(m, 1) == AfterRequest(s, 1);
    var t := ActivatesSecond(As(m, 1));
    log, m := Continue(m0, log, m, 1, ActivateLog());
    t := Resends(As(m, 0));
    log, m := Continue(m0, log, m, 0, ResendLog());
  }

  lemma ReplayRunReplays()
    ensures !ReplayFree(ReplayRun())
  {
    var log := ReplayRun();
    assert SendsAt(log, 7, 1) && SendsAt(log, 12, 1);
    forall k: nat | 7 < k < 12
      ensures !ClearsAt(log, k, 1)
    {
    }
  }

  // ---- how many operators exactly ----

  /** Every request of `k` operators is backed before it leaves if and only if there is at most one of them. */
  lemma RequestsBackedForExactlyOneOperator(k: nat)
    ensures (forall m0, log | Fresh(m0, k) && Runs(m0, log).At? :: SendsAreBacked(Runs(m0, log).m)) <==> k <= 1
  {
    if k <= 1 {
      forall m0, log | Fresh(m0, k) && Runs(m0, log).At?
        ensures SendsAreBacked(Runs(m0, log).m)
      {
        OneOperatorIsBacked(m0, k, log);
      }
    } else {
      var m0, log := RequestLeavesUnbacked(k);
    }
  }

  /** No run of `k` operators sends a request again blindly if and only if there is at most one of them. */
  lemma ReplayFreeForExactlyOneOperator(k: nat)
    ensures (forall m0, log | Fresh(m0, k) && Runs(m0, log).At? :: ReplayFree(log)) <==> k <= 1
  {
    if k <= 1 {
      forall m0, log | Fresh(m0, k) && Runs(m0, log).At?
        ensures ReplayFree(log)
      {
        OneOperatorIsReplayFree(m0, k, log);
      }
    } else {
      var m0 := ReplayRunRuns(k);
      ReplayRunReplays();
    }
  }
}
