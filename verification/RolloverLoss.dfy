/** Runs of several operators that lose the key, and how many operators the promise survives exactly. */
module RolloverLoss {
  import opened RolloverMachine
  import opened RolloverSafety
  import opened RolloverTheorems
  import opened RolloverOperators
  import opened RolloverTwoOperators

  // ---- pieces of runs of the machine ----

  function Start(): State {
    var d := Disk(Envelope(0, 0, 0), map[], map[], map[]);
    State(0, d, {d}, 0, {}, {}, {}, {}, 1, Idle)
  }

  /** A replacement bundle for the active key is prepared. */
  function Prepared(s: State): State {
    var d := BundleWrite(s, s.disk.active.key, s.wrap, Written);
    s.(disk := d, survivors := {d}, next := s.next + 1)
  }

  function PrepareLog(w: nat): seq<Event> {
    [LoadForPrepare(w), WriteBundle(Written)]
  }

  lemma Prepares(s: State)
    requires s.command.Idle? && s.disk.active.wrap == s.wrap && s.next !in s.disk.bundles
    ensures Run(s, PrepareLog(s.wrap)) == Reached(Prepared(s)) && NoPowerLoss(PrepareLog(s.wrap))
  {
    var log, t := Then(s, [], s, LoadForPrepare(s.wrap));
    log, t := Then(s, log, t, WriteBundle(Written));
    assert log == PrepareLog(s.wrap);
  }

  /** The next replacement can be prepared and requested. */
  predicate CanRoll(s: State) {
    var o, n := s.disk.active.key, s.next;
    && s.command.Idle? && s.ca == o < n && s.disk.active.wrap == s.wrap
    && n !in s.disk.bundles && n !in s.disk.pending && (o, n) !in s.disk.retired && (o, n) !in s.applied
  }

  /** The next replacement is prepared, requested and carried out, and not yet activated. */
  lemma RollsToRequest(s: State) returns (log: seq<Event>, t: State)
    requires CanRoll(s)
    ensures Run(s, log) == Reached(t) && NoPowerLoss(log) && NoTears(log)
    ensures var o, n := s.disk.active.key, s.next;
      && t.command == Requested(Bundle(o, n, s.wrap), true) && t.ca == n && t.next == n + 1 && t.wrap == s.wrap
      && t.disk.active == s.disk.active && t.applied == s.applied + {(o, n)}
      && t.disk.bundles == s.disk.bundles[n := Complete(Bundle(o, n, s.wrap))]
      && t.disk.retired == s.disk.retired[(o, n) := Complete(s.disk.active)]
      && t.disk.pending == s.disk.pending[n := Complete(Envelope(n, s.wrap, 0))]
  {
    hide Run;
    var n := s.next;
    Prepares(s);
    ExecuteReaches(Prepared(s), n);
    RunAppend(s, PrepareLog(s.wrap), ExecuteLog(n, s.wrap));
    log := PrepareLog(s.wrap) + ExecuteLog(n, s.wrap);
    t := AfterRequest(Prepared(s), n);
    log, t := Then(s, log, t, CaApply((s.disk.active.key, n)));
  }

  /** A whole rollover to the next key. */
  lemma RollsForward(s: State) returns (log: seq<Event>, t: State)
    requires CanRoll(s)
    ensures Run(s, log) == Reached(t) && NoPowerLoss(log) && NoTears(log)
    ensures var o, n := s.disk.active.key, s.next;
      && t.command.Idle? && t.ca == n && t.next == n + 1 && t.wrap == s.wrap
      && t.disk.active == Envelope(n, s.wrap, 0) && t.applied == s.applied + {(o, n)}
      && t.disk.bundles == s.disk.bundles[n := Complete(Bundle(o, n, s.wrap))]
      && t.disk.retired == s.disk.retired[(o, n) := Complete(s.disk.active)]
      && t.disk.pending == s.disk.pending
  {
    log, t := RollsToRequest(s);
    var n := s.next;
    hide Run;
    log, t := Then(s, log, t, ReplySuccess);
    log, t := Then(s, log, t, Activate(n));
    log, t := Then(s, log, t, SyncDirectory);
    assert t.disk.pending == s.disk.pending;
  }

  /** A request on its way is carried out and confirmed. */
  lemma Confirms(s: State, b: Bundle) returns (log: seq<Event>, t: State)
    requires s.command == Requested(b, true) && (b.oldKey, b.newKey) in s.inflight && s.ca == b.oldKey
    ensures Run(s, log) == Reached(t) && NoPowerLoss(log) && NoTears(log)
    ensures t == s.(ca := b.newKey, inflight := s.inflight - {(b.oldKey, b.newKey)},
                    applied := s.applied + {(b.oldKey, b.newKey)}, command := Confirmed(b))
  {
    log, t := Then(s, [], s, CaApply((b.oldKey, b.newKey)));
    log, t := Then(s, log, t, ReplySuccess);
  }

  /** The retired copy of the active envelope is made sure of for replacement `n`. */
  lemma Secures(s: State, n: Key) returns (log: seq<Event>, t: State)
    requires s.command.Idle? && LoadsPrepared(s.disk, s.wrap, n) && RetiredAgrees(s.disk, s.disk.active, n)
    ensures Run(s, log) == Reached(t) && NoPowerLoss(log) && NoTears(log)
    ensures t.command == Secured(s.disk.bundles[n].content)
    ensures t.disk == s.disk.(retired := s.disk.retired[(s.disk.active.key, n) := Complete(s.disk.active)])
    ensures t.(disk := s.disk, survivors := s.survivors, command := s.command) == s
  {
    hide Run;
    NothingRunYet(s);
    log, t := Then(s, [], s, LoadForExecute(n, s.wrap));
    log, t := Then(s, log, t, KeepRetired(Written));
    assert log == [LoadForExecute(n, s.wrap), KeepRetired(Written)];
    assert t.disk.retired == s.disk.retired[(s.disk.active.key, n) := Complete(s.disk.active)];
  }

  // ---- one operator too many ----

  /** Two operators: the first has requested a replacement; the second finds it without effect, clears its
      pending envelope and starts again, and that envelope is torn; then the first request takes effect,
      and its operator renames the torn envelope over the active one. */
  lemma TornWriteLosesAKey(k: nat) returns (m0: Site, log: seq<Act>)
    requires k >= 2
    ensures Fresh(m0, k) && Runs(m0, log).At? && !Loadable(Runs(m0, log).m)
  {
    hide Run, Runs;
    m0 := Site(Start(), Idlers(k), false);
    var m: Site;
    log, m := FirstRequested(m0, k);
    log, m := SecondTears(m0, k, log, m);
    var b := Bundle(0, 1, 0);
    var events, t := Confirms(As(m, 0), b);
    log, m := Continue(m0, log, m, 0, events);
    log := log + [RenameTorn(0, 1)];
    assert log[..|log| - 1] + [RenameTorn(0, 1)] == log;
    RunsOneMore(m0, log[..|log| - 1], m, RenameTorn(0, 1));
  }

  lemma RunsOneMore(m0: Site, log: seq<Act>, m: Site, a: Act)
    requires Runs(m0, log) == At(m) && Can(m, a)
    ensures Runs(m0, log + [a]) == At(Next(m, a))
  {
    assert (log + [a])[..|log|] == log;
  }

  lemma FirstRequested(m0: Site, k: nat) returns (log: seq<Act>, m: Site)
    requires k >= 2 && m0 == Site(Start(), Idlers(k), false)
    ensures Runs(m0, log) == At(m) && !m.broken && |m.commands| == k && m.commands[1] == Idle
    ensures m.commands[0] == Requested(Bundle(0, 1, 0), true)
    ensures m.shared == AfterRequest(Prepared(Start()), 1).(command := Idle)
  {
    hide Run, Runs;
    assert As(m0, 0) == Start();
    Prepares(Start());
    NothingDoneYet(m0);
    log, m := Continue(m0, [], m0, 0, PrepareLog(0));
    assert As(m, 0) == Prepared(Start());
    ExecuteReaches(Prepared(Start()), 1);
    log, m := Continue(m0, log, m, 0, ExecuteLog(1, 0));
  }

  lemma SecondTears(m0: Site, k: nat, before: seq<Act>, m: Site) returns (log: seq<Act>, next: Site)
    requires k >= 2 && Runs(m0, before) == At(m) && !m.broken && |m.commands| == k && m.commands[1] == Idle
    requires m.commands[0] == Requested(Bundle(0, 1, 0), true)
    requires m.shared == AfterRequest(Prepared(Start()), 1).(command := Idle)
    ensures Runs(m0, log) == At(next) && !next.broken && |next.commands| == k && next.shared.command.Idle?
    ensures next.commands[0] == Requested(Bundle(0, 1, 0), true)
    ensures next.shared.ca == 0 && (0, 1) in next.shared.inflight
    ensures 1 in next.shared.disk.pending && next.shared.disk.pending[1].Partial?
  {
    hide Run, Runs;
    assert As(m, 1) == m.shared;
    RecoveryStops(m.shared, 1);
    log, next := Continue(m0, before, m, 1, RecoverLog(1, 0, OldAuthoritative));
    assert As(next, 1) == AfterRecovery(m.shared, 1);
    var events, t := TearsAgain(AfterRecovery(m.shared, 1));
    log, next := Continue(m0, log, next, 1, events);
  }

  lemma TearsAgain(s: State) returns (log: seq<Event>, t: State)
    requires s.command.Idle? && s.wrap == 0 && LoadsPrepared(s.disk, 0, 1) && RetiredAgrees(s.disk, s.disk.active, 1)
    requires 1 !in s.disk.pending
    ensures Run(s, log) == Reached(t) && NoPowerLoss(log) && t.command.Idle?
    ensures t.ca == s.ca && t.inflight == s.inflight && 1 in t.disk.pending && t.disk.pending[1].Partial?
  {
    log, t := Secures(s, 1);
    hide Run;
    log, t := Then(s, log, t, WritePending(0, Failed(Torn)));
  }

  /** The third operator has secured the first replacement. */
  lemma ThirdSecured(m0: Site, k: nat) returns (log: seq<Act>, m: Site)
    requires k >= 3 && m0 == Site(Start(), Idlers(k), false)
    ensures Runs(m0, log) == At(m) && !m.broken && |m.commands| == k && TornFree(log)
    ensures m.commands[0] == Idle && m.commands[1] == Idle && m.commands[2] == Secured(Bundle(0, 1, 0))
    ensures m.shared.(survivors := Prepared(Start()).survivors, disk := Prepared(Start()).disk) == Prepared(Start())
    ensures m.shared.disk == Prepared(Start()).disk.(retired := map[(0, 1) := Complete(Envelope(0, 0, 0))])
  {
    hide Run, Runs;
    Prepares(Start());
    assert As(m0, 0) == Start();
    NothingDoneYet(m0);
    log, m := Continue(m0, [], m0, 0, PrepareLog(0));
    assert As(m, 2) == Prepared(Start());
    var events, t := Secures(Prepared(Start()), 1);
    log, m := Continue(m0, log, m, 2, events);
  }

  /** Then the first one has it requested and confirmed. */
  lemma SecuredAndConfirmed(m0: Site, k: nat) returns (log: seq<Act>, m: Site)
    requires k >= 3 && m0 == Site(Start(), Idlers(k), false)
    ensures Runs(m0, log) == At(m) && !m.broken && |m.commands| == k && TornFree(log)
    ensures m.commands[0] == Confirmed(Bundle(0, 1, 0)) && m.commands[1] == Idle && m.commands[2] == Secured(Bundle(0, 1, 0))
    ensures AfterConfirmation(m.shared)
  {
    hide Run, Runs;
    log, m := ThirdSecured(m0, k);
    var s := m.shared;
    assert As(m, 0) == s;
    ExecuteReaches(s, 1);
    log, m := Continue(m0, log, m, 0, ExecuteLog(1, 0));
    RequestedFirst(s);
    var events, t := Confirms(As(m, 0), Bundle(0, 1, 0));
    log, m := Continue(m0, log, m, 0, events);
  }

  lemma RequestedFirst(s: State)
    requires s.(survivors := Prepared(Start()).survivors, disk := Prepared(Start()).disk) == Prepared(Start())
    requires s.disk == Prepared(Start()).disk.(retired := map[(0, 1) := Complete(Envelope(0, 0, 0))])
    ensures var t := AfterRequest(s, 1);
      && t.command == Requested(Bundle(0, 1, 0), true) && t.inflight == {(0, 1)} && t.applied == {}
      && t.wrap == 0 && t.ca == 0 && t.next == 2
      && t.disk == Disk(Envelope(0, 0, 0), map[1 := Complete(Bundle(0, 1, 0))], map[1 := Complete(Envelope(1, 0, 0))],
                        map[(0, 1) := Complete(Envelope(0, 0, 0))])
  {
  }

  /** Key 0 is active, the authority holds key 1, and its pending envelope is there. */
  ghost predicate AfterConfirmation(s: State) {
    && s.command.Idle? && s.wrap == 0 && s.ca == 1 && s.next == 2 && s.applied == {(0, 1)}
    && s.disk.active == Envelope(0, 0, 0)
    && s.disk.bundles == map[1 := Complete(Bundle(0, 1, 0))]
    && s.disk.pending == map[1 := Complete(Envelope(1, 0, 0))]
    && s.disk.retired == map[(0, 1) := Complete(Envelope(0, 0, 0))]
  }

  /** Key 1 is active and held, and a pending envelope for it has been written again. */
  ghost predicate WrittenAgain(s: State) {
    && s.command.Idle? && s.wrap == 0 && s.ca == 1 && s.next == 2 && s.applied == {(0, 1)}
    && s.disk.active == Envelope(1, 0, 0)
    && s.disk.bundles == map[1 := Complete(Bundle(0, 1, 0))]
    && s.disk.pending == map[1 := Complete(Envelope(1, 0, 0))]
    && s.disk.retired == map[(0, 1) := Complete(Envelope(0, 0, 0))]
  }

  /** The second operator recovers and activates the first replacement; then the third one writes its
      pending envelope again. */
  lemma ActivatedAndWrittenAgain(m0: Site, k: nat, before: seq<Act>, m: Site) returns (log: seq<Act>, next: Site)
    requires k >= 3 && Runs(m0, before) == At(m) && !m.broken && |m.commands| == k && TornFree(before)
    requires m.commands[0] == Confirmed(Bundle(0, 1, 0)) && m.commands[1] == Idle && m.commands[2] == Secured(Bundle(0, 1, 0))
    requires AfterConfirmation(m.shared)
    ensures Runs(m0, log) == At(next) && !next.broken && |next.commands| == k && TornFree(log)
    ensures next.commands[0] == Confirmed(Bundle(0, 1, 0)) && next.commands[1] == Idle
    ensures WrittenAgain(next.shared)
  {
    hide Run, Runs;
    log, next := ActivatedBySecond(m0, k, before, m);
    var s := As(next, 2);
    NothingRunYet(s);
    var events, t := Then(s, [], s, WritePending(0, Written));
    assert t.disk.pending == map[1 := Complete(Envelope(1, 0, 0))];
    log, next := Continue(m0, log, next, 2, events);
  }

  lemma ActivatedBySecond(m0: Site, k: nat, before: seq<Act>, m: Site) returns (log: seq<Act>, next: Site)
    requires k >= 3 && Runs(m0, before) == At(m) && !m.broken && |m.commands| == k && TornFree(before)
    requires m.commands[1] == Idle && AfterConfirmation(m.shared)
    ensures Runs(m0, log) == At(next) && !next.broken && next.commands == m.commands && TornFree(log)
    ensures var t := next.shared;
      && t.command.Idle? && t.wrap == 0 && t.ca == 1 && t.next == 2 && t.applied == {(0, 1)}
      && t.disk == Disk(Envelope(1, 0, 0), m.shared.disk.bundles, map[], m.shared.disk.retired)
  {
    hide Run, Runs;
    assert As(m, 1) == m.shared;
    RecoveryStops(m.shared, 1);
    RecoveredFirst(m.shared);
    log, next := Continue(m0, before, m, 1, RecoverLog(1, 0, NewAuthoritative));
  }

  lemma RecoveredFirst(s: State)
    requires AfterConfirmation(s)
    ensures var t := AfterRecovery(s, 1);
      && t.command.Idle? && t.wrap == 0 && t.ca == 1 && t.next == 2 && t.applied == {(0, 1)}
      && t.disk == Disk(Envelope(1, 0, 0), s.disk.bundles, map[], s.disk.retired)
  {
  }

  /** Three operators lose the key without any torn write: the first one's confirmed rename comes so late
      that the key it activates has been replaced twice. */
  lemma ThirdOperatorLosesAKey(k: nat) returns (m0: Site, log: seq<Act>)
    requires k >= 3
    ensures Fresh(m0, k) && Runs(m0, log).At? && TornFree(log) && !Loadable(Runs(m0, log).m)
  {
    hide Run, Runs;
    m0 := Site(Start(), Idlers(k), false);
    var m: Site;
    log, m := SecuredAndConfirmed(m0, k);
    log, m := ActivatedAndWrittenAgain(m0, k, log, m);
    log, m := RolledOnTwice(m0, k, log, m);
    var s := As(m, 0);
    NothingRunYet(s);
    var events, t := Then(s, [], s, Activate(1));
    log, m := Continue(m0, log, m, 0, events);
  }

  /** The second operator rolls over to key 2 and has a request for key 3 carried out. */
  lemma RolledOnTwice(m0: Site, k: nat, before: seq<Act>, m: Site) returns (log: seq<Act>, next: Site)
    requires k >= 3 && Runs(m0, before) == At(m) && !m.broken && |m.commands| == k && TornFree(before)
    requires m.commands[0] == Confirmed(Bundle(0, 1, 0)) && m.commands[1] == Idle && WrittenAgain(m.shared)
    ensures Runs(m0, log) == At(next) && !next.broken && |next.commands| == k && TornFree(log) && next.shared.command.Idle?
    ensures next.commands[0] == Confirmed(Bundle(0, 1, 0)) && next.shared.ca == 3 && next.shared.wrap == 0
    ensures var d := next.shared.disk;
      && 1 in d.pending && d.pending[1] == Complete(Envelope(1, 0, 0))
      && 3 in d.bundles && d.bundles[3] == Complete(Bundle(2, 3, 0))
  {
    hide Run, Runs;
    assert As(m, 1) == m.shared;
    var events, t := RollsForward(m.shared);
    log, next := Continue(m0, before, m, 1, events);
    assert As(next, 1) == t;
    events, t := RollsToRequest(t);
    log, next := Continue(m0, log, next, 1, events);
  }

  // ---- how many operators exactly ----

  lemma {:induction false} NobodyActs(m: Site, log: seq<Act>)
    requires m.commands == [] && Runs(m, log).At?
    ensures log == []
  {
    if log != [] {
      NobodyActs(m, log[..|log| - 1]);
    }
  }

  lemma OneOperatorNeverLosesAKey(m0: Site, k: nat, log: seq<Act>)
    requires Fresh(m0, k) && k <= 1 && Runs(m0, log).At?
    ensures Loadable(Runs(m0, log).m)
  {
    if k == 0 {
      NobodyActs(m0, log);
    } else {
      var events := OneOperatorIsTheMachine(m0, log);
      KeyNeverLost(m0.shared, events);
    }
  }

  /** No run of `k` operators loses the key if and only if there is at most one of them. */
  lemma SafeForExactlyOneOperator(k: nat)
    ensures (forall m0, log | Fresh(m0, k) && Runs(m0, log).At? :: Loadable(Runs(m0, log).m)) <==> k <= 1
  {
    if k <= 1 {
      forall m0, log | Fresh(m0, k) && Runs(m0, log).At?
        ensures Loadable(Runs(m0, log).m)
      {
        OneOperatorNeverLosesAKey(m0, k, log);
      }
    } else {
      var m0, log := TornWriteLosesAKey(k);
    }
  }

  /** No run of `k` operators that leaves no pending envelope torn loses the key if and only if there are at
      most two of them. */
  lemma SafeForExactlyTwoWithoutTornWrites(k: nat)
    ensures (forall m0, log | Fresh(m0, k) && Runs(m0, log).At? && TornFree(log) :: Loadable(Runs(m0, log).m)) <==> k <= 2
  {
    if k <= 2 {
      forall m0, log | Fresh(m0, k) && Runs(m0, log).At? && TornFree(log)
        ensures Loadable(Runs(m0, log).m)
      {
        TwoOperatorsNeverLoseAKey(m0, k, log);
      }
    } else {
      var m0, log := ThirdOperatorLosesAKey(k);
    }
  }
}
