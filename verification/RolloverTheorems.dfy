/** The promises of the rollover protocol, over every run from a registered account. */
module RolloverTheorems {
  import opened RolloverMachine
  import opened RolloverSafety

  // ---- the recognised key is never lost ----

  /** Whatever was interrupted, lost or applied late, and whatever directory a loss of power leaves:
      the key the authority recognises can be loaded, as the active key or from a prepared bundle
      that is bound to the active key. */
  lemma KeyNeverLost(s0: State, log: seq<Event>)
    requires Registered(s0) && Run(s0, log).Reached?
    ensures var s := Run(s0, log).s;
      && s.disk in s.survivors
      && forall d | d in s.survivors :: LoadsActive(d, s.wrap, s.ca) || LoadsPrepared(d, s.wrap, s.ca)
  {
    ReachableInv(s0, log);
    var s := Run(s0, log).s;
    forall d | d in s.survivors
      ensures LoadsActive(d, s.wrap, s.ca) || LoadsPrepared(d, s.wrap, s.ca)
    {
      assert DiskOk(s, d);
      if d.active.key != s.ca {
        assert (d.active.key, s.ca) in s.sent;
      }
    }
  }

  // ---- what the two reads of a probe mean ----

  /** The reads are not atomic, yet each report pins down what the authority held at both of them. */
  lemma ProbeMeaning(s0: State, log: seq<Event>)
    requires Registered(s0) && Run(s0, log).Reached?
    requires Run(s0, log).s.command.ProbedOld?
    ensures var s := Run(s0, log).s; var s' := Apply(s, ReadNewKey);
      var b, seen := s.command.b, s.command.seen;
      && (s'.command.outcome == NewAuthoritative <==> seen == s.ca == b.newKey)
      && (s'.command.outcome == OldAuthoritative <==> seen == b.oldKey && s.ca != b.newKey)
      && (s'.command.outcome == BothRecognized <==> seen == b.oldKey && s.ca == b.newKey)
      && (s'.command.outcome == NeitherRecognized <==> seen == s.ca && s.ca != b.oldKey && s.ca != b.newKey)
  {
    ReachableInv(s0, log);
  }

  /** With no other replacement requested under the active key, `neither` cannot be reported, and
      `both` means that the change fell between the two reads. */
  lemma SingleReplacementProbe(s0: State, log: seq<Event>)
    requires Registered(s0) && Run(s0, log).Reached?
    requires Run(s0, log).s.command.ProbedOld?
    requires var s := Run(s0, log).s;
      forall r | r in s.sent && r.0 == s.disk.active.key :: r.1 == s.command.b.newKey
    ensures var s := Run(s0, log).s;
      && Apply(s, ReadNewKey).command.outcome != NeitherRecognized
      && (Apply(s, ReadNewKey).command.outcome == BothRecognized ==> s.command.seen != s.ca)
  {
    ReachableInv(s0, log);
    ProbeMeaning(s0, log);
    var s := Run(s0, log).s;
    assert DiskOk(s, s.disk);
    if s.ca != s.disk.active.key {
      assert (s.disk.active.key, s.ca) in s.sent;
    }
  }

  /** One more event of a run, for building runs step by step. */
  lemma Then(s0: State, log: seq<Event>, s: State, e: Event) returns (log': seq<Event>, s': State)
    requires Run(s0, log) == Reached(s) && Enabled(s, e)
    ensures log' == log + [e] && s' == Apply(s, e) && Run(s0, log') == Reached(s')
  {
    log', s' := log + [e], Apply(s, e);
    assert log'[..|log'| - 1] == log;
  }

  lemma NothingRunYet(s: State)
    ensures Run(s, []) == Reached(s)
  {
  }

  /** Two bundles prepared under key 0, nothing requested yet. */
  function TwoPrepared(): State {
    var a := Envelope(0, 0, 0);
    var bundles := map[1 := Complete(Bundle(0, 1, 0)), 2 := Complete(Bundle(0, 2, 0))];
    var d := Disk(a, bundles, map[], map[]);
    State(0, d, {d}, 0, {}, {}, {}, {}, 3, Idle)
  }

  /** Replacement 1 was requested, found not to have taken effect, and its pending envelope cleared;
      the request is still on its way. */
  function ClearedButInFlight(): State {
    var s := TwoPrepared();
    var d := s.disk.(retired := map[(0, 1) := Complete(s.disk.active)]);
    s.(disk := d, survivors := {d}, inflight := {(0, 1)}, sent := {(0, 1)})
  }

  /** `neither` is a real report: a request applied only after an old-authoritative recovery cleared
      its pending envelope, followed by a second replacement, produces it. */
  lemma NeitherHappens() returns (s0: State, log: seq<Event>)
    ensures Registered(s0) && Run(s0, log).Reached? && Run(s0, log).s.command.Decided?
    ensures Run(s0, log).s.command.outcome == NeitherRecognized
  {
    var more: seq<Event>;
    s0, log := PrepareTwo();
    more := RequestAndClearFirst();
    RunAppend(s0, log, more);
    log := log + more;
    more := RequestSecondAndProbe(ClearedButInFlight());
    RunAppend(s0, log, more);
    log := log + more;
  }

  lemma PrepareTwo() returns (s0: State, log: seq<Event>)
    ensures Registered(s0) && Run(s0, log) == Reached(TwoPrepared())
  {
    var d0 := Disk(Envelope(0, 0, 0), map[], map[], map[]);
    s0 := State(0, d0, {d0}, 0, {}, {}, {}, {}, 1, Idle);
    var s;
    log, s := Then(s0, [], s0, LoadForPrepare(0));
    log, s := Then(s0, log, s, WriteBundle(Written));
    log, s := Then(s0, log, s, LoadForPrepare(0));
    log, s := Then(s0, log, s, WriteBundle(Written));
    assert s == TwoPrepared();
  }

  lemma RequestAndClearFirst() returns (log: seq<Event>)
    ensures Run(TwoPrepared(), log) == Reached(ClearedButInFlight())
  {
    var s0 := TwoPrepared();
    hide Run;
    ExecuteReaches(s0, 1);
    var s;
    log, s := Then(s0, ExecuteLog(1, 0), AfterRequest(s0, 1), Abort);
    ClearsFirst(s);
    RecoveryStops(s, 1);
    var recover := RecoverLog(1, 0, OldAuthoritative);
    RunAppend(s0, log, recover);
    log := log + recover;
  }

  lemma ClearsFirst(s: State)
    requires s == AfterRequest(TwoPrepared(), 1).(command := Idle)
    ensures s.wrap == 0 && Observed(s) == OldAuthoritative && LoadsProbeState(s.disk, 0, 1)
    ensures RetiredAgrees(s.disk, s.disk.active, 1) && AfterRecovery(s, 1) == ClearedButInFlight()
  {
    var t := AfterRecovery(s, 1);
    assert t.disk.pending == map[];
    assert t.disk.retired == map[(0, 1) := Complete(Envelope(0, 0, 0))];
    assert t.disk == ClearedButInFlight().disk;
    assert t.unresolved == {} && t.inflight == {(0, 1)} && t.sent == {(0, 1)};
  }

  lemma RequestSecondAndProbe(s0: State) returns (log: seq<Event>)
    requires s0 == ClearedButInFlight()
    ensures Run(s0, log).Reached? && Run(s0, log).s.command.Decided?
    ensures Run(s0, log).s.command.outcome == NeitherRecognized
  {
    hide Run;
    ExecuteReaches(s0, 2);
    var s;
    log, s := Then(s0, ExecuteLog(2, 0), AfterRequest(s0, 2), CaApply((0, 1)));
    log, s := Then(s0, log, s, Abort);
    assert LoadsProbeState(s.disk, 0, 2) && s.disk.active.key == 0 && s.ca == 1;
    log := ProbesAThirdKey(s0, log, s);
  }

  lemma ProbesAThirdKey(s0: State, before: seq<Event>, s: State) returns (log: seq<Event>)
    requires Run(s0, before) == Reached(s) && s.command.Idle?
    requires LoadsProbeState(s.disk, 0, 2) && s.disk.active.key == 0 && s.ca == 1
    ensures Run(s0, log).Reached? && Run(s0, log).s.command.Decided?
    ensures Run(s0, log).s.command.outcome == NeitherRecognized
  {
    hide Run;
    var t;
    log, t := Then(s0, before, s, LoadForRecovery(2, 0, OldAuthoritative));
    log, t := Then(s0, log, t, ReadOldKey);
    log, t := Then(s0, log, t, ReadNewKey);
  }

  /** While a probe runs, only it and the authority act. */
  predicate ProbeEvent(e: Event) {
    e.ReadOldKey? || e.ReadNewKey? || e.CaApply? || e.CaDrop?
  }

  ghost predicate EndsWithNeither(s: State, log: seq<Event>) {
    && (forall e | e in log :: ProbeEvent(e))
    && Run(s, log).Reached? && Run(s, log).s.command.Decided? && Run(s, log).s.command.outcome == NeitherRecognized
  }

  /** The authority has left the two keys of the replacement, or can still leave the old one for a third. */
  predicate ThirdKeyInPlay(s: State, b: Bundle) {
    if s.ca == b.oldKey then exists r | r in s.inflight :: r.0 == b.oldKey && r.1 != b.newKey
    else s.ca != b.newKey
  }

  /** A probe can still report "neither" if and only if a third key is in play when it starts. */
  lemma NeitherExactly(s: State)
    requires Inv(s) && s.command.Probing?
    ensures (exists log :: EndsWithNeither(s, log)) <==> ThirdKeyInPlay(s, s.command.b)
  {
    var b := s.command.b;
    if ThirdKeyInPlay(s, b) {
      var log := ReadsNeither(s);
    } else {
      forall log | (forall e | e in log :: ProbeEvent(e)) && Run(s, log).Reached?
        ensures !EndsWithNeither(s, log)
      {
        TwoKeysAlong(s, b, log);
      }
    }
  }

  /** The third key takes effect before the reads, if it has not yet. */
  lemma ReadsNeither(s: State) returns (log: seq<Event>)
    requires Inv(s) && s.command.Probing? && ThirdKeyInPlay(s, s.command.b)
    ensures EndsWithNeither(s, log)
  {
    hide Run, CoreOk;
    NothingRunYet(s);
    var b := s.command.b;
    log := [];
    var t := s;
    if s.ca == b.oldKey {
      var r :| r in s.inflight && r.0 == b.oldKey && r.1 != b.newKey;
      OnlyActiveMoves(s, s.disk, r);
      log, t := Then(s, log, t, CaApply(r));
    }
    log, t := Then(s, log, t, ReadOldKey);
    log, t := Then(s, log, t, ReadNewKey);
  }

  /** No third key is in play, and what the probe has read so far excludes "neither". */
  ghost predicate TwoKeysOnly(s: State, b: Bundle) {
    && b.oldKey == s.disk.active.key
    && !ThirdKeyInPlay(s, b)
    && (s.command.Probing? || s.command.ProbedOld? || s.command.Decided?) && s.command.b == b
    && (s.command.ProbedOld? ==> s.command.oldRecognized || s.ca == b.newKey)
    && (s.command.Decided? ==> s.command.outcome != NeitherRecognized)
  }

  lemma TwoKeysStep(s: State, b: Bundle, e: Event)
    requires Inv(s) && TwoKeysOnly(s, b) && ProbeEvent(e) && Enabled(s, e)
    ensures TwoKeysOnly(Apply(s, e), b)
  {
    if e.CaApply? {
      assert DiskOk(s, s.disk);
      OnlyActiveMoves(s, s.disk, e.request);
    }
  }

  lemma {:induction false} TwoKeysAlong(s: State, b: Bundle, log: seq<Event>)
    requires Inv(s) && TwoKeysOnly(s, b) && (forall e | e in log :: ProbeEvent(e)) && Run(s, log).Reached?
    ensures TwoKeysOnly(Run(s, log).s, b) && Inv(Run(s, log).s)
  {
    if log != [] {
      var n := |log| - 1;
      assert log[n] in log;
      TwoKeysAlong(s, b, log[..n]);
      StepKeepsInv(Run(s, log[..n]).s, log[n]);
      TwoKeysStep(Run(s, log[..n]).s, b, log[n]);
    }
  }

  /** A pending envelope becomes active only when the authority holds its key. */
  lemma ActivationIsAuthoritative(s0: State, log: seq<Event>, n: Key)
    requires Registered(s0) && Run(s0, log).Reached? && Enabled(Run(s0, log).s, Activate(n))
    ensures var s := Run(s0, log).s;
      s.ca == n && Apply(s, Activate(n)).disk.active.key == n && LoadsActive(Apply(s, Activate(n)).disk, s.wrap, n)
  {
    ReachableInv(s0, log);
    ActivateStep(Run(s0, log).s, n);
    assert DiskOk(Run(s0, log).s, Run(s0, log).s.disk);
  }

  // ---- no blind replay ----

  /** Every directory a loss of power may leave holds a byte-exact retired copy of the active envelope, the
      whole pending envelope and the bundle. */
  ghost predicate BackedEverywhere(s: State, n: Key) {
    forall d | d in s.survivors ::
      && (d.active.key, n) in d.retired && d.retired[(d.active.key, n)] == Complete(d.active)
      && n in d.pending && d.pending[n].Complete? && d.pending[n].content.key == n
      && LoadsPrepared(d, s.wrap, n)
  }

  /** Before a request leaves, all that a recovery from it needs is durable. */
  lemma RequestIsBacked(s0: State, log: seq<Event>, n: Key)
    requires Registered(s0) && Run(s0, log).Reached? && Enabled(Run(s0, log).s, Send(n))
    ensures BackedEverywhere(Run(s0, log).s, n)
  {
    ReachableInv(s0, log);
    var s := Run(s0, log).s;
    assert DiskOk(s, s.disk);
  }

  /** A requested key stays unresolved until a recovery clears its pending envelope. */
  lemma {:induction false} StaysUnresolved(s0: State, log: seq<Event>, i: nat, n: Key)
    requires i < |log| && log[i] == Send(n) && Run(s0, log).Reached?
    ensures n in Run(s0, log).s.unresolved || exists k :: i < k < |log| && log[k] == ClearPending(n)
  {
    var front := log[..|log| - 1];
    if i < |log| - 1 {
      StaysUnresolved(s0, front, i, n);
      if k :| i < k < |front| && front[k] == ClearPending(n) {
        assert log[k] == ClearPending(n);
      } else {
        assert n in Run(s0, front).s.unresolved;
        assert log[|log| - 1] == ClearPending(n) || n in Run(s0, log).s.unresolved;
      }
    }
  }

  lemma {:induction false} PrefixReached(s0: State, log: seq<Event>, i: nat)
    requires i <= |log| && Run(s0, log).Reached?
    ensures Run(s0, log[..i]).Reached?
    ensures i < |log| ==> Enabled(Run(s0, log[..i]).s, log[i])
    decreases |log|
  {
    if i == |log| {
      assert log[..i] == log;
    } else {
      var front := log[..|log| - 1];
      PrefixReached(s0, front, i);
      assert front[..i] == log[..i];
      assert i == |log| - 1 ==> front == log[..i];
    }
  }

  /** Between two requests for one replacement key lies a recovery that removed its pending envelope
      after observing the old key as authoritative. */
  lemma NoBlindReplay(s0: State, log: seq<Event>, i: nat, j: nat, n: Key)
    requires Registered(s0) && Run(s0, log).Reached?
    requires i < j < |log| && log[i] == Send(n) && log[j] == Send(n)
    ensures exists k :: (
      && i < k < j && log[k] == ClearPending(n)
      && Run(s0, log[..k]).Reached? && Run(s0, log[..k]).s.command.Resolving?
      && Run(s0, log[..k]).s.command.outcome == OldAuthoritative)
  {
    PrefixReached(s0, log, j);
    var front := log[..j];
    StaysUnresolved(s0, front, i, n);
    ReachableInv(s0, front);
    var k :| i < k < |front| && front[k] == ClearPending(n);
    PrefixReached(s0, log, k);
    assert log[k] == ClearPending(n);
  }

  // ---- recovery converges ----

  /** A fault-free execution up to and including the request. */
  function ExecuteLog(n: Key, w: nat): seq<Event> {
    [LoadForExecute(n, w), KeepRetired(Written), WritePending(0, Written), Send(n)]
  }

  /** A fault-free recovery of replacement `n` for one of the two actionable outcomes. */
  function RecoverLog(n: Key, w: nat, outcome: Authority): seq<Event> {
    [LoadForRecovery(n, w, outcome), ReadOldKey, ReadNewKey, Recheck, KeepRetiredAgain(Written),
     if outcome == NewAuthoritative then Activate(n) else ClearPending(n), SyncDirectory]
  }

  lemma {:induction false} RunAppend(s: State, a: seq<Event>, b: seq<Event>)
    ensures Run(s, a).Reached? ==> Run(s, a + b) == Run(Run(s, a).s, b)
    decreases |b|
  {
    if b == [] {
      assert a + b == a;
    } else {
      RunAppend(s, a, b[..|b| - 1]);
      assert (a + b)[..|a + b| - 1] == a + b[..|b| - 1];
    }
  }

  /** The recovery that matches what the authority holds. */
  function Observed(s: State): Authority {
    if s.ca == s.disk.active.key then OldAuthoritative else NewAuthoritative
  }

  /** The state after a fault-free execution up to its request. */
  function AfterRequest(s: State, n: Key): State
    requires n in s.disk.bundles && s.disk.bundles[n].Complete?
  {
    var from := s.disk.active.key;
    var d := s.disk.(retired := s.disk.retired[(from, n) := Complete(s.disk.active)],
                     pending := s.disk.pending[n := Complete(Envelope(n, s.wrap, 0))]);
    s.(disk := d, survivors := {d}, inflight := s.inflight + {(from, n)}, sent := s.sent + {(from, n)},
       unresolved := s.unresolved + {n}, command := Requested(s.disk.bundles[n].content, (from, n) !in s.applied))
  }

  /** A fault-free execution reaches its request whenever no pending envelope is in the way. */
  lemma ExecuteReaches(s: State, n: Key)
    requires s.command.Idle? && LoadsPrepared(s.disk, s.wrap, n) && RetiredAgrees(s.disk, s.disk.active, n) && n !in s.disk.pending
    ensures Run(s, ExecuteLog(n, s.wrap)) == Reached(AfterRequest(s, n))
  {
    hide Run;
    NothingRunYet(s);
    var log, t := Then(s, [], s, LoadForExecute(n, s.wrap));
    log, t := Then(s, log, t, KeepRetired(Written));
    assert t.disk.retired == s.disk.retired[(s.disk.active.key, n) := Complete(s.disk.active)];
    log, t := Then(s, log, t, WritePending(0, Written));
    log, t := Then(s, log, t, Send(n));
    assert log == ExecuteLog(n, s.wrap);
  }

  /** The state after a fault-free recovery with the observed outcome. */
  function AfterRecovery(s: State, n: Key): State
    requires n in s.disk.pending && s.disk.pending[n].Complete?
  {
    var kept := s.disk.(retired := s.disk.retired[(s.disk.active.key, n) := Complete(s.disk.active)]);
    var d := if Observed(s) == NewAuthoritative then ActivatedDisk(kept, n) else kept.(pending := kept.pending - {n});
    s.(disk := d, survivors := {d},
       unresolved := if Observed(s) == NewAuthoritative then s.unresolved else s.unresolved - {n}, command := Idle)
  }

  lemma RecoveryProbes(s: State, n: Key)
    requires s.command.Idle? && LoadsProbeState(s.disk, s.wrap, n)
    requires s.ca == s.disk.active.key || s.ca == n
    ensures var log := [LoadForRecovery(n, s.wrap, Observed(s)), ReadOldKey, ReadNewKey];
      Run(s, log) == Reached(s.(command := Decided(s.disk.bundles[n].content, Observed(s), Observed(s), s.ca)))
  {
    hide Run;
    NothingRunYet(s);
    var log, t := Then(s, [], s, LoadForRecovery(n, s.wrap, Observed(s)));
    log, t := Then(s, log, t, ReadOldKey);
    log, t := Then(s, log, t, ReadNewKey);
    assert log == [LoadForRecovery(n, s.wrap, Observed(s)), ReadOldKey, ReadNewKey];
  }

  lemma RecoveryChecks(s: State, n: Key) returns (log: seq<Event>, t: State)
    requires s.command.Idle? && LoadsProbeState(s.disk, s.wrap, n) && RetiredAgrees(s.disk, s.disk.active, n)
    requires s.ca == s.disk.active.key || s.ca == n
    ensures log == [LoadForRecovery(n, s.wrap, Observed(s)), ReadOldKey, ReadNewKey, Recheck, KeepRetiredAgain(Written)]
    ensures Run(s, log) == Reached(t) && t.(disk := s.disk, survivors := s.survivors, command := s.command) == s
    ensures t.disk == s.disk.(retired := s.disk.retired[(s.disk.active.key, n) := Complete(s.disk.active)])
    ensures t.command.Resolving? && t.command.outcome == Observed(s) && t.command.b.newKey == n
    ensures n in s.disk.pending && s.disk.pending[n].Complete?
  {
    hide Run;
    RecoveryProbes(s, n);
    log := [LoadForRecovery(n, s.wrap, Observed(s)), ReadOldKey, ReadNewKey];
    t := s.(command := Decided(s.disk.bundles[n].content, Observed(s), Observed(s), s.ca));
    log, t := Then(s, log, t, Recheck);
    log, t := Then(s, log, t, KeepRetiredAgain(Written));
    assert t.disk.retired == s.disk.retired[(s.disk.active.key, n) := Complete(s.disk.active)];
  }

  lemma RecoveryStops(s: State, n: Key)
    requires s.command.Idle? && LoadsProbeState(s.disk, s.wrap, n) && RetiredAgrees(s.disk, s.disk.active, n)
    requires s.ca == s.disk.active.key || s.ca == n
    ensures Run(s, RecoverLog(n, s.wrap, Observed(s))) == Reached(AfterRecovery(s, n))
  {
    hide Run, LoadsProbeState, RetiredAgrees;
    var log, t := RecoveryChecks(s, n);
    log, t := Then(s, log, t, if Observed(s) == NewAuthoritative then Activate(n) else ClearPending(n));
    log, t := Then(s, log, t, SyncDirectory);
    assert log == RecoverLog(n, s.wrap, Observed(s));
  }

  /** From any reachable state between commands with a whole pending envelope: a fault-free recovery
      with the observed outcome ends with the active key equal to the key the authority holds and
      with the pending envelope gone. After an old-authoritative one, an execution passes its
      retired-copy and pending checks again. */
  lemma RecoveryConverges(s: State, n: Key)
    requires Inv(s) && s.command.Idle? && LoadsProbeState(s.disk, s.wrap, n)
    requires s.ca == s.disk.active.key || s.ca == n
    ensures var r := Run(s, RecoverLog(n, s.wrap, Observed(s)));
      && r.Reached? && r.s.command.Idle? && r.s.ca == s.ca
      && r.s.disk.active.key == s.ca && n !in r.s.disk.pending && r.s.survivors == {r.s.disk}
      && (Observed(s) == OldAuthoritative ==> Run(r.s, ExecuteLog(n, s.wrap)).Reached?)
  {
    assert DiskOk(s, s.disk);
    RecoveryStops(s, n);
    if Observed(s) == OldAuthoritative {
      ExecuteReaches(AfterRecovery(s, n), n);
    }
  }

  // ---- when the commands can always bring disk and authority together ----

  /** The only thing in the way: a torn pending envelope for the very key the authority holds. */
  predicate TornAuthority(s: State, d: Disk) {
    s.ca != d.active.key && s.ca in d.pending && d.pending[s.ca].Partial?
  }

  ghost predicate Settled(s: State, log: seq<Event>) {
    Run(s, log).Reached? && Run(s, log).s.disk.active.key == Run(s, log).s.ca
  }

  /** A run that ends with a torn pending envelope for the key the authority holds: the first request was
      found without effect and cleared, the envelope of the second attempt was torn, and then the first
      request took effect and the power failed. */
  lemma TornAuthorityHappens() returns (s0: State, log: seq<Event>)
    ensures Registered(s0) && Run(s0, log).Reached?
    ensures var s := Run(s0, log).s; s.command.Idle? && s.survivors == {s.disk} && TornAuthority(s, s.disk)
  {
    s0, log := PrepareTwo();
    var more := RequestAndClearFirst();
    RunAppend(s0, log, more);
    log := log + more;
    more := TearSecondAttempt();
    RunAppend(s0, log, more);
    log := log + more;
  }

  lemma TearSecondAttempt() returns (log: seq<Event>)
    ensures Run(ClearedButInFlight(), log).Reached?
    ensures var s := Run(ClearedButInFlight(), log).s;
      s.command.Idle? && s.survivors == {s.disk} && TornAuthority(s, s.disk)
  {
    var s0 := ClearedButInFlight();
    log := SecureSecondAttempt();
    var s := s0.(command := Secured(Bundle(0, 1, 0)));
    var t;
    log, t := Then(s0, log, s, WritePending(0, Failed(Torn)));
    TornWrite(s);
    log := TakeEffectAndLosePower(s0, log, t);
  }

  lemma SecureSecondAttempt() returns (log: seq<Event>)
    ensures Run(ClearedButInFlight(), log) == Reached(ClearedButInFlight().(command := Secured(Bundle(0, 1, 0))))
  {
    var s0 := ClearedButInFlight();
    var s;
    log, s := Then(s0, [], s0, LoadForExecute(1, 0));
    log, s := Then(s0, log, s, KeepRetired(Written));
  }

  lemma TornWrite(s: State)
    requires s == ClearedButInFlight().(command := Secured(Bundle(0, 1, 0)))
    ensures Enabled(s, WritePending(0, Failed(Torn)))
    ensures var t := Apply(s, WritePending(0, Failed(Torn)));
      && t.disk in t.survivors && t.disk.active.key == 0 && t.disk.pending == map[1 := Partial]
      && t.ca == 0 && t.inflight == {(0, 1)}
  {
    assert s.disk.pending == map[];
  }

  lemma TakeEffectAndLosePower(s0: State, before: seq<Event>, s: State) returns (log: seq<Event>)
    requires Run(s0, before) == Reached(s) && s.disk in s.survivors
    requires s.disk.active.key == 0 && s.disk.pending == map[1 := Partial] && s.ca == 0 && s.inflight == {(0, 1)}
    ensures Run(s0, log).Reached?
    ensures var t := Run(s0, log).s; t.command.Idle? && t.survivors == {t.disk} && TornAuthority(t, t.disk)
  {
    hide Run;
    var t;
    log, t := Then(s0, before, s, CaApply((0, 1)));
    log, t := Then(s0, log, t, PowerLoss(t.disk));
  }

  lemma Settles(s: State) returns (log: seq<Event>)
    requires Inv(s) && s.command.Idle? && !TornAuthority(s, s.disk)
    ensures Settled(s, log) && Run(s, log).s.ca == s.ca
  {
    log := [];
    assert DiskOk(s, s.disk);
    var n := s.ca;
    if n != s.disk.active.key {
      var r := (s.disk.active.key, n);
      assert r in s.sent;
      if n in s.disk.pending {
        RecoveryConverges(s, n);
        log := RecoverLog(n, s.wrap, NewAuthoritative);
      } else {
        ExecuteReaches(s, n);
        var again := ExecuteLog(n, s.wrap);
        var t := Run(s, again).s;
        RunKeepsInv(s, again);
        var more, u := Then(s, again, t, Abort);
        StepKeepsInv(t, Abort);
        RecoveryConverges(u, n);
        log := more + RecoverLog(n, s.wrap, NewAuthoritative);
        RunAppend(s, more, RecoverLog(n, s.wrap, NewAuthoritative));
      }
    }
  }

  /** No command overwrites, clears or activates a torn pending envelope. */
  ghost predicate Blocked(s: State) {
    && (forall d | d in s.survivors :: TornAuthority(s, d))
    && (s.command.Probing? || s.command.ProbedOld? || s.command.Decided? || s.command.Checked? || s.command.Resolving? ==>
          s.command.b.newKey != s.ca)
  }

  /** Writes go to free names, and the torn pending envelope's name is not free. */
  lemma BlockedWrite(s: State, e: Event)
    requires Inv(s) && Blocked(s) && Enabled(s, e) && (e.WriteBundle? || e.KeepRetired? || e.KeepRetiredAgain? || e.WritePending?)
    ensures Blocked(Apply(s, e)) && Apply(s, e).ca == s.ca
  {
    hide DiskOk, CommandOk;
    assert TornAuthority(s, s.disk);
  }

  lemma BlockedRename(s: State, e: Event)
    requires Inv(s) && Blocked(s) && Enabled(s, e) && (e.Activate? || e.ClearPending?)
    ensures Blocked(Apply(s, e)) && Apply(s, e).ca == s.ca
  {
    hide DiskOk, CommandOk;
    if e.Activate? {
      ActivateStep(s, e.n);
    }
  }

  lemma BlockedRest(s: State, e: Event)
    requires Inv(s) && Blocked(s) && Enabled(s, e)
    requires !e.WriteBundle? && !e.KeepRetired? && !e.KeepRetiredAgain? && !e.WritePending? && !e.Activate? && !e.ClearPending?
    ensures Blocked(Apply(s, e)) && Apply(s, e).ca == s.ca
  {
    hide CoreOk, CommandOk;
    assert TornAuthority(s, s.disk) && DiskOk(s, s.disk);
    if e.CaApply? {
      OnlyActiveMoves(s, s.disk, e.request);
    }
  }

  lemma BlockedStep(s: State, e: Event)
    requires Inv(s) && Blocked(s) && Enabled(s, e)
    ensures Blocked(Apply(s, e)) && Apply(s, e).ca == s.ca
  {
    hide Inv, Blocked, Apply, Enabled;
    if e.WriteBundle? || e.KeepRetired? || e.KeepRetiredAgain? || e.WritePending? {
      BlockedWrite(s, e);
    } else if e.Activate? || e.ClearPending? {
      BlockedRename(s, e);
    } else {
      BlockedRest(s, e);
    }
  }

  lemma {:induction false} BlockedAlong(s: State, log: seq<Event>)
    requires Inv(s) && Blocked(s) && Run(s, log).Reached?
    ensures Blocked(Run(s, log).s) && Inv(Run(s, log).s)
  {
    if log != [] {
      var front := log[..|log| - 1];
      BlockedAlong(s, front);
      StepKeepsInv(Run(s, front).s, log[|log| - 1]);
      BlockedStep(Run(s, front).s, log[|log| - 1]);
    }
  }

  /** From a synced state between commands, some run of the commands ends with the active key equal
      to the authority's key if and only if that key has no torn pending envelope. */
  lemma SettlesExactlyWithoutTornAuthority(s: State)
    requires Inv(s) && s.command.Idle? && s.survivors == {s.disk}
    ensures (exists log :: Settled(s, log)) <==> !TornAuthority(s, s.disk)
  {
    if TornAuthority(s, s.disk) {
      forall log | Run(s, log).Reached?
        ensures !Settled(s, log)
      {
        BlockedAlong(s, log);
        assert TornAuthority(Run(s, log).s, Run(s, log).s.disk);
      }
    } else {
      var log := Settles(s);
    }
  }
}
