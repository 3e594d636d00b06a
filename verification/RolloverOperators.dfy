/** Several operators running the account commands at once over one directory, without any lock: how many
    of them the promise that no key is lost survives. */
module RolloverOperators {
  import opened RolloverMachine
  import opened RolloverSafety
  import opened RolloverTheorems

  /** The machine with one command for each operator; `shared` has none of its own. Once a torn envelope
      was renamed over the active one the site is broken: no command can load anything again. */
  datatype Site = Site(shared: State, commands: seq<Command>, broken: bool)

  /** A step of one operator's command, of the authority or of the power supply, or the rename of a
      pending envelope that another operator has left torn. */
  datatype Act = Do(i: nat, e: Event) | RenameTorn(i: nat, n: Key)

  /** The machine as operator `i` sees it. */
  function As(m: Site, i: nat): State
    requires i < |m.commands|
  {
    m.shared.(command := m.commands[i])
  }

  predicate CanRename(c: Command) {
    c.Confirmed? || (c.Resolving? && c.outcome.NewAuthoritative?)
  }

  predicate Can(m: Site, a: Act) {
    && !m.broken && a.i < |m.commands|
    && match a
       case Do(i, e) => Enabled(As(m, i), e)
       case RenameTorn(i, n) =>
         CanRename(m.commands[i]) && m.commands[i].b.newKey == n
         && n in m.shared.disk.pending && m.shared.disk.pending[n].Partial?
  }

  function Idlers(k: nat): seq<Command> {
    seq(k, i => Idle)
  }

  function Next(m: Site, a: Act): Site
    requires Can(m, a)
  {
    match a
    case Do(i, e) =>
      var s := Apply(As(m, i), e);
      Site(s.(command := Idle), if e.PowerLoss? then Idlers(|m.commands|) else m.commands[i := s.command], false)
    case RenameTorn(_, _) => m.(broken := true)
  }

  datatype Outcome = Stopped | At(m: Site)

  function Runs(m: Site, log: seq<Act>): Outcome {
    if log == [] then At(m)
    else
      var before := Runs(m, log[..|log| - 1]);
      var a := log[|log| - 1];
      if before.At? && Can(before.m, a) then At(Next(before.m, a)) else Stopped
  }

  ghost predicate Fresh(m: Site, k: nat) {
    Registered(m.shared) && m.commands == Idlers(k) && !m.broken
  }

  /** The key the authority recognises can be loaded. */
  predicate Loadable(m: Site) {
    && !m.broken
    && (LoadsActive(m.shared.disk, m.shared.wrap, m.shared.ca) || LoadsPrepared(m.shared.disk, m.shared.wrap, m.shared.ca))
  }

  predicate Tears(e: Event) {
    e.WritePending? && e.result == Failed(Torn)
  }

  predicate TearsPending(a: Act) {
    a.Do? && Tears(a.e)
  }

  predicate TornFree(log: seq<Act>) {
    forall a | a in log :: !TearsPending(a)
  }

  // ---- one operator is the machine ----

  /** A site with one operator runs as the machine does, event for event, and nothing torn is ever renamed. */
  lemma {:induction false} OneOperatorIsTheMachine(m0: Site, log: seq<Act>) returns (events: seq<Event>)
    requires Fresh(m0, 1) && Runs(m0, log).At?
    ensures var m := Runs(m0, log).m; !m.broken && |m.commands| == 1 && Run(m0.shared, events) == Reached(As(m, 0))
    ensures log == Acts(0, events)
  {
    if log == [] {
      events := [];
      assert As(m0, 0) == m0.shared;
    } else {
      var n := |log| - 1;
      events := OneOperatorIsTheMachine(m0, log[..n]);
      var m, a := Runs(m0, log[..n]).m, log[n];
      ReachableInv(m0.shared, events);
      OneOperatorStep(m, a);
      var s;
      events, s := Then(m0.shared, events, As(m, 0), a.e);
    }
  }

  lemma OneOperatorStep(m: Site, a: Act)
    requires |m.commands| == 1 && Inv(As(m, 0)) && Can(m, a)
    ensures a.Do? && Enabled(As(m, 0), a.e) && As(Next(m, a), 0) == Apply(As(m, 0), a.e)
    ensures !Next(m, a).broken && |Next(m, a).commands| == 1
  {
    if a.Do? && a.e.PowerLoss? {
      assert Idlers(1)[0] == Idle;
    }
  }

  // ---- building runs of several operators ----

  function Acts(i: nat, log: seq<Event>): (r: seq<Act>)
    ensures |r| == |log|
  {
    seq(|log|, k requires 0 <= k < |log| => Do(i, log[k]))
  }

  predicate NoPowerLoss(log: seq<Event>) {
    forall e | e in log :: !e.PowerLoss?
  }

  predicate NoTears(log: seq<Event>) {
    forall e | e in log :: !Tears(e)
  }

  lemma TornFreeTogether(a: seq<Act>, i: nat, events: seq<Event>)
    requires TornFree(a) && NoTears(events)
    ensures TornFree(a + Acts(i, events))
  {
    forall x | x in a + Acts(i, events)
      ensures !TearsPending(x)
    {
      if x !in a {
        var j :| 0 <= j < |events| && Acts(i, events)[j] == x;
        assert events[j] in events;
      }
    }
  }

  lemma {:induction false} RunsAppend(m: Site, a: seq<Act>, b: seq<Act>)
    ensures Runs(m, a).At? ==> Runs(m, a + b) == Runs(Runs(m, a).m, b)
    decreases |b|
  {
    if b == [] {
      assert a + b == a;
    } else {
      RunsAppend(m, a, b[..|b| - 1]);
      assert (a + b)[..|a + b| - 1] == a + b[..|b| - 1];
    }
  }

  /** Operator `i` runs on alone for a while. */
  lemma {:induction false} RunsAlone(m: Site, i: nat, log: seq<Event>)
    requires !m.broken && i < |m.commands| && m.shared.command.Idle?
    requires Run(As(m, i), log).Reached? && NoPowerLoss(log)
    ensures var t := Run(As(m, i), log).s;
      Runs(m, Acts(i, log)) == At(Site(t.(command := Idle), m.commands[i := t.command], false))
    decreases |log|
  {
    if log == [] {
      assert m.commands[i := m.commands[i]] == m.commands;
    } else {
      var n := |log| - 1;
      RunsAlone(m, i, log[..n]);
      assert Acts(i, log)[..n] == Acts(i, log[..n]);
      var t := Run(As(m, i), log[..n]).s;
      assert log[n] in log;
      assert As(Runs(m, Acts(i, log[..n])).m, i) == t;
    }
  }

  lemma NothingDoneYet(m: Site)
    ensures Runs(m, []) == At(m)
  {
  }

  /** The run so far, followed by operator `i` alone. */
  lemma Continue(m0: Site, before: seq<Act>, m: Site, i: nat, log: seq<Event>) returns (after: seq<Act>, next: Site)
    requires Runs(m0, before) == At(m) && !m.broken && i < |m.commands| && m.shared.command.Idle?
    requires Run(As(m, i), log).Reached? && NoPowerLoss(log)
    ensures after == before + Acts(i, log) && Runs(m0, after) == At(next)
    ensures var t := Run(As(m, i), log).s; next == Site(t.(command := Idle), m.commands[i := t.command], false)
    ensures TornFree(before) && NoTears(log) ==> TornFree(after)
  {
    if TornFree(before) && NoTears(log) {
      TornFreeTogether(before, i, log);
    }
    RunsAlone(m, i, log);
    RunsAppend(m0, before, Acts(i, log));
    after := before + Acts(i, log);
    var t := Run(As(m, i), log).s;
    next := Site(t.(command := Idle), m.commands[i := t.command], false);
  }
}
