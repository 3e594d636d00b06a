/** The account commands as they run: each file operation, request and reply is one step of the
    rollover machine, and the authority may act between any two of them. What the surroundings do is a
    parameter: how each file operation ends, which answers arrive, and what the authority does meanwhile. */
module RolloverCommands {
  import opened RolloverMachine
  import opened RolloverSafety

  datatype Recovery = Rejected | Mismatch(outcome: Authority) | Interrupted | Recovered(outcome: Authority)

  /** Something the authority does of its own accord. */
  type AuthorityEvent = e: Event | e.CaApply? || e.CaDrop? witness CaDrop((0, 0))

  /** What the surroundings do during an execution: whether the files can be read, how each write ends, whether
      the reply arrives, and what the authority does in between. */
  datatype Execution = Execution(
    loaded: bool,
    copyRead: bool,
    retired: WriteOutcome,
    whileStaging: seq<AuthorityEvent>,
    pending: WriteOutcome,
    whileSent: seq<AuthorityEvent>,
    replied: bool,
    whileConfirmed: seq<AuthorityEvent>,
    renamed: bool,
    synced: bool)

  /** What the surroundings do during a recovery. `changed` is the one rename or removal, `verified` the last
      look at the active envelope. */
  datatype Attendance = Attendance(
    loaded: bool,
    beforeReads: seq<AuthorityEvent>,
    oldRead: bool,
    betweenReads: seq<AuthorityEvent>,
    newRead: bool,
    afterReads: seq<AuthorityEvent>,
    reread: bool,
    copyRead: bool,
    retired: WriteOutcome,
    changed: bool,
    synced: bool,
    verified: bool)

  /** What the authority knows: the key it holds, the requests on their way, and those it has carried out. */
  datatype Ledger = Ledger(ca: Key, inflight: set<(Key, Key)>, applied: set<(Key, Key)>)

  function LedgerOf(s: State): Ledger {
    Ledger(s.ca, s.inflight, s.applied)
  }

  function WithLedger(s: State, l: Ledger): State {
    s.(ca := l.ca, inflight := l.inflight, applied := l.applied)
  }

  function WithRequest(l: Ledger, r: (Key, Key)): Ledger {
    l.(inflight := l.inflight + {r})
  }

  /** The authority acts: a request is carried out if it has arrived and was made under the key it holds. */
  function Acted(l: Ledger, acts: seq<AuthorityEvent>): Ledger {
    if acts == [] then l
    else
      var before := Acted(l, acts[..|acts| - 1]);
      match acts[|acts| - 1]
      case CaApply(r) =>
        if r in before.inflight && before.ca == r.0 then Ledger(r.1, before.inflight - {r}, before.applied + {r}) else before
      case CaDrop(r) => before.(inflight := before.inflight - {r})
  }

  /** A request has been carried out since if and only if the authority did so while it was on its way and
      its old key was held. */
  lemma {:induction false} CarriedOutExactly(l: Ledger, acts: seq<AuthorityEvent>, r: (Key, Key))
    ensures r in Acted(l, acts).applied <==>
      r in l.applied || exists k :: CarriesOut(l, acts, k, r)
  {
    if acts != [] {
      var n := |acts| - 1;
      CarriedOutExactly(l, acts[..n], r);
      if k :| CarriesOut(l, acts[..n], k, r) {
        assert acts[..n][..k] == acts[..k];
        assert CarriesOut(l, acts, k, r);
      }
      if k :| CarriesOut(l, acts, k, r) && k < n {
        assert acts[..n][..k] == acts[..k];
        assert CarriesOut(l, acts[..n], k, r);
      }
      if r in Acted(l, acts).applied && r !in Acted(l, acts[..n]).applied {
        assert CarriesOut(l, acts, n, r);
      }
    }
  }

  predicate CarriesOut(l: Ledger, acts: seq<AuthorityEvent>, k: int, r: (Key, Key)) {
    0 <= k < |acts| && acts[k] == CaApply(r) && r in Acted(l, acts[..k]).inflight && Acted(l, acts[..k]).ca == r.0
  }

  /** The retired copy is there already, byte for byte, or none is there and its write succeeds. */
  predicate CopyKept(d: Disk, n: Key, read: bool, written: WriteOutcome) {
    var r := (d.active.key, n);
    if r in d.retired then read && d.retired[r] == Complete(d.active) else written.Written?
  }

  /** Both local files are put in place, and no earlier pending envelope is in the way. */
  predicate Stageable(d: Disk, n: Key, w: nat, env: Execution) {
    && env.loaded && LoadsPrepared(d, w, n) && CopyKept(d, n, env.copyRead, env.retired)
    && n !in d.pending && env.pending.Written?
  }

  function CopiedDisk(d: Disk, n: Key): Disk {
    d.(retired := d.retired[(d.active.key, n) := Complete(d.active)])
  }

  function StagedDisk(d: Disk, n: Key, w: nat, nonce: nat): Disk {
    CopiedDisk(d, n).(pending := d.pending[n := Complete(Envelope(n, w, nonce))])
  }

  /** What a write to a new name leaves: the whole file, nothing, or a torn or whole one that was not reported. */
  function Left(before: Disk, torn: Disk, whole: Disk, written: WriteOutcome): Disk {
    if written == Written || written == Failed(Whole) then whole else if written == Failed(Torn) then torn else before
  }

  /** What a loss of power may leave of it: a write that succeeds ends with a sync of the directory. */
  function MayBeLeft(survivors: set<Disk>, torn: Disk, whole: Disk, written: WriteOutcome): set<Disk> {
    if written == Written then {whole} else survivors + {torn, whole}
  }

  /** The ledger when the request leaves, and when its reply would arrive. */
  function AtSending(s: State, env: Execution): Ledger {
    Acted(LedgerOf(s), env.whileStaging)
  }

  function AtReply(s: State, n: Key, env: Execution): Ledger {
    Acted(WithRequest(AtSending(s, env), (s.disk.active.key, n)), env.whileSent)
  }

  /** The reply arrives and is a success: the authority carried the request out after it had left. */
  predicate Answered(s: State, n: Key, env: Execution) {
    var r := (s.disk.active.key, n);
    env.replied && r !in AtSending(s, env).applied && r in AtReply(s, n, env).applied
  }

  /** What a recovery makes of the directory. */
  function Resolved(d: Disk, outcome: Authority, n: Key): Disk
    requires n in d.pending && d.pending[n].Complete?
  {
    if outcome == NewAuthoritative then d.(active := d.pending[n].content, pending := d.pending - {n})
    else d.(pending := d.pending - {n})
  }

  lemma ActivationCompletes(d: Disk, n: Key, w: nat, nonce: nat)
    requires n !in d.pending
    ensures ActivatedDisk(StagedDisk(d, n, w, nonce), n) == CopiedDisk(d, n).(active := Envelope(n, w, nonce))
  {
    assert d.pending[n := Complete(Envelope(n, w, nonce))] - {n} == d.pending;
  }

  class AccountStore {
    ghost const origin: State
    ghost var log: seq<Event>
    var now: State

    /** The store has been reached by a run from a registered account. */
    ghost predicate Valid()
      reads this
    {
      Registered(origin) && Run(origin, log) == Reached(now)
    }

    /** A freshly registered account. */
    constructor (key: Key, wrap: nat, nonce: nat)
      ensures Valid() && now.command.Idle? && now.disk.active == Envelope(key, wrap, nonce) && now.ca == key
    {
      var d := Disk(Envelope(key, wrap, nonce), map[], map[], map[]);
      var s := State(wrap, d, {d}, key, {}, {}, {}, {}, key + 1, Idle);
      origin := s;
      now := s;
      log := [];
    }

    method Step(e: Event)
      requires Valid() && Enabled(now, e)
      modifies this
      ensures Valid() && now == Apply(old(now), e) && log == old(log) + [e]
    {
      now := Apply(now, e);
      log := log + [e];
      assert log[..|log| - 1] == old(log);
    }

    /** The authority carries out or loses requests on their way; what does not apply passes without effect. */
    method AuthorityActs(acts: seq<AuthorityEvent>)
      requires Valid()
      modifies this
      ensures Valid() && old(log) <= log
      ensures now == WithLedger(old(now), Acted(LedgerOf(old(now)), acts))
    {
      hide Run;
      for i := 0 to |acts|
        invariant Valid() && old(log) <= log
        invariant now == WithLedger(old(now), Acted(LedgerOf(old(now)), acts[..i]))
      {
        assert acts[..i + 1][..i] == acts[..i];
        if Enabled(now, acts[i]) {
          Step(acts[i]);
        } else if acts[i].CaDrop? {
          assert now.inflight - {acts[i].request} == now.inflight;
        }
      }
      assert acts[..|acts|] == acts;
    }

    /** The power fails: the command is lost, and one of the directories that may be left is left. */
    method PowerFails(left: Disk)
      requires Valid() && left in now.survivors
      modifies this
      ensures Valid() && now == old(now).(disk := left, survivors := {left}, command := Idle)
    {
      hide Run;
      Step(PowerLoss(left));
    }

    /** Generates a replacement key and persists it as a bundle bound to the active key. */
    method PrepareRollover(w: nat, generated: bool, written: WriteOutcome) returns (prepared: bool, n: Key)
      requires Valid() && now.command.Idle?
      modifies this
      ensures Valid() && now.command.Idle? && old(log) <= log
      ensures prepared <==> old(now.disk.active.wrap) == w && generated && written.Written?
      ensures prepared ==> LoadsPrepared(now.disk, w, n) && n !in old(now.disk.bundles) && now.survivors == {now.disk}
      ensures old(now.disk.active.wrap) != w || !generated ==> now == old(now)
      ensures old(now.disk.active.wrap) == w && generated ==>
        var d := old(now.disk); var torn := d.(bundles := d.bundles[n := Partial]);
        var whole := d.(bundles := d.bundles[n := Complete(Bundle(d.active.key, n, w))]);
        && now.disk == Left(d, torn, whole, written)
        && now.survivors == MayBeLeft(old(now.survivors), torn, whole, written)
      ensures now == old(now).(disk := now.disk, survivors := now.survivors, next := now.next)
    {
      hide Run;
      n := now.next;
      ReachableInv(origin, log);
      assert DiskOk(now, now.disk);
      if now.disk.active.wrap != w || !generated {
        return false, n;
      }
      Step(LoadForPrepare(w));
      Step(WriteBundle(written));
      prepared := written.Written?;
    }

    /** Makes sure of the retired copy of the active envelope; an existing one must equal it. */
    method KeepRetiredCopy(n: Key, w: nat, read: bool, written: WriteOutcome) returns (kept: bool)
      requires Valid() && now.command.Idle? && LoadsPrepared(now.disk, w, n)
      modifies this
      ensures Valid() && old(log) <= log
      ensures kept <==> CopyKept(old(now.disk), n, read, written)
      ensures now == old(now).(disk := now.disk, survivors := now.survivors, command := now.command)
      ensures now.disk.(retired := old(now.disk.retired)) == old(now.disk)
      ensures (old(now.disk.active.key), n) !in old(now.disk.retired) ==>
        var d := old(now.disk); var torn := d.(retired := d.retired[(d.active.key, n) := Partial]);
        && now.disk == Left(d, torn, CopiedDisk(d, n), written)
        && now.survivors == MayBeLeft(old(now.survivors), torn, CopiedDisk(d, n), written)
      ensures kept ==> now.disk == CopiedDisk(old(now.disk), n) && now.command == Secured(Bundle(now.disk.active.key, n, w))
      ensures (old(now.disk.active.key), n) in old(now.disk.retired) ==>
        now.disk == old(now.disk) && now.survivors == old(now.survivors)
      ensures !kept ==> now.command.Idle?
      ensures !RetiredAgrees(old(now.disk), old(now.disk.active), n) ==> !kept && now.disk == old(now.disk)
    {
      hide Run;
      Step(LoadForExecute(n, w));
      if (now.disk.active.key, n) in now.disk.retired && !read {
        Step(Abort);
        return false;
      }
      Step(KeepRetired(written));
      kept := now.command.Secured?;
      assert kept ==> now.disk.retired == old(now.disk.retired)[(now.disk.active.key, n) := Complete(now.disk.active)];
    }

    /** The local half of an execution: the retired copy, then the pending envelope. No request is
        sent when either cannot be put in place. */
    method StageReplacement(n: Key, w: nat, nonce: nat, env: Execution) returns (ready: bool)
      requires Valid() && now.command.Idle?
      modifies this
      ensures Valid() && old(log) <= log
      ensures ready <==> Stageable(old(now.disk), n, w, env)
      ensures ready ==> now.disk == StagedDisk(old(now.disk), n, w, nonce) && now.survivors == {now.disk}
      ensures var d := old(now.disk);
        env.loaded && LoadsPrepared(d, w, n) && CopyKept(d, n, env.copyRead, env.retired) && n !in d.pending ==>
          var copied := CopiedDisk(d, n); var torn := copied.(pending := d.pending[n := Partial]);
          var before := if (d.active.key, n) in d.retired then old(now.survivors) else {copied};
          && now.disk == Left(copied, torn, StagedDisk(d, n, w, nonce), env.pending)
          && now.survivors == MayBeLeft(before, torn, StagedDisk(d, n, w, nonce), env.pending)
      ensures ready ==> now.command == Staged(Bundle(now.disk.active.key, n, w))
      ensures ready ==> LedgerOf(now) == AtSending(old(now), env)
      ensures !ready ==> now.command.Idle?
      ensures !env.loaded || !LoadsPrepared(old(now.disk), w, n) ==> now == old(now)
      ensures now.disk.active == old(now.disk.active) && now.disk.bundles == old(now.disk.bundles)
      ensures now.disk.pending - {n} == old(now.disk.pending) - {n}
      ensures now.sent == old(now.sent) && now.unresolved == old(now.unresolved) && now.wrap == old(now.wrap) && now.next == old(now.next)
    {
      hide Run;
      if !env.loaded || !LoadsPrepared(now.disk, w, n) {
        return false;
      }
      var kept := KeepRetiredCopy(n, w, env.copyRead, env.retired);
      if !kept {
        return false;
      }
      AuthorityActs(env.whileStaging);
      if n in now.disk.pending {
        Step(Abort);
        return false;
      }
      Step(WritePending(nonce, env.pending));
      ready := now.command.Staged?;
    }

    /** The request, its reply, and the activation of the pending envelope. */
    method SubmitAndActivate(n: Key, env: Execution) returns (confirmed: bool)
      requires Valid() && now.command.Staged? && now.command.b.newKey == n && now.command.b.oldKey == now.disk.active.key
      modifies this
      ensures Valid() && now.command.Idle? && old(log) <= log
      ensures var r := (old(now.disk.active.key), n); var l := Acted(WithRequest(LedgerOf(old(now)), r), env.whileSent);
        var answered := env.replied && r !in old(now.applied) && r in l.applied;
        && (confirmed <==> answered && env.renamed && env.synced)
        && LedgerOf(now) == (if answered then Acted(l, env.whileConfirmed) else l)
        && (if answered && env.renamed
            then n in old(now.disk.pending) && old(now.disk.pending)[n].Complete? && now.disk == ActivatedDisk(old(now.disk), n)
              && now.disk.active.key == n && now.ca == n
            else now.disk == old(now.disk))
      ensures confirmed ==> now.survivors == {now.disk}
      ensures now == WithLedger(old(now), LedgerOf(now)).(disk := now.disk, survivors := now.survivors, command := Idle,
        sent := old(now.sent) + {(old(now.disk.active.key), n)}, unresolved := old(now.unresolved) + {n})
    {
      hide Run, Inv, Acted;
      var b := now.command.b;
      Step(Send(n));
      AuthorityActs(env.whileSent);
      if !env.replied || !now.command.live || (b.oldKey, b.newKey) !in now.applied {
        Step(Abort);
        return false;
      }
      Step(ReplySuccess);
      AuthorityActs(env.whileConfirmed);
      confirmed := ActivateConfirmed(n, env.renamed, env.synced);
    }

    /** Renames the pending envelope over the active one and syncs the directory. */
    method ActivateConfirmed(n: Key, renamed: bool, synced: bool) returns (durable: bool)
      requires Valid() && now.command.Confirmed? && now.command.b.newKey == n
      modifies this
      ensures Valid() && now.command.Idle? && old(log) <= log
      ensures durable <==> renamed && synced
      ensures n in old(now.disk.pending) && old(now.disk.pending)[n].Complete?
      ensures renamed ==> now.disk == ActivatedDisk(old(now.disk), n) && now.disk.active.key == n && now.ca == n
      ensures !renamed ==> now.disk == old(now.disk) && now.survivors == old(now.survivors)
      ensures renamed ==> now.survivors == if synced then {now.disk} else old(now.survivors) + {now.disk}
      ensures now == old(now).(disk := now.disk, survivors := now.survivors, command := Idle)
    {
      hide Run;
      ReachableInv(origin, log);
      assert DiskOk(now, now.disk);
      assert (now.disk.active.key, n) in now.sent;
      if !renamed {
        Step(Abort);
        return false;
      }
      Step(Activate(n));
      Step(if synced then SyncDirectory else Abort);
      return synced;
    }

    /** Replaces the account key: retired copy, pending envelope, request, then activation. It confirms exactly
        when the bundle loads, the retired copy is or can be put in place, the pending envelope is new and
        written, the authority carries out this very request and its reply arrives, and the rename and the
        directory sync succeed; then the new key is active, durably. */
    method ExecutePrepared(n: Key, w: nat, nonce: nat, env: Execution) returns (confirmed: bool)
      requires Valid() && now.command.Idle?
      modifies this
      ensures Valid() && now.command.Idle? && old(log) <= log
      ensures var s := old(now); var r := (s.disk.active.key, n);
        confirmed <==>
          && env.loaded && LoadsPrepared(s.disk, w, n) && n !in s.disk.pending && env.pending.Written?
          && (r in s.disk.retired ==> env.copyRead && s.disk.retired[r] == Complete(s.disk.active))
          && (r !in s.disk.retired ==> env.retired.Written?)
          && env.replied && r !in AtSending(s, env).applied && r in AtReply(s, n, env).applied
          && env.renamed && env.synced
      ensures confirmed ==>
        && now.ca == n && LoadsActive(now.disk, w, n) && n !in now.disk.pending
        && now.survivors == {now.disk} && HoldsRetired(now.disk, old(now.disk.active.key), n)
        && now.disk == CopiedDisk(old(now.disk), n).(active := Envelope(n, w, nonce))
      ensures now.disk.active ==
        if Stageable(old(now.disk), n, w, env) && Answered(old(now), n, env) && env.renamed then Envelope(n, w, nonce)
        else old(now.disk.active)
      ensures now.disk.active == old(now.disk.active) || (now.disk.active.key == n && now.ca == n)
      ensures now.sent == if Stageable(old(now.disk), n, w, env) then old(now.sent) + {(old(now.disk.active.key), n)} else old(now.sent)
      ensures Stageable(old(now.disk), n, w, env) && !(Answered(old(now), n, env) && env.renamed) ==>
        now.disk == StagedDisk(old(now.disk), n, w, nonce)
      ensures Stageable(old(now.disk), n, w, env) ==>
        var l := AtReply(old(now), n, env);
        LedgerOf(now) == if Answered(old(now), n, env) then Acted(l, env.whileConfirmed) else l
      ensures now.disk.bundles == old(now.disk.bundles) && now.disk.pending - {n} == old(now.disk.pending) - {n}
    {
      hide Run, Inv, Acted;
      var ready := StageReplacement(n, w, nonce, env);
      if !ready {
        return false;
      }
      ActiveOpens();
      confirmed := SubmitAndActivate(n, env);
      ActivationCompletes(old(now.disk), n, w, nonce);
    }

    lemma ActiveOpens()
      requires Valid()
      ensures now.disk.active.wrap == now.wrap
    {
      ReachableInv(origin, log);
      assert DiskOk(now, now.disk);
    }

    /** The two reads of a probe. An inconclusive answer ends the command. */
    method Probe(n: Key, w: nat, expected: Authority, env: Attendance) returns (answered: bool)
      requires Valid() && now.command.Idle? && LoadsProbeState(now.disk, w, n)
      requires expected == OldAuthoritative || expected == NewAuthoritative
      modifies this
      ensures Valid() && old(log) <= log
      ensures answered <==> env.oldRead && env.newRead
      ensures now == WithLedger(old(now), LedgerOf(now)).(command := now.command)
      ensures answered ==> now.command.Decided? && now.command.b.newKey == n && now.command.expected == expected
      ensures answered ==>
        var l := Acted(LedgerOf(old(now)), env.beforeReads);
        && LedgerOf(now) == Acted(l, env.betweenReads)
        && now.command.outcome == Outcome(l.ca == now.disk.active.key, now.ca == n)
      ensures !answered ==> now.command.Idle?
    {
      hide Run, Acted;
      Step(LoadForRecovery(n, w, expected));
      answered := ReadBoth(env);
    }

    /** The old key's read comes first; the authority may act before each of them. */
    method ReadBoth(env: Attendance) returns (answered: bool)
      requires Valid() && now.command.Probing?
      modifies this
      ensures Valid() && old(log) <= log
      ensures answered <==> env.oldRead && env.newRead
      ensures now == WithLedger(old(now), LedgerOf(now)).(command := now.command)
      ensures answered ==>
        var l := Acted(LedgerOf(old(now)), env.beforeReads); var b := old(now.command.b);
        && LedgerOf(now) == Acted(l, env.betweenReads)
        && now.command == Decided(b, old(now.command.expected), Outcome(l.ca == b.oldKey, now.ca == b.newKey), l.ca)
      ensures !answered ==> now.command.Idle?
    {
      hide Run, Acted, Outcome;
      AuthorityActs(env.beforeReads);
      if !env.oldRead {
        Step(Abort);
        return false;
      }
      Step(ReadOldKey);
      AuthorityActs(env.betweenReads);
      Step(if env.newRead then ReadNewKey else Abort);
      return env.newRead;
    }

    /** A pending envelope has the retired copy of the active one beside it. */
    lemma CopyIsThere(n: Key)
      requires Valid() && now.command.Decided? && now.command.b.newKey == n
      requires n in now.disk.pending && now.disk.pending[n].Complete?
      ensures now.command.b.oldKey == now.disk.active.key
      ensures (now.disk.active.key, n) in now.disk.retired
      ensures now.disk.retired[(now.disk.active.key, n)] == Complete(now.disk.active)
      ensures now.disk.active.wrap == now.wrap && now.disk.pending[n].content.wrap == now.wrap
      ensures now.disk.pending[n].content.key == n
      ensures now.command.outcome == NewAuthoritative ==> now.ca == n
    {
      hide Run;
      ReachableInv(origin, log);
      assert DiskOk(now, now.disk);
    }

    /** Makes sure of the retired copy, then clears or activates the pending envelope after a probe
        that matched the expectation. */
    method Resolve(n: Key, env: Attendance) returns (done: bool)
      requires Valid() && now.command.Decided? && now.command.b.newKey == n
      requires now.command.outcome == now.command.expected
      requires now.command.outcome == OldAuthoritative || now.command.outcome == NewAuthoritative
      requires n in now.disk.pending && now.disk.pending[n].Complete?
      modifies this
      ensures Valid() && now.command.Idle? && old(log) <= log
      ensures done <==> env.reread && env.copyRead && env.changed && env.synced && env.verified
      ensures now.disk == if env.reread && env.copyRead && env.changed then Resolved(old(now.disk), old(now.command.outcome), n) else old(now.disk)
      ensures old(now.command.outcome) == NewAuthoritative ==> now.ca == n
      ensures env.reread && env.copyRead && env.changed && env.synced ==> now.survivors == {now.disk}
      ensures now == old(now).(disk := now.disk, survivors := now.survivors, command := Idle, unresolved := now.unresolved)
      ensures var e := old(now.disk.pending)[n].content; e.key == n && e.wrap == now.wrap == old(now.disk.active.wrap)
    {
      hide Run, Inv, DiskOk, Resolved;
      CopyIsThere(n);
      if !env.reread {
        Step(Abort);
        return false;
      }
      Step(Recheck);
      if !env.copyRead {
        Step(Abort);
        return false;
      }
      Step(KeepRetiredAgain(env.retired));
      done := ChangePending(n, env.changed, env.synced);
      done := done && env.verified;
    }

    /** The one file operation of a recovery, and its directory sync. */
    method ChangePending(n: Key, changed: bool, synced: bool) returns (done: bool)
      requires Valid() && now.command.Resolving? && now.command.b.newKey == n
      requires now.command.outcome == OldAuthoritative || now.command.outcome == NewAuthoritative
      requires n in now.disk.pending && now.disk.pending[n].Complete?
      modifies this
      ensures Valid() && now.command.Idle? && old(log) <= log
      ensures done <==> changed && synced
      ensures now.disk == if changed then Resolved(old(now.disk), old(now.command.outcome), n) else old(now.disk)
      ensures now.survivors ==
        if !changed then old(now.survivors) else if synced then {now.disk} else old(now.survivors) + {now.disk}
      ensures now == old(now).(disk := now.disk, survivors := now.survivors, command := Idle, unresolved := now.unresolved)
    {
      hide Run;
      if !changed {
        Step(Abort);
        return false;
      }
      Step(if now.command.outcome == NewAuthoritative then Activate(n) else ClearPending(n));
      Step(if synced then SyncDirectory else Abort);
      return synced;
    }

    /** Resolves an uncertain rollover after a fresh probe that must match `expected`. It recovers exactly when
        the expectation is one of the two actionable ones, bundle and pending envelope load, both reads are
        answered and say what is expected, and no later operation fails. */
    method Recover(n: Key, w: nat, expected: Authority, env: Attendance) returns (r: Recovery)
      requires Valid() && now.command.Idle?
      modifies this
      ensures Valid() && now.command.Idle? && old(log) <= log
      ensures var s := old(now);
        var l := Acted(LedgerOf(s), env.beforeReads); var l' := Acted(l, env.betweenReads);
        var entered := env.loaded && (expected == OldAuthoritative || expected == NewAuthoritative) && LoadsProbeState(s.disk, w, n);
        var asExpected := if expected == OldAuthoritative then l.ca == s.disk.active.key && l'.ca != n
                          else l.ca != s.disk.active.key && l'.ca == n;
        && (r.Rejected? <==> !entered || !env.oldRead || !env.newRead)
        && (r.Mismatch? <==> entered && env.oldRead && env.newRead && !asExpected)
        && (r.Interrupted? <==>
              && entered && env.oldRead && env.newRead && asExpected
              && !(env.reread && env.copyRead && env.changed && env.synced && env.verified))
        && (r.Recovered? ==> r.outcome == expected)
        && (r.Mismatch? ==> r.outcome == Outcome(l.ca == s.disk.active.key, l'.ca == n) != expected)
        && (r.Recovered? || r.Interrupted? ==> LedgerOf(now) == Acted(l', env.afterReads))
      ensures r.Rejected? || r.Mismatch? ==> now.disk == old(now.disk) && now.survivors == old(now.survivors)
      ensures r.Recovered? ==> now.disk == Resolved(old(now.disk), expected, n) && now.survivors == {now.disk}
      ensures r == Recovered(NewAuthoritative) ==> now.ca == n && LoadsActive(now.disk, w, n) && n !in now.disk.pending
      ensures r == Recovered(OldAuthoritative) ==> now.disk.active == old(now.disk.active) && n !in now.disk.pending
      ensures r.Interrupted? ==>
        now.disk == if env.reread && env.copyRead && env.changed then Resolved(old(now.disk), expected, n) else old(now.disk)
      ensures now.disk.active == old(now.disk.active)
        || (expected == NewAuthoritative && now.disk.active.key == n && now.ca == n)
      ensures now.sent == old(now.sent) && now.disk.bundles == old(now.disk.bundles)
    {
      hide Run, Acted, Inv;
      if expected != OldAuthoritative && expected != NewAuthoritative {
        return Rejected;
      }
      if !env.loaded || !LoadsProbeState(now.disk, w, n) {
        return Rejected;
      }
      var answered := Probe(n, w, expected, env);
      if !answered {
        return Rejected;
      }
      var outcome := now.command.outcome;
      if outcome != expected {
        Step(Abort);
        return Mismatch(outcome);
      }
      AuthorityActs(env.afterReads);
      var done := Resolve(n, env);
      return if done then Recovered(outcome) else Interrupted;
    }
  }
}
