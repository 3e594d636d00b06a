/** What every reachable state of the rollover keeps, and the theorems that follow. */
module RolloverSafety {
  import opened RolloverMachine

  // ---- the invariant ----

  ghost predicate HoldsBundle(d: Disk, o: Key, n: Key, w: nat) {
    n in d.bundles && d.bundles[n] == Complete(Bundle(o, n, w)) && o < n
  }

  ghost predicate HoldsRetired(d: Disk, o: Key, n: Key) {
    (o, n) in d.retired && d.retired[(o, n)].Complete?
  }

  /** Bundles are bound forward: a replacement key is younger than the key it replaces. */
  ghost predicate BundlesOk(s: State, d: Disk) {
    forall n | n in d.bundles ::
      n < s.next && (d.bundles[n].Complete? ==> HoldsBundle(d, d.bundles[n].content.oldKey, n, s.wrap))
  }

  /** A request is backed by its bundle and by a complete retired copy, and the active key never
      falls behind the key it was sent under. */
  ghost predicate SentOk(s: State, d: Disk) {
    forall r | r in s.sent :: HoldsBundle(d, r.0, r.1, s.wrap) && r.0 <= d.active.key && HoldsRetired(d, r.0, r.1)
  }

  /** The authority holds the active key, or the outcome of one request sent under it. */
  ghost predicate CaOk(s: State, d: Disk) {
    && (d.active.key == s.ca || (d.active.key, s.ca) in s.applied)
    && forall r | r in s.applied :: r.0 == d.active.key ==> r.1 == s.ca
  }

  ghost predicate RetiredOk(d: Disk) {
    forall r | r in d.retired ::
      r.0 <= d.active.key && (r.0 == d.active.key && d.retired[r].Complete? ==> d.retired[r].content == d.active)
  }

  /** A pending envelope, torn or whole, has its bundle and its retired copy beside it. */
  ghost predicate PendingOk(s: State, d: Disk) {
    forall n | n in d.pending ::
      && n in d.bundles && d.bundles[n].Complete?
      && d.bundles[n].content.oldKey <= d.active.key
      && HoldsRetired(d, d.bundles[n].content.oldKey, n)
      && (d.pending[n].Complete? ==> d.pending[n].content.key == n && d.pending[n].content.wrap == s.wrap)
  }

  /** An active key that came from a bundle was activated after the authority had carried out its request. */
  ghost predicate ActiveOk(s: State, d: Disk) {
    d.active.key in d.bundles && d.bundles[d.active.key].Complete? ==>
      (d.bundles[d.active.key].content.oldKey, d.active.key) in s.applied
  }

  ghost predicate UnresolvedOk(s: State, d: Disk) {
    forall n | n in s.unresolved :: n in d.pending || n <= d.active.key
  }

  /** What a directory keeps whoever works on it. */
  ghost predicate CoreOk(s: State, d: Disk) {
    && d.active.wrap == s.wrap && d.active.key < s.next
    && BundlesOk(s, d) && SentOk(s, d) && CaOk(s, d)
    && RetiredOk(d) && PendingOk(s, d) && ActiveOk(s, d)
  }

  ghost predicate DiskOk(s: State, d: Disk) {
    CoreOk(s, d) && UnresolvedOk(s, d)
  }

  /** What a running command knows about the disk and the authority. */
  ghost predicate CommandOk(s: State) {
    match s.command
    case Idle => true
    case Changed(b) => true
    case Preparing(from, w) => from == s.disk.active.key && w == s.wrap
    case Loaded(b, copy) => Bound(s, b) && copy == s.disk.active
    case Secured(b) => Bound(s, b) && KeptRetired(s, b)
    case Staged(b) => Bound(s, b) && KeptRetired(s, b) && HasPending(s, b) && b.newKey !in s.unresolved
    case Requested(b, _) => Bound(s, b) && HasPending(s, b) && (b.oldKey, b.newKey) in s.sent
    case Confirmed(b) => Bound(s, b) && HasPending(s, b) && (b.oldKey, b.newKey) in s.applied
    case Probing(b, _) => Bound(s, b)
    case ProbedOld(b, _, oldRecognized, seen) =>
      Bound(s, b) && oldRecognized == (seen == b.oldKey) && (seen != b.oldKey ==> s.ca == seen)
    case Decided(b, _, outcome, seen) => Bound(s, b) && OutcomeOk(s, b, outcome, seen)
    case Checked(b, outcome, copy) => Bound(s, b) && copy == s.disk.active && ResolvableOk(s, b, outcome)
    case Resolving(b, outcome) => Bound(s, b) && ResolvableOk(s, b, outcome)
  }

  ghost predicate Bound(s: State, b: Bundle) {
    HoldsBundle(s.disk, b.oldKey, b.newKey, s.wrap) && b.wrap == s.wrap && b.oldKey == s.disk.active.key
  }

  ghost predicate KeptRetired(s: State, b: Bundle) {
    (b.oldKey, b.newKey) in s.disk.retired && s.disk.retired[(b.oldKey, b.newKey)] == Complete(s.disk.active)
  }

  ghost predicate HasPending(s: State, b: Bundle) {
    s.survivors == {s.disk} && b.newKey in s.disk.pending && s.disk.pending[b.newKey].Complete?
  }

  ghost predicate OutcomeOk(s: State, b: Bundle, outcome: Authority, seen: Key) {
    && (outcome.OldAuthoritative? ==> seen == b.oldKey)
    && (outcome.NewAuthoritative? ==> seen == s.ca == b.newKey)
    && (outcome.BothRecognized? ==> seen == b.oldKey && s.ca == b.newKey)
    && (outcome.NeitherRecognized? ==> seen == s.ca && seen != b.oldKey && seen != b.newKey)
  }

  ghost predicate ResolvableOk(s: State, b: Bundle, outcome: Authority) {
    && b.newKey in s.disk.pending && s.disk.pending[b.newKey].Complete?
    && (outcome.NewAuthoritative? ==> s.ca == b.newKey)
  }

  ghost predicate Inv(s: State) {
    && s.disk in s.survivors
    && s.inflight <= s.sent && s.applied <= s.sent
    && (forall d | d in s.survivors :: DiskOk(s, d))
    && CommandOk(s)
  }

  lemma InitialInv(s: State)
    requires Registered(s)
    ensures Inv(s)
  {
  }

  /** A reachable authority is never behind the active key of a directory. */
  lemma AuthorityNotBehind(s: State, d: Disk)
    requires CoreOk(s, d) && s.applied <= s.sent
    ensures d.active.key <= s.ca
  {
    var a := (d.active.key, s.ca);
    assert a in s.applied ==> a in s.sent;
  }

  /** The key held by the authority can only move while it equals the active key. */
  lemma OnlyActiveMoves(s: State, d: Disk, r: (Key, Key))
    requires CoreOk(s, d) && r in s.sent && s.applied <= s.sent && s.ca == r.0
    ensures d.active.key == r.0 < r.1
    ensures forall a | a in s.applied :: a.0 != d.active.key
  {
    AuthorityNotBehind(s, d);
    forall a | a in s.applied
      ensures a.0 != d.active.key
    {
      assert a in s.sent && a.0 < a.1;
    }
  }

  /** The authority carries out a request: every directory still has the key it was sent under. */
  lemma CaDisk(s: State, d: Disk, r: (Key, Key))
    requires CoreOk(s, d) && r in s.sent && s.applied <= s.sent && s.ca == r.0
    ensures CoreOk(s.(ca := r.1, applied := s.applied + {r}), d)
    ensures d.active.key == r.0
  {
    OnlyActiveMoves(s, d, r);
  }

  lemma CaStep(s: State, r: (Key, Key))
    requires Inv(s) && Enabled(s, CaApply(r))
    ensures Inv(Apply(s, CaApply(r)))
  {
    var s' := Apply(s, CaApply(r));
    forall d | d in s'.survivors
      ensures DiskOk(s', d)
    {
      CaDisk(s, d, r);
      SameLedger(s.(ca := r.1, applied := s.applied + {r}), s', d);
    }
    CaDisk(s, s.disk, r);
  }

  /** Writing a bundle for a freshly generated key, torn or whole. */
  lemma BundleDisk(s: State, from: Key, f: File<Bundle>)
    requires CoreOk(s, s.disk) && s.applied <= s.sent && s.next !in s.disk.bundles && from < s.next
    requires f == Partial || f == Complete(Bundle(from, s.next, s.wrap))
    ensures CoreOk(s.(next := s.next + 1), s.disk.(bundles := s.disk.bundles[s.next := f]))
  {
    var d' := s.disk.(bundles := s.disk.bundles[s.next := f]);
    forall r | r in s.sent
      ensures HoldsBundle(d', r.0, r.1, s.wrap)
    {
      assert HoldsBundle(s.disk, r.0, r.1, s.wrap);
    }
  }

  lemma NextKey(s: State, d: Disk)
    requires CoreOk(s, d)
    ensures CoreOk(s.(next := s.next + 1), d)
  {
  }

  lemma BundleStep(s: State, result: WriteOutcome)
    requires Inv(s) && Enabled(s, WriteBundle(result))
    ensures Inv(Apply(s, WriteBundle(result)))
  {
    hide BundlesOk, SentOk, CaOk, RetiredOk, PendingOk, ActiveOk;
    var s' := Apply(s, WriteBundle(result));
    assert DiskOk(s, s.disk);
    forall d | d in s'.survivors
      ensures DiskOk(s', d)
    {
      if d in s.survivors {
        assert DiskOk(s, d);
        NextKey(s, d);
      } else {
        BundleDisk(s, s.command.from, Partial);
        BundleDisk(s, s.command.from, Complete(Bundle(s.command.from, s.next, s.command.w)));
      }
      SameLedger(s.(next := s.next + 1), s', d);
    }
  }

  /** Writing the retired copy of an envelope as it was read, torn or whole. */
  lemma RetiredDisk(s: State, d: Disk, e: Envelope, n: Key, f: File<Envelope>)
    requires CoreOk(s, d) && (e.key, n) !in d.retired
    requires e.key <= d.active.key && (e.key == d.active.key ==> e == d.active)
    requires f == Partial || f == Complete(e)
    ensures CoreOk(s, d.(retired := d.retired[(e.key, n) := f]))
  {
    var d' := d.(retired := d.retired[(e.key, n) := f]);
    assert SentOk(s, d') by {
      forall r | r in s.sent
        ensures HoldsBundle(d', r.0, r.1, s.wrap) && r.0 <= d'.active.key && HoldsRetired(d', r.0, r.1)
      {
        assert HoldsRetired(d, r.0, r.1);
      }
    }
  }

  /** Writing the pending envelope under a free name, torn or whole. */
  lemma PendingDisk(s: State, d: Disk, o: Key, n: Key, f: File<Envelope>)
    requires CoreOk(s, d) && n !in d.pending
    requires HoldsBundle(d, o, n, s.wrap) && HoldsRetired(d, o, n) && o <= d.active.key
    requires f.Complete? ==> f.content.key == n && f.content.wrap == s.wrap
    ensures CoreOk(s, d.(pending := d.pending[n := f]))
  {
    var d' := d.(pending := d.pending[n := f]);
    assert SentOk(s, d') by {
      forall r | r in s.sent
        ensures HoldsBundle(d', r.0, r.1, s.wrap) && r.0 <= d'.active.key && HoldsRetired(d', r.0, r.1)
      {
        assert HoldsRetired(d, r.0, r.1);
      }
    }
  }

  /** Whether a directory is in order does not depend on the commands, the survivors, what is on its way
      or what is unresolved. */
  lemma SameLedger(s: State, s': State, d: Disk)
    requires CoreOk(s, d)
    requires s'.(disk := s.disk, survivors := s.survivors, command := s.command, inflight := s.inflight,
                 unresolved := s.unresolved) == s
    ensures CoreOk(s', d)
  {
  }

  /** The directories after a retired copy was made sure of. */
  lemma RetiredDisks(s: State, e: Envelope, n: Key, result: WriteOutcome, then_: Command, d: Disk)
    requires CoreOk(s, s.disk) && (d in s.survivors ==> CoreOk(s, d))
    requires e.key <= s.disk.active.key && (e.key == s.disk.active.key ==> e == s.disk.active)
    requires d in AfterRetired(s, e, n, result, then_).survivors
    ensures CoreOk(AfterRetired(s, e, n, result, then_), d)
    ensures d !in s.survivors ==> d.(retired := s.disk.retired) == s.disk
  {
    hide CoreOk, RetiredAgrees;
    if d !in s.survivors {
      RetiredDisk(s, s.disk, e, n, Partial);
      RetiredDisk(s, s.disk, e, n, Complete(e));
    }
    SameLedger(s, AfterRetired(s, e, n, result, then_), d);
  }

  lemma RetiredStep(s: State, n: Key, result: WriteOutcome, then_: Command)
    requires Inv(s) && HoldsBundle(s.disk, s.disk.active.key, n, s.wrap)
    ensures var s' := AfterRetired(s, s.disk.active, n, result, then_);
      && s'.disk in s'.survivors
      && (forall d | d in s'.survivors :: DiskOk(s', d))
      && (s'.command == Idle || (s'.command == then_ && s'.disk.(retired := s.disk.retired) == s.disk
            && KeptRetired(s', Bundle(s.disk.active.key, n, s.wrap))))
  {
    hide BundlesOk, SentOk, CaOk, RetiredOk, PendingOk, ActiveOk;
    var s' := AfterRetired(s, s.disk.active, n, result, then_);
    assert DiskOk(s, s.disk);
    forall d | d in s'.survivors
      ensures DiskOk(s', d)
    {
      assert d in s.survivors ==> DiskOk(s, d);
      RetiredDisks(s, s.disk.active, n, result, then_, d);
    }
  }

  lemma PendingStep(s: State, nonce: nat, result: WriteOutcome)
    requires Inv(s) && Enabled(s, WritePending(nonce, result))
    ensures Inv(Apply(s, WritePending(nonce, result)))
  {
    hide CoreOk;
    var s' := Apply(s, WritePending(nonce, result));
    var n := s.command.b.newKey;
    assert DiskOk(s, s.disk);
    forall d | d in s'.survivors
      ensures DiskOk(s', d)
    {
      if d in s.survivors {
        assert DiskOk(s, d);
      } else {
        PendingDisk(s, s.disk, s.command.b.oldKey, n, Partial);
        PendingDisk(s, s.disk, s.command.b.oldKey, n, Complete(Envelope(n, s.command.b.wrap, nonce)));
      }
      SameLedger(s, s', d);
    }
  }

  /** Sending a request that its bundle and its retired copy back. */
  lemma SentDisk(s: State, d: Disk, r: (Key, Key))
    requires CoreOk(s, d) && HoldsBundle(d, r.0, r.1, s.wrap) && HoldsRetired(d, r.0, r.1) && r.0 <= d.active.key
    ensures CoreOk(s.(sent := s.sent + {r}), d)
  {
  }

  lemma SendStep(s: State, n: Key)
    requires Inv(s) && Enabled(s, Send(n))
    ensures Inv(Apply(s, Send(n)))
  {
    var s' := Apply(s, Send(n));
    var r := (s.command.b.oldKey, n);
    assert DiskOk(s, s.disk);
    SentDisk(s, s.disk, r);
    SameLedger(s.(sent := s.sent + {r}), s', s.disk);
  }

  /** A pending envelope over the active one, after its request was carried out. */
  lemma ActivatedDiskOk(s: State, d: Disk, o: Key, n: Key)
    requires CoreOk(s, d) && s.applied <= s.sent && (o, n) in s.applied && d.active.key == o
    requires n in d.pending && d.pending[n].Complete?
    ensures CoreOk(s, ActivatedDisk(d, n)) && ActivatedDisk(d, n).active.key == n && o < n && s.ca == n
  {
    assert (o, n) in s.sent;
    var d' := ActivatedDisk(d, n);
    forall r | r in s.sent
      ensures HoldsBundle(d', r.0, r.1, s.wrap) && r.0 <= d'.active.key && HoldsRetired(d', r.0, r.1)
    {
      assert HoldsRetired(d, r.0, r.1);
    }
    forall r | r in s.applied
      ensures r.0 != n
    {
      assert r in s.sent;
    }
  }

  lemma ActivateStep(s: State, n: Key)
    requires Inv(s) && Enabled(s, Activate(n))
    ensures Inv(Apply(s, Activate(n)))
    ensures s.ca == n
  {
    var s' := Apply(s, Activate(n));
    var o := s.disk.active.key;
    assert DiskOk(s, s.disk);
    assert (o, n) in s.applied;
    ActivatedDiskOk(s, s.disk, o, n);
    forall d | d in s'.survivors
      ensures DiskOk(s', d)
    {
      assert d in s.survivors ==> DiskOk(s, d);
      SameLedger(s, s', d);
    }
  }

  lemma ClearedDisk(s: State, d: Disk, n: Key)
    requires CoreOk(s, d)
    ensures CoreOk(s, d.(pending := d.pending - {n}))
  {
  }

  lemma ClearStep(s: State, n: Key)
    requires Inv(s) && Enabled(s, ClearPending(n))
    ensures Inv(Apply(s, ClearPending(n)))
  {
    hide CoreOk;
    var s' := Apply(s, ClearPending(n));
    assert DiskOk(s, s.disk);
    ClearedDisk(s, s.disk, n);
    forall d | d in s'.survivors
      ensures DiskOk(s', d)
    {
      assert d in s.survivors ==> DiskOk(s, d);
      SameLedger(s, s', d);
    }
  }

  lemma LoadStep(s: State, e: Event)
    requires Inv(s) && Enabled(s, e) && (e.LoadForPrepare? || e.LoadForExecute? || e.LoadForRecovery?)
    ensures Inv(Apply(s, e))
  {
    assert DiskOk(s, s.disk);
    forall d | d in s.survivors
      ensures DiskOk(Apply(s, e), d)
    {
      assert DiskOk(s, d);
    }
  }

  /** Steps that change no file and no key. */
  lemma QuietStep(s: State, e: Event)
    requires Inv(s) && Enabled(s, e) && !e.LoadForPrepare? && !e.LoadForExecute? && !e.LoadForRecovery?
    requires !e.WriteBundle? && !e.KeepRetired? && !e.KeepRetiredAgain? && !e.WritePending? && !e.Send?
    requires !e.Activate? && !e.ClearPending? && !e.CaApply?
    ensures Inv(Apply(s, e))
  {
    hide CoreOk;
    var s' := Apply(s, e);
    assert DiskOk(s, s.disk);
    forall d | d in s'.survivors
      ensures DiskOk(s', d)
    {
      assert DiskOk(s, d);
      SameLedger(s, s', d);
    }
  }

  /** The retired copy, before a request and again in a recovery. */
  lemma CopyStep(s: State, e: Event)
    requires Inv(s) && Enabled(s, e) && (e.KeepRetired? || e.KeepRetiredAgain?)
    ensures Inv(Apply(s, e))
  {
    hide DiskOk, KeptRetired;
    match e
    case KeepRetired(result) => RetiredStep(s, s.command.b.newKey, result, Secured(s.command.b));
    case KeepRetiredAgain(result) =>
      RetiredStep(s, s.command.b.newKey, result, Resolving(s.command.b, s.command.outcome));
  }

  lemma StepKeepsInv(s: State, e: Event)
    requires Inv(s) && Enabled(s, e)
    ensures Inv(Apply(s, e))
  {
    hide Inv, Apply, Enabled;
    match e
    case WriteBundle(result) => BundleStep(s, result);
    case KeepRetired(_) => CopyStep(s, e);
    case KeepRetiredAgain(_) => CopyStep(s, e);
    case WritePending(nonce, result) => PendingStep(s, nonce, result);
    case Send(n) => SendStep(s, n);
    case Activate(n) => ActivateStep(s, n);
    case ClearPending(n) => ClearStep(s, n);
    case CaApply(r) => CaStep(s, r);
    case LoadForPrepare(_) => LoadStep(s, e);
    case LoadForExecute(_, _) => LoadStep(s, e);
    case LoadForRecovery(_, _, _) => LoadStep(s, e);
    case _ => QuietStep(s, e);
  }

  lemma {:induction false} RunKeepsInv(s: State, log: seq<Event>)
    requires Inv(s) && Run(s, log).Reached?
    ensures Inv(Run(s, log).s)
  {
    if log != [] {
      var front := log[..|log| - 1];
      RunKeepsInv(s, front);
      StepKeepsInv(Run(s, front).s, log[|log| - 1]);
    }
  }

  /** Every state any run reaches from a registered account keeps the invariant. */
  lemma ReachableInv(s0: State, log: seq<Event>)
    requires Registered(s0) && Run(s0, log).Reached?
    ensures Inv(Run(s0, log).s)
  {
    InitialInv(s0);
    RunKeepsInv(s0, log);
  }
}
