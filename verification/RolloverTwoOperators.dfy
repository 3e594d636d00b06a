/** Two operators at once never lose a key, as long as no pending envelope is left torn. */
module RolloverTwoOperators {
  import opened RolloverMachine
  import opened RolloverSafety
  import opened RolloverOperators

  // ---- the invariant ----

  /** The command has loaded a replacement and not yet dealt with it. */
  predicate Carries(c: Command) {
    !c.Idle? && !c.Preparing? && !c.Changed?
  }

  /** The replacement's bundle is on disk, and the active key has not fallen behind the one it was loaded under. */
  ghost predicate Known(s: State, b: Bundle) {
    HoldsBundle(s.disk, b.oldKey, b.newKey, s.wrap) && b.wrap == s.wrap && b.oldKey <= s.disk.active.key
  }

  ghost predicate CopyOk(s: State, b: Bundle, copy: Envelope) {
    copy.key == b.oldKey && (s.disk.active.key == b.oldKey ==> s.disk.active == copy)
  }

  ghost predicate Backed(s: State, b: Bundle) {
    forall d | d in s.survivors ::
      HoldsBundle(d, b.oldKey, b.newKey, s.wrap) && HoldsRetired(d, b.oldKey, b.newKey) && b.oldKey <= d.active.key
  }

  predicate NotTorn(s: State, b: Bundle) {
    b.newKey in s.disk.pending ==> s.disk.pending[b.newKey].Complete?
  }

  /** The request was carried out, and its pending envelope, if there still is one, has not been activated. */
  predicate MayRename(s: State, b: Bundle) {
    (b.oldKey, b.newKey) in s.applied && (b.newKey in s.disk.pending ==> s.disk.active.key == b.oldKey)
  }

  ghost predicate OperatorOk(s: State, c: Command) {
    && (Carries(c) ==> Known(s, c.b))
    && match c
       case Idle => true
       case Changed(b) => true
       case Preparing(from, w) => from <= s.disk.active.key && w == s.wrap
       case Loaded(b, copy) => CopyOk(s, b, copy)
       case Secured(b) => HoldsRetired(s.disk, b.oldKey, b.newKey)
       case Staged(b) => Backed(s, b) && NotTorn(s, b)
       case Requested(b, live) =>
         NotTorn(s, b) && (live && (b.oldKey, b.newKey) in s.applied ==> MayRename(s, b))
       case Confirmed(b) => NotTorn(s, b) && MayRename(s, b)
       case Probing(b, _) => NotTorn(s, b)
       case ProbedOld(b, _, oldRecognized, seen) =>
         NotTorn(s, b) && oldRecognized == (seen == b.oldKey)
       case Decided(b, _, outcome, _) =>
         NotTorn(s, b) && (outcome.NewAuthoritative? ==> (b.oldKey, b.newKey) in s.applied)
       case Checked(b, outcome, copy) =>
         NotTorn(s, b) && CopyOk(s, b, copy) && (outcome.NewAuthoritative? ==> MayRename(s, b))
       case Resolving(b, outcome) => NotTorn(s, b) && (outcome.NewAuthoritative? ==> MayRename(s, b))
  }

  /** Two replacements for one key are only carried while that key is active: whoever activates one of
      them has dealt with it, and nobody can load the other any more. */
  predicate PairOk(s: State, c: Command, d: Command) {
    Carries(c) && Carries(d) && c.b.oldKey == d.b.oldKey ==> s.disk.active.key == c.b.oldKey
  }

  ghost predicate SharedOk(s: State) {
    && s.disk in s.survivors && s.inflight <= s.sent && s.applied <= s.sent
    && forall d | d in s.survivors :: CoreOk(s, d)
  }

  ghost predicate SiteOk(m: Site) {
    && !m.broken && |m.commands| <= 2
    && SharedOk(m.shared)
    && (forall i | 0 <= i < |m.commands| :: OperatorOk(m.shared, m.commands[i]))
    && forall i, j | 0 <= i < |m.commands| && 0 <= j < |m.commands| && i != j ::
         PairOk(m.shared, m.commands[i], m.commands[j])
  }

  // ---- what a step does to the shared state ----

  lemma SharedWrite(s: State, e: Event)
    requires SharedOk(s) && OperatorOk(s, s.command) && Enabled(s, e)
    requires e.WriteBundle? || e.KeepRetired? || e.KeepRetiredAgain? || e.WritePending?
    ensures SharedOk(Apply(s, e))
  {
    hide CoreOk;
    var s' := Apply(s, e);
    assert CoreOk(s, s.disk);
    forall d | d in s'.survivors
      ensures CoreOk(s', d)
    {
      WrittenDisk(s, e, d);
    }
  }

  lemma WrittenDisk(s: State, e: Event, d: Disk)
    requires SharedOk(s) && OperatorOk(s, s.command) && Enabled(s, e)
    requires e.WriteBundle? || e.KeepRetired? || e.KeepRetiredAgain? || e.WritePending?
    requires d in Apply(s, e).survivors
    ensures CoreOk(Apply(s, e), d)
  {
    assert CoreOk(s, s.disk);
    match e
    case WriteBundle(result) => WrittenBundle(s, result, d);
    case KeepRetired(result) =>
      RetiredDisks(s, s.command.copy, s.command.b.newKey, result, Secured(s.command.b), d);
    case KeepRetiredAgain(result) =>
      RetiredDisks(s, s.command.copy, s.command.b.newKey, result, Resolving(s.command.b, s.command.outcome), d);
    case WritePending(nonce, result) => WrittenPending(s, nonce, result, d);
  }

  lemma WrittenBundle(s: State, result: WriteOutcome, d: Disk)
    requires SharedOk(s) && OperatorOk(s, s.command) && s.command.Preparing?
    requires d in Apply(s, WriteBundle(result)).survivors
    ensures CoreOk(Apply(s, WriteBundle(result)), d)
  {
    assert CoreOk(s, s.disk);
    assert s.command.from < s.next;
    if d in s.survivors {
      NextKey(s, d);
    } else {
      hide CoreOk;
      BundleDisk(s, s.command.from, Partial);
      BundleDisk(s, s.command.from, Complete(Bundle(s.command.from, s.next, s.command.w)));
    }
    SameLedger(s.(next := s.next + 1), Apply(s, WriteBundle(result)), d);
  }

  lemma WrittenPending(s: State, nonce: nat, result: WriteOutcome, d: Disk)
    requires SharedOk(s) && OperatorOk(s, s.command) && Enabled(s, WritePending(nonce, result))
    requires d in Apply(s, WritePending(nonce, result)).survivors
    ensures CoreOk(Apply(s, WritePending(nonce, result)), d)
  {
    hide CoreOk;
    var b := s.command.b;
    assert CoreOk(s, s.disk);
    if d !in s.survivors {
      PendingDisk(s, s.disk, b.oldKey, b.newKey, Partial);
      PendingDisk(s, s.disk, b.oldKey, b.newKey, Complete(Envelope(b.newKey, b.wrap, nonce)));
    }
    SameLedger(s, Apply(s, WritePending(nonce, result)), d);
  }

  lemma SharedRename(s: State, n: Key)
    requires SharedOk(s) && OperatorOk(s, s.command) && Enabled(s, Activate(n))
    ensures SharedOk(Apply(s, Activate(n)))
  {
    hide CoreOk;
    var s' := Apply(s, Activate(n));
    ActivatedDiskOk(s, s.disk, s.command.b.oldKey, n);
    forall d | d in s'.survivors
      ensures CoreOk(s', d)
    {
      SameLedger(s, s', d);
    }
  }

  lemma SharedStep(s: State, e: Event)
    requires SharedOk(s) && OperatorOk(s, s.command) && Enabled(s, e)
    ensures SharedOk(Apply(s, e))
  {
    match e
    case WriteBundle(_) => SharedWrite(s, e);
    case KeepRetired(_) => SharedWrite(s, e);
    case KeepRetiredAgain(_) => SharedWrite(s, e);
    case WritePending(_, _) => SharedWrite(s, e);
    case Activate(n) => SharedRename(s, n);
    case _ => SharedRest(s, e);
  }

  lemma SharedRest(s: State, e: Event)
    requires SharedOk(s) && OperatorOk(s, s.command) && Enabled(s, e)
    requires !e.WriteBundle? && !e.KeepRetired? && !e.KeepRetiredAgain? && !e.WritePending? && !e.Activate?
    ensures SharedOk(Apply(s, e))
  {
    hide CoreOk;
    var s' := Apply(s, e);
    assert CoreOk(s, s.disk);
    if e.ClearPending? {
      ClearedDisk(s, s.disk, e.n);
    }
    forall d | d in s'.survivors
      ensures CoreOk(s', d)
    {
      if e.CaApply? {
        CaDisk(s, d, e.request);
        SameLedger(s.(ca := e.request.1, applied := s.applied + {e.request}), s', d);
      } else if e.Send? {
        SentDisk(s, d, (s.command.b.oldKey, e.n));
        SameLedger(s.(sent := s.sent + {(s.command.b.oldKey, e.n)}), s', d);
      } else {
        SameLedger(s, s', d);
      }
    }
  }

  // ---- what a step does to the command that makes it ----

  lemma BundleUnique(d: Disk, b: Bundle, c: Bundle, w: nat)
    requires HoldsBundle(d, b.oldKey, b.newKey, w) && HoldsBundle(d, c.oldKey, c.newKey, w) && b.newKey == c.newKey
    ensures b.oldKey == c.oldKey
  {
  }

  /** A key the authority holds and a bundle names was requested under that bundle's old key. */
  lemma HeldMeansApplied(s: State, b: Bundle)
    requires SharedOk(s) && Known(s, b) && s.ca == b.newKey
    ensures (b.oldKey, b.newKey) in s.applied
  {
    assert CoreOk(s, s.disk);
    if s.disk.active.key != s.ca {
      assert (s.disk.active.key, s.ca) in s.sent;
    }
  }

  lemma OwnLoad(s: State, e: Event)
    requires SharedOk(s) && Enabled(s, e) && (e.LoadForPrepare? || e.LoadForExecute? || e.LoadForRecovery?)
    ensures OperatorOk(Apply(s, e), Apply(s, e).command)
  {
    assert CoreOk(s, s.disk);
  }

  lemma OwnRead(s: State, e: Event)
    requires SharedOk(s) && OperatorOk(s, s.command) && Enabled(s, e)
    requires e.ReadOldKey? || e.ReadNewKey? || e.Recheck? || e.ReplySuccess?
    ensures OperatorOk(Apply(s, e), Apply(s, e).command)
  {
    hide CoreOk;
    if e.ReadNewKey? && s.ca == s.command.b.newKey {
      HeldMeansApplied(s, s.command.b);
    }
  }

  lemma OwnWrite(s: State, e: Event)
    requires SharedOk(s) && OperatorOk(s, s.command) && Enabled(s, e) && !Tears(e)
    requires e.WriteBundle? || e.KeepRetired? || e.KeepRetiredAgain? || e.WritePending?
    ensures OperatorOk(Apply(s, e), Apply(s, e).command)
  {
    hide CoreOk;
  }

  /** What a command relies on: the files, the directories a loss of power may leave, and the requests that
      were carried out. */
  lemma SameForOperators(s: State, s': State, c: Command)
    requires OperatorOk(s, c) && s'.survivors <= s.survivors
    requires s'.disk == s.disk && s'.wrap == s.wrap && s'.applied == s.applied
    ensures OperatorOk(s', c)
  {
  }

  lemma OwnRest(s: State, e: Event)
    requires SharedOk(s) && OperatorOk(s, s.command) && Enabled(s, e)
    requires e.Send? || e.Activate? || e.ClearPending? || e.SyncDirectory? || e.Abort? || e.PowerLoss? || e.CaDrop?
    ensures OperatorOk(Apply(s, e), Apply(s, e).command)
  {
    hide CoreOk;
    if e.CaDrop? {
      SameForOperators(s, Apply(s, e), s.command);
    }
  }

  /** When a request is carried out its key is still active, so nothing has been renamed behind it. */
  lemma AppliedKeepsOperator(s: State, r: (Key, Key), c: Command)
    requires SharedOk(s) && OperatorOk(s, c) && r in s.inflight && s.ca == r.0
    ensures OperatorOk(Apply(s, CaApply(r)), c)
  {
    hide CoreOk;
    CaDisk(s, s.disk, r);
  }

  lemma OwnStep(s: State, e: Event)
    requires SharedOk(s) && OperatorOk(s, s.command) && Enabled(s, e) && !Tears(e)
    ensures OperatorOk(Apply(s, e), Apply(s, e).command)
  {
    hide SharedOk, OperatorOk;
    match e
    case LoadForPrepare(_) => OwnLoad(s, e);
    case LoadForExecute(_, _) => OwnLoad(s, e);
    case LoadForRecovery(_, _, _) => OwnLoad(s, e);
    case ReadOldKey => OwnRead(s, e);
    case ReadNewKey => OwnRead(s, e);
    case Recheck => OwnRead(s, e);
    case ReplySuccess => OwnRead(s, e);
    case WriteBundle(_) => OwnWrite(s, e);
    case KeepRetired(_) => OwnWrite(s, e);
    case KeepRetiredAgain(_) => OwnWrite(s, e);
    case WritePending(_, _) => OwnWrite(s, e);
    case CaApply(r) => AppliedKeepsOperator(s, r, s.command);
    case _ => OwnRest(s, e);
  }

  // ---- what a step does to the other command ----

  /** No bundle and no retired copy is gone. */
  predicate AtLeast(before: Disk, d: Disk) {
    && d.active == before.active
    && (forall n | n in before.bundles :: n in d.bundles && d.bundles[n] == before.bundles[n])
    && forall r | r in before.retired :: r in d.retired && d.retired[r] == before.retired[r]
  }

  /** The pending envelopes are as before but for whole ones that the command may still activate. */
  predicate OnlyWholeAdded(s: State, s': State, c: Command) {
    forall n | n in s'.disk.pending ::
      || (n in s.disk.pending && s'.disk.pending[n] == s.disk.pending[n])
      || (s'.disk.pending[n].Complete? && (Carries(c) && c.b.newKey == n ==> s.disk.active.key == c.b.oldKey))
  }

  /** Another operator's command goes on relying on a directory in which only a free name was taken. */
  lemma MoreFiles(s: State, s': State, c: Command)
    requires OperatorOk(s, c) && s'.wrap == s.wrap && s'.applied == s.applied
    requires AtLeast(s.disk, s'.disk) && OnlyWholeAdded(s, s', c)
    requires forall d | d in s'.survivors :: d in s.survivors || AtLeast(s.disk, d)
    requires s.disk in s.survivors
    ensures OperatorOk(s', c)
  {
    hide Backed;
    if c.Staged? {
      MoreBacked(s, s', c.b);
    }
  }

  lemma MoreBacked(s: State, s': State, b: Bundle)
    requires Backed(s, b) && s'.wrap == s.wrap && s.disk in s.survivors
    requires forall d | d in s'.survivors :: d in s.survivors || AtLeast(s.disk, d)
    ensures Backed(s', b)
  {
    assert HoldsRetired(s.disk, b.oldKey, b.newKey);
  }

  lemma OtherWrite(s: State, e: Event, c: Command)
    requires SharedOk(s) && OperatorOk(s, c) && Enabled(s, e)
    requires e.WriteBundle? || e.KeepRetired? || e.KeepRetiredAgain?
    ensures OperatorOk(Apply(s, e), c)
  {
    hide CoreOk, OperatorOk, AfterRetired, AtLeast;
    if e.WriteBundle? {
      BundlesAtLeast(s, e.result);
    } else if e.KeepRetired? {
      RetiredAtLeast(s, s.command.copy, s.command.b.newKey, e.result, Secured(s.command.b));
    } else {
      RetiredAtLeast(s, s.command.copy, s.command.b.newKey, e.result, Resolving(s.command.b, s.command.outcome));
    }
    MoreFiles(s, Apply(s, e), c);
  }

  lemma BundlesAtLeast(s: State, result: WriteOutcome)
    requires Enabled(s, WriteBundle(result))
    ensures var s' := Apply(s, WriteBundle(result));
      && s'.wrap == s.wrap && s'.applied == s.applied && s'.disk.pending == s.disk.pending
      && AtLeast(s.disk, s'.disk) && forall d | d in s'.survivors :: d in s.survivors || AtLeast(s.disk, d)
  {
  }

  lemma RetiredAtLeast(s: State, e: Envelope, n: Key, result: WriteOutcome, then_: Command)
    ensures var s' := AfterRetired(s, e, n, result, then_);
      && s'.wrap == s.wrap && s'.applied == s.applied && s'.disk.pending == s.disk.pending
      && AtLeast(s.disk, s'.disk) && forall d | d in s'.survivors :: d in s.survivors || AtLeast(s.disk, d)
  {
    hide RetiredAgrees;
  }

  lemma OtherPending(s: State, e: Event, c: Command)
    requires SharedOk(s) && OperatorOk(s, s.command) && OperatorOk(s, c) && PairOk(s, s.command, c)
    requires Enabled(s, e) && !Tears(e) && e.WritePending?
    ensures OperatorOk(Apply(s, e), c)
  {
    hide CoreOk, OperatorOk, PairOk;
    if Carries(c) && c.b.newKey == s.command.b.newKey {
      SameKeySameBundle(s, c);
    }
    MoreFiles(s, Apply(s, e), c);
  }

  lemma SameKeySameBundle(s: State, c: Command)
    requires OperatorOk(s, s.command) && OperatorOk(s, c) && PairOk(s, s.command, c)
    requires s.command.Secured? && Carries(c) && c.b.newKey == s.command.b.newKey
    ensures s.disk.active.key == c.b.oldKey
  {
    BundleUnique(s.disk, s.command.b, c.b, s.wrap);
  }

  /** Of two pending envelopes that may be renamed only one is there: the one for the authority's key. */
  lemma OnePendingToRename(s: State, b: Bundle)
    requires SharedOk(s) && MayRename(s, b) && b.newKey in s.disk.pending
    ensures b.newKey == s.ca && s.disk.active.key == b.oldKey
  {
    assert CoreOk(s, s.disk);
  }

  lemma BackedAfterRename(s: State, n: Key, b: Bundle)
    requires Backed(s, b) && s.disk in s.survivors && n in s.disk.pending && s.disk.pending[n].Complete?
    requires s.disk.active.key < ActivatedDisk(s.disk, n).active.key
    ensures Backed(WithDisk(s, ActivatedDisk(s.disk, n)), b)
    ensures forall c: Command :: Backed(WithDisk(s, ActivatedDisk(s.disk, n)).(command := c), b)
  {
  }

  lemma RenameMeans(s: State, n: Key)
    requires SharedOk(s) && OperatorOk(s, s.command) && Enabled(s, Activate(n))
    ensures s.disk in s.survivors && Carries(s.command) && s.ca == n
    ensures s.disk.active.key == s.command.b.oldKey < n == ActivatedDisk(s.disk, n).active.key
  {
    hide CoreOk;
    assert CoreOk(s, s.disk);
    ActivatedDiskOk(s, s.disk, s.command.b.oldKey, n);
  }

  lemma OtherRename(s: State, n: Key, c: Command)
    requires SharedOk(s) && OperatorOk(s, s.command) && OperatorOk(s, c) && PairOk(s, s.command, c)
    requires Enabled(s, Activate(n))
    ensures OperatorOk(Apply(s, Activate(n)), c)
  {
    hide SharedOk, Backed;
    RenameMeans(s, n);
    if c.Staged? {
      BackedAfterRename(s, n, c.b);
    }
    if Carries(c) && c.b.newKey in s.disk.pending && MayRename(s, c.b) {
      OnePendingToRename(s, c.b);
    }
  }

  lemma OtherClear(s: State, n: Key, c: Command)
    requires SharedOk(s) && OperatorOk(s, c) && Enabled(s, ClearPending(n))
    ensures OperatorOk(Apply(s, ClearPending(n)), c)
  {
  }

  lemma OtherRest(s: State, e: Event, c: Command)
    requires SharedOk(s) && OperatorOk(s, c) && Enabled(s, e)
    requires !e.WriteBundle? && !e.KeepRetired? && !e.KeepRetiredAgain? && !e.WritePending? && !e.Activate?
    requires !e.PowerLoss? && !e.CaApply? && !e.ClearPending?
    ensures OperatorOk(Apply(s, e), c)
  {
    hide CoreOk, OperatorOk;
    SameForOperators(s, Apply(s, e), c);
  }

  lemma OtherStep(s: State, e: Event, c: Command)
    requires SharedOk(s) && OperatorOk(s, s.command) && OperatorOk(s, c) && PairOk(s, s.command, c)
    requires Enabled(s, e) && !Tears(e) && !e.PowerLoss?
    ensures OperatorOk(Apply(s, e), c)
  {
    hide SharedOk, OperatorOk;
    match e
    case WriteBundle(_) => OtherWrite(s, e, c);
    case KeepRetired(_) => OtherWrite(s, e, c);
    case KeepRetiredAgain(_) => OtherWrite(s, e, c);
    case WritePending(_, _) => OtherPending(s, e, c);
    case Activate(n) => OtherRename(s, n, c);
    case ClearPending(n) => OtherClear(s, n, c);
    case CaApply(r) => AppliedKeepsOperator(s, r, c);
    case _ => OtherRest(s, e, c);
  }

  lemma PairStep(s: State, e: Event, c: Command)
    requires PairOk(s, s.command, c) && SharedOk(s) && OperatorOk(s, s.command) && Enabled(s, e) && !e.PowerLoss?
    ensures PairOk(Apply(s, e), Apply(s, e).command, c) && PairOk(Apply(s, e), c, Apply(s, e).command)
  {
    hide CoreOk;
    assert CoreOk(s, s.disk);
  }

  // ---- whole runs ----

  lemma CommandIrrelevant(s: State, c: Command, d: Command, own: Command)
    ensures SharedOk(s) <==> SharedOk(s.(command := own))
    ensures OperatorOk(s, c) <==> OperatorOk(s.(command := own), c)
    ensures PairOk(s, c, d) <==> PairOk(s.(command := own), c, d)
  {
  }

  lemma Assemble(m: Site, i: nat, s: State)
    requires |m.commands| <= 2 && i < |m.commands| && SharedOk(s) && OperatorOk(s, s.command)
    requires forall j | 0 <= j < |m.commands| && j != i ::
      OperatorOk(s, m.commands[j]) && PairOk(s, s.command, m.commands[j]) && PairOk(s, m.commands[j], s.command)
    ensures SiteOk(Site(s.(command := Idle), m.commands[i := s.command], false))
  {
    hide SharedOk, OperatorOk, PairOk;
    var commands := m.commands[i := s.command];
    CommandIrrelevant(s, Idle, Idle, Idle);
    forall j | 0 <= j < |commands|
      ensures OperatorOk(s.(command := Idle), commands[j])
    {
      CommandIrrelevant(s, commands[j], Idle, Idle);
    }
    forall j, k | 0 <= j < |commands| && 0 <= k < |commands| && j != k
      ensures PairOk(s.(command := Idle), commands[j], commands[k])
    {
      CommandIrrelevant(s, commands[j], commands[k], Idle);
    }
  }

  lemma AllIdleIsOk(s: State, k: nat)
    requires SharedOk(s) && k <= 2
    ensures SiteOk(Site(s.(command := Idle), Idlers(k), false))
  {
    CommandIrrelevant(s, Idle, Idle, Idle);
  }

  lemma OperatorStep(m: Site, i: nat, e: Event)
    requires SiteOk(m) && Can(m, Do(i, e)) && !Tears(e)
    ensures SiteOk(Next(m, Do(i, e)))
  {
    hide SharedOk, OperatorOk, PairOk, Apply, Enabled;
    var s := As(m, i);
    CommandIrrelevant(m.shared, m.commands[i], Idle, m.commands[i]);
    SharedStep(s, e);
    OwnStep(s, e);
    if e.PowerLoss? {
      AllIdleIsOk(Apply(s, e), |m.commands|);
    } else {
      forall j | 0 <= j < |m.commands| && j != i
        ensures OperatorOk(Apply(s, e), m.commands[j])
        ensures PairOk(Apply(s, e), Apply(s, e).command, m.commands[j])
        ensures PairOk(Apply(s, e), m.commands[j], Apply(s, e).command)
      {
        CommandIrrelevant(m.shared, m.commands[i], m.commands[j], m.commands[i]);
        CommandIrrelevant(m.shared, m.commands[j], Idle, m.commands[i]);
        OtherStep(s, e, m.commands[j]);
        PairStep(s, e, m.commands[j]);
      }
      Assemble(m, i, Apply(s, e));
    }
  }

  lemma SiteStep(m: Site, a: Act)
    requires SiteOk(m) && Can(m, a) && !TearsPending(a)
    ensures SiteOk(Next(m, a))
  {
    hide SharedOk;
    assert OperatorOk(m.shared, m.commands[a.i]);
    if a.Do? {
      OperatorStep(m, a.i, a.e);
    }
  }

  lemma FreshIsOk(m: Site, k: nat)
    requires Fresh(m, k) && k <= 2
    ensures SiteOk(m)
  {
  }

  lemma OkIsLoadable(m: Site)
    requires SiteOk(m)
    ensures Loadable(m)
  {
    var s := m.shared;
    assert CoreOk(s, s.disk);
    if s.disk.active.key != s.ca {
      assert (s.disk.active.key, s.ca) in s.sent;
    }
  }

  lemma {:induction false} RunsKeepOk(m: Site, log: seq<Act>)
    requires SiteOk(m) && Runs(m, log).At? && TornFree(log)
    ensures SiteOk(Runs(m, log).m)
  {
    if log != [] {
      var n := |log| - 1;
      assert log[n] in log;
      RunsKeepOk(m, log[..n]);
      SiteStep(Runs(m, log[..n]).m, log[n]);
    }
  }

  /** However two operators interleave, and whatever fails, is lost or is applied late: while no pending
      envelope is left torn, the key the authority recognises can be loaded. */
  lemma TwoOperatorsNeverLoseAKey(m: Site, k: nat, log: seq<Act>)
    requires Fresh(m, k) && k <= 2 && Runs(m, log).At? && TornFree(log)
    ensures Loadable(Runs(m, log).m)
  {
    FreshIsOk(m, k);
    RunsKeepOk(m, log);
    OkIsLoadable(Runs(m, log).m);
  }
}
