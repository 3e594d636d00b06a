/** The files, the certificate authority and the steps of an ACME account-key rollover.
    A run is a sequence of events: one per file operation, request, reply, late application
    by the authority, abort of the command, or loss of power. */
module RolloverMachine {

  /** Account keys are named by the order in which they are generated, so a key is its own
      fingerprint and a generated key has never been used before. */
  type Key = nat

  /** An encrypted account envelope. `wrap` is the wrapping key that opens it and `nonce` makes
      two envelopes of one key differ in their bytes. */
  datatype Envelope = Envelope(key: Key, wrap: nat, nonce: nat)

  /** A prepared bundle: the sealed replacement key, bound to the key it replaces. */
  datatype Bundle = Bundle(oldKey: Key, newKey: Key, wrap: nat)

  /** What a named file holds: a torn write, or the whole content. An absent file is no map entry. */
  datatype File<+T> = Partial | Complete(content: T)

  /** The account state directory. File names are determined by the fingerprints they carry. */
  datatype Disk = Disk(
    active: Envelope,
    bundles: map<Key, File<Bundle>>,
    pending: map<Key, File<Envelope>>,
    retired: map<(Key, Key), File<Envelope>>)

  /** What a failed exclusive write may leave behind under its name. */
  datatype Leftover = Nothing | Torn | Whole

  datatype WriteOutcome = Written | Failed(left: Leftover)

  datatype Authority = OldAuthoritative | NewAuthoritative | BothRecognized | NeitherRecognized

  /** Where a command is. `copy` is the active envelope as it was read, `live` says that the request
      can still take effect when it is sent, and `seen` is the key the authority held when the old-key
      read was answered. */
  datatype Command =
    | Idle
    | Preparing(from: Key, w: nat)
    | Loaded(b: Bundle, copy: Envelope)
    | Secured(b: Bundle)
    | Staged(b: Bundle)
    | Requested(b: Bundle, live: bool)
    | Confirmed(b: Bundle)
    | Probing(b: Bundle, expected: Authority)
    | ProbedOld(b: Bundle, expected: Authority, oldRecognized: bool, seen: Key)
    | Decided(b: Bundle, expected: Authority, outcome: Authority, seen: Key)
    | Checked(b: Bundle, outcome: Authority, copy: Envelope)
    | Resolving(b: Bundle, outcome: Authority)
    | Changed(b: Bundle)

  /** `survivors` are the directories a loss of power may leave: the current one and every one
      since the last successful directory sync. `sent` remembers every request and `applied` every request
      the authority carried out; `unresolved` holds the replacement keys requested and not cleared
      by a recovery since. */
  datatype State = State(
    wrap: nat,
    disk: Disk,
    survivors: set<Disk>,
    ca: Key,
    inflight: set<(Key, Key)>,
    sent: set<(Key, Key)>,
    applied: set<(Key, Key)>,
    unresolved: set<Key>,
    next: Key,
    command: Command)

  datatype Event =
    | LoadForPrepare(w: nat)
    | WriteBundle(result: WriteOutcome)
    | LoadForExecute(n: Key, w: nat)
    | KeepRetired(result: WriteOutcome)
    | WritePending(nonce: nat, result: WriteOutcome)
    | Send(n: Key)
    | ReplySuccess
    | LoadForRecovery(n: Key, w: nat, expected: Authority)
    | ReadOldKey
    | ReadNewKey
    | Recheck
    | KeepRetiredAgain(result: WriteOutcome)
    | Activate(n: Key)
    | ClearPending(n: Key)
    | SyncDirectory
    | Abort
    | PowerLoss(left: Disk)
    | CaApply(request: (Key, Key))
    | CaDrop(request: (Key, Key))

  // ---- loading ----

  /** The active envelope decrypted with wrapping key `w`. */
  predicate LoadsActive(d: Disk, w: nat, k: Key) {
    d.active.key == k && d.active.wrap == w
  }

  /** A bundle that is complete, opens under `w` and is bound to the active key. */
  predicate LoadsPrepared(d: Disk, w: nat, n: Key) {
    && d.active.wrap == w
    && n in d.bundles && d.bundles[n].Complete?
    && d.bundles[n].content.wrap == w
    && d.bundles[n].content.oldKey == d.active.key
    && d.bundles[n].content.newKey == n
    && n != d.active.key
  }

  /** The recovery commands also demand a whole pending envelope for the replacement key. */
  predicate LoadsProbeState(d: Disk, w: nat, n: Key) {
    && LoadsPrepared(d, w, n)
    && n in d.pending && d.pending[n].Complete? && d.pending[n].content.key == n
  }

  /** The retired copy of `e` either is not there yet or already equals it. */
  predicate RetiredAgrees(d: Disk, e: Envelope, n: Key) {
    (e.key, n) in d.retired ==> d.retired[(e.key, n)] == Complete(e)
  }

  function Outcome(oldRecognized: bool, newRecognized: bool): Authority {
    if oldRecognized then (if newRecognized then BothRecognized else OldAuthoritative)
    else (if newRecognized then NewAuthoritative else NeitherRecognized)
  }

  // ---- writing ----

  function Put<K, V>(m: map<K, File<V>>, name: K, v: V, result: WriteOutcome): map<K, File<V>> {
    match result
    case Written => m[name := Complete(v)]
    case Failed(Whole) => m[name := Complete(v)]
    case Failed(Torn) => m[name := Partial]
    case Failed(Nothing) => m
  }

  /** The directories a loss of power may leave after a write to a new name. A successful write ends
      with a directory sync; a failed one may leave any stage of itself. */
  function SurvivorsOfWrite(s: State, torn: Disk, whole: Disk, result: WriteOutcome): set<Disk> {
    if result.Written? then {whole} else s.survivors + {torn, whole}
  }

  function BundleWrite(s: State, from: Key, w: nat, result: WriteOutcome): Disk {
    s.disk.(bundles := Put(s.disk.bundles, s.next, Bundle(from, s.next, w), result))
  }

  function RetiredWrite(d: Disk, e: Envelope, n: Key, result: WriteOutcome): Disk {
    d.(retired := Put(d.retired, (e.key, n), e, result))
  }

  function PendingWrite(s: State, n: Key, w: nat, nonce: nat, result: WriteOutcome): Disk {
    s.disk.(pending := Put(s.disk.pending, n, Envelope(n, w, nonce), result))
  }

  function AfterRetired(s: State, e: Envelope, n: Key, result: WriteOutcome, then_: Command): State {
    if (e.key, n) in s.disk.retired then
      s.(command := if RetiredAgrees(s.disk, e, n) then then_ else Idle)
    else
      s.(disk := RetiredWrite(s.disk, e, n, result),
         survivors := SurvivorsOfWrite(s, RetiredWrite(s.disk, e, n, Failed(Torn)),
                                       RetiredWrite(s.disk, e, n, Written), result),
         command := if result.Written? then then_ else Idle)
  }

  function WithDisk(s: State, d: Disk): State {
    s.(disk := d, survivors := s.survivors + {d})
  }

  function ActivatedDisk(d: Disk, n: Key): Disk
    requires n in d.pending && d.pending[n].Complete?
  {
    d.(active := d.pending[n].content, pending := d.pending - {n})
  }

  // ---- steps ----

  predicate Enabled(s: State, e: Event) {
    match e
    case LoadForPrepare(w) => s.command.Idle? && s.disk.active.wrap == w
    case WriteBundle(_) => s.command.Preparing?
    case LoadForExecute(n, w) => s.command.Idle? && LoadsPrepared(s.disk, w, n)
    case KeepRetired(_) => s.command.Loaded?
    case WritePending(_, _) => s.command.Secured? && s.command.b.newKey !in s.disk.pending
    case Send(n) => s.command.Staged? && s.command.b.newKey == n
    case ReplySuccess =>
      s.command.Requested? && s.command.live && (s.command.b.oldKey, s.command.b.newKey) in s.applied
    case LoadForRecovery(n, w, expected) =>
      s.command.Idle? && LoadsProbeState(s.disk, w, n) && (expected.OldAuthoritative? || expected.NewAuthoritative?)
    case ReadOldKey => s.command.Probing?
    case ReadNewKey => s.command.ProbedOld?
    case Recheck =>
      && s.command.Decided? && s.command.outcome == s.command.expected
      && s.disk.active.key == s.command.b.oldKey
      && s.command.b.newKey in s.disk.pending && s.disk.pending[s.command.b.newKey].Complete?
      && s.disk.pending[s.command.b.newKey].content.key == s.command.b.newKey
    case KeepRetiredAgain(_) => s.command.Checked?
    case Activate(n) =>
      && (s.command.Confirmed? || (s.command.Resolving? && s.command.outcome.NewAuthoritative?))
      && s.command.b.newKey == n && n in s.disk.pending && s.disk.pending[n].Complete?
    case ClearPending(n) =>
      s.command.Resolving? && s.command.outcome.OldAuthoritative? && s.command.b.newKey == n && n in s.disk.pending
    case SyncDirectory => s.command.Changed?
    case Abort => true
    case PowerLoss(left) => left in s.survivors
    case CaApply(r) => r in s.inflight && s.ca == r.0
    case CaDrop(r) => r in s.inflight
  }

  function Apply(s: State, e: Event): State
    requires Enabled(s, e)
  {
    match e
    case LoadForPrepare(w) => s.(command := Preparing(s.disk.active.key, w))
    case WriteBundle(result) =>
      if s.next in s.disk.bundles then s.(next := s.next + 1, command := Idle)
      else
        var from, w := s.command.from, s.command.w;
        s.(disk := BundleWrite(s, from, w, result),
           survivors := SurvivorsOfWrite(s, BundleWrite(s, from, w, Failed(Torn)), BundleWrite(s, from, w, Written), result),
           next := s.next + 1, command := Idle)
    case LoadForExecute(n, w) => s.(command := Loaded(s.disk.bundles[n].content, s.disk.active))
    case KeepRetired(result) => AfterRetired(s, s.command.copy, s.command.b.newKey, result, Secured(s.command.b))
    case WritePending(nonce, result) =>
      var n := s.command.b.newKey;
      var w := s.command.b.wrap;
      s.(disk := PendingWrite(s, n, w, nonce, result),
         survivors := SurvivorsOfWrite(s, PendingWrite(s, n, w, nonce, Failed(Torn)), PendingWrite(s, n, w, nonce, Written), result),
         command := if result.Written? then Staged(s.command.b) else Idle)
    case Send(n) =>
      var r := (s.command.b.oldKey, n);
      s.(inflight := s.inflight + {r}, sent := s.sent + {r}, unresolved := s.unresolved + {n},
         command := Requested(s.command.b, r !in s.applied))
    case ReplySuccess => s.(command := Confirmed(s.command.b))
    case LoadForRecovery(n, w, expected) => s.(command := Probing(s.disk.bundles[n].content, expected))
    case ReadOldKey =>
      s.(command := ProbedOld(s.command.b, s.command.expected, s.ca == s.command.b.oldKey, s.ca))
    case ReadNewKey =>
      s.(command := Decided(s.command.b, s.command.expected, Outcome(s.command.oldRecognized, s.ca == s.command.b.newKey), s.command.seen))
    case Recheck => s.(command := Checked(s.command.b, s.command.outcome, s.disk.active))
    case KeepRetiredAgain(result) =>
      AfterRetired(s, s.command.copy, s.command.b.newKey, result, Resolving(s.command.b, s.command.outcome))
    case Activate(n) => WithDisk(s, ActivatedDisk(s.disk, n)).(command := Changed(s.command.b))
    case ClearPending(n) =>
      WithDisk(s, s.disk.(pending := s.disk.pending - {n})).(unresolved := s.unresolved - {n}, command := Changed(s.command.b))
    case SyncDirectory => s.(survivors := {s.disk}, command := Idle)
    case Abort => s.(command := Idle)
    case PowerLoss(left) => s.(disk := left, survivors := {left}, command := Idle)
    case CaApply(r) => s.(ca := r.1, inflight := s.inflight - {r}, applied := s.applied + {r})
    case CaDrop(r) => s.(inflight := s.inflight - {r})
  }

  /** A registered account before the first rollover. */
  predicate Registered(s: State) {
    && s.disk.active.key == s.ca && s.disk.active.wrap == s.wrap && s.ca < s.next
    && s.disk.bundles == map[] && s.disk.pending == map[] && s.disk.retired == map[]
    && s.survivors == {s.disk}
    && s.inflight == {} && s.sent == {} && s.applied == {} && s.unresolved == {} && s.command.Idle?
  }

  datatype Reached = Stuck | Reached(s: State)

  function Run(s: State, log: seq<Event>): (r: Reached)
  {
    if log == [] then Reached(s)
    else
      var before := Run(s, log[..|log| - 1]);
      var e := log[|log| - 1];
      if before.Reached? && Enabled(before.s, e) then Reached(Apply(before.s, e)) else Stuck
  }
}
