/** Activation of a published pair in the running listener, and the full rehearsal of a renewal. */
module RenewalRehearsal {
  import opened Text
  import opened TrustedProxy
  import opened Config
  import opened Certificates
  import opened TlsRuntime
  import opened RenewalDisk
  import opened RenewalStaging
  import opened RenewalTransaction

  /** The live files a reload manages to read; a file it cannot read is a failure. */
  method ReadableFiles(disk: Disk) returns (files: map<string, Bytes>)
    modifies disk`clock
    ensures old(disk.Faults()) <= disk.Faults()
    ensures forall f | f in files :: f in disk.live && files[f] == disk.live[f]
    ensures disk.Faults() == old(disk.Faults()) ==> files == disk.live
  {
    files := disk.live;
    var todo := disk.live.Keys;
    while todo != {}
      invariant old(disk.Faults()) <= disk.Faults()
      invariant forall f | f in files :: f in disk.live && files[f] == disk.live[f]
      invariant disk.Faults() == old(disk.Faults()) ==> files == disk.live
      decreases |todo|
    {
      var f :| f in todo;
      var failed := disk.Fault();
      if failed {
        files := files - {f};
      }
      todo := todo - {f};
    }
  }

  /** Reloads the listener from the disk. */
  method ReloadFromDisk(disk: Disk, reloader: Reloader, syn: Syntax, cfg: Config) returns (ok: bool)
    modifies disk`clock, reloader
    ensures old(disk.Faults()) <= disk.Faults()
    ensures ok ==> RuntimeOf(syn, cfg, disk.live, reloader.runtime)
    ensures !ok ==> reloader.runtime == old(reloader.runtime)
    ensures disk.Faults() == old(disk.Faults()) ==> (ok <==> Servable(syn, cfg) && AllLoad(cfg.profiles, disk.live))
  {
    var files := ReadableFiles(disk);
    ok := reloader.Reload(syn, cfg, files);
  }

  datatype Activation = Activated | Refused | RolledBack | RollbackFailed

  /** The configuration still serves the pair that was published, and that pair is still live. */
  ghost predicate ServesPublication(syn: Syntax, cfg: Config, m: Moment, receipt: Receipt) {
    && ReceiptOk(receipt) && WellFormed(syn, cfg)
    && var profile := Find(cfg.profiles, ProfileId, receipt.profileId);
    && profile.Some? && profile.value.enabled
    && profile.value.certificateFile == receipt.certificateFile && profile.value.privateKeyFile == receipt.privateKeyFile
    && Readable(m.live, receipt.certificateFile, receipt.privateKeyFile)
    && SerialText(m.live[receipt.certificateFile].leaf) == receipt.candidateSerial
  }

  /** The checks before the listener is touched. */
  method CheckActivation(disk: Disk, syn: Syntax, cfg: Config, receipt: Receipt) returns (ok: bool)
    modifies disk`clock
    ensures old(disk.Faults()) <= disk.Faults()
    ensures ok ==> ServesPublication(syn, cfg, disk.Now(), receipt)
    ensures disk.Faults() == old(disk.Faults()) ==> (ok <==> ServesPublication(syn, cfg, disk.Now(), receipt))
  {
    if !ReceiptOk(receipt) {
      return false;
    }
    ok := Validate(syn, cfg);
    if !ok {
      return;
    }
    var profile := Find(cfg.profiles, ProfileId, receipt.profileId);
    if profile.None? || !profile.value.enabled || profile.value.certificateFile != receipt.certificateFile
       || profile.value.privateKeyFile != receipt.privateKeyFile {
      return false;
    }
    var pair := disk.LoadPair(receipt.certificateFile, receipt.privateKeyFile);
    if pair.None? {
      return false;
    }
    SerialTextIsTrimmed(pair.value.certificate.leaf);
    return Trim(SerialText(pair.value.certificate.leaf)) == receipt.candidateSerial;
  }

  /** Puts a published candidate in service. From its reload on, disk and listener agree: both hold the
      candidate, or the listener is untouched and the disk holds the previous pair again. */
  method Activate(disk: Disk, reloader: Reloader, syn: Syntax, cfg: Config, receipt: Receipt) returns (r: Activation)
    requires disk.Valid()
    modifies disk, reloader
    ensures disk.Valid() && disk.backups == old(disk.backups) && disk.stages == old(disk.stages)
    ensures old(disk.Faults()) <= disk.Faults()
    ensures r.Activated? ==> disk.live == old(disk.live) && RuntimeOf(syn, cfg, disk.live, reloader.runtime)
    ensures r.Activated? ==> ServesPublication(syn, cfg, old(disk.Now()), receipt)
    ensures disk.Faults() == old(disk.Faults()) ==>
      (r.Activated? <==> ServesPublication(syn, cfg, old(disk.Now()), receipt) && Servable(syn, cfg)
                         && AllLoad(cfg.profiles, old(disk.live)))
    ensures !r.Activated? ==> reloader.runtime == old(reloader.runtime)
    ensures r.Refused? ==> disk.live == old(disk.live)
    ensures r.RolledBack? ==> Restorable(old(disk.Now()), receipt, receipt.candidateSerial)
    ensures r.RolledBack? ==>
      disk.live == With(old(disk.live), receipt.certificateFile, receipt.privateKeyFile, PairIn(disk.backups[receipt.backup]))
    ensures r.RollbackFailed? && disk.Faults() == old(disk.Faults()) ==> !Restorable(old(disk.Now()), receipt, receipt.candidateSerial)
  {
    hide Servable, AllLoad, RuntimeOf, Restorable, ServesPublication;
    var ok := CheckActivation(disk, syn, cfg, receipt);
    if !ok {
      return Refused;
    }
    ok := ReloadFromDisk(disk, reloader, syn, cfg);
    if ok {
      return Activated;
    }
    ok := RestorePublication(disk, receipt, receipt.candidateSerial);
    return if ok then RolledBack else RollbackFailed;
  }

  /** A plan that can be published and whose result the configuration serves. */
  ghost predicate Deployable(syn: Syntax, cfg: Config, m: Moment, plan: Plan) {
    && Publishable(m, plan)
    && var profile := Find(cfg.profiles, ProfileId, plan.profileId);
    && profile.Some? && profile.value.enabled
    && profile.value.certificateFile == plan.certificateFile && profile.value.privateKeyFile == plan.privateKeyFile
    && Servable(syn, cfg) && AllLoad(cfg.profiles, Published(m, plan))
  }

  /** Right after its publication a plan's pair is served exactly when its profile is still as planned. */
  lemma PublishedIsServed(syn: Syntax, cfg: Config, before: Moment, plan: Plan, after: Moment)
    requires Publishable(before, plan) && after.live == Published(before, plan)
    ensures var previous := LivePair(before, plan.certificateFile, plan.privateKeyFile);
      ServesPublication(syn, cfg, after, ReceiptOf(plan, previous)) && Servable(syn, cfg) && AllLoad(cfg.profiles, after.live)
      <==> Deployable(syn, cfg, before, plan)
  {
    assert plan.certificateFile != plan.privateKeyFile;
    assert Loads(PairIn(before.stages[plan.stage]));
  }

  /** A publication followed by its activation. When the activation ends in service or in a completed
      rollback, disk and listener that agreed before agree again: on the candidate, or on the
      previous pair. */
  method PublishAndActivate(disk: Disk, reloader: Reloader, syn: Syntax, cfg: Config, plan: Plan)
    returns (r: Activation, receipt: Option<Receipt>)
    requires disk.Valid()
    modifies disk, reloader
    ensures disk.Valid() && old(disk.Faults()) <= disk.Faults()
    ensures r.Activated? ==> receipt.Some? && Deployable(syn, cfg, old(disk.Now()), plan) && disk.stages == old(disk.stages)
    ensures r.Activated? ==>
      var previous := LivePair(old(disk.Now()), plan.certificateFile, plan.privateKeyFile);
      && disk.live == Published(old(disk.Now()), plan)
      && disk.backups == old(disk.backups)[previous := BackupOf(plan, previous)]
      && receipt.value == ReceiptOf(plan, previous)
    ensures disk.Faults() == old(disk.Faults()) ==> (r.Activated? <==> Deployable(syn, cfg, old(disk.Now()), plan))
    ensures r.RolledBack? ==> disk.live == old(disk.live) && reloader.runtime == old(reloader.runtime)
    ensures (r.Activated? || r.RolledBack?) && RuntimeOf(syn, cfg, old(disk.live), old(reloader.runtime)) ==>
      RuntimeOf(syn, cfg, disk.live, reloader.runtime)
  {
    ghost var before := disk.Now();
    receipt := ExecutePublication(disk, plan);
    if receipt.None? {
      return Refused, None;
    }
    RestoreUndoes(before, plan);
    PublishedIsServed(syn, cfg, before, plan, disk.Now());
    r := Activate(disk, reloader, syn, cfg, receipt.value);
  }

  /** Restores the previous pair, checks it, and puts it in service again. */
  method BringBack(disk: Disk, reloader: Reloader, syn: Syntax, cfg: Config, receipt: Receipt) returns (ok: bool)
    requires disk.Valid()
    modifies disk, reloader
    ensures disk.Valid() && disk.backups == old(disk.backups) && old(disk.Faults()) <= disk.Faults()
    ensures ok ==> Restorable(old(disk.Now()), receipt, receipt.candidateSerial)
    ensures ok ==> RuntimeOf(syn, cfg, disk.live, reloader.runtime)
    ensures ok ==>
      disk.live == With(old(disk.live), receipt.certificateFile, receipt.privateKeyFile, PairIn(disk.backups[receipt.backup]))
    ensures disk.Faults() == old(disk.Faults()) ==>
      (ok <==> Restorable(old(disk.Now()), receipt, receipt.candidateSerial) && Servable(syn, cfg)
               && AllLoad(cfg.profiles, With(old(disk.live), receipt.certificateFile, receipt.privateKeyFile,
                                             PairIn(old(disk.backups)[receipt.backup]))))
  {
    hide Restorable, RuntimeOf, Servable, AllLoad;
    ok := RestoreAndRead(disk, receipt);
    if !ok {
      return;
    }
    ok := ReloadFromDisk(disk, reloader, syn, cfg);
  }

  /** The live files once a publication is taken back load with the previous serial. */
  lemma RestoredIsReadable(m: Moment, receipt: Receipt)
    requires Restorable(m, receipt, receipt.candidateSerial)
    ensures var live := With(m.live, receipt.certificateFile, receipt.privateKeyFile, PairIn(m.backups[receipt.backup]));
      && Readable(live, receipt.certificateFile, receipt.privateKeyFile)
      && SerialText(live[receipt.certificateFile].leaf) == receipt.previousSerial
  {
    hide SerialText;
    assert receipt.certificateFile != receipt.privateKeyFile;
  }

  /** Restores the previous pair and reads it back. */
  method RestoreAndRead(disk: Disk, receipt: Receipt) returns (ok: bool)
    requires disk.Valid()
    modifies disk
    ensures disk.Valid() && disk.backups == old(disk.backups) && old(disk.Faults()) <= disk.Faults()
    ensures ok ==> Restorable(old(disk.Now()), receipt, receipt.candidateSerial)
    ensures ok ==>
      disk.live == With(old(disk.live), receipt.certificateFile, receipt.privateKeyFile, PairIn(disk.backups[receipt.backup]))
    ensures disk.Faults() == old(disk.Faults()) ==> (ok <==> Restorable(old(disk.Now()), receipt, receipt.candidateSerial))
  {
    hide SerialText, BackupMatches, ReceiptOk, Mixed;
    ghost var before := disk.Now();
    ok := RestorePublication(disk, receipt, receipt.candidateSerial);
    if !ok {
      return;
    }
    RestoredIsReadable(before, receipt);
    var restored := disk.LoadPair(receipt.certificateFile, receipt.privateKeyFile);
    return restored.Some? && SerialText(restored.value.certificate.leaf) == receipt.previousSerial;
  }

  /** Publication, activation, restoration and a last reload: the part of a rehearsal that touches the
      live pair. */
  method Cycle(disk: Disk, reloader: Reloader, syn: Syntax, cfg: Config, plan: Plan) returns (ok: bool)
    requires disk.Valid()
    modifies disk, reloader
    ensures disk.Valid() && old(disk.Faults()) <= disk.Faults()
    ensures ok ==> disk.live == old(disk.live) && RuntimeOf(syn, cfg, disk.live, reloader.runtime)
    ensures ok ==> Readable(disk.live, plan.certificateFile, plan.privateKeyFile)
    ensures ok ==> LivePair(disk.Now(), plan.certificateFile, plan.privateKeyFile) in disk.backups
    ensures disk.Faults() == old(disk.Faults()) ==>
      (ok <==> Deployable(syn, cfg, old(disk.Now()), plan) && AllLoad(cfg.profiles, old(disk.live)))
  {
    ghost var before := disk.Now();
    var activation, receipt := PublishAndActivate(disk, reloader, syn, cfg, plan);
    if !activation.Activated? {
      return false;
    }
    PublishedIsRestorable(before, plan, disk.Now());
    RestoreUndoes(before, plan);
    ok := BringBack(disk, reloader, syn, cfg, receipt.value);
  }

  /** Everything a rehearsal needs: a request, an enabled profile, acceptable material under a free stage
      name, a live pair with the requested serial and no backup yet, and a configuration that can serve
      the live files before and after the exchange. */
  ghost predicate Rehearsable(syn: Syntax, cfg: Config, m: Moment, request: RenewalRequest, issued: Option<Pair>, now: int) {
    && RequestOk(request)
    && var found := Find(cfg.profiles, ProfileId, request.profileId);
    && found.Some? && found.value.enabled && issued.Some?
    && var p, pair := found.value, issued.value;
    && request.requestedAt <= now && AcceptableMaterial(request, pair, now) && pair.certificate !in m.stages
    && Readable(m.live, p.certificateFile, p.privateKeyFile)
    && SerialText(m.live[p.certificateFile].leaf) == request.currentSerial
    && LivePair(m, p.certificateFile, p.privateKeyFile) !in m.backups
    && Servable(syn, cfg) && AllLoad(cfg.profiles, m.live)
    && AllLoad(cfg.profiles, With(m.live, p.certificateFile, p.privateKeyFile, pair))
  }

  /** A staged renewal that can be prepared, deployed, and taken back again. */
  ghost predicate Cyclable(syn: Syntax, cfg: Config, m: Moment, p: CertificateProfile, stage: Bytes) {
    Preparable(m, p, stage) && Deployable(syn, cfg, m, PlanOf(m, p, stage)) && AllLoad(cfg.profiles, m.live)
  }

  /** Accepted material, staged: it can be prepared and published exactly when the live pair is the one asked
      for and has no backup yet. */
  lemma StagedIsPublishable(before: Moment, request: RenewalRequest, pair: Pair, now: int, p: CertificateProfile, after: Moment)
    requires RequestOk(request) && p.id == request.profileId && p.enabled && !Blank(p.certificateFile) && !Blank(p.privateKeyFile)
    requires AcceptableMaterial(request, pair, now)
    requires var c := CandidateOf(request, pair);
      after == before.(stages := before.stages[pair.certificate := Bundle(pair, ManifestOf(c, pair))])
    ensures Preparable(after, p, pair.certificate) && Publishable(after, PlanOf(after, p, pair.certificate)) <==>
      && Readable(before.live, p.certificateFile, p.privateKeyFile)
      && SerialText(before.live[p.certificateFile].leaf) == request.currentSerial
      && LivePair(before, p.certificateFile, p.privateKeyFile) !in before.backups
    ensures Preparable(after, p, pair.certificate) ==>
      var plan := PlanOf(after, p, pair.certificate);
      && plan.profileId == p.id && plan.certificateFile == p.certificateFile && plan.privateKeyFile == p.privateKeyFile
      && (Publishable(after, plan) ==>
            Published(after, plan) == With(before.live, p.certificateFile, p.privateKeyFile, pair))
  {
    StagedCandidateVerifies(request, pair, now);
    SerialTextIsTrimmed(pair.certificate.leaf);
  }

  lemma AcceptableLoads(request: RenewalRequest, pair: Pair, now: int)
    requires AcceptableMaterial(request, pair, now)
    ensures Loads(pair)
  {
  }

  lemma ServableNamesFiles(syn: Syntax, cfg: Config, p: CertificateProfile)
    requires Servable(syn, cfg) && p in cfg.profiles && p.enabled
    ensures !Blank(p.certificateFile) && !Blank(p.privateKeyFile)
  {
    hide BackendsOk, ServicesOk, RoutesOk;
  }

  /** Once its material is staged, a rehearsal can be prepared and deployed exactly when it is possible. */
  lemma StagedIsDeployable(syn: Syntax, cfg: Config, before: Moment, request: RenewalRequest, pair: Pair, now: int,
                           p: CertificateProfile, after: Moment)
    requires RequestOk(request) && Find(cfg.profiles, ProfileId, request.profileId) == Some(p) && p.enabled
    requires request.requestedAt <= now && AcceptableMaterial(request, pair, now) && pair.certificate !in before.stages
    requires var c := CandidateOf(request, pair);
      after == before.(stages := before.stages[pair.certificate := Bundle(pair, ManifestOf(c, pair))])
    ensures Cyclable(syn, cfg, after, p, pair.certificate) <==> Rehearsable(syn, cfg, before, request, Some(pair), now)
  {
    hide Servable, AllLoad, Preparable, Publishable, Readable, AcceptableMaterial, RequestOk, PlanOf, Published;
    assert Loads(pair) by {
      AcceptableLoads(request, pair, now);
    }
    ProfileNamed(cfg.profiles, request.profileId);
    if Servable(syn, cfg) {
      ServableNamesFiles(syn, cfg, p);
      StagedIsPublishable(before, request, pair, now, p, after);
    }
  }

  lemma ProfileNamed(profiles: seq<CertificateProfile>, id: string)
    ensures Find(profiles, ProfileId, id).Some? ==> Find(profiles, ProfileId, id).value in profiles && Find(profiles, ProfileId, id).value.id == id
  {
  }

  /** A rehearsal that succeeds ends as it began: the starting pair is on disk and in service, whatever
      material the issuer gave. Its backup stays, so the same pair cannot be published again into the
      same backup root. Without failures it succeeds exactly when everything it needs is there. */
  method Rehearse(disk: Disk, reloader: Reloader, syn: Syntax, cfg: Config, request: RenewalRequest,
                  issued: Option<Pair>, now: int) returns (ok: bool)
    requires disk.Valid()
    modifies disk, reloader
    ensures disk.Valid()
    ensures ok ==> disk.live == old(disk.live) && RuntimeOf(syn, cfg, old(disk.live), reloader.runtime)
    ensures ok ==> Find(cfg.profiles, ProfileId, request.profileId).Some?
    ensures ok ==>
      var p := Find(cfg.profiles, ProfileId, request.profileId).value;
      && Readable(disk.live, p.certificateFile, p.privateKeyFile)
      && LivePair(disk.Now(), p.certificateFile, p.privateKeyFile) in disk.backups
    ensures disk.Faults() == old(disk.Faults()) ==> (ok <==> Rehearsable(syn, cfg, old(disk.Now()), request, issued, now))
    ensures disk.Faults() == old(disk.Faults()) ==> (ok <==>
      && RequestOk(request) && request.requestedAt <= now && issued.Some?
      && issued.value.certificate.CertificatePem? && issued.value.privateKey.PrivateKeyPem?
      && var leaf := issued.value.certificate.leaf;
      && leaf.keyId == issued.value.privateKey.keyId && leaf.notBefore <= now < leaf.notAfter
      && (forall name | name in request.names :: name in leaf.names)
      && issued.value.certificate !in old(disk.stages)
      && Servable(syn, cfg) && AllLoad(cfg.profiles, old(disk.live))
      && exists p ::
        && p in cfg.profiles && p.id == request.profileId && p.enabled
        && Readable(old(disk.live), p.certificateFile, p.privateKeyFile)
        && SerialText(old(disk.live)[p.certificateFile].leaf) == request.currentSerial
        && leaf.serial != old(disk.live)[p.certificateFile].leaf.serial
        && LivePair(old(disk.Now()), p.certificateFile, p.privateKeyFile) !in old(disk.backups)
        && AllLoad(cfg.profiles, With(old(disk.live), p.certificateFile, p.privateKeyFile, issued.value)))
  {
    RehearsableMeans(syn, cfg, disk.Now(), request, issued, now);
    ok := RehearseIssued(disk, reloader, syn, cfg, request, issued, now);
  }

  /** What a rehearsal needs, in terms of the material and the live files alone. */
  lemma RehearsableMeans(syn: Syntax, cfg: Config, m: Moment, request: RenewalRequest, issued: Option<Pair>, now: int)
    ensures Rehearsable(syn, cfg, m, request, issued, now) <==>
      && RequestOk(request) && request.requestedAt <= now && issued.Some?
      && issued.value.certificate.CertificatePem? && issued.value.privateKey.PrivateKeyPem?
      && var leaf := issued.value.certificate.leaf;
      && leaf.keyId == issued.value.privateKey.keyId && leaf.notBefore <= now < leaf.notAfter
      && (forall name | name in request.names :: name in leaf.names)
      && issued.value.certificate !in m.stages
      && Servable(syn, cfg) && AllLoad(cfg.profiles, m.live)
      && exists p ::
        && p in cfg.profiles && p.id == request.profileId && p.enabled
        && Readable(m.live, p.certificateFile, p.privateKeyFile)
        && SerialText(m.live[p.certificateFile].leaf) == request.currentSerial
        && leaf.serial != m.live[p.certificateFile].leaf.serial
        && LivePair(m, p.certificateFile, p.privateKeyFile) !in m.backups
        && AllLoad(cfg.profiles, With(m.live, p.certificateFile, p.privateKeyFile, issued.value))
  {
    hide AllLoad, SerialText, RequestOk;
    forall p | Servable(syn, cfg)
      ensures p in cfg.profiles && p.id == request.profileId <==> Find(cfg.profiles, ProfileId, request.profileId) == Some(p)
    {
      DistinctProfiles(syn, cfg);
      Found(cfg.profiles, ProfileId, request.profileId, p);
    }
    if issued.Some? && issued.value.certificate.CertificatePem? {
      forall live: Leaf
        ensures SerialText(issued.value.certificate.leaf) == SerialText(live) <==> issued.value.certificate.leaf.serial == live.serial
      {
        SerialTextNamesOneNumber(issued.value.certificate.leaf, live);
      }
    }
  }

  lemma DistinctProfiles(syn: Syntax, cfg: Config)
    requires Servable(syn, cfg)
    ensures Distinct(cfg.profiles, ProfileId)
  {
  }

  /** A rehearsal, step by step. */
  method RehearseIssued(disk: Disk, reloader: Reloader, syn: Syntax, cfg: Config, request: RenewalRequest,
                        issued: Option<Pair>, now: int) returns (ok: bool)
    requires disk.Valid()
    modifies disk, reloader
    ensures disk.Valid()
    ensures ok ==> disk.live == old(disk.live) && RuntimeOf(syn, cfg, old(disk.live), reloader.runtime)
    ensures ok ==> Find(cfg.profiles, ProfileId, request.profileId).Some?
    ensures ok ==>
      var p := Find(cfg.profiles, ProfileId, request.profileId).value;
      && Readable(disk.live, p.certificateFile, p.privateKeyFile)
      && LivePair(disk.Now(), p.certificateFile, p.privateKeyFile) in disk.backups
    ensures disk.Faults() == old(disk.Faults()) ==> (ok <==> Rehearsable(syn, cfg, old(disk.Now()), request, issued, now))
  {
    var valid := ValidateRequest(request);
    if !valid {
      return false;
    }
    var profile := Find(cfg.profiles, ProfileId, request.profileId);
    if profile.None? || !profile.value.enabled || now < request.requestedAt || issued.None? {
      return false;
    }
    var candidate := ValidateCandidate(request, issued.value, now);
    if candidate.None? {
      return false;
    }
    ghost var before := disk.Now();
    StagedCandidateVerifies(request, issued.value, now);
    ok := StageCandidate(disk, candidate.value, issued.value);
    if !ok {
      return;
    }
    StagedIsDeployable(syn, cfg, before, request, issued.value, now, profile.value, disk.Now());
    ok := RehearseStaged(disk, reloader, syn, cfg, profile.value, issued.value.certificate);
  }

  /** The rehearsal of a renewal that is staged. */
  method RehearseStaged(disk: Disk, reloader: Reloader, syn: Syntax, cfg: Config, profile: CertificateProfile, stage: Bytes)
    returns (ok: bool)
    requires disk.Valid()
    modifies disk, reloader
    ensures disk.Valid() && old(disk.Faults()) <= disk.Faults()
    ensures ok ==> disk.live == old(disk.live) && RuntimeOf(syn, cfg, disk.live, reloader.runtime)
    ensures ok ==> Readable(disk.live, profile.certificateFile, profile.privateKeyFile)
    ensures ok ==> LivePair(disk.Now(), profile.certificateFile, profile.privateKeyFile) in disk.backups
    ensures disk.Faults() == old(disk.Faults()) ==> (ok <==> Cyclable(syn, cfg, old(disk.Now()), profile, stage))
  {
    hide Servable, AllLoad, RuntimeOf, StageVerifies, SerialText, Publishable;
    var plan := PreparePublication(disk, profile, stage);
    if plan.None? {
      return false;
    }
    ok := Cycle(disk, reloader, syn, cfg, plan.value);
  }
}
