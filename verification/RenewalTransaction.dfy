/** Publication of a staged pair over the live pair, and its explicit restoration. */
module RenewalTransaction {
  import opened Text
  import opened Certificates
  import opened RenewalDisk
  import opened RenewalStaging

  datatype Receipt = Receipt(
    profileId: string,
    previousSerial: string,
    candidateSerial: string,
    certificateFile: string,
    privateKeyFile: string,
    backup: Pair)

  predicate PlanOk(plan: Plan) {
    && !Blank(plan.profileId) && !Blank(plan.currentSerial) && !Blank(plan.candidateSerial)
    && plan.currentSerial != plan.candidateSerial
    && !Blank(plan.certificateFile) && !Blank(plan.privateKeyFile)
  }

  predicate PlanMatches(plan: Plan, m: StageManifest) {
    && m.profileId == plan.profileId && m.previousSerial == plan.currentSerial && m.newSerial == plan.candidateSerial
    && m.certificateDigest == plan.certificateDigest && m.privateKeyDigest == plan.privateKeyDigest
  }

  /** The state a plan demands: its staging directory verifies and matches, the live pair loads with
      the serial the plan was made for, and that pair has no backup yet. */
  predicate Publishable(m: Moment, plan: Plan) {
    && PlanOk(plan)
    && plan.stage in m.stages && StageVerifies(m.stages[plan.stage])
    && PlanMatches(plan, m.stages[plan.stage][ManifestFile].manifest)
    && Readable(m.live, plan.certificateFile, plan.privateKeyFile)
    && SerialText(m.live[plan.certificateFile].leaf) == plan.currentSerial
    && LivePair(m, plan.certificateFile, plan.privateKeyFile) !in m.backups
  }

  /** A plan is publishable exactly when it is complete and names two different serials, its staging directory
      verifies and is the one it was made for, the live pair loads with the serial it replaces, and that
      pair has no backup yet. */
  lemma PublishableMeans(m: Moment, plan: Plan)
    ensures Publishable(m, plan) <==>
      && Trim(plan.profileId) != "" && Trim(plan.currentSerial) != "" && Trim(plan.candidateSerial) != ""
      && plan.currentSerial != plan.candidateSerial && Trim(plan.certificateFile) != "" && Trim(plan.privateKeyFile) != ""
      && plan.stage in m.stages && StageVerifies(m.stages[plan.stage])
      && (exists manifest ::
            && m.stages[plan.stage][ManifestFile] == Manifest(manifest)
            && manifest.profileId == plan.profileId && manifest.previousSerial == plan.currentSerial
            && manifest.newSerial == plan.candidateSerial
            && manifest.certificateDigest == plan.certificateDigest && manifest.privateKeyDigest == plan.privateKeyDigest)
      && plan.certificateFile in m.live && plan.privateKeyFile in m.live
      && (exists leaf, keyTag ::
            && m.live[plan.certificateFile] == CertificatePem(leaf) && m.live[plan.privateKeyFile] == PrivateKeyPem(leaf.keyId, keyTag)
            && SerialText(leaf) == plan.currentSerial)
      && Pair(m.live[plan.certificateFile], m.live[plan.privateKeyFile]) !in m.backups
  {
    hide Trim, SerialText;
    if plan.stage in m.stages && StageVerifies(m.stages[plan.stage]) {
      assert m.stages[plan.stage][ManifestFile] == Manifest(m.stages[plan.stage][ManifestFile].manifest);
    }
    if Readable(m.live, plan.certificateFile, plan.privateKeyFile) {
      var c, k := m.live[plan.certificateFile], m.live[plan.privateKeyFile];
      assert c == CertificatePem(c.leaf) && k == PrivateKeyPem(c.leaf.keyId, k.tag);
    }
  }

  function LivePair(m: Moment, certificateFile: string, privateKeyFile: string): Pair
    requires certificateFile in m.live && privateKeyFile in m.live
  {
    Pair(m.live[certificateFile], m.live[privateKeyFile])
  }

  function BackupOf(plan: Plan, pair: Pair): Directory<BackupManifest> {
    Bundle(pair, BackupManifest(plan.profileId, plan.currentSerial, plan.candidateSerial, pair.certificate, pair.privateKey))
  }

  /** A state both pairs can be recovered from: each live file is wholly old or wholly new, the staged
      pair is intact, and once anything differs from the old pair its backup is complete. */
  ghost predicate Salvageable(before: Moment, plan: Plan, m: Moment)
    requires Publishable(before, plan)
  {
    var old_ := LivePair(before, plan.certificateFile, plan.privateKeyFile);
    && Mixed(before.live, m.live, plan.certificateFile, plan.privateKeyFile, PairIn(before.stages[plan.stage]), old_)
    && m.stages == before.stages
    && (m.live != before.live ==> m.backups == before.backups[old_ := BackupOf(plan, old_)])
  }

  method CreateBackup(disk: Disk, plan: Plan, pair: Pair) returns (ok: bool)
    requires disk.Valid()
    modifies disk`backups, disk`clock, disk`moments
    ensures disk.Valid() && old(disk.Faults()) <= disk.Faults() <= old(disk.Faults()) + 1
    ensures ok ==> pair !in old(disk.backups) && disk.Faults() == old(disk.Faults())
    ensures disk.backups == if ok then old(disk.backups)[pair := BackupOf(plan, pair)] else old(disk.backups)
    ensures !ok ==> pair in old(disk.backups) || disk.Faults() == old(disk.Faults()) + 1
    ensures disk.moments == old(disk.moments) + if ok then [disk.Now()] else []
  {
    var written, directory := WriteDirectory(disk, BackupOf(plan, pair));
    if !written || pair in disk.backups {
      return false;
    }
    var failed := disk.Fault();
    if failed {
      return false;
    }
    disk.backups := disk.backups[pair := directory];
    disk.moments := disk.moments + [disk.Now()];
    return true;
  }

  /** Replaces the live pair by the staged one and checks the result; a failed check is rolled back. */
  method PublishPair(disk: Disk, plan: Plan, staged: Pair, current: Pair) returns (ok: bool)
    requires disk.Valid() && plan.certificateFile != plan.privateKeyFile
    requires plan.certificateFile in disk.live && disk.live[plan.certificateFile] == current.certificate
    requires plan.privateKeyFile in disk.live && disk.live[plan.privateKeyFile] == current.privateKey
    requires Loads(staged) && SerialText(staged.certificate.leaf) == plan.candidateSerial
    modifies disk`live, disk`temps, disk`nextTemp, disk`clock, disk`moments
    ensures disk.Valid() && old(disk.Faults()) <= disk.Faults()
    ensures ok ==> disk.live == With(old(disk.live), plan.certificateFile, plan.privateKeyFile, staged)
    ensures !ok ==> old(disk.Faults()) < disk.Faults()
    ensures !ok && disk.Faults() <= old(disk.Faults()) + 1 ==> disk.live == old(disk.live)
    ensures Mixed(old(disk.live), disk.live, plan.certificateFile, plan.privateKeyFile, staged, current)
    ensures old(disk.moments) <= disk.moments
    ensures forall i | |old(disk.moments)| <= i < |disk.moments| ::
      disk.moments[i].stages == disk.stages && disk.moments[i].backups == disk.backups
      && Mixed(old(disk.live), disk.moments[i].live, plan.certificateFile, plan.privateKeyFile, staged, current)
  {
    hide SerialText, Mixed;
    ghost var base := disk.live;
    ok := disk.ReplaceLivePair(plan.certificateFile, plan.privateKeyFile, staged, current);
    if !ok {
      return;
    }
    var published := disk.LoadPair(plan.certificateFile, plan.privateKeyFile);
    if published.None? || SerialText(published.value.certificate.leaf) != plan.candidateSerial {
      ghost var done := disk.moments;
      ghost var mixed := disk.live;
      var _ := disk.ReplaceLivePair(plan.certificateFile, plan.privateKeyFile, current, staged);
      RollbackStaysMixed(base, mixed, disk.live, plan.certificateFile, plan.privateKeyFile, staged, current);
      forall i | |old(disk.moments)| <= i < |disk.moments|
        ensures Mixed(base, disk.moments[i].live, plan.certificateFile, plan.privateKeyFile, staged, current)
      {
        if i >= |done| {
          RollbackStaysMixed(base, mixed, disk.moments[i].live, plan.certificateFile, plan.privateKeyFile, staged, current);
        } else {
          assert disk.moments[i] == done[i];
        }
      }
      return false;
    }
  }

  lemma Overwritten(base: map<string, Bytes>, certificateFile: string, privateKeyFile: string, first: Pair, second: Pair)
    requires certificateFile != privateKeyFile
    ensures With(With(base, certificateFile, privateKeyFile, first), certificateFile, privateKeyFile, second) ==
            With(base, certificateFile, privateKeyFile, second)
  {
  }

  lemma RollbackStaysMixed(base: map<string, Bytes>, published: map<string, Bytes>, live: map<string, Bytes>,
                           certificateFile: string, privateKeyFile: string, staged: Pair, current: Pair)
    requires certificateFile != privateKeyFile
    requires published == With(base, certificateFile, privateKeyFile, staged)
    requires Mixed(published, live, certificateFile, privateKeyFile, current, staged)
    ensures Mixed(base, live, certificateFile, privateKeyFile, staged, current)
  {
    var c, k :| c in {current.certificate, staged.certificate} && k in {current.privateKey, staged.privateKey}
      && live == With(published, certificateFile, privateKeyFile, Pair(c, k));
    Overwritten(base, certificateFile, privateKeyFile, staged, Pair(c, k));
  }

  /** The checks before anything is written: the staged and the live pair are still those of the plan. */
  method CheckPlan(disk: Disk, plan: Plan) returns (r: Option<(Pair, Pair)>)
    modifies disk`clock
    ensures old(disk.Faults()) <= disk.Faults()
    ensures r.Some? ==> disk.Faults() == old(disk.Faults())
    ensures r.Some? ==>
      && PlanOk(plan) && plan.stage in disk.stages && StageVerifies(disk.stages[plan.stage])
      && PlanMatches(plan, disk.stages[plan.stage][ManifestFile].manifest)
      && Readable(disk.live, plan.certificateFile, plan.privateKeyFile)
      && SerialText(disk.live[plan.certificateFile].leaf) == plan.currentSerial
      && r.value == (PairIn(disk.stages[plan.stage]), LivePair(disk.Now(), plan.certificateFile, plan.privateKeyFile))
    ensures r.None? && disk.Faults() == old(disk.Faults()) ==> !Publishable(disk.Now(), plan)
  {
    if !PlanOk(plan) {
      return None;
    }
    var verified := VerifyStaged(disk, plan.stage);
    if verified.None? || !PlanMatches(plan, verified.value) {
      return None;
    }
    var current := disk.LoadPair(plan.certificateFile, plan.privateKeyFile);
    if current.None? || SerialText(current.value.certificate.leaf) != plan.currentSerial {
      return None;
    }
    var failed := disk.Fault();
    if failed {
      return None;
    }
    return Some((PairIn(disk.stages[plan.stage]), current.value));
  }

  /** Publishes a planned renewal. With at most one failing operation it ends with exactly the candidate
      pair live, or with an error and exactly the previous pair live; after any failures and at every
      moment on the way both pairs can be salvaged. */
  method ExecutePublication(disk: Disk, plan: Plan) returns (r: Option<Receipt>)
    requires disk.Valid()
    modifies disk
    ensures disk.Valid() && disk.stages == old(disk.stages) && old(disk.Faults()) <= disk.Faults()
    ensures r.Some? ==> Publishable(old(disk.Now()), plan)
    ensures r.Some? ==>
      var previous := LivePair(old(disk.Now()), plan.certificateFile, plan.privateKeyFile);
      && disk.live == With(old(disk.live), plan.certificateFile, plan.privateKeyFile, PairIn(disk.stages[plan.stage]))
      && disk.backups == old(disk.backups)[previous := BackupOf(plan, previous)]
      && r.value == Receipt(plan.profileId, plan.currentSerial, plan.candidateSerial, plan.certificateFile, plan.privateKeyFile, previous)
    ensures disk.Faults() == old(disk.Faults()) ==> (r.Some? <==> Publishable(old(disk.Now()), plan))
    ensures r.None? && disk.Faults() <= old(disk.Faults()) + 1 ==> disk.live == old(disk.live)
    ensures old(disk.moments) <= disk.moments
    ensures !Publishable(old(disk.Now()), plan) ==> disk.live == old(disk.live) && disk.moments == old(disk.moments)
    ensures Publishable(old(disk.Now()), plan) ==>
      && Salvageable(old(disk.Now()), plan, disk.Now())
      && forall i | |old(disk.moments)| <= i < |disk.moments| :: Salvageable(old(disk.Now()), plan, disk.moments[i])
  {
    hide StageVerifies, PlanOk, PlanMatches, SerialText, Mixed;
    ghost var before := disk.Now();
    var checked := CheckPlan(disk, plan);
    if checked.None? {
      ProveUntouched(before, plan, disk);
      return None;
    }
    var (staged, current) := checked.value;
    var backed := CreateBackup(disk, plan, current);
    if !backed {
      ProveUntouched(before, plan, disk);
      return None;
    }
    assert plan.certificateFile != plan.privateKeyFile;
    ghost var prepared := disk.moments;
    SalvageUnchanged(before, plan, disk.Now());
    var ok := PublishPair(disk, plan, staged, current);
    forall i | |prepared| <= i < |disk.moments|
      ensures Salvageable(before, plan, disk.moments[i])
    {
      assert Mixed(before.live, disk.moments[i].live, plan.certificateFile, plan.privateKeyFile, staged, current);
    }
    return if ok then Some(Receipt(plan.profileId, plan.currentSerial, plan.candidateSerial, plan.certificateFile,
                                   plan.privateKeyFile, current)) else None;
  }

  lemma SalvageUnchanged(before: Moment, plan: Plan, m: Moment)
    requires Publishable(before, plan) && m.live == before.live && m.stages == before.stages
    ensures Salvageable(before, plan, m)
  {
    var previous := LivePair(before, plan.certificateFile, plan.privateKeyFile);
    assert before.live == With(before.live, plan.certificateFile, plan.privateKeyFile, previous);
  }

  lemma ProveUntouched(before: Moment, plan: Plan, disk: Disk)
    requires disk.Now() == before
    ensures Publishable(before, plan) ==> Salvageable(before, plan, disk.Now())
  {
    if Publishable(before, plan) {
      SalvageUnchanged(before, plan, before);
    }
  }

  // ---- restoration ----

  predicate BackupReads(d: Directory<BackupManifest>) {
    && HasPair(d) && ManifestFile in d && d[ManifestFile].Manifest?
    && d[ManifestFile].manifest.certificateDigest == PairIn(d).certificate
    && d[ManifestFile].manifest.privateKeyDigest == PairIn(d).privateKey
  }

  predicate ReceiptOk(receipt: Receipt) {
    && !Blank(receipt.profileId) && !Blank(receipt.previousSerial) && !Blank(receipt.candidateSerial)
    && !Blank(receipt.certificateFile) && !Blank(receipt.privateKeyFile)
  }

  /** The backup named by the receipt is intact, is for this publication, and loads with the previous serial. */
  predicate BackupMatches(d: Directory<BackupManifest>, receipt: Receipt) {
    && BackupReads(d)
    && var m, pair := d[ManifestFile].manifest, PairIn(d);
      && m.profileId == receipt.profileId && m.previousSerial == receipt.previousSerial
      && m.candidateSerial == receipt.candidateSerial
      && Loads(pair) && SerialText(pair.certificate.leaf) == receipt.previousSerial
  }

  /** What a restoration demands: the candidate is still live and its backup matches the receipt. */
  predicate Restorable(m: Moment, receipt: Receipt, expectedSerial: string) {
    && ReceiptOk(receipt) && Trim(expectedSerial) == receipt.candidateSerial
    && Readable(m.live, receipt.certificateFile, receipt.privateKeyFile)
    && SerialText(m.live[receipt.certificateFile].leaf) == receipt.candidateSerial
    && receipt.backup in m.backups && BackupMatches(m.backups[receipt.backup], receipt)
  }

  /** A publication can be restored exactly when the receipt is complete, the serial given is the candidate's and
      is live, and the backup holds the pair it says, for this publication, with the serial before it. */
  lemma RestorableMeans(m: Moment, receipt: Receipt, expectedSerial: string)
    ensures Restorable(m, receipt, expectedSerial) <==>
      && Trim(receipt.profileId) != "" && Trim(receipt.previousSerial) != "" && Trim(receipt.candidateSerial) != ""
      && Trim(receipt.certificateFile) != "" && Trim(receipt.privateKeyFile) != ""
      && Trim(expectedSerial) == receipt.candidateSerial
      && receipt.certificateFile in m.live && receipt.privateKeyFile in m.live
      && (exists leaf, keyTag ::
            && m.live[receipt.certificateFile] == CertificatePem(leaf)
            && m.live[receipt.privateKeyFile] == PrivateKeyPem(leaf.keyId, keyTag)
            && SerialText(leaf) == receipt.candidateSerial)
      && receipt.backup in m.backups
      && (exists leaf, tag, manifest :: HoldsBackup(m.backups[receipt.backup], leaf, tag, manifest, receipt))
  {
    hide Trim, SerialText;
    if Readable(m.live, receipt.certificateFile, receipt.privateKeyFile) {
      var c, k := m.live[receipt.certificateFile], m.live[receipt.privateKeyFile];
      assert c == CertificatePem(c.leaf) && k == PrivateKeyPem(c.leaf.keyId, k.tag);
    }
    if receipt.backup in m.backups && BackupMatches(m.backups[receipt.backup], receipt) {
      var d := m.backups[receipt.backup];
      var pair := PairIn(d);
      assert HoldsBackup(d, pair.certificate.leaf, pair.privateKey.tag, d[ManifestFile].manifest, receipt);
    }
  }

  ghost predicate HoldsBackup(d: Directory<BackupManifest>, leaf: Leaf, tag: nat, m: BackupManifest, receipt: Receipt) {
    && CertificateFile in d && d[CertificateFile] == Material(CertificatePem(leaf))
    && PrivateKeyFile in d && d[PrivateKeyFile] == Material(PrivateKeyPem(leaf.keyId, tag))
    && ManifestFile in d && d[ManifestFile] == Manifest(m)
    && m == BackupManifest(receipt.profileId, receipt.previousSerial, receipt.candidateSerial,
                           CertificatePem(leaf), PrivateKeyPem(leaf.keyId, tag))
    && SerialText(leaf) == receipt.previousSerial
  }

  /** The checks before anything is written; they give the saved pair and the one that is live. */
  method CheckRestoration(disk: Disk, receipt: Receipt, expectedSerial: string) returns (r: Option<(Pair, Pair)>)
    modifies disk`clock
    ensures old(disk.Faults()) <= disk.Faults()
    ensures r.Some? ==> disk.Faults() == old(disk.Faults()) && Restorable(disk.Now(), receipt, expectedSerial)
    ensures r.Some? ==>
      r.value == (PairIn(disk.backups[receipt.backup]), LivePair(disk.Now(), receipt.certificateFile, receipt.privateKeyFile))
    ensures r.None? && disk.Faults() == old(disk.Faults()) ==> !Restorable(disk.Now(), receipt, expectedSerial)
  {
    if !ReceiptOk(receipt) || Trim(expectedSerial) == "" || Trim(expectedSerial) != receipt.candidateSerial {
      return None;
    }
    var current := disk.LoadPair(receipt.certificateFile, receipt.privateKeyFile);
    if current.None? || SerialText(current.value.certificate.leaf) != receipt.candidateSerial {
      return None;
    }
    var failed := disk.Fault();
    if failed || receipt.backup !in disk.backups || !BackupMatches(disk.backups[receipt.backup], receipt) {
      return None;
    }
    failed := disk.Fault();
    if failed {
      return None;
    }
    return Some((PairIn(disk.backups[receipt.backup]), current.value));
  }

  /** Restores the pair saved before publication, only while the candidate is still live. With at most
      one failing operation the live pair is, whole, the candidate or the backed-up pair. */
  method RestorePublication(disk: Disk, receipt: Receipt, expectedSerial: string) returns (ok: bool)
    requires disk.Valid()
    modifies disk
    ensures disk.Valid() && disk.stages == old(disk.stages) && disk.backups == old(disk.backups) && old(disk.Faults()) <= disk.Faults()
    ensures ok ==> Restorable(old(disk.Now()), receipt, expectedSerial)
    ensures ok ==> disk.live == With(old(disk.live), receipt.certificateFile, receipt.privateKeyFile, PairIn(disk.backups[receipt.backup]))
    ensures disk.Faults() == old(disk.Faults()) ==> (ok <==> Restorable(old(disk.Now()), receipt, expectedSerial))
    ensures !Restorable(old(disk.Now()), receipt, expectedSerial) ==> disk.live == old(disk.live) && disk.moments == old(disk.moments)
    ensures !ok && disk.Faults() <= old(disk.Faults()) + 1 ==>
      || disk.live == old(disk.live)
      || disk.live == With(old(disk.live), receipt.certificateFile, receipt.privateKeyFile, PairIn(disk.backups[receipt.backup]))
    ensures old(disk.moments) <= disk.moments
    ensures Restorable(old(disk.Now()), receipt, expectedSerial) ==>
      forall i | |old(disk.moments)| <= i < |disk.moments| ::
        && disk.moments[i].stages == disk.stages && disk.moments[i].backups == disk.backups
        && Mixed(old(disk.live), disk.moments[i].live, receipt.certificateFile, receipt.privateKeyFile,
                 PairIn(disk.backups[receipt.backup]), LivePair(old(disk.Now()), receipt.certificateFile, receipt.privateKeyFile))
  {
    hide SerialText, BackupReads, ReceiptOk, Mixed;
    var checked := CheckRestoration(disk, receipt, expectedSerial);
    if checked.None? {
      return false;
    }
    var (saved, current) := checked.value;
    ok := PutBack(disk, receipt, saved, current);
  }

  /** Replaces the live pair by the saved one and reads it back. */
  method PutBack(disk: Disk, receipt: Receipt, saved: Pair, current: Pair) returns (ok: bool)
    requires disk.Valid() && receipt.certificateFile != receipt.privateKeyFile
    requires receipt.certificateFile in disk.live && disk.live[receipt.certificateFile] == current.certificate
    requires receipt.privateKeyFile in disk.live && disk.live[receipt.privateKeyFile] == current.privateKey
    requires Loads(saved) && SerialText(saved.certificate.leaf) == receipt.previousSerial
    modifies disk`live, disk`temps, disk`nextTemp, disk`clock, disk`moments
    ensures disk.Valid() && old(disk.Faults()) <= disk.Faults()
    ensures ok ==> disk.live == With(old(disk.live), receipt.certificateFile, receipt.privateKeyFile, saved)
    ensures disk.Faults() == old(disk.Faults()) ==> ok
    ensures disk.Faults() <= old(disk.Faults()) + 1 ==>
      disk.live == old(disk.live) || disk.live == With(old(disk.live), receipt.certificateFile, receipt.privateKeyFile, saved)
    ensures old(disk.moments) <= disk.moments
    ensures forall i | |old(disk.moments)| <= i < |disk.moments| ::
      disk.moments[i].stages == disk.stages && disk.moments[i].backups == disk.backups
      && Mixed(old(disk.live), disk.moments[i].live, receipt.certificateFile, receipt.privateKeyFile, saved, current)
  {
    ok := disk.ReplaceLivePair(receipt.certificateFile, receipt.privateKeyFile, saved, current);
    if !ok {
      return;
    }
    var restored := disk.LoadPair(receipt.certificateFile, receipt.privateKeyFile);
    return restored.Some? && SerialText(restored.value.certificate.leaf) == receipt.previousSerial;
  }

  /** Writing the backed-up pair over the published one gives the live files of before. */
  lemma RestoreUndoes(before: Moment, plan: Plan)
    requires Readable(before.live, plan.certificateFile, plan.privateKeyFile)
    ensures var previous := LivePair(before, plan.certificateFile, plan.privateKeyFile);
      && HasPair(BackupOf(plan, previous)) && PairIn(BackupOf(plan, previous)) == previous
      && forall staged :: With(With(before.live, plan.certificateFile, plan.privateKeyFile, staged),
                               plan.certificateFile, plan.privateKeyFile, previous) == before.live
  {
    var previous := LivePair(before, plan.certificateFile, plan.privateKeyFile);
    forall staged
      ensures With(With(before.live, plan.certificateFile, plan.privateKeyFile, staged),
                   plan.certificateFile, plan.privateKeyFile, previous) == before.live
    {
      Overwritten(before.live, plan.certificateFile, plan.privateKeyFile, staged, previous);
    }
  }

  /** The live files once a plan is published. */
  function Published(m: Moment, plan: Plan): map<string, Bytes>
    requires Publishable(m, plan)
  {
    With(m.live, plan.certificateFile, plan.privateKeyFile, PairIn(m.stages[plan.stage]))
  }

  function ReceiptOf(plan: Plan, previous: Pair): Receipt {
    Receipt(plan.profileId, plan.currentSerial, plan.candidateSerial, plan.certificateFile, plan.privateKeyFile, previous)
  }

  /** After its publication a plan can be undone. */
  lemma PublishedIsRestorable(before: Moment, plan: Plan, after: Moment)
    requires Publishable(before, plan) && after.live == Published(before, plan)
    requires var previous := LivePair(before, plan.certificateFile, plan.privateKeyFile);
      after.backups == before.backups[previous := BackupOf(plan, previous)]
    ensures Restorable(after, ReceiptOf(plan, LivePair(before, plan.certificateFile, plan.privateKeyFile)), plan.candidateSerial)
  {
    SerialTextIsTrimmed(PairIn(before.stages[plan.stage]).certificate.leaf);
    assert plan.certificateFile != plan.privateKeyFile;
    assert Loads(PairIn(before.stages[plan.stage]));
    var previous := LivePair(before, plan.certificateFile, plan.privateKeyFile);
    assert PairIn(BackupOf(plan, previous)) == previous;
  }

  /** A publication and its restoration leave the live files exactly as they were; without failures
      the two succeed exactly on a publishable plan. */
  method PublishThenRestore(disk: Disk, plan: Plan) returns (ok: bool)
    requires disk.Valid()
    modifies disk
    ensures disk.Valid()
    ensures ok ==> disk.live == old(disk.live)
    ensures disk.Faults() == old(disk.Faults()) ==> (ok <==> Publishable(old(disk.Now()), plan))
  {
    ghost var before := disk.Now();
    var receipt := ExecutePublication(disk, plan);
    if receipt.None? {
      return false;
    }
    RestoreUndoes(before, plan);
    PublishedIsRestorable(before, plan, disk.Now());
    hide Restorable, Publishable;
    ok := RestorePublication(disk, receipt.value, receipt.value.candidateSerial);
  }
}
