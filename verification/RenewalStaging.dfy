/** Issued material: validation against the request, staging, verification of a staged directory, and
    the plan that binds it to the live certificate. */
module RenewalStaging {
  import opened Text
  import opened Config
  import opened Certificates
  import opened RenewalDisk

  datatype RenewalRequest = RenewalRequest(
    profileId: string,
    currentSerial: string,
    names: seq<string>,
    requestedAt: int,
    reason: string)

  datatype Candidate = Candidate(profileId: string, previousSerial: string, newSerial: string, names: seq<string>, notAfter: int)

  datatype Plan = Plan(
    profileId: string,
    currentSerial: string,
    candidateSerial: string,
    certificateFile: string,
    privateKeyFile: string,
    stage: Bytes,
    certificateDigest: Bytes,
    privateKeyDigest: Bytes)

  const RENEWAL_REASON := "certificate-renewal-window-reached"

  predicate NameOk(name: string) {
    var n := HostName(name);
    n != "" && ' ' !in n && '/' !in n && '\\' !in n
  }

  predicate RequestOk(r: RenewalRequest) {
    && !Blank(r.profileId) && !Blank(r.currentSerial)
    && r.names != [] && (forall n | n in r.names :: NameOk(n))
    && r.reason == RENEWAL_REASON
  }

  predicate Covers(leaf: Leaf, names: seq<string>) {
    forall n | n in names :: n in leaf.names
  }

  method ValidateRequest(r: RenewalRequest) returns (ok: bool)
    ensures ok <==> RequestOk(r)
    ensures ok <==>
      && Trim(r.profileId) != "" && Trim(r.currentSerial) != "" && r.names != []
      && (forall i | 0 <= i < |r.names| ::
            var name := Lower(TrimSuffix(Trim(r.names[i]), ".")); name != "" && ' ' !in name && '/' !in name && '\\' !in name)
      && r.reason == "certificate-renewal-window-reached"
  {
    if Blank(r.profileId) || Blank(r.currentSerial) || r.names == [] {
      return false;
    }
    for i := 0 to |r.names|
      invariant forall k | 0 <= k < i :: NameOk(r.names[k])
    {
      if !NameOk(r.names[i]) {
        return false;
      }
    }
    return r.reason == RENEWAL_REASON;
  }

  /** Issued material is acceptable when it loads, is valid now, rotates the serial and covers the names. */
  predicate AcceptableMaterial(request: RenewalRequest, pair: Pair, now: int) {
    && RequestOk(request) && Loads(pair)
    && var leaf := pair.certificate.leaf;
      leaf.notBefore <= now < leaf.notAfter && SerialText(leaf) != request.currentSerial && Covers(leaf, request.names)
  }

  function CandidateOf(request: RenewalRequest, pair: Pair): Candidate
    requires Loads(pair)
  {
    var leaf := pair.certificate.leaf;
    Candidate(request.profileId, request.currentSerial, SerialText(leaf), request.names, leaf.notAfter)
  }

  /** Material is accepted from the moment it becomes valid up to the moment it expires, for its own key and
      for every requested name, and only under a new serial. */
  method ValidateCandidate(request: RenewalRequest, pair: Pair, now: int) returns (r: Option<Candidate>)
    ensures r.Some? <==> AcceptableMaterial(request, pair, now)
    ensures r.Some? <==>
      && RequestOk(request)
      && pair.certificate.CertificatePem? && pair.privateKey.PrivateKeyPem?
      && pair.certificate.leaf.keyId == pair.privateKey.keyId
      && pair.certificate.leaf.notBefore <= now && now < pair.certificate.leaf.notAfter
      && SerialText(pair.certificate.leaf) != request.currentSerial
      && forall name | name in request.names :: name in pair.certificate.leaf.names
    ensures r.Some? ==>
      && r.value.profileId == request.profileId && r.value.previousSerial == request.currentSerial
      && r.value.newSerial == SerialText(pair.certificate.leaf) && r.value.names == request.names
      && r.value.notAfter == pair.certificate.leaf.notAfter && r.value == CandidateOf(request, pair)
  {
    var valid := ValidateRequest(request);
    if !valid || !Loads(pair) {
      return None;
    }
    var leaf := pair.certificate.leaf;
    if now < leaf.notBefore || !(now < leaf.notAfter) {
      return None;
    }
    if SerialText(leaf) == request.currentSerial {
      return None;
    }
    for i := 0 to |request.names|
      invariant forall k | 0 <= k < i :: request.names[k] in leaf.names
    {
      if request.names[i] !in leaf.names {
        return None;
      }
    }
    return Some(Candidate(request.profileId, request.currentSerial, SerialText(leaf), request.names, leaf.notAfter));
  }

  function ManifestOf(c: Candidate, pair: Pair): StageManifest {
    StageManifest(c.profileId, c.previousSerial, c.newSerial, c.names, c.notAfter, pair.certificate, pair.privateKey)
  }

  predicate ManifestOk(m: StageManifest) {
    && !Blank(m.profileId) && !Blank(m.previousSerial) && !Blank(m.newSerial)
    && m.previousSerial != m.newSerial && m.names != []
  }

  predicate HasPair<M>(d: Directory<M>) {
    && CertificateFile in d && d[CertificateFile].Material?
    && PrivateKeyFile in d && d[PrivateKeyFile].Material?
  }

  function PairIn<M>(d: Directory<M>): Pair
    requires HasPair(d)
  {
    Pair(d[CertificateFile].bytes, d[PrivateKeyFile].bytes)
  }

  /** Manifest, certificate and key of a staging directory agree with each other. */
  predicate StageVerifies(d: Directory<StageManifest>) {
    && HasPair(d) && ManifestFile in d && d[ManifestFile].Manifest?
    && var m, pair := d[ManifestFile].manifest, PairIn(d);
      && ManifestOk(m)
      && m.certificateDigest == pair.certificate && m.privateKeyDigest == pair.privateKey
      && Loads(pair)
      && SerialText(pair.certificate.leaf) == m.newSerial && pair.certificate.leaf.notAfter == m.notAfter
      && Covers(pair.certificate.leaf, m.names)
  }

  /** The certificate `c` and the key `k` load together, are what the manifest was made of, and have its serial,
      expiry and names. */
  ghost predicate Agree(c: Bytes, k: Bytes, m: StageManifest) {
    && m.certificateDigest == c && m.privateKeyDigest == k
    && c.CertificatePem? && k.PrivateKeyPem? && c.leaf.keyId == k.keyId
    && m.newSerial == SerialText(c.leaf) && m.notAfter == c.leaf.notAfter && forall name | name in m.names :: name in c.leaf.names
  }

  /** A staging directory verifies exactly when it holds a certificate, a key and a manifest that agree, and the
      manifest is complete and names two different serials. */
  lemma StageVerifiesMeans(d: Directory<StageManifest>)
    ensures StageVerifies(d) <==> exists c, k, m ::
      && CertificateFile in d && d[CertificateFile] == Material(c)
      && PrivateKeyFile in d && d[PrivateKeyFile] == Material(k)
      && ManifestFile in d && d[ManifestFile] == Manifest(m)
      && Agree(c, k, m)
      && Trim(m.profileId) != "" && Trim(m.previousSerial) != "" && m.previousSerial != m.newSerial && m.names != []
  {
    hide Trim, SerialText;
    if HasPair(d) && d[CertificateFile].bytes.CertificatePem? {
      SerialTextIsTrimmed(d[CertificateFile].bytes.leaf);
    }
    if StageVerifies(d) {
      assert d[CertificateFile] == Material(PairIn(d).certificate) && d[PrivateKeyFile] == Material(PairIn(d).privateKey);
      assert d[ManifestFile] == Manifest(d[ManifestFile].manifest);
      assert Agree(PairIn(d).certificate, PairIn(d).privateKey, d[ManifestFile].manifest);
    }
  }

  /** The material is that of the candidate. */
  predicate Stageable(c: Candidate, pair: Pair) {
    && Loads(pair) && !Blank(c.profileId) && !Blank(c.newSerial) && SerialText(pair.certificate.leaf) == c.newSerial
    && pair.certificate.leaf.notAfter == c.notAfter && Covers(pair.certificate.leaf, c.names)
  }

  /** What staging makes of accepted material, verification accepts, with the same identity. */
  lemma StagedCandidateVerifies(request: RenewalRequest, pair: Pair, now: int)
    requires AcceptableMaterial(request, pair, now)
    ensures var c := CandidateOf(request, pair); var d := Bundle(pair, ManifestOf(c, pair));
      && Stageable(c, pair) && StageVerifies(d) && PairIn(d) == pair && d[ManifestFile].manifest.profileId == request.profileId
      && d[ManifestFile].manifest.previousSerial == request.currentSerial
  {
    var c := CandidateOf(request, pair);
    SerialTextIsTrimmed(pair.certificate.leaf);
    assert Bundle(pair, ManifestOf(c, pair))[ManifestFile] == Manifest(ManifestOf(c, pair));
  }

  /** Writes the files of a new directory one by one, in no particular order. */
  method WriteDirectory<M>(disk: Disk, files: Directory<M>) returns (ok: bool, written: Directory<M>)
    modifies disk`clock
    ensures old(disk.Faults()) <= disk.Faults() <= old(disk.Faults()) + 1
    ensures ok <==> disk.Faults() == old(disk.Faults())
    ensures ok ==> written == files
  {
    var todo := files.Keys;
    written := map[];
    while todo != {}
      invariant disk.Faults() == old(disk.Faults())
      invariant todo <= files.Keys
      invariant written == map name | name in files.Keys - todo :: files[name]
      decreases |todo|
    {
      var name :| name in todo;
      var failed := disk.Fault();
      if failed {
        return false, written;
      }
      written := written[name := files[name]];
      todo := todo - {name};
    }
    ok := true;
  }

  /** Publishes a staging directory by one rename; an existing one of the same name is not replaced. */
  method StageCandidate(disk: Disk, c: Candidate, pair: Pair) returns (ok: bool)
    requires disk.Valid()
    modifies disk`stages, disk`clock, disk`moments
    ensures disk.Valid() && old(disk.Faults()) <= disk.Faults()
    ensures ok ==> pair.certificate !in old(disk.stages)
    ensures ok ==> disk.stages == old(disk.stages)[pair.certificate := Bundle(pair, ManifestOf(c, pair))]
    ensures ok ==> disk.stages[pair.certificate] == map[
      CertificateFile := Material(pair.certificate), PrivateKeyFile := Material(pair.privateKey),
      ManifestFile := Manifest(StageManifest(c.profileId, c.previousSerial, c.newSerial, c.names, c.notAfter,
                                             pair.certificate, pair.privateKey))]
    ensures !ok ==> disk.stages == old(disk.stages)
    ensures disk.Faults() == old(disk.Faults()) ==> (ok <==> Stageable(c, pair) && pair.certificate !in old(disk.stages))
    ensures old(disk.moments) <= disk.moments
    ensures forall i | |old(disk.moments)| <= i < |disk.moments| :: disk.moments[i].live == disk.live
  {
    hide Stageable;
    if !Stageable(c, pair) {
      return false;
    }
    var written, directory := WriteDirectory(disk, Bundle(pair, ManifestOf(c, pair)));
    if !written {
      return false;
    }
    var failed := disk.Fault();
    if failed || pair.certificate in disk.stages {
      return false;
    }
    disk.stages := disk.stages[pair.certificate := directory];
    disk.moments := disk.moments + [disk.Now()];
    return true;
  }

  /** Reopens a staging directory and checks it. */
  method VerifyStaged(disk: Disk, stage: Bytes) returns (r: Option<StageManifest>)
    modifies disk`clock
    ensures old(disk.Faults()) <= disk.Faults() <= old(disk.Faults()) + 1
    ensures r.Some? ==> disk.Faults() == old(disk.Faults()) && stage in disk.stages && StageVerifies(disk.stages[stage])
    ensures r.Some? ==> r.value == disk.stages[stage][ManifestFile].manifest
    ensures r.None? && disk.Faults() == old(disk.Faults()) ==> !(stage in disk.stages && StageVerifies(disk.stages[stage]))
  {
    var failed := disk.Fault();
    if failed || stage !in disk.stages || !StageVerifies(disk.stages[stage]) {
      return None;
    }
    return Some(disk.stages[stage][ManifestFile].manifest);
  }

  /** The staging directory verifies, is for the profile, and follows the certificate that is live. */
  predicate Preparable(m: Moment, profile: CertificateProfile, stage: Bytes) {
    && !Blank(profile.id) && profile.enabled && !Blank(profile.certificateFile) && !Blank(profile.privateKeyFile)
    && stage in m.stages && StageVerifies(m.stages[stage])
    && m.stages[stage][ManifestFile].manifest.profileId == profile.id
    && Readable(m.live, profile.certificateFile, profile.privateKeyFile)
    && SerialText(m.live[profile.certificateFile].leaf) == m.stages[stage][ManifestFile].manifest.previousSerial
  }

  /** The plan names the serial that is live, the staged one, and the digests in the manifest. */
  function PlanOf(m: Moment, profile: CertificateProfile, stage: Bytes): Plan
    requires Preparable(m, profile, stage)
  {
    var manifest := m.stages[stage][ManifestFile].manifest;
    Plan(profile.id, SerialText(m.live[profile.certificateFile].leaf), manifest.newSerial, profile.certificateFile,
         profile.privateKeyFile, stage, manifest.certificateDigest, manifest.privateKeyDigest)
  }

  /** Binds a verified staging directory to the certificate that is live now. Writes nothing. */
  method PreparePublication(disk: Disk, profile: CertificateProfile, stage: Bytes) returns (r: Option<Plan>)
    modifies disk`clock
    ensures old(disk.Faults()) <= disk.Faults()
    ensures r.Some? ==> Preparable(disk.Now(), profile, stage)
    ensures disk.Faults() == old(disk.Faults()) ==> (r.Some? <==> Preparable(disk.Now(), profile, stage))
    ensures r.Some? ==> r.value == PlanOf(disk.Now(), profile, stage)
    ensures r.Some? ==>
      && r.value.profileId == profile.id && r.value.stage == stage
      && r.value.certificateFile == profile.certificateFile && r.value.privateKeyFile == profile.privateKeyFile
      && r.value.currentSerial == SerialText(disk.live[profile.certificateFile].leaf)
      && r.value.candidateSerial == disk.stages[stage][ManifestFile].manifest.newSerial
      && Material(r.value.certificateDigest) == disk.stages[stage][CertificateFile]
      && Material(r.value.privateKeyDigest) == disk.stages[stage][PrivateKeyFile]
  {
    if Blank(profile.id) || !profile.enabled || Blank(profile.certificateFile) || Blank(profile.privateKeyFile) {
      return None;
    }
    var verified := VerifyStaged(disk, stage);
    if verified.None? || verified.value.profileId != profile.id {
      return None;
    }
    var m := verified.value;
    var current := disk.LoadPair(profile.certificateFile, profile.privateKeyFile);
    if current.None? {
      return None;
    }
    var serial := SerialText(current.value.certificate.leaf);
    if serial != m.previousSerial || serial == m.newSerial {
      return None;
    }
    return Some(Plan(profile.id, serial, m.newSerial, profile.certificateFile, profile.privateKeyFile, stage,
                     m.certificateDigest, m.privateKeyDigest));
  }
}
