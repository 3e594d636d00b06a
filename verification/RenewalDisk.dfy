/** The directories and files of a certificate renewal. Every operation may fail; `clock` counts the
    failures and `moments` keeps every state the disk has been in, which is what a crash may leave. */
module RenewalDisk {
  import opened Text
  import opened Certificates
  import opened Faults

  datatype FileName = CertificateFile | PrivateKeyFile | ManifestFile

  /** A digest is injective, so it is represented by the content it is of. */
  datatype StageManifest = StageManifest(
    profileId: string,
    previousSerial: string,
    newSerial: string,
    names: seq<string>,
    notAfter: int,
    certificateDigest: Bytes,
    privateKeyDigest: Bytes)

  datatype BackupManifest = BackupManifest(
    profileId: string,
    previousSerial: string,
    candidateSerial: string,
    certificateDigest: Bytes,
    privateKeyDigest: Bytes)

  datatype Content<+M> = Material(bytes: Bytes) | Manifest(manifest: M)

  type Directory<M> = map<FileName, Content<M>>

  function Bundle<M>(pair: Pair, manifest: M): Directory<M> {
    map[CertificateFile := Material(pair.certificate), PrivateKeyFile := Material(pair.privateKey),
        ManifestFile := Manifest(manifest)]
  }

  /** A staging directory is named by the digest of its certificate, a backup by that of its pair. */
  datatype Moment = Moment(
    live: map<string, Bytes>,
    stages: map<Bytes, Directory<StageManifest>>,
    backups: map<Pair, Directory<BackupManifest>>)

  function With(live: map<string, Bytes>, certificateFile: string, privateKeyFile: string, pair: Pair): map<string, Bytes> {
    live[privateKeyFile := pair.privateKey][certificateFile := pair.certificate]
  }

  /** Both files hold the pair, each its own half, and no other file changes. */
  lemma WithMeans(live: map<string, Bytes>, certificateFile: string, privateKeyFile: string, pair: Pair)
    requires certificateFile != privateKeyFile
    ensures var after := With(live, certificateFile, privateKeyFile, pair);
      && certificateFile in after && after[certificateFile] == pair.certificate
      && privateKeyFile in after && after[privateKeyFile] == pair.privateKey
      && after - {certificateFile, privateKeyFile} == live - {certificateFile, privateKeyFile}
  {
  }

  /** Putting one file of the pair back exchanges that half only. */
  lemma OneFileBack(base: map<string, Bytes>, certificateFile: string, privateKeyFile: string, pair: Pair, back: Pair)
    requires certificateFile != privateKeyFile
    ensures With(base, certificateFile, privateKeyFile, pair)[certificateFile := back.certificate] ==
      With(base, certificateFile, privateKeyFile, Pair(back.certificate, pair.privateKey))
    ensures forall c ::
      With(base, certificateFile, privateKeyFile, Pair(c, pair.privateKey))[privateKeyFile := back.privateKey]
      == With(base, certificateFile, privateKeyFile, Pair(c, back.privateKey))
  {
  }

  /** Each of the two live files is wholly the one or wholly the other; nothing else differs. */
  ghost predicate Mixed(base: map<string, Bytes>, live: map<string, Bytes>, certificateFile: string, privateKeyFile: string,
                        one: Pair, other: Pair) {
    exists c, k :: c in {one.certificate, other.certificate} && k in {one.privateKey, other.privateKey}
      && live == With(base, certificateFile, privateKeyFile, Pair(c, k))
  }

  class Disk {
    var live: map<string, Bytes>
    var stages: map<Bytes, Directory<StageManifest>>
    var backups: map<Pair, Directory<BackupManifest>>
    var temps: map<nat, Bytes>
    var nextTemp: nat
    const fails: Schedule
    /** How many operations have been tried. */
    var clock: nat
    ghost var moments: seq<Moment>

    ghost function Now(): Moment
      reads this
    {
      Moment(live, stages, backups)
    }

    ghost predicate Valid()
      reads this
    {
      && moments != [] && moments[|moments| - 1] == Now()
      && forall t | t in temps :: t < nextTemp
    }

    ghost function Faults(): nat
      reads `clock
    {
      Failures(fails, clock)
    }

    constructor (live: map<string, Bytes>, fails: Schedule)
      ensures Valid() && this.live == live && stages == map[] && backups == map[] && this.fails == fails && Faults() == 0
    {
      this.live, stages, backups, temps, nextTemp := live, map[], map[], map[], 0;
      this.fails, clock := fails, 0;
      moments := [Moment(live, map[], map[])];
    }

    method Fault() returns (failed: bool)
      modifies this`clock
      ensures Faults() == old(Faults()) + if failed then 1 else 0
    {
      failed := fails(clock);
      clock := clock + 1;
    }

    method Read(path: string) returns (r: Option<Bytes>)
      modifies this`clock
      ensures r.Some? ==> path in live && r.value == live[path] && Faults() == old(Faults())
      ensures r.None? ==> Faults() == old(Faults()) + if path in live then 1 else 0
    {
      if path !in live {
        return None;
      }
      var failed := Fault();
      r := if failed then None else Some(live[path]);
    }

    method LoadPair(certificateFile: string, privateKeyFile: string) returns (r: Option<Pair>)
      modifies this`clock
      ensures old(Faults()) <= Faults()
      ensures r.Some? ==> Readable(live, certificateFile, privateKeyFile) && Faults() == old(Faults())
      ensures r.Some? ==> r.value == Pair(live[certificateFile], live[privateKeyFile])
      ensures r.None? && Readable(live, certificateFile, privateKeyFile) ==> Faults() == old(Faults()) + 1
      ensures Faults() <= old(Faults()) + 1
    {
      var c := Read(certificateFile);
      if c.None? {
        return None;
      }
      var k := Read(privateKeyFile);
      if k.None? || !Loads(Pair(c.value, k.value)) {
        return None;
      }
      return Some(Pair(c.value, k.value));
    }

    /** Writes `data` to a new temporary file beside its destination. */
    method WriteTemp(data: Bytes) returns (ok: bool, t: nat)
      requires Valid()
      modifies this`temps, this`nextTemp, this`clock
      ensures Valid()
      ensures Faults() == old(Faults()) + if ok then 0 else 1
      ensures forall x | x in old(temps) :: x in temps && temps[x] == old(temps)[x]
      ensures ok ==> t in temps && t !in old(temps) && temps[t] == data
    {
      t := nextTemp;
      nextTemp := nextTemp + 1;
      var failed := Fault();
      ok := !failed;
      var leftover: bool := *;
      if ok {
        temps := temps[t := data];
      } else if leftover {
        temps := temps[t := OtherBytes(0)];
      }
    }

    method RemoveTemp(t: nat)
      requires Valid()
      modifies this`temps
      ensures Valid()
    {
      var failed: bool := *;
      if !failed {
        temps := temps - {t};
      }
    }

    method Rename(t: nat, destination: string) returns (ok: bool)
      requires Valid() && t in temps
      modifies this`live, this`temps, this`clock, this`moments
      ensures Valid()
      ensures Faults() == old(Faults()) + if ok then 0 else 1
      ensures live == if ok then old(live)[destination := old(temps)[t]] else old(live)
      ensures forall x | x in old(temps) && x != t :: x in temps && temps[x] == old(temps)[x]
      ensures moments == old(moments) + if ok then [Now()] else []
    {
      var failed := Fault();
      if failed {
        return false;
      }
      live := live[destination := temps[t]];
      temps := temps - {t};
      moments := moments + [Now()];
      return true;
    }

    /** Puts one file back: temporary sibling, rename, permissions. */
    method RestoreFile(destination: string, data: Bytes) returns (ok: bool)
      requires Valid()
      modifies this`live, this`temps, this`nextTemp, this`clock, this`moments
      ensures Valid()
      ensures old(Faults()) <= Faults() && (!ok ==> old(Faults()) < Faults())
      ensures live == old(live) || live == old(live)[destination := data]
      ensures ok ==> live == old(live)[destination := data]
      ensures old(moments) <= moments
      ensures forall i | |old(moments)| <= i < |moments| :: moments[i] == Moment(old(live)[destination := data], stages, backups)
    {
      var written, t := WriteTemp(data);
      if !written {
        return false;
      }
      var renamed := Rename(t, destination);
      if !renamed {
        RemoveTemp(t);
        return false;
      }
      var failed := Fault();
      return !failed;
    }

    /** Replaces the live pair by two renames, with a rollback to `back` on each later failure. */
    method ReplaceLivePair(certificateFile: string, privateKeyFile: string, pair: Pair, back: Pair) returns (ok: bool)
      requires Valid() && certificateFile != privateKeyFile
      requires certificateFile in live && live[certificateFile] == back.certificate
      requires privateKeyFile in live && live[privateKeyFile] == back.privateKey
      modifies this`live, this`temps, this`nextTemp, this`clock, this`moments
      ensures Valid()
      ensures ok ==> live == With(old(live), certificateFile, privateKeyFile, pair) && Faults() == old(Faults())
      ensures !ok ==> old(Faults()) < Faults()
      ensures !ok && Faults() == old(Faults()) + 1 ==> live == old(live)
      ensures Mixed(old(live), live, certificateFile, privateKeyFile, pair, back)
      ensures old(moments) <= moments
      ensures forall i | |old(moments)| <= i < |moments| ::
        moments[i].stages == stages && moments[i].backups == backups
        && Mixed(old(live), moments[i].live, certificateFile, privateKeyFile, pair, back)
    {
      ghost var base := live;
      assert base == With(base, certificateFile, privateKeyFile, back);
      var written, keyTemp := WriteTemp(pair.privateKey);
      if !written {
        return false;
      }
      var certTemp;
      written, certTemp := WriteTemp(pair.certificate);
      if !written {
        RemoveTemp(keyTemp);
        return false;
      }
      var renamed := Rename(keyTemp, privateKeyFile);
      if !renamed {
        RemoveTemp(certTemp);
        RemoveTemp(keyTemp);
        return false;
      }
      assert live == With(base, certificateFile, privateKeyFile, Pair(back.certificate, pair.privateKey));
      ok := ReplaceCertificate(base, certTemp, certificateFile, privateKeyFile, pair, back);
    }

    /** The second rename and the permission change of a replacement. */
    method ReplaceCertificate(ghost base: map<string, Bytes>, certTemp: nat, certificateFile: string, privateKeyFile: string,
                              pair: Pair, back: Pair) returns (ok: bool)
      requires Valid() && certificateFile != privateKeyFile
      requires base == With(base, certificateFile, privateKeyFile, back)
      requires live == With(base, certificateFile, privateKeyFile, Pair(back.certificate, pair.privateKey))
      requires certTemp in temps && temps[certTemp] == pair.certificate
      modifies this`live, this`temps, this`nextTemp, this`clock, this`moments
      ensures Valid()
      ensures ok ==> live == With(base, certificateFile, privateKeyFile, pair) && Faults() == old(Faults())
      ensures !ok ==> old(Faults()) < Faults()
      ensures !ok && Faults() == old(Faults()) + 1 ==> live == base
      ensures Mixed(base, live, certificateFile, privateKeyFile, pair, back)
      ensures old(moments) <= moments
      ensures forall i | |old(moments)| <= i < |moments| ::
        moments[i].stages == stages && moments[i].backups == backups
        && Mixed(base, moments[i].live, certificateFile, privateKeyFile, pair, back)
    {
      hide Failures;
      var renamed := Rename(certTemp, certificateFile);
      if !renamed {
        assert live[privateKeyFile := back.privateKey] == base;
        var _ := RestoreFile(privateKeyFile, back.privateKey);
        RemoveTemp(certTemp);
        return false;
      }
      assert live == With(base, certificateFile, privateKeyFile, pair);
      var failed := Fault();
      if failed {
        UndoPair(base, certificateFile, privateKeyFile, pair, back);
        return false;
      }
      return true;
    }

    /** Puts both files back, whatever becomes of the first. */
    method UndoPair(ghost base: map<string, Bytes>, certificateFile: string, privateKeyFile: string, pair: Pair, back: Pair)
      requires Valid() && certificateFile != privateKeyFile
      requires base == With(base, certificateFile, privateKeyFile, back)
      requires live == With(base, certificateFile, privateKeyFile, pair)
      modifies this`live, this`temps, this`nextTemp, this`clock, this`moments
      ensures Valid() && old(Faults()) <= Faults()
      ensures Faults() == old(Faults()) ==> live == base
      ensures Mixed(base, live, certificateFile, privateKeyFile, pair, back)
      ensures old(moments) <= moments
      ensures forall i | |old(moments)| <= i < |moments| ::
        moments[i].stages == stages && moments[i].backups == backups
        && Mixed(base, moments[i].live, certificateFile, privateKeyFile, pair, back)
    {
      hide Failures, With;
      OneFileBack(base, certificateFile, privateKeyFile, pair, back);
      var certificateBack := RestoreFile(certificateFile, back.certificate);
      ghost var c := if live == old(live) then pair.certificate else back.certificate;
      assert live == With(base, certificateFile, privateKeyFile, Pair(c, pair.privateKey));
      var keyBack := RestoreFile(privateKeyFile, back.privateKey);
    }
  }
}
