/** The configuration file over its life: staging, snapshots, compare-and-swap activation, restoration. */
module Lifecycle {
  import opened Text
  import opened TrustedProxy
  import opened Config
  import opened Faults

  /** File contents. `tag` tells apart texts that decode to the same configuration. A digest is
      injective, so it is represented by the document it is of. */
  datatype Document = Json(cfg: Config, tag: nat) | NotJson(tag: nat)

  datatype Manifest = Manifest(sourceRevision: string, digest: Document)

  /** A staged or snapshot directory; a crash may leave it without its manifest or even its file. */
  datatype Entry = Entry(config: Option<Document>, manifest: Option<Manifest>)

  /** Directories are named by the time of their creation and the digest they are for. */
  type Name = (nat, Document)

  datatype Moment = Moment(active: Document, staged: map<Name, Entry>, snapshots: map<Name, Entry>)

  datatype Receipt = Receipt(previous: Document, activated: Document, snapshot: Name)

  predicate RevisionOk(revision: string) {
    |revision| == 40 && forall c | c in revision :: '0' <= c <= '9' || 'a' <= c <= 'f'
  }

  /** A revision is a full Git object name in hexadecimal. */
  lemma RevisionMeans(revision: string)
    ensures RevisionOk(revision) <==> |revision| == 40 && forall c | c in revision :: c in "0123456789abcdef"
  {
    assert forall k | 0 <= k < 16 :: "0123456789abcdef"[k] as int == if k < 10 then 48 + k else 87 + k;
    forall c: char
      ensures ('0' <= c <= '9' || 'a' <= c <= 'f') <==> c in "0123456789abcdef"
    {
      if '0' <= c <= '9' {
        assert "0123456789abcdef"[c as int - 48] == c;
      }
      if 'a' <= c <= 'f' {
        assert "0123456789abcdef"[c as int - 87] == c;
      }
    }
  }

  ghost predicate Validated(syn: Syntax, d: Document) {
    d.Json? && WellFormed(syn, d.cfg)
  }

  method ValidateDocument(syn: Syntax, d: Document) returns (ok: bool)
    ensures ok <==> Validated(syn, d)
  {
    if d.NotJson? {
      return false;
    }
    ok := Validate(syn, d.cfg);
  }

  /** A directory that can be activated or restored from: both files, agreeing digest, valid content. */
  ghost predicate Whole(syn: Syntax, e: Entry) {
    && e.config.Some? && e.manifest.Some? && RevisionOk(e.manifest.value.sourceRevision)
    && e.manifest.value.digest == e.config.value && Validated(syn, e.config.value)
  }

  ghost predicate Keeps(entries: map<Name, Entry>, d: Document) {
    exists name :: name in entries && entries[name].config == Some(d)
  }

  /** `d` can still be found on disk. */
  ghost predicate Retained(m: Moment, d: Document) {
    m.active == d || Keeps(m.staged, d) || Keeps(m.snapshots, d)
  }

  /** At moment `m` the active file held validated content that can still be found on disk `now`. */
  ghost predicate Sound(syn: Syntax, now: Moment, m: Moment) {
    Validated(syn, m.active) && Retained(now, m.active)
  }

  /** Directories are only added to, never emptied. */
  ghost predicate Grows(a: map<Name, Entry>, b: map<Name, Entry>) {
    forall name | name in a ::
      name in b && (a[name].config.Some? ==> b[name].config == a[name].config)
      && (a[name].manifest.Some? ==> b[name] == a[name])
  }

  lemma GrowsKeeps(a: map<Name, Entry>, b: map<Name, Entry>, d: Document)
    requires Grows(a, b) && Keeps(a, d)
    ensures Keeps(b, d)
  {
    var name :| name in a && a[name].config == Some(d);
    assert name in b;
  }

  /** Replacing the active content loses nothing that has a directory. */
  lemma RetainedAfterReplacement(before: Moment, d: Document, held: Document)
    requires Retained(before, held) && (Keeps(before.staged, before.active) || Keeps(before.snapshots, before.active))
    ensures Retained(before.(active := d), held)
  {
  }

  /** A new directory, and the next stage of it, only add. */
  lemma GrowsToItself(entries: map<Name, Entry>)
    ensures Grows(entries, entries)
  {
  }

  lemma StagesGrow(entries: map<Name, Entry>, name: Name, one: Entry, next: Entry)
    requires name !in entries && one.manifest.None? && (one.config.Some? ==> next.config == one.config)
    ensures Grows(entries, entries[name := one]) && Grows(entries, entries[name := next])
    ensures Grows(entries[name := one], entries[name := one][name := next])
    ensures entries[name := one][name := next] == entries[name := next]
  {
  }

  lemma SoundAfterGrowth(syn: Syntax, before: Moment, now: Moment, m: Moment)
    requires now.active == before.active && Grows(before.staged, now.staged) && Grows(before.snapshots, now.snapshots)
    requires Sound(syn, before, m)
    ensures Sound(syn, now, m)
  {
    if Keeps(before.staged, m.active) {
      GrowsKeeps(before.staged, now.staged, m.active);
    }
    if Keeps(before.snapshots, m.active) {
      GrowsKeeps(before.snapshots, now.snapshots, m.active);
    }
  }

  /** The active content is found in a directory too, unless it is the only content there ever was. */
  ghost predicate Anchored(now: Moment, moments: seq<Moment>) {
    || Keeps(now.staged, now.active) || Keeps(now.snapshots, now.active)
    || ((forall i | 0 <= i < |moments| :: moments[i].active == now.active) && forall d | Keeps(now.snapshots, d) :: d == now.active)
  }

  lemma AnchoredAfterGrowth(before: Moment, now: Moment, moments: seq<Moment>)
    requires now.active == before.active && Grows(before.staged, now.staged) && Grows(before.snapshots, now.snapshots)
    requires forall d | Keeps(now.snapshots, d) :: Keeps(before.snapshots, d) || d == now.active
    requires Anchored(before, moments)
    ensures Anchored(now, moments + [now])
  {
    if Keeps(before.staged, before.active) {
      GrowsKeeps(before.staged, now.staged, now.active);
    } else if Keeps(before.snapshots, before.active) {
      GrowsKeeps(before.snapshots, now.snapshots, now.active);
    }
  }

  lemma OnlyActiveAdded(before: Moment, name: Name, entry: Entry)
    requires entry.config.Some? ==> entry.config.value == before.active
    ensures forall d | Keeps(before.snapshots[name := entry], d) :: Keeps(before.snapshots, d) || d == before.active
  {
  }

  // ---- what the operations do when nothing fails ----

  datatype Operation =
    | Stage(candidate: Document, revision: string, now: nat)
    | Snapshot(revision: string, now: nat)
    | Activate(name: Name, expected: Option<Document>, revision: string, now: nat)
    | Restore(name: Name, expected: Option<Document>)

  function WholeEntry(content: Document, revision: string): Entry {
    Entry(Some(content), Some(Manifest(Lower(Trim(revision)), content)))
  }

  ghost predicate Usable(revision: string) {
    |Lower(Trim(revision))| == 40 && forall c | c in Lower(Trim(revision)) :: c in "0123456789abcdef"
  }

  /** A directory whose manifest names a revision and agrees with its file, which holds a valid configuration. */
  ghost predicate Intact(syn: Syntax, e: Entry) {
    && e.config.Some? && e.manifest.Some? && e.manifest.value.digest == e.config.value
    && e.config.value.Json? && WellFormed(syn, e.config.value.cfg)
    && |e.manifest.value.sourceRevision| == 40
    && forall c | c in e.manifest.value.sourceRevision :: c in "0123456789abcdef"
  }

  lemma IntactIsWhole(syn: Syntax, e: Entry, revision: string)
    ensures Intact(syn, e) <==> Whole(syn, e)
    ensures Usable(revision) <==> RevisionOk(Lower(Trim(revision)))
  {
    hide WellFormed, RevisionOk;
    RevisionMeans(Lower(Trim(revision)));
    if e.manifest.Some? {
      RevisionMeans(e.manifest.value.sourceRevision);
    }
  }

  /** What an operation makes of the active file and the directories when nothing fails. A refused operation
      changes nothing. */
  ghost function Performed(syn: Syntax, m: Moment, op: Operation): Moment {
    match op
    case Stage(candidate, revision, now) =>
      if Usable(revision) && candidate.Json? && WellFormed(syn, candidate.cfg) && (now, candidate) !in m.staged then
        m.(staged := m.staged[(now, candidate) := WholeEntry(candidate, revision)])
      else m
    case Snapshot(revision, now) =>
      if Usable(revision) && (now, m.active) !in m.snapshots then
        m.(snapshots := m.snapshots[(now, m.active) := WholeEntry(m.active, revision)])
      else m
    case Activate(name, expected, revision, now) =>
      if Usable(revision) && name in m.staged && Intact(syn, m.staged[name]) && expected == Some(m.active)
         && m.staged[name].config != Some(m.active) && (now, m.active) !in m.snapshots then
        m.(active := m.staged[name].config.value,
           snapshots := m.snapshots[(now, m.active) := WholeEntry(m.active, revision)])
      else m
    case Restore(name, expected) =>
      if name in m.snapshots && Intact(syn, m.snapshots[name]) && expected == Some(m.active) then
        m.(active := m.snapshots[name].config.value)
      else m
  }

  ghost function AllPerformed(syn: Syntax, m: Moment, operations: seq<Operation>): Moment {
    if operations == [] then m
    else Performed(syn, AllPerformed(syn, m, operations[..|operations| - 1]), operations[|operations| - 1])
  }

  datatype Area = Staging | Snapshots

  class Store {
    const syn: Syntax
    var active: Document
    var staged: map<Name, Entry>
    var snapshots: map<Name, Entry>
    const fails: Schedule
    /** How many operations have been tried. */
    var clock: nat
    ghost var moments: seq<Moment>

    ghost function Now(): Moment
      reads `active, `staged, `snapshots
    {
      Moment(active, staged, snapshots)
    }

    /** At every moment the active file held validated content, and all of it is still on disk. */
    ghost predicate Valid()
      reads `active, `staged, `snapshots, `moments
    {
      && moments != [] && moments[|moments| - 1] == Now()
      && (forall i | 0 <= i < |moments| :: Sound(syn, Now(), moments[i]))
      && Anchored(Now(), moments)
    }

    lemma ActiveIsValidated()
      requires Valid()
      ensures Validated(syn, active)
    {
      assert Sound(syn, Now(), moments[|moments| - 1]);
    }

    ghost function Faults(): nat
      reads `clock
    {
      Failures(fails, clock)
    }

    constructor (syn: Syntax, active: Document, fails: Schedule)
      requires Validated(syn, active)
      ensures Valid() && this.active == active && this.syn == syn && staged == map[] && snapshots == map[]
      ensures this.fails == fails && Faults() == 0
    {
      this.syn, this.active, staged, snapshots := syn, active, map[], map[];
      this.fails, clock := fails, 0;
      moments := [Moment(active, map[], map[])];
    }

    method Fault() returns (failed: bool)
      modifies this`clock
      ensures Faults() == old(Faults()) + if failed then 1 else 0
    {
      failed := fails(clock);
      clock := clock + 1;
    }

    ghost function Entries(area: Area): map<Name, Entry>
      reads `staged, `snapshots
    {
      if area.Staging? then staged else snapshots
    }

    /** A directory grows; the active file does not change. */
    ghost method RecordGrowth(before: Moment)
      requires before.active == active && Grows(before.staged, staged) && Grows(before.snapshots, snapshots)
      requires forall i | 0 <= i < |moments| :: Sound(syn, before, moments[i])
      requires Sound(syn, before, before)
      requires Anchored(before, moments)
      requires forall d | Keeps(snapshots, d) :: Keeps(before.snapshots, d) || d == active
      modifies this`moments
      ensures Valid() && moments == old(moments) + [Now()]
    {
      moments := moments + [Now()];
      SoundAfterGrowth(syn, before, Now(), before);
      forall i | 0 <= i < |moments|
        ensures Sound(syn, Now(), moments[i])
      {
        if i < |old(moments)| {
          SoundAfterGrowth(syn, before, Now(), moments[i]);
        }
      }
      AnchoredAfterGrowth(before, Now(), old(moments));
    }

    /** One step in one directory. */
    method Place(area: Area, name: Name, entry: Entry)
      requires Valid() && Grows(Entries(area), Entries(area)[name := entry])
      requires area.Snapshots? && entry.config.Some? ==> entry.config.value == active
      modifies this`staged, this`snapshots, this`moments
      ensures Valid() && moments == old(moments) + [Now()]
      ensures Entries(area) == old(Entries(area))[name := entry]
      ensures area.Staging? ==> snapshots == old(snapshots)
      ensures area.Snapshots? ==> staged == old(staged)
    {
      ghost var before := Now();
      assert Sound(syn, before, moments[|moments| - 1]);
      if area.Staging? {
        staged := staged[name := entry];
      } else {
        OnlyActiveAdded(before, name, entry);
        snapshots := snapshots[name := entry];
      }
      RecordGrowth(before);
    }

    /** Adds one directory for `content`, step by step: the directory, its file, its manifest. */
    method WriteEntry(area: Area, name: Name, content: Document, revision: string) returns (ok: bool)
      requires Valid() && (area.Snapshots? ==> content == active)
      modifies this`staged, this`snapshots, this`clock, this`moments
      ensures Valid() && old(moments) <= moments
      ensures old(Faults()) <= Faults() && (ok ==> Faults() == old(Faults()))
      ensures Grows(old(Entries(area)), Entries(area))
      ensures area.Staging? ==> snapshots == old(snapshots)
      ensures area.Snapshots? ==> staged == old(staged)
      ensures ok ==> name !in old(Entries(area))
      ensures ok ==> Entries(area) == old(Entries(area))[name := Entry(Some(content), Some(Manifest(revision, content)))]
      ensures ok ==> |moments| == |old(moments)| + 3
      ensures !ok ==> name in old(Entries(area)) || Faults() == old(Faults()) + 1
      ensures !ok && Faults() == old(Faults()) ==> Entries(area) == old(Entries(area))
    {
      hide Valid, Grows;
      ghost var entries := Entries(area);
      var failed := Fault();
      if failed || name in (if area.Staging? then staged else snapshots) {
        GrowsToItself(entries);
        return false;
      }
      StagesGrow(entries, name, Entry(None, None), Entry(Some(content), None));
      Place(area, name, Entry(None, None));
      ok := FillEntry(area, name, content, revision, entries);
    }

    /** The file and then the manifest, in the directory just made. */
    method FillEntry(area: Area, name: Name, content: Document, revision: string, ghost entries: map<Name, Entry>)
      returns (ok: bool)
      requires Valid() && (area.Snapshots? ==> content == active)
      requires name !in entries && Entries(area) == entries[name := Entry(None, None)]
      modifies this`staged, this`snapshots, this`clock, this`moments
      ensures Valid() && old(moments) <= moments
      ensures old(Faults()) <= Faults() && (ok ==> Faults() == old(Faults())) && (!ok ==> Faults() == old(Faults()) + 1)
      ensures Grows(entries, Entries(area))
      ensures area.Staging? ==> snapshots == old(snapshots)
      ensures area.Snapshots? ==> staged == old(staged)
      ensures ok ==> Entries(area) == entries[name := Entry(Some(content), Some(Manifest(revision, content)))]
      ensures ok ==> |moments| == |old(moments)| + 2
    {
      hide Valid, Grows;
      var filled, whole := Entry(Some(content), None), Entry(Some(content), Some(Manifest(revision, content)));
      StagesGrow(entries, name, Entry(None, None), filled);
      StagesGrow(entries, name, filled, whole);
      var failed := Fault();
      if failed {
        return false;
      }
      Place(area, name, filled);
      failed := Fault();
      if failed {
        return false;
      }
      Place(area, name, whole);
      return true;
    }

    /** Persists a validated candidate below the lifecycle root. The active file is not touched. */
    method StageRevision(candidate: Document, revision: string, now: nat) returns (ok: bool)
      requires Valid()
      modifies this`staged, this`snapshots, this`clock, this`moments
      ensures Valid() && old(Faults()) <= Faults() && snapshots == old(snapshots)
      ensures Grows(old(staged), staged) && old(moments) <= moments
      ensures ok ==> (now, candidate) in staged && Whole(syn, staged[(now, candidate)])
      ensures ok ==> staged[(now, candidate)].config == Some(candidate)
      ensures Faults() == old(Faults()) ==>
        (ok <==> RevisionOk(Lower(Trim(revision))) && Validated(syn, candidate) && (now, candidate) !in old(staged))
      ensures ok ==> staged == old(staged)[(now, candidate) := WholeEntry(candidate, revision)]
      ensures Faults() == old(Faults()) ==> Now() == Performed(syn, old(Now()), Stage(candidate, revision, now))
    {
      hide Valid, WellFormed, RevisionOk;
      IntactIsWhole(syn, Entry(None, None), revision);
      var source := Lower(Trim(revision));
      if !RevisionOk(source) {
        return false;
      }
      ok := ValidateDocument(syn, candidate);
      if !ok {
        return;
      }
      ok := WriteEntry(Staging, (now, candidate), candidate, source);
    }

    /** Copies the active file into a new snapshot directory. */
    method CreateSnapshot(revision: string, now: nat) returns (ok: bool)
      requires Valid()
      modifies this`staged, this`snapshots, this`clock, this`moments
      ensures Valid() && old(Faults()) <= Faults() && staged == old(staged)
      ensures Grows(old(snapshots), snapshots) && old(moments) <= moments
      ensures ok ==> (now, active) in snapshots && Whole(syn, snapshots[(now, active)])
      ensures ok ==> snapshots[(now, active)].config == Some(active) && Faults() == old(Faults())
      ensures Faults() == old(Faults()) ==> (ok <==> RevisionOk(Lower(Trim(revision))) && (now, active) !in old(snapshots))
      ensures ok ==> snapshots == old(snapshots)[(now, active) := WholeEntry(active, revision)]
      ensures Faults() == old(Faults()) ==> Now() == Performed(syn, old(Now()), Snapshot(revision, now))
    {
      hide Valid, WellFormed, RevisionOk;
      IntactIsWhole(syn, Entry(None, None), revision);
      var source := Lower(Trim(revision));
      if !RevisionOk(source) {
        return false;
      }
      var failed := Fault();
      if failed {
        return false;
      }
      ok := ValidateDocument(syn, active);
      ActiveIsValidated();
      if !ok {
        return;
      }
      ok := WriteEntry(Snapshots, (now, active), active, source);
    }

    /** The active file changes; the directories, which hold both contents, do not. */
    ghost method RecordReplacement(before: Moment)
      requires before == Now().(active := before.active) && Validated(syn, active)
      requires Keeps(staged, before.active) || Keeps(snapshots, before.active)
      requires Keeps(staged, active) || Keeps(snapshots, active)
      requires forall i | 0 <= i < |moments| :: Sound(syn, before, moments[i])
      modifies this`moments
      ensures Valid() && moments == old(moments) + [Now()]
    {
      moments := moments + [Now()];
      forall i | 0 <= i < |moments|
        ensures Sound(syn, Now(), moments[i])
      {
        if i < |old(moments)| {
          assert Sound(syn, before, moments[i]);
          RetainedAfterReplacement(before, active, moments[i].active);
        }
      }
    }

    /** Replaces the active file in one rename. Both the old and the new content have a directory. */
    method WriteActive(d: Document) returns (ok: bool)
      requires Valid() && Validated(syn, d)
      requires Keeps(staged, active) || Keeps(snapshots, active)
      requires Keeps(staged, d) || Keeps(snapshots, d)
      modifies this`active, this`clock, this`moments
      ensures Valid() && old(moments) <= moments
      ensures Faults() == old(Faults()) + if ok then 0 else 1
      ensures active == if ok then d else old(active)
    {
      var failed := Fault();
      if failed {
        return false;
      }
      ghost var before := Now();
      active := d;
      RecordReplacement(before);
      ok := true;
    }

    /** Writes new content over the active file, reads it back, and undoes the write when that fails. */
    method ReplaceActive(d: Document) returns (ok: bool)
      requires Valid() && Validated(syn, d)
      requires Keeps(staged, active) || Keeps(snapshots, active)
      requires Keeps(staged, d) || Keeps(snapshots, d)
      modifies this`active, this`clock, this`moments
      ensures Valid() && old(moments) <= moments && old(Faults()) <= Faults()
      ensures ok ==> active == d && Faults() == old(Faults())
      ensures !ok ==> Faults() > old(Faults()) && (active == old(active) || active == d)
      ensures !ok && Faults() == old(Faults()) + 1 ==> active == old(active)
    {
      hide Valid, WellFormed;
      var before := active;
      ActiveIsValidated();
      ok := WriteActive(d);
      if !ok {
        return;
      }
      ActiveIsValidated();
      var failed := Fault();
      var loads := ValidateDocument(syn, active);
      if failed || !loads {
        var _ := WriteActive(before);
        return false;
      }
      failed := Fault();
      if failed || active != d {
        var _ := WriteActive(before);
        return false;
      }
    }

    ghost predicate Activatable(name: Name, expected: Option<Document>, revision: string, now: nat)
      reads `active, `staged, `snapshots
    {
      && RevisionOk(Lower(Trim(revision))) && name in staged && Whole(syn, staged[name])
      && expected == Some(active) && staged[name].config != Some(active) && (now, active) !in snapshots
    }

    /** Activates a staged revision if the active file is still the expected one. With at most one
        failing operation an error leaves the active file as it was. */
    method ActivateStaged(name: Name, expected: Option<Document>, revision: string, now: nat) returns (r: Option<Receipt>)
      requires Valid()
      modifies this
      ensures Valid() && old(Faults()) <= Faults() && old(moments) <= moments
      ensures staged == old(staged) && Grows(old(snapshots), snapshots)
      ensures r.Some? ==> old(Activatable(name, expected, revision, now))
      ensures r.Some? ==> staged[name].config == Some(active) && r.value == Receipt(old(active), active, (now, old(active)))
      ensures r.Some? ==> r.value.snapshot in snapshots && Whole(syn, snapshots[r.value.snapshot])
      ensures r.Some? ==> snapshots[r.value.snapshot].config == Some(old(active))
      ensures r.None? && Faults() <= old(Faults()) + 1 ==> active == old(active)
      ensures Faults() == old(Faults()) ==> (r.Some? <==> old(Activatable(name, expected, revision, now)))
      ensures Faults() == old(Faults()) ==> Now() == Performed(syn, old(Now()), Activate(name, expected, revision, now))
    {
      hide Valid, WellFormed, RevisionOk;
      if name in staged {
        IntactIsWhole(syn, staged[name], revision);
      }
      var content := CheckStaged(name, expected, revision);
      if content.None? {
        return None;
      }
      var previous := active;
      var ok := CreateSnapshot(revision, now);
      if !ok {
        return None;
      }
      assert Keeps(snapshots, active) && Keeps(staged, content.value);
      ok := ReplaceActive(content.value);
      return if ok then Some(Receipt(previous, content.value, (now, previous))) else None;
    }

    /** The checks of an activation: the staged directory is whole, and the active file is the expected
        one and differs from it. */
    method CheckStaged(name: Name, expected: Option<Document>, revision: string) returns (content: Option<Document>)
      requires Valid()
      modifies this`clock
      ensures old(Faults()) <= Faults()
      ensures content.Some? ==> Faults() == old(Faults()) && name in staged && Whole(syn, staged[name])
      ensures content.Some? ==> RevisionOk(Lower(Trim(revision))) && expected == Some(active)
      ensures content.Some? ==> staged[name].config == content && content != Some(active)
      ensures content.None? && Faults() == old(Faults()) ==>
        !(RevisionOk(Lower(Trim(revision))) && name in staged && Whole(syn, staged[name])
          && expected == Some(active) && staged[name].config != Some(active))
    {
      hide Valid, WellFormed;
      if !RevisionOk(Lower(Trim(revision))) || name !in staged {
        return None;
      }
      var failed := Fault();
      var entry := staged[name];
      if failed || entry.manifest.None? || !RevisionOk(entry.manifest.value.sourceRevision) {
        return None;
      }
      failed := Fault();
      if failed || entry.config.None? || entry.config.value != entry.manifest.value.digest {
        return None;
      }
      var ok := ValidateDocument(syn, entry.config.value);
      if !ok {
        return None;
      }
      failed := Fault();
      ok := ValidateDocument(syn, active);
      ActiveIsValidated();
      if failed || !ok || expected != Some(active) || entry.config.value == active {
        return None;
      }
      return entry.config;
    }

    ghost predicate RestorableFrom(name: Name, expected: Option<Document>)
      reads `active, `snapshots
    {
      name in snapshots && Whole(syn, snapshots[name]) && expected == Some(active)
    }

    /** Restores a snapshot if the active file is still the expected one. */
    method RestoreSnapshot(name: Name, expected: Option<Document>) returns (ok: bool)
      requires Valid()
      modifies this`active, this`clock, this`moments
      ensures Valid() && old(Faults()) <= Faults() && old(moments) <= moments
      ensures ok ==> old(RestorableFrom(name, expected)) && snapshots[name].config == Some(active)
      ensures !ok && Faults() <= old(Faults()) + 1 ==> active == old(active)
      ensures Faults() == old(Faults()) ==> (ok <==> old(RestorableFrom(name, expected)))
      ensures Faults() == old(Faults()) ==> Now() == Performed(syn, old(Now()), Restore(name, expected))
    {
      hide WellFormed;
      if name in snapshots {
        IntactIsWhole(syn, snapshots[name], "");
      }
      var content := CheckSnapshot(name, expected);
      if content.None? {
        return false;
      }
      assert Keeps(snapshots, content.value);
      ok := ReplaceActive(content.value);
    }

    /** The checks of a restoration: the snapshot is whole, and the active file is the expected one. */
    method CheckSnapshot(name: Name, expected: Option<Document>) returns (content: Option<Document>)
      modifies this`clock
      ensures old(Faults()) <= Faults()
      ensures content.Some? ==> Faults() == old(Faults()) && RestorableFrom(name, expected) && snapshots[name].config == content
      ensures content.None? && Faults() == old(Faults()) ==> !RestorableFrom(name, expected)
    {
      if name !in snapshots {
        return None;
      }
      var failed := Fault();
      var entry := snapshots[name];
      if failed || entry.manifest.None? || !RevisionOk(entry.manifest.value.sourceRevision) || entry.config.None? {
        return None;
      }
      failed := Fault();
      var ok := ValidateDocument(syn, entry.config.value);
      if failed || !ok || entry.config.value != entry.manifest.value.digest {
        return None;
      }
      failed := Fault();
      if failed || expected != Some(active) {
        return None;
      }
      return entry.config;
    }

    /** An activation and its restoration give back the exact active file, failures or not. */
    method ActivateThenRestore(name: Name, expected: Option<Document>, revision: string, now: nat) returns (ok: bool)
      requires Valid()
      modifies this
      ensures Valid()
      ensures ok ==> active == old(active)
      ensures Faults() == old(Faults()) ==> (ok <==> old(Activatable(name, expected, revision, now)))
    {
      var receipt := ActivateStaged(name, expected, revision, now);
      if receipt.None? {
        return false;
      }
      ok := RestoreSnapshot(receipt.value.snapshot, Some(receipt.value.activated));
    }
  }

  /** Any run of operations, with any failures: at every moment the active file held validated content,
      and all content it ever held can still be found on disk. When nothing is to fail, the run does what
      the operations say, one after the other. */
  method AnyRun(store: Store, operations: seq<Operation>)
    requires store.Valid()
    modifies store
    ensures store.Valid() && old(store.moments) <= store.moments
    ensures forall m | m in store.moments :: Sound(store.syn, store.Now(), m)
    ensures (forall i: nat :: !store.fails(i)) ==> store.Now() == AllPerformed(store.syn, old(store.Now()), operations)
  {
    hide WellFormed, Performed;
    for i := 0 to |operations|
      invariant store.Valid() && old(store.moments) <= store.moments
      invariant (forall n: nat :: !store.fails(n)) ==>
        store.Now() == AllPerformed(store.syn, old(store.Now()), operations[..i])
    {
      assert operations[..i + 1][..i] == operations[..i];
      RunOne(store, operations[i]);
    }
    assert operations[..|operations|] == operations;
  }

  method RunOne(store: Store, op: Operation)
    requires store.Valid()
    modifies store
    ensures store.Valid() && old(store.moments) <= store.moments
    ensures (forall n: nat :: !store.fails(n)) ==> store.Now() == Performed(store.syn, old(store.Now()), op)
  {
    hide WellFormed, Performed, Failures;
    ghost var before := store.clock;
    match op {
      case Stage(candidate, revision, now) => var _ := store.StageRevision(candidate, revision, now);
      case Snapshot(revision, now) => var _ := store.CreateSnapshot(revision, now);
      case Activate(name, expected, revision, now) => var _ := store.ActivateStaged(name, expected, revision, now);
      case Restore(name, expected) => var _ := store.RestoreSnapshot(name, expected);
    }
    if forall n: nat :: !store.fails(n) {
      NoneFail(store.fails, before);
      NoneFail(store.fails, store.clock);
    }
  }
}
