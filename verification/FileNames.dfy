/** The directory under its file names: the paths of the model and the names on disk behave alike. */
module FileNames {
  import opened Journal
  import opened BondDirectory

  type Disk = map<string, File>

  /** Every name on disk, in full, and the length of a key. */
  lemma NamesInFull(id: string)
    ensures Render(BondsFile) == "bonds.toml"
    ensures Render(JournalFile) == "pairing-v2.journal" && Render(PendingStore) == "pairing-v2.pending"
    ensures Render(ActiveKey(id)) == "keys/" + id + ".bin"
    ensures Render(PendingKey(id)) == "keys/.pending-" + id + ".bin"
    ensures Render(ActiveKeyTmp(id)) == Render(ActiveKey(id)) + ".tmp"
    ensures Render(PendingKeyTmp(id)) == Render(PendingKey(id)) + ".tmp"
    ensures BOND_KEY_BYTES == 32
  {}

  predicate ProperDir(d: Dir) { forall p :: p in d ==> Proper(p) }

  predicate ProperStep(s: FileStep) {
    match s
    case Write(p, _) => Proper(p)
    case Save(p, _) => Proper(p)
    case Rename(p, q) => Proper(p) && Proper(q)
    case Unlink(p) => Proper(p)
  }

  predicate ProperSteps(steps: seq<FileStep>) { forall i :: 0 <= i < |steps| ==> ProperStep(steps[i]) }

  lemma NamesApart(d: Dir)
    requires ProperDir(d)
    ensures forall p, q :: p in d && q in d && Render(p) == Render(q) ==> p == q
  {
    forall p, q | p in d && q in d && Render(p) == Render(q) ensures p == q { PathsNeverCollide(p, q); }
  }

  /** The files under the names they have on disk. */
  function OnDisk(d: Dir): Disk
    requires ProperDir(d)
  {
    NamesApart(d);
    map p | p in d :: Render(p) := d[p]
  }

  /** A step taken by name. */
  function DiskApply(disk: Disk, s: FileStep): Disk {
    match s
    case Write(p, f) => disk[Render(p) := f]
    case Save(p, f) => disk[Render(p) := f]
    case Rename(p, q) =>
      if Render(p) in disk then (disk - {Render(p)})[Render(q) := disk[Render(p)]] else disk
    case Unlink(p) => disk - {Render(p)}
  }

  /** `disk'` is what some crash of steps taken by name can leave behind. */
  ghost predicate DiskCrash(disk: Disk, steps: seq<FileStep>, disk': Disk)
    decreases |steps|
  {
    || disk' == disk
    || (steps != [] &&
        (|| DiskCrash(DiskApply(disk, steps[0]), steps[1..], disk')
         || (steps[0].Write? && exists f :: Torn(f, steps[0].file) && disk' == disk[Render(steps[0].path) := f])))
  }

  lemma Found(d: Dir, p: Path)
    requires ProperDir(d) && Proper(p)
    ensures Render(p) in OnDisk(d) <==> p in d
    ensures p in d ==> OnDisk(d)[Render(p)] == d[p]
  {
    NamesApart(d);
    if Render(p) in OnDisk(d) {
      var q :| q in d && Render(q) == Render(p);
      PathsNeverCollide(p, q);
    }
  }

  lemma PutOnDisk(d: Dir, p: Path, f: File)
    requires ProperDir(d) && Proper(p)
    ensures ProperDir(d[p := f]) && OnDisk(d[p := f]) == OnDisk(d)[Render(p) := f]
  {
    var e := d[p := f];
    var goal := OnDisk(d)[Render(p) := f];
    forall n | n in OnDisk(e) ensures n in goal && OnDisk(e)[n] == goal[n] {
      var q :| q in e && Render(q) == n;
      Found(e, q);
      if n == Render(p) { PathsNeverCollide(p, q); } else { Found(d, q); }
    }
    forall n | n in goal ensures n in OnDisk(e) {
      Found(e, p);
      if n != Render(p) {
        var q :| q in d && Render(q) == n;
        Found(e, q);
      }
    }
  }

  lemma DropOnDisk(d: Dir, p: Path)
    requires ProperDir(d) && Proper(p)
    ensures ProperDir(d - {p}) && OnDisk(d - {p}) == OnDisk(d) - {Render(p)}
  {
    var e := d - {p};
    forall n | n in OnDisk(e) ensures n in OnDisk(d) && n != Render(p) && OnDisk(e)[n] == OnDisk(d)[n] {
      var q :| q in e && Render(q) == n;
      Found(d, q);
      Found(e, q);
      if n == Render(p) { PathsNeverCollide(p, q); }
    }
    forall n | n in OnDisk(d) && n != Render(p) ensures n in OnDisk(e) {
      var q :| q in d && Render(q) == n;
      Found(e, q);
    }
  }

  /** A step on paths is the step by name. */
  lemma StepOnDisk(d: Dir, s: FileStep)
    requires ProperDir(d) && ProperStep(s)
    ensures ProperDir(Apply(d, s)) && OnDisk(Apply(d, s)) == DiskApply(OnDisk(d), s)
  {
    match s
    case Write(p, f) => PutOnDisk(d, p, f);
    case Save(p, f) => PutOnDisk(d, p, f);
    case Unlink(p) => DropOnDisk(d, p);
    case Rename(p, q) =>
      Found(d, p);
      if p in d {
        DropOnDisk(d, p);
        PutOnDisk(d - {p}, q, d[p]);
      }
  }

  /** The crashes of an operation on paths are, name for name, its crashes on disk. */
  lemma {:induction false} CrashOnDisk(d: Dir, steps: seq<FileStep>, d': Dir)
    requires ProperDir(d) && ProperSteps(steps) && Crash(d, steps, d')
    ensures ProperDir(d') && DiskCrash(OnDisk(d), steps, OnDisk(d'))
    decreases |steps|
  {
    if d' != d {
      StepOnDisk(d, steps[0]);
      if Crash(Apply(d, steps[0]), steps[1..], d') {
        CrashOnDisk(Apply(d, steps[0]), steps[1..], d');
      } else {
        var f :| Torn(f, steps[0].file) && d' == d[steps[0].path := f];
        PutOnDisk(d, steps[0].path, f);
      }
    }
  }

  /** And the other way round: every crash on disk is one of them. */
  lemma {:induction false} CrashOffDisk(d: Dir, steps: seq<FileStep>, disk': Disk) returns (d': Dir)
    requires ProperDir(d) && ProperSteps(steps) && DiskCrash(OnDisk(d), steps, disk')
    ensures Crash(d, steps, d') && ProperDir(d') && OnDisk(d') == disk'
    decreases |steps|
  {
    if disk' == OnDisk(d) { return d; }
    StepOnDisk(d, steps[0]);
    if DiskCrash(DiskApply(OnDisk(d), steps[0]), steps[1..], disk') {
      d' := CrashOffDisk(Apply(d, steps[0]), steps[1..], disk');
    } else {
      var f :| Torn(f, steps[0].file) && disk' == OnDisk(d)[Render(steps[0].path) := f];
      PutOnDisk(d, steps[0].path, f);
      d' := d[steps[0].path := f];
    }
  }

  // ---------------------------------------------------------------------------------------
  // Isolation by name
  // ---------------------------------------------------------------------------------------

  /** The names that grant trust. */
  ghost predicate TrustName(name: string) {
    exists p :: Proper(p) && IsActive(p) && Render(p) == name
  }

  /** Every peer is named by a digest in lower-case hexadecimal. */
  ghost predicate NamesPeers(naming: Naming) { forall k :: IsPeerId(naming(k)) }

  predicate ProperRequest(r: Request) {
    match r
    case Stage(_, id, _, _, _) => IsPeerId(id)
    case Promote(id) => IsPeerId(id)
    case Discard(id) => IsPeerId(id)
    case Revoke(id) => IsPeerId(id)
    case _ => true
  }

  lemma {:induction false} UnlinkKeysProper(bonds: seq<Bond>, naming: Naming)
    requires NamesPeers(naming) && Named(bonds, naming)
    ensures ProperSteps(UnlinkKeys(bonds))
  {
    if bonds != [] {
      assert IsPeerId(naming(bonds[0].pubkey));
      UnlinkKeysProper(bonds[1..], naming);
    }
  }

  lemma SmallStepsAreProper(d: Dir, id: string)
    requires IsPeerId(id)
    ensures ProperSteps(KeyPlan(d, id).steps) && ProperSteps(DiscardSteps(id))
  {
    assert Proper(ActiveKey(id)) && Proper(ActiveKeyTmp(id)) && Proper(PendingKey(id));
  }

  lemma PromotionIsProper(d: Dir, id: string, naming: Naming)
    requires IsPeerId(id)
    ensures ProperSteps(PromotePlan(d, id, naming).steps)
  {
    var plan := PromotePlan(d, id, naming);
    var keys := KeyPlan(d, id).steps;
    SmallStepsAreProper(d, id);
    if plan.ok {
      var rest := plan.steps[|keys|..];
      assert plan.steps == keys + rest && rest[0] == Save(BondsFile, rest[0].file) && rest[1..] == DiscardSteps(id);
      assert rest == [rest[0]] + DiscardSteps(id);
    }
  }

  lemma RevocationIsProper(d: Dir, id: string, naming: Naming)
    requires IsPeerId(id)
    ensures ProperSteps(RevokePlan(d, id, naming).steps)
  {
    assert Proper(ActiveKey(id)) && Proper(BondsFile);
  }

  lemma ClearingIsProper(d: Dir, naming: Naming)
    requires NamesPeers(naming)
    ensures ProperSteps(DiscardAllSteps(d, naming))
  {
    match Load(d, PendingStore, naming)
    case Loaded(bonds) => UnlinkKeysProper(bonds, naming);
    case LoadFailed(_) =>
  }

  /** Every request stays among proper names, so all of the above is about it. */
  lemma StepsAreProper(d: Dir, r: Request, naming: Naming)
    requires NamesPeers(naming) && ProperRequest(r)
    ensures ProperSteps(StepsOf(d, r, naming))
  {
    match r
    case Promote(id) => PromotionIsProper(d, id, naming);
    case Revoke(id) => RevocationIsProper(d, id, naming);
    case DiscardAll => ClearingIsProper(d, naming);
    case _ =>
  }

  /**
   Staging isolation as it is seen on disk: whatever an operation other than promotion and
   revocation does, and wherever it stops, every file whose name grants trust is as it was.
   */
  lemma NamesIsolate(d: Dir, r: Request, naming: Naming, disk': Disk, name: string)
    requires ProperDir(d) && NamesPeers(naming) && ProperRequest(r) && !r.Promote? && !r.Revoke?
    requires DiskCrash(OnDisk(d), StepsOf(d, r, naming), disk') && TrustName(name)
    ensures name in disk' <==> name in OnDisk(d)
    ensures name in disk' ==> disk'[name] == OnDisk(d)[name]
  {
    StepsAreProper(d, r, naming);
    var d' := CrashOffDisk(d, StepsOf(d, r, naming), disk');
    StagingIsolation(d, r, naming, d');
    var p :| Proper(p) && IsActive(p) && Render(p) == name;
    Found(d, p);
    Found(d', p);
    assert p in d <==> p in ActiveTrust(d);
    assert p in d' <==> p in ActiveTrust(d');
    assert p in d ==> ActiveTrust(d)[p] == d[p];
    assert p in d' ==> ActiveTrust(d')[p] == d'[p];
  }

  /** Identifiers of any other form could not be told apart: an active key would be another peer's staged one. */
  lemma ImproperNamesCollide(id: string)
    ensures Render(ActiveKey(".pending-" + id)) == Render(PendingKey(id)) && !IsPeerId(".pending-" + id)
  {
    assert "keys/" + (".pending-" + id) + ".bin" == "keys/.pending-" + id + ".bin";
    assert (".pending-" + id)[0] == '.' && '.' !in HEX_CHARS;
  }
}
