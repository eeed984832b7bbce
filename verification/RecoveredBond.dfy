/** Whose bond and whose key a recovery activates: the stagings that the files on disk come from. */
module RecoveredBond {
  import opened Bytes
  import opened PairTransaction
  import opened Journal
  import opened BondDirectory
  import opened Reconcile
  import opened TornRecovery

  /** A staging as the daemon makes it: a hexadecimal name, its own bond, a one-line address. */
  predicate ProperStage(r: Request) {
    r.Stage? ==> IsPeerId(r.peerId) && r.bond.peerId == r.peerId && '\n' !in r.address
  }

  predicate SameFile(d: Dir, e: Dir, p: Path) {
    (p in d <==> p in e) && (p in d ==> d[p] == e[p])
  }

  predicate IsStaging(p: Path) { p.JournalFile? || p.PendingStore? || p.PendingKey? }

  /** The journal is what is left of a record of this staging. */
  ghost predicate About(f: File, stage: Request)
    requires stage.Stage?
  {
    f.Note? && exists r: JournalRecord ::
      CutOf(f.text, r) && r.transaction == stage.transaction && r.peerId == stage.peerId
  }

  /** The staged bond is the staging's. */
  predicate BondOf(d: Dir, stage: Request)
    requires stage.Stage?
  {
    PendingStore in d && d[PendingStore] == Store([stage.bond])
  }

  predicate KeyOf(d: Dir, stage: Request)
    requires stage.Stage?
  {
    PendingKey(stage.peerId) in d && d[PendingKey(stage.peerId)] == Raw(stage.key)
  }

  // ---------------------------------------------------------------------------------------
  // What a crash of one request leaves
  // ---------------------------------------------------------------------------------------

  /**
   A staging that is cut short leaves everything, or its bond with the journal it found and
   its key or the key it found, or its bond, its key and at least a part of its journal.
   */
  ghost predicate StageLeft(d: Dir, r: Request, d': Dir)
    requires r.Stage?
  {
    || d' == d
    || (&& BondOf(d', r) && (forall id :: id != r.peerId ==> SameFile(d, d', PendingKey(id)))
        && (|| (SameFile(d, d', JournalFile) && (SameFile(d, d', PendingKey(r.peerId)) || KeyOf(d', r)))
            || (JournalFile in d' && About(d'[JournalFile], r) && KeyOf(d', r))))
  }

  lemma StageCrash(d: Dir, r: Request, naming: Naming, d': Dir)
    requires r.Stage? && ProperStage(r) && Crash(d, StepsOf(d, r, naming), d')
    ensures StageLeft(d, r, d')
  {
    var record := JournalRecord(r.transaction, r.peerId, r.address, Staged);
    var s := StageSteps(r.transaction, r.peerId, r.address, r.bond, r.key);
    assert s == [s[0]] + [s[1], s[2], s[3]];
    CrashOfSave(d, s[0], [s[1], s[2], s[3]], d');
    if d' != d {
      AfterSave(Apply(d, s[0]), r, record, d');
    }
  }

  lemma AfterSave(d: Dir, r: Request, record: JournalRecord, d': Dir)
    requires r.Stage? && ProperStage(r) && BondOf(d, r)
    requires record == JournalRecord(r.transaction, r.peerId, r.address, Staged)
    requires Crash(d, [Write(PendingKeyTmp(r.peerId), Raw(r.key)),
                       Rename(PendingKeyTmp(r.peerId), PendingKey(r.peerId)), JournalStep(record)], d')
    ensures BondOf(d', r) && forall id :: id != r.peerId ==> SameFile(d, d', PendingKey(id))
    ensures || (SameFile(d, d', JournalFile) && (SameFile(d, d', PendingKey(r.peerId)) || KeyOf(d', r)))
            || (JournalFile in d' && About(d'[JournalFile], r) && KeyOf(d', r))
  {
    var write, rename, note := Write(PendingKeyTmp(r.peerId), Raw(r.key)),
      Rename(PendingKeyTmp(r.peerId), PendingKey(r.peerId)), JournalStep(record);
    var d2 := Apply(d, write);
    var d3 := Apply(d2, rename);
    assert [write, rename, note][1..] == [rename, note] && [rename, note][1..] == [note] && [note][1..] == [];
    if Crash(d2, [rename, note], d') && d' != d2 {
      assert Crash(d3, [note], d');
      NoteCrash(d3, record, d');
      if d' != d3 { assert CutOf(d'[JournalFile].text, record); }
    }
  }

  lemma NoteCrash(d: Dir, record: JournalRecord, d': Dir)
    requires TornRecovery.OneLine(record) && Crash(d, [JournalStep(record)], d')
    ensures d' == d || (exists text :: CutOf(text, record) && d' == d[JournalFile := Note(text)])
  {
    var note := JournalStep(record);
    assert [note][1..] == [];
    if d' != d {
      if Crash(Apply(d, note), [], d') {
        assert CutOf(JournalText(record), record);
      } else {
        var f :| Torn(f, note.file) && d' == d[JournalFile := f];
        assert CutOf(f.text, record) && f == Note(f.text);
      }
    }
  }

  /** Marking writes no other staging file, and a journal about the same staging. */
  lemma MarkCrash(d: Dir, stage: Request, naming: Naming, d': Dir)
    requires stage.Stage? && ProperStage(stage) && JournalFile in d && About(d[JournalFile], stage)
    requires Crash(d, StepsOf(d, MarkCommit, naming), d')
    ensures forall p :: p != JournalFile ==> SameFile(d, d', p)
    ensures JournalFile in d' && About(d'[JournalFile], stage)
  {
    if MarkPlan(d).ok {
      var text := d[JournalFile].text;
      var r: JournalRecord :| CutOf(text, r) && r.transaction == stage.transaction && r.peerId == stage.peerId;
      CutReads(text, r);
      ReadLabel(text, r);
      var written := ReadJournal(text).value.(state := Decided);
      assert MarkPlan(d).steps == [JournalStep(written)];
      NoteCrash(d, written, d');
      if d' != d {
        var left :| CutOf(left, written) && d' == d[JournalFile := Note(left)];
      }
    }
  }

  /** The label read back from a cut record is its own. */
  lemma ReadLabel(text: string, r: JournalRecord)
    requires CutOf(text, r) && IsPeerId(r.peerId)
    ensures var q := ReadJournal(text); q.Some? ==> q.value.peerId == r.peerId
    ensures var q := ReconcilerReads(text); q.Some? ==> q.value.peerId == r.peerId
  {
    assert StripCr(r.peerId) == r.peerId by { assert r.peerId[|r.peerId| - 1] in HEX_CHARS; }
    if Field(text, "peer_address").Some? { CutFields(text, r); }
  }

  /** What recovery reads from a journal about a staging is its transaction and its peer. */
  lemma AboutReads(text: string, stage: Request)
    requires stage.Stage? && ProperStage(stage) && About(Note(text), stage)
    ensures var q := ReconcilerReads(text);
            q.Some? ==> q.value.transaction == stage.transaction && q.value.peerId == stage.peerId
  {
    var r: JournalRecord :| CutOf(text, r) && r.transaction == stage.transaction && r.peerId == stage.peerId;
    CutReads(text, r);
    ReadLabel(text, r);
  }

  /** A step that puts nothing into the staging area. */
  predicate Clears(s: FileStep) {
    match s
    case Write(p, _) => !IsStaging(p)
    case Save(p, _) => !IsStaging(p)
    case Rename(p, q) => !IsStaging(p) && !IsStaging(q)
    case Unlink(_) => true
  }

  predicate AllClear(steps: seq<FileStep>) {
    forall i :: 0 <= i < |steps| ==> Clears(steps[i])
  }

  /** The file is as it was, or gone. */
  predicate Fades(d: Dir, e: Dir, p: Path) { p in e ==> p in d && e[p] == d[p] }

  lemma {:induction false} ClearCrash(d: Dir, steps: seq<FileStep>, d': Dir, p: Path)
    requires AllClear(steps) && Crash(d, steps, d') && IsStaging(p)
    ensures Fades(d, d', p)
    decreases |steps|
  {
    if d' != d {
      assert Clears(steps[0]);
      if Crash(Apply(d, steps[0]), steps[1..], d') { ClearCrash(Apply(d, steps[0]), steps[1..], d', p); }
    }
  }

  lemma {:induction false} UnlinksClear(bonds: seq<Bond>)
    ensures AllClear(UnlinkKeys(bonds))
  {
    if bonds != [] { UnlinksClear(bonds[1..]); }
  }

  lemma DiscardAllClears(d: Dir, naming: Naming)
    ensures AllClear(DiscardAllSteps(d, naming))
  {
    match Load(d, PendingStore, naming)
    case Loaded(bonds) => UnlinksClear(bonds);
    case LoadFailed(_) =>
  }

  lemma PeerStepsClear(d: Dir, id: string, naming: Naming)
    ensures AllClear(PromotePlan(d, id, naming).steps) && AllClear(RevokePlan(d, id, naming).steps)
  {
    assert AllClear(KeyPlan(d, id).steps) && AllClear(DiscardSteps(id));
  }

  /** Every other request leaves a staging file as it was or removes it. */
  lemma OtherCrash(d: Dir, r: Request, naming: Naming, d': Dir, p: Path)
    requires !r.Stage? && !r.MarkCommit? && Crash(d, StepsOf(d, r, naming), d') && IsStaging(p)
    ensures Fades(d, d', p)
  {
    assert AllClear(StepsOf(d, r, naming)) by {
      match r
      case DiscardAll => DiscardAllClears(d, naming);
      case Discard(_) =>
      case Promote(id) => PeerStepsClear(d, id, naming);
      case Revoke(id) => PeerStepsClear(d, id, naming);
    }
    ClearCrash(d, StepsOf(d, r, naming), d', p);
  }

  // ---------------------------------------------------------------------------------------
  // Over a life
  // ---------------------------------------------------------------------------------------

  /**
   The journal on disk comes from staging `j`, the staged bond from `b`, the staged key of the
   journal's peer from `c`. No staging after `j` reached its journal, and `b` is the last that
   did anything.
   */
  ghost predicate Origins(dirs: seq<Dir>, requests: seq<Request>, n: nat, j: nat, b: nat, c: nat) {
    && n < |dirs| == |requests| + 1 && j <= c <= b < n
    && requests[j].Stage? && requests[b].Stage? && requests[c].Stage? && requests[c].peerId == requests[j].peerId
    && JournalFile in dirs[n] && About(dirs[n][JournalFile], requests[j])
    && (PendingStore in dirs[n] ==> BondOf(dirs[n], requests[b]))
    && (PendingKey(requests[j].peerId) in dirs[n] ==> KeyOf(dirs[n], requests[c]))
    && (forall k :: j < k < n && requests[k].Stage? ==> SameFile(dirs[k], dirs[k + 1], JournalFile))
    && (forall k :: b < k < n && requests[k].Stage? ==> dirs[k + 1] == dirs[k])
    && (b == j || dirs[b + 1] != dirs[b])
  }

  ghost predicate HasOrigins(dirs: seq<Dir>, requests: seq<Request>, n: nat) {
    exists j: nat, b: nat, c: nat :: Origins(dirs, requests, n, j, b, c)
  }

  lemma StageOn(dirs: seq<Dir>, requests: seq<Request>, naming: Naming, n: nat)
    requires Life(dirs, requests, naming) && n < |requests| && requests[n].Stage? && ProperStage(requests[n])
    requires JournalFile in dirs[n] ==> HasOrigins(dirs, requests, n)
    requires JournalFile in dirs[n + 1]
    ensures HasOrigins(dirs, requests, n + 1)
  {
    var d, r, d' := dirs[n], requests[n], dirs[n + 1];
    StageCrash(d, r, naming, d');
    if JournalFile in d && SameFile(d, d', JournalFile) {
      var j: nat, b: nat, c: nat :| Origins(dirs, requests, n, j, b, c);
      StageKeepsJournal(dirs, requests, n, j, b, c);
    } else {
      assert Origins(dirs, requests, n + 1, n, n, n);
    }
  }

  lemma StageKeepsJournal(dirs: seq<Dir>, requests: seq<Request>, n: nat, j: nat, b: nat, c: nat)
    requires Origins(dirs, requests, n, j, b, c) && n < |requests| && requests[n].Stage?
    requires StageLeft(dirs[n], requests[n], dirs[n + 1]) && SameFile(dirs[n], dirs[n + 1], JournalFile)
    ensures HasOrigins(dirs, requests, n + 1)
  {
    var d, r, d' := dirs[n], requests[n], dirs[n + 1];
    if d' == d {
      assert Origins(dirs, requests, n + 1, j, b, c);
    } else if r.peerId == requests[j].peerId && KeyOf(d', r) {
      assert Origins(dirs, requests, n + 1, j, n, n);
    } else {
      assert SameFile(d, d', PendingKey(requests[j].peerId));
      assert Origins(dirs, requests, n + 1, j, n, c);
    }
  }

  lemma OriginsStay(dirs: seq<Dir>, requests: seq<Request>, n: nat, j: nat, b: nat, c: nat)
    requires Origins(dirs, requests, n, j, b, c) && n < |requests| && !requests[n].Stage?
    requires JournalFile in dirs[n + 1] && About(dirs[n + 1][JournalFile], requests[j])
    requires Fades(dirs[n], dirs[n + 1], PendingStore)
    requires Fades(dirs[n], dirs[n + 1], PendingKey(requests[j].peerId))
    ensures Origins(dirs, requests, n + 1, j, b, c)
  {
  }

  lemma MarkOn(dirs: seq<Dir>, requests: seq<Request>, naming: Naming, n: nat)
    requires HasOrigins(dirs, requests, n) && n < |requests| && requests[n].MarkCommit?
    requires Crash(dirs[n], StepsOf(dirs[n], requests[n], naming), dirs[n + 1])
    requires forall k :: 0 <= k < |requests| ==> ProperStage(requests[k])
    ensures HasOrigins(dirs, requests, n + 1)
  {
    var j: nat, b: nat, c: nat :| Origins(dirs, requests, n, j, b, c);
    MarkCrash(dirs[n], requests[j], naming, dirs[n + 1]);
    OriginsStay(dirs, requests, n, j, b, c);
  }

  lemma OtherOn(dirs: seq<Dir>, requests: seq<Request>, naming: Naming, n: nat)
    requires HasOrigins(dirs, requests, n) && n < |requests| && !requests[n].Stage? && !requests[n].MarkCommit?
    requires Crash(dirs[n], StepsOf(dirs[n], requests[n], naming), dirs[n + 1]) && JournalFile in dirs[n + 1]
    ensures HasOrigins(dirs, requests, n + 1)
  {
    var d, r, d' := dirs[n], requests[n], dirs[n + 1];
    var j: nat, b: nat, c: nat :| Origins(dirs, requests, n, j, b, c);
    OtherCrash(d, r, naming, d', JournalFile);
    OtherCrash(d, r, naming, d', PendingStore);
    OtherCrash(d, r, naming, d', PendingKey(requests[j].peerId));
    OriginsStay(dirs, requests, n, j, b, c);
  }

  /** Only a staging brings a journal where there was none. */
  lemma JournalWasThere(d: Dir, r: Request, naming: Naming, d': Dir)
    requires !r.Stage? && Crash(d, StepsOf(d, r, naming), d') && JournalFile in d'
    ensures JournalFile in d
  {
    if !r.MarkCommit? { OtherCrash(d, r, naming, d', JournalFile); }
  }

  lemma {:induction false} LifeHasOrigins(dirs: seq<Dir>, requests: seq<Request>, naming: Naming, n: nat)
    requires Life(dirs, requests, naming) && n < |dirs|
    requires forall k :: 0 <= k < |requests| ==> ProperStage(requests[k])
    ensures JournalFile in dirs[n] ==> HasOrigins(dirs, requests, n)
  {
    if n > 0 && JournalFile in dirs[n] {
      LifeHasOrigins(dirs, requests, naming, n - 1);
      if requests[n - 1].Stage? {
        StageOn(dirs, requests, naming, n - 1);
      } else {
        JournalWasThere(dirs[n - 1], requests[n - 1], naming, dirs[n]);
        if requests[n - 1].MarkCommit? {
          MarkOn(dirs, requests, naming, n - 1);
        } else {
          OtherOn(dirs, requests, naming, n - 1);
        }
      }
    }
  }

  /**
   What recovery works on, in any directory of any life: the transaction of one staging, the
   bond of the last staging that did anything and a key staged between the two, all three for
   the same peer. No staging after the first reached its journal.
   */
  lemma RecoveredComesFrom(dirs: seq<Dir>, requests: seq<Request>, naming: Naming, n: nat)
    returns (j: nat, b: nat, c: nat)
    requires Life(dirs, requests, naming) && n < |dirs| && Recoverable(dirs[n], naming).Some?
    requires forall k :: 0 <= k < |requests| ==> ProperStage(requests[k])
    ensures Origins(dirs, requests, n, j, b, c)
    ensures var (q, bond) := Recoverable(dirs[n], naming).value;
            && q.transaction == requests[j].transaction && bond == requests[b].bond
            && requests[j].peerId == requests[c].peerId == requests[b].peerId == bond.peerId
            && (PendingKey(bond.peerId) in dirs[n] ==> dirs[n][PendingKey(bond.peerId)] == Raw(requests[c].key))
  {
    LifeHasOrigins(dirs, requests, naming, n);
    j, b, c :| Origins(dirs, requests, n, j, b, c);
    AboutReads(dirs[n][JournalFile].text, requests[j]);
    assert PendingStore in dirs[n];
  }

  /**
   So the bond that recovery activates is the one staged for the transaction it recovers
   exactly if every later staging died before its first file step, where no two stagings are
   of the same bond; and then the key is that staging's too, if it is still staged.
   */
  lemma RecoversOwnBondExactly(dirs: seq<Dir>, requests: seq<Request>, naming: Naming, n: nat) returns (j: nat)
    requires Life(dirs, requests, naming) && n < |dirs| && Recoverable(dirs[n], naming).Some?
    requires forall k :: 0 <= k < |requests| ==> ProperStage(requests[k])
    requires forall k, m :: 0 <= k < m < |requests| && requests[k].Stage? && requests[m].Stage? ==>
                              requests[k].bond != requests[m].bond
    ensures var (q, bond) := Recoverable(dirs[n], naming).value;
            && j < n && requests[j].Stage? && requests[j].transaction == q.transaction
            && (bond == requests[j].bond <==> forall k :: j < k < n && requests[k].Stage? ==> dirs[k + 1] == dirs[k])
            && (bond == requests[j].bond && PendingKey(bond.peerId) in dirs[n] ==>
                  dirs[n][PendingKey(bond.peerId)] == Raw(requests[j].key))
  {
    var b: nat, c: nat;
    j, b, c := RecoveredComesFrom(dirs, requests, naming, n);
    if j < b { assert requests[j].bond != requests[b].bond && dirs[b + 1] != dirs[b]; }
  }

  /**
   What a recovery that activates leaves in force: the bond of staging `b`, last in the store,
   and with it the key of staging `c`, or the key the peer already had where none is staged.
   */
  lemma ActivatedComesFrom(dirs: seq<Dir>, requests: seq<Request>, naming: Naming, n: nat)
    returns (j: nat, b: nat, c: nat)
    requires Life(dirs, requests, naming) && n < |dirs| && Recoverable(dirs[n], naming).Some?
    requires forall k :: 0 <= k < |requests| ==> ProperStage(requests[k])
    requires var id := Recoverable(dirs[n], naming).value.1.peerId; PromotePlan(dirs[n], id, naming).ok
    ensures Origins(dirs, requests, n, j, b, c) && requests[j].peerId == requests[b].peerId
    ensures Recoverable(dirs[n], naming).value.0.transaction == requests[j].transaction
    ensures var id := requests[j].peerId;
            var key := ActiveKey(id);
            var e := ApplyAll(dirs[n], PromotePlan(dirs[n], id, naming).steps);
            && BondsFile in e && e[BondsFile].Store? && e[BondsFile].bonds != []
            && e[BondsFile].bonds[|e[BondsFile].bonds| - 1] == requests[b].bond
            && key in e
            && e[key] == if PendingKey(id) in dirs[n] then Raw(requests[c].key) else dirs[n][key]
  {
    j, b, c := RecoveredComesFrom(dirs, requests, naming, n);
    Activated(dirs[n], requests[j].peerId, requests[b].bond, naming);
  }

  /** A promotion puts the staged bond last and the staged key in place. */
  lemma Activated(d: Dir, id: string, bond: Bond, naming: Naming)
    requires PromotePlan(d, id, naming).ok && PendingStore in d && d[PendingStore] == Store([bond])
    ensures var key := ActiveKey(id);
            var e := ApplyAll(d, PromotePlan(d, id, naming).steps);
            && BondsFile in e && e[BondsFile].Store? && e[BondsFile].bonds != []
            && e[BondsFile].bonds[|e[BondsFile].bonds| - 1] == bond
            && key in e && (PendingKey(id) in d ==> e[key] == d[PendingKey(id)])
            && (PendingKey(id) !in d ==> key in d && e[key] == d[key])
  {
    var e := ApplyAll(d, PromotePlan(d, id, naming).steps);
    var keys := ApplyAll(d, KeyPlan(d, id).steps);
    PromotedTrust(d, id, naming);
    KeyPlanEnds(d, id);
    var store := Store(Replaced(Load(d, BondsFile, naming).bonds, bond).value);
    var trust := keys[BondsFile := store];
    assert ActiveTrust(e) == ActiveTrust(trust);
    assert BondsFile in ActiveTrust(trust) && ActiveKey(id) in ActiveTrust(trust);
    assert ActiveTrust(e)[BondsFile] == store && ActiveTrust(e)[ActiveKey(id)] == keys[ActiveKey(id)];
  }

  lemma KeyPlanEnds(d: Dir, id: string)
    requires KeyPlan(d, id).ok
    ensures var e := ApplyAll(d, KeyPlan(d, id).steps);
            && ActiveKey(id) in e && (PendingKey(id) in d ==> e[ActiveKey(id)] == d[PendingKey(id)])
            && (PendingKey(id) !in d ==> e == d)
  {
    if PendingKey(id) in d {
      var s := KeySteps(id, d[PendingKey(id)].octets);
      assert s == [s[0], s[1]];
      Unrolled(d, s[0], s[1], s[1]);
    }
  }

  /** The journal a staging writes. */
  function Whole(r: Request): File
    requires r.Stage?
  {
    Note(JournalText(JournalRecord(r.transaction, r.peerId, r.address, Staged)))
  }

  lemma WholeReads(r: Request)
    requires r.Stage? && ProperStage(r)
    ensures ReconcilerReads(Whole(r).text).Some? && About(Whole(r), r)
  {
    var record := JournalRecord(r.transaction, r.peerId, r.address, Staged);
    assert '\n' !in r.peerId;
    ReadersAgreeOnWritten(record);
    assert CutOf(JournalText(record), record);
  }

  /** The files of a staging that ran to its end. */
  lemma StageEnds(d: Dir, r: Request, naming: Naming)
    requires r.Stage?
    ensures var e := ApplyAll(d, StepsOf(d, r, naming));
            && BondOf(e, r) && KeyOf(e, r) && JournalFile in e && e[JournalFile] == Whole(r)
  {
    var s := StepsOf(d, r, naming);
    assert s == [s[0]] + [s[1], s[2], s[3]];
    ApplyAllAppend(d, [s[0]], [s[1], s[2], s[3]]);
    Unrolled(Apply(d, s[0]), s[1], s[2], s[3]);
  }

  /**
   It does happen: of any two stagings of one peer, the second, cut short after its first
   step, leaves the transaction and the key of the first with its own bond.
   */
  lemma LaterStagingTakesOver(first: Request, later: Request, naming: Naming) returns (dirs: seq<Dir>)
    requires first.Stage? && later.Stage? && ProperStage(first) && ProperStage(later)
    requires first.peerId == later.peerId == naming(later.bond.pubkey)
    ensures Life(dirs, [first, later], naming) && Recoverable(dirs[2], naming).Some?
    ensures var (q, bond) := Recoverable(dirs[2], naming).value;
            q.transaction == first.transaction && bond == later.bond && KeyOf(dirs[2], first)
  {
    var d := ApplyAll(map[], StepsOf(map[], first, naming));
    CrashAtEnd(map[], StepsOf(map[], first, naming));
    StageEnds(map[], first, naming);
    var steps := StepsOf(d, later, naming);
    var e := Apply(d, steps[0]);
    assert Crash(e, steps[1..], e);
    dirs := [map[], d, e];
    WholeReads(first);
    AboutReads(Whole(first).text, first);
  }
}
