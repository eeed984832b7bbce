/** The terminal command's trust changes: stage, coordinate, then record or clear. */
module TerminalPairing {
  import opened Bytes
  import opened Journal
  import opened BondDirectory
  import opened PairRecovery
  import opened TerminalBackend
  import Reconcile

  datatype Result = Recorded | PeerAlreadyBonded | StoreUnusable | Stopped(error: Coordination)

  /** What one pairing attempt of the terminal command is given. */
  datatype Attempt = Attempt(transaction: TransactionId, pubkey: bytes, name: string, now: int, address: string,
                             key: bytes, force: bool)

  function NewBond(a: Attempt, naming: Naming): Bond {
    Bond(naming(a.pubkey), a.pubkey, a.name, a.now, Bonded)
  }

  /** Staging as the daemon does it, except that the journal records the decision up front. */
  function StagingSteps(a: Attempt, bond: Bond): seq<FileStep> {
    [Save(PendingStore, Store([bond])),
     Write(PendingKeyTmp(bond.peerId), Raw(a.key)),
     Rename(PendingKeyTmp(bond.peerId), PendingKey(bond.peerId))] +
    [JournalStep(JournalRecord(a.transaction, bond.peerId, a.address, Decided))]
  }

  function ClearSteps(peerId: string): seq<FileStep> {
    [Unlink(PendingKey(peerId)), Unlink(JournalFile), Unlink(PendingStore)]
  }

  function RecordSteps(bonds: seq<Bond>, peerId: string, key: bytes): seq<FileStep> {
    [Save(BondsFile, Store(bonds)), Write(ActiveKey(peerId), Raw(key))]
  }

  /** What happens once the coordination has ended, given the store loaded before it. */
  function Ending(active: seq<Bond>, bond: Bond, key: bytes, coordination: Coordination): (seq<FileStep>, Result) {
    if coordination.ProtocolUncertain? then ([], Stopped(coordination))
    else if !coordination.Completed? then (ClearSteps(bond.peerId), Stopped(coordination))
    else match Replaced(active, bond)
      case None => ([], StoreUnusable)
      case Some(bonds) =>
        if |key| == BOND_KEY_BYTES
        then (RecordSteps(bonds, bond.peerId, key) + ClearSteps(bond.peerId), Recorded)
        else ([Save(BondsFile, Store(bonds))], Stopped(ProtocolUncertain))
  }

  function AttemptSteps(d: Dir, a: Attempt, coordination: Coordination, naming: Naming): (seq<FileStep>, Result) {
    var bond := NewBond(a, naming);
    match Load(d, BondsFile, naming)
    case LoadFailed(_) => ([], StoreUnusable)
    case Loaded(active) =>
      if Has(active, bond.peerId) && !a.force then ([], PeerAlreadyBonded)
      else
        var (steps, r) := Ending(active, bond, a.key, coordination);
        (StagingSteps(a, bond) + steps, r)
  }

  // ---------------------------------------------------------------------------------------
  // The command as it runs
  // ---------------------------------------------------------------------------------------

  method WriteActiveKey(dir: Directory, peerId: string, key: bytes) returns (ok: bool)
    modifies dir
    ensures ok == (|key| == BOND_KEY_BYTES)
    ensures var steps := if ok then [Write(ActiveKey(peerId), Raw(key))] else [];
            dir.trace == old(dir.trace) + steps && dir.files == ApplyAll(old(dir.files), steps)
  {
    if |key| != BOND_KEY_BYTES { return false; }
    dir.Take(Write(ActiveKey(peerId), Raw(key)));
    One(old(dir.files), Write(ActiveKey(peerId), Raw(key)));
    ok := true;
  }

  method StageForTerminal(dir: Directory, a: Attempt, bond: Bond)
    modifies dir
    ensures dir.trace == old(dir.trace) + StagingSteps(a, bond)
    ensures dir.files == ApplyAll(old(dir.files), StagingSteps(a, bond))
    ensures PendingStore in dir.files && dir.files[PendingStore] == Store([bond])
  {
    ghost var steps := StagingSteps(a, bond);
    dir.Take(Save(PendingStore, Store([bond])));
    dir.Take(Write(PendingKeyTmp(bond.peerId), Raw(a.key)));
    dir.Take(Rename(PendingKeyTmp(bond.peerId), PendingKey(bond.peerId)));
    Unrolled(old(dir.files), steps[0], steps[1], steps[2]);
    ghost var staged := dir.files;
    dir.WriteJournal(JournalRecord(a.transaction, bond.peerId, a.address, Decided));
    One(staged, steps[3]);
    Snoc(old(dir.files), [steps[0], steps[1], steps[2]], steps[3]);
    StagingLeaves(old(dir.files), a, bond);
  }

  /** The peer has committed: record the bond in the store loaded before, then its key, then clear. */
  method Record(dir: Directory, active: BondStore, a: Attempt, bond: Bond) returns (r: Result)
    requires bond == NewBond(a, dir.naming)
    requires PendingStore in dir.files && dir.files[PendingStore] == Store([bond])
    modifies dir, active
    ensures var (steps, result) := Ending(old(active.bonds), bond, a.key, Completed);
            && r == result && dir.trace == old(dir.trace) + steps && dir.files == ApplyAll(old(dir.files), steps)
  {
    var replaced := active.Replace(bond);
    if !replaced { return StoreUnusable; }
    var bonds := active.bonds;
    var save := Save(BondsFile, Store(bonds));
    dir.Take(save);
    ghost var d1 := dir.files;
    One(old(dir.files), save);
    var written := WriteActiveKey(dir, bond.peerId, a.key);
    if !written { return Stopped(ProtocolUncertain); }
    ClearIsDiscardAll(dir.files, bond, dir.naming);
    dir.DiscardEverything();
    r := Recorded;
  }

  /** Act on the coordination's result. */
  method Finish(dir: Directory, active: BondStore, a: Attempt, bond: Bond, coordination: Coordination)
    returns (r: Result)
    requires bond == NewBond(a, dir.naming)
    requires PendingStore in dir.files && dir.files[PendingStore] == Store([bond])
    modifies dir, active
    ensures var (steps, result) := Ending(old(active.bonds), bond, a.key, coordination);
            && r == result && dir.trace == old(dir.trace) + steps && dir.files == ApplyAll(old(dir.files), steps)
  {
    if coordination.Completed? {
      r := Record(dir, active, a, bond);
      return;
    }
    if !coordination.ProtocolUncertain? {
      ClearIsDiscardAll(dir.files, bond, dir.naming);
      dir.DiscardEverything();
    }
    r := Stopped(coordination);
  }

  method CoordinateStagedBond(dir: Directory, a: Attempt, coordination: Coordination) returns (r: Result)
    modifies dir
    ensures var (steps, result) := AttemptSteps(old(dir.files), a, coordination, dir.naming);
            && r == result && dir.trace == old(dir.trace) + steps && dir.files == ApplyAll(old(dir.files), steps)
  {
    var loaded := dir.LoadStore(BondsFile);
    if loaded.LoadFailed? { return StoreUnusable; }
    var active := new BondStore(loaded.bonds);
    var bond := NewBond(a, dir.naming);
    var present := active.FindIndex(bond.peerId);
    if present < |active.bonds| && !a.force { return PeerAlreadyBonded; }
    r := StageAndFinish(dir, active, a, bond, coordination);
  }

  method StageAndFinish(dir: Directory, active: BondStore, a: Attempt, bond: Bond, coordination: Coordination)
    returns (r: Result)
    requires bond == NewBond(a, dir.naming)
    modifies dir, active
    ensures var (steps, result) := Ending(old(active.bonds), bond, a.key, coordination);
            && r == result && dir.trace == old(dir.trace) + (StagingSteps(a, bond) + steps)
            && dir.files == ApplyAll(old(dir.files), StagingSteps(a, bond) + steps)
  {
    StageForTerminal(dir, a, bond);
    ApplyAllAppend(old(dir.files), StagingSteps(a, bond), Ending(active.bonds, bond, a.key, coordination).0);
    r := Finish(dir, active, a, bond, coordination);
  }

  /** With the one staged bond in the pending store, clearing everything clears exactly its files. */
  lemma ClearIsDiscardAll(d: Dir, bond: Bond, naming: Naming)
    requires PendingStore in d && d[PendingStore] == Store([bond]) && bond.peerId == naming(bond.pubkey)
    ensures DiscardAllSteps(d, naming) == ClearSteps(bond.peerId)
  {
    assert [bond][1..] == [];
    assert UnlinkKeys([bond]) == [Unlink(PendingKey(bond.peerId))];
  }

  // ---------------------------------------------------------------------------------------
  // What a run leaves behind
  // ---------------------------------------------------------------------------------------

  function Staging(d: Dir, a: Attempt, bond: Bond): Dir {
    (d - {PendingKeyTmp(bond.peerId)})
      [PendingStore := Store([bond])][PendingKey(bond.peerId) := Raw(a.key)]
      [JournalFile := Note(JournalText(JournalRecord(a.transaction, bond.peerId, a.address, Decided)))]
  }

  lemma StagingLeaves(d: Dir, a: Attempt, bond: Bond)
    ensures ApplyAll(d, StagingSteps(a, bond)) == Staging(d, a, bond)
  {
    var steps := StagingSteps(a, bond);
    Unrolled(d, steps[0], steps[1], steps[2]);
    Snoc(d, [steps[0], steps[1], steps[2]], steps[3]);
  }

  lemma ClearLeaves(d: Dir, peerId: string)
    ensures ApplyAll(d, ClearSteps(peerId)) == d - {PendingKey(peerId), JournalFile, PendingStore}
  {
    var steps := ClearSteps(peerId);
    Unrolled(d, steps[0], steps[1], steps[2]);
  }

  /** The trust a recorded bond amounts to, on top of `d`. */
  function Recording(d: Dir, bonds: seq<Bond>, peerId: string, key: bytes): Dir {
    d[BondsFile := Store(bonds)][ActiveKey(peerId) := Raw(key)]
  }

  lemma RecordedLeaves(d: Dir, bonds: seq<Bond>, peerId: string, key: bytes)
    ensures ApplyAll(d, RecordSteps(bonds, peerId, key) + ClearSteps(peerId)) ==
            Recording(d, bonds, peerId, key) - {PendingKey(peerId), JournalFile, PendingStore}
  {
    ClearLeaves(Recording(d, bonds, peerId, key), peerId);
  }

  /**
   Short of recording, trust is untouched at every point a crash can fall, and a definite
   failure leaves nothing staged while an uncertain one leaves everything recovery needs.
   */
  lemma StoppedIsIsolated(d: Dir, a: Attempt, coordination: Coordination, naming: Naming, d': Dir)
    requires !coordination.Completed?
    requires Crash(d, AttemptSteps(d, a, coordination, naming).0, d')
    ensures ActiveTrust(d') == ActiveTrust(d)
    ensures var (steps, r) := AttemptSteps(d, a, coordination, naming);
            var final := ApplyAll(d, steps); var bond := NewBond(a, naming);
            r.Stopped? ==>
              && (!r.error.ProtocolUncertain? ==>
                    PendingStore !in final && JournalFile !in final && PendingKey(bond.peerId) !in final)
              && (r.error.ProtocolUncertain? ==>
                    && StagedBond(final, bond.peerId, naming) == Some(bond)
                    && PendingKey(bond.peerId) in final && final[PendingKey(bond.peerId)] == Raw(a.key))
  {
    var (steps, r) := AttemptSteps(d, a, coordination, naming);
    var bond := NewBond(a, naming);
    assert AllQuiet(steps);
    QuietCrash(d, steps, d');
    if r.Stopped? {
      var (rest, _) := Ending(Load(d, BondsFile, naming).bonds, bond, a.key, coordination);
      ApplyAllAppend(d, StagingSteps(a, bond), rest);
      StagingLeaves(d, a, bond);
      ClearLeaves(Staging(d, a, bond), bond.peerId);
      assert IndexOf([bond], bond.peerId) == 0;
    }
  }

  /** Each result of an attempt with its exact condition. */
  lemma ResultExactly(d: Dir, a: Attempt, coordination: Coordination, naming: Naming)
    requires Load(d, BondsFile, naming).Loaded? ==> Unique(Load(d, BondsFile, naming).bonds)
    ensures var r := AttemptSteps(d, a, coordination, naming).1;
            var store := Load(d, BondsFile, naming);
            var refused := store.Loaded? && !a.force && Has(store.bonds, naming(a.pubkey));
            && (r.StoreUnusable? <==> store.LoadFailed?)
            && (r.PeerAlreadyBonded? <==> refused)
            && (r.Recorded? <==> store.Loaded? && !refused && coordination.Completed? && |a.key| == 32)
            && (r.Stopped? ==> r.error == if coordination.Completed? then ProtocolUncertain else coordination)
  {
    if Load(d, BondsFile, naming).Loaded? { ReplacedKeeps(Load(d, BondsFile, naming).bonds, NewBond(a, naming)); }
  }

  /** An uncertain attempt can be recovered, as one that may have been decided. */
  lemma UncertainIsRecoverable(d: Dir, a: Attempt, naming: Naming)
    requires Clean(naming(a.pubkey)) && Clean(a.address)
    requires AttemptSteps(d, a, ProtocolUncertain, naming).1.Stopped?
    ensures Reconcile.Recoverable(ApplyAll(d, AttemptSteps(d, a, ProtocolUncertain, naming).0), naming) ==
            Some((Recovered(a.transaction, naming(a.pubkey), a.address, PairTransaction.StatusState.CommitPending),
                  NewBond(a, naming)))
  {
    var bond := NewBond(a, naming);
    var record := JournalRecord(a.transaction, bond.peerId, a.address, Decided);
    assert StagingSteps(a, bond) + [] == StagingSteps(a, bond);
    StagingLeaves(d, a, bond);
    JournalRoundTrip(record);
    ReadersAgreeOnWritten(record);
  }

  /**
   The terminal command and the daemon agree: a recorded attempt leaves, file for file, what
   staging, marking and promoting the same bond leave, except for the daemon's temporary
   key file.
   */
  lemma TerminalMatchesDaemon(d: Dir, a: Attempt, naming: Naming)
    requires AttemptSteps(d, a, Completed, naming).1.Recorded?
    ensures var bond := NewBond(a, naming);
            var mine := ApplyAll(d, AttemptSteps(d, a, Completed, naming).0);
            var stage := Stage(a.transaction, bond.peerId, a.address, bond, a.key);
            var requests := [stage, MarkCommit] + [Promote(bond.peerId)];
            && Served(d, requests, naming) == mine - {ActiveKeyTmp(bond.peerId)}
            && Replies(d, requests, naming) == Replies(d, [stage, MarkCommit], naming) + [true]
  {
    var bond := NewBond(a, naming);
    var active := Load(d, BondsFile, naming).bonds;
    var bonds := Replaced(active, bond).value;
    RecordedRun(d, a, naming);
    DaemonRun(d, a, bond, active, bonds, naming);
    DaemonPrepares(d, a, bond, naming);
    var t := Served(d, [Stage(a.transaction, bond.peerId, a.address, bond, a.key), MarkCommit], naming);
    SameButJournal(Staging(d, a, bond), t, bonds, bond.peerId, a.key);
  }

  /** What a recorded attempt leaves. */
  lemma RecordedRun(d: Dir, a: Attempt, naming: Naming)
    requires AttemptSteps(d, a, Completed, naming).1.Recorded?
    ensures var bond := NewBond(a, naming); var id := bond.peerId;
            && |a.key| == BOND_KEY_BYTES && Load(d, BondsFile, naming).Loaded?
            && Replaced(Load(d, BondsFile, naming).bonds, bond).Some?
            && var bonds := Replaced(Load(d, BondsFile, naming).bonds, bond).value;
               && Ending(Load(d, BondsFile, naming).bonds, bond, a.key, Completed).0 ==
                  RecordSteps(bonds, id, a.key) + ClearSteps(id)
               && ApplyAll(d, AttemptSteps(d, a, Completed, naming).0) ==
                  Recording(Staging(d, a, bond), bonds, id, a.key) - {PendingKey(id), JournalFile, PendingStore}
  {
    var bond := NewBond(a, naming);
    var bonds := Replaced(Load(d, BondsFile, naming).bonds, bond).value;
    ApplyAllAppend(d, StagingSteps(a, bond), RecordSteps(bonds, bond.peerId, a.key) + ClearSteps(bond.peerId));
    StagingLeaves(d, a, bond);
    RecordedLeaves(Staging(d, a, bond), bonds, bond.peerId, a.key);
  }

  lemma DaemonRun(d: Dir, a: Attempt, bond: Bond, active: seq<Bond>, bonds: seq<Bond>, naming: Naming)
    requires Load(d, BondsFile, naming) == Loaded(active) && Replaced(active, bond) == Some(bonds)
    requires bond == NewBond(a, naming) && |a.key| == BOND_KEY_BYTES
    ensures var id := bond.peerId; var stage := Stage(a.transaction, id, a.address, bond, a.key);
            var t := Served(d, [stage, MarkCommit], naming);
            && Served(d, [stage, MarkCommit] + [Promote(id)], naming) ==
               Recording(t, bonds, id, a.key) - {PendingKey(id), JournalFile, PendingStore, ActiveKeyTmp(id)}
            && Replies(d, [stage, MarkCommit] + [Promote(id)], naming) ==
               Replies(d, [stage, MarkCommit], naming) + [true]
  {
    var stage := Stage(a.transaction, bond.peerId, a.address, bond, a.key);
    var t := Served(d, [stage, MarkCommit], naming);
    DaemonPrepares(d, a, bond, naming);
    DaemonPromotes(t, bond, a.key, active, bonds, naming);
    ServedSnoc(d, [stage, MarkCommit], Promote(bond.peerId), naming);
  }

  /** Up to the journal, the daemon's staging and commit mark leave what the terminal's staging leaves. */
  lemma DaemonPrepares(d: Dir, a: Attempt, bond: Bond, naming: Naming)
    ensures var stage := Stage(a.transaction, bond.peerId, a.address, bond, a.key);
            var t := Served(d, [stage, MarkCommit], naming); var s := Staging(d, a, bond);
            && t - {JournalFile} == s - {JournalFile}
            && (forall p :: p != JournalFile ==> (p in t <==> p in s) && (p in s ==> t[p] == s[p]))
  {
    var stage := Stage(a.transaction, bond.peerId, a.address, bond, a.key);
    DaemonStages(d, a, bond);
    ServedTwo(d, stage, MarkCommit, naming);
  }

  lemma SameButJournal(s: Dir, t: Dir, bonds: seq<Bond>, id: string, key: bytes)
    requires t - {JournalFile} == s - {JournalFile}
    ensures Recording(t, bonds, id, key) - {PendingKey(id), JournalFile, PendingStore, ActiveKeyTmp(id)} ==
            Recording(s, bonds, id, key) - {PendingKey(id), JournalFile, PendingStore} - {ActiveKeyTmp(id)}
  {
    var x := Recording(t, bonds, id, key) - {PendingKey(id), JournalFile, PendingStore, ActiveKeyTmp(id)};
    var y := Recording(s, bonds, id, key) - {PendingKey(id), JournalFile, PendingStore} - {ActiveKeyTmp(id)};
    assert forall p :: p != JournalFile ==>
                         (p in t <==> p in t - {JournalFile}) && (p in s <==> p in s - {JournalFile});
    assert forall p :: p != JournalFile && p in t ==> t[p] == (t - {JournalFile})[p] == s[p];
    assert x.Keys == y.Keys;
  }

  lemma DaemonStages(d: Dir, a: Attempt, bond: Bond)
    ensures var record := JournalRecord(a.transaction, bond.peerId, a.address, Staged);
            ApplyAll(d, StageSteps(a.transaction, bond.peerId, a.address, bond, a.key)) ==
            Staging(d, a, bond)[JournalFile := Note(JournalText(record))]
  {
    var steps := StageSteps(a.transaction, bond.peerId, a.address, bond, a.key);
    Unrolled(d, steps[0], steps[1], steps[2]);
    Snoc(d, [steps[0], steps[1], steps[2]], steps[3]);
    assert steps == [steps[0], steps[1], steps[2]] + [steps[3]];
  }

  lemma DaemonPromotes(d: Dir, bond: Bond, key: bytes, active: seq<Bond>, bonds: seq<Bond>, naming: Naming)
    requires Load(d, BondsFile, naming) == Loaded(active) && Replaced(active, bond) == Some(bonds)
    requires PendingStore in d && d[PendingStore] == Store([bond]) && bond.peerId == naming(bond.pubkey)
    requires PendingKey(bond.peerId) in d && d[PendingKey(bond.peerId)] == Raw(key) && |key| == BOND_KEY_BYTES
    ensures var id := bond.peerId; var plan := PromotePlan(d, id, naming);
            && plan.ok
            && ApplyAll(d, plan.steps) == Recording(d, bonds, id, key) -
                                          {PendingKey(id), JournalFile, PendingStore, ActiveKeyTmp(id)}
  {
    var id := bond.peerId;
    assert StagedBond(d, id, naming) == Some(bond);
    PromoteComposes(d, id, naming);
    KeyPlaced(d, id, key);
    var d1 := ApplyAll(d, KeySteps(id, key));
    One(d1, Save(BondsFile, Store(bonds)));
    DiscardLeaves(d1[BondsFile := Store(bonds)], id);
    MapsAgree(d, bonds, id, key);
  }

  lemma KeyPlaced(d: Dir, id: string, key: bytes)
    ensures ApplyAll(d, KeySteps(id, key)) == (d - {ActiveKeyTmp(id)})[ActiveKey(id) := Raw(key)]
  {
    var keys := KeySteps(id, key);
    Unrolled(d, keys[0], keys[1], keys[1]);
  }

  lemma DiscardLeaves(d: Dir, id: string)
    ensures ApplyAll(d, DiscardSteps(id)) == d - {PendingKey(id), JournalFile, PendingStore}
  {
    var rest := DiscardSteps(id);
    Unrolled(d, rest[0], rest[1], rest[2]);
  }

  lemma MapsAgree(d: Dir, bonds: seq<Bond>, id: string, key: bytes)
    ensures (d - {ActiveKeyTmp(id)})[ActiveKey(id) := Raw(key)][BondsFile := Store(bonds)] -
            {PendingKey(id), JournalFile, PendingStore} ==
            Recording(d, bonds, id, key) - {PendingKey(id), JournalFile, PendingStore, ActiveKeyTmp(id)}
  {}

  // ---------------------------------------------------------------------------------------
  // Crashes while recording
  // ---------------------------------------------------------------------------------------

  /** Replacing a bond that is already last changes nothing. */
  lemma ReplacedTwice(active: seq<Bond>, bond: Bond)
    requires Unique(active)
    ensures Replaced(active, bond).Some? && Replaced(Replaced(active, bond).value, bond) == Replaced(active, bond)
  {
    ReplacingLast(if Has(active, bond.peerId) then Without(active, bond.peerId) else active, bond);
  }

  lemma ReplacingLast(kept: seq<Bond>, bond: Bond)
    requires !Has(kept, bond.peerId)
    ensures Replaced(kept + [bond], bond) == Some(kept + [bond])
  {
    var bonds := kept + [bond];
    assert forall i :: 0 <= i < |kept| ==> bonds[i] == kept[i];
    assert bonds[|kept|].peerId == bond.peerId;
    assert IndexOf(bonds, bond.peerId) == |kept|;
    assert Without(bonds, bond.peerId) == kept;
  }

  /** `d` still holds what promotion needs to reach the recorded trust over `s`. */
  predicate Promotable(d: Dir, s: Dir, bond: Bond, key: bytes, bonds: seq<Bond>, naming: Naming) {
    var id := bond.peerId;
    && PendingStore in d && d[PendingStore] == Store([bond])
    && (if PendingKey(id) in d then d[PendingKey(id)] == Raw(key)
        else ActiveKey(id) in d && d[ActiveKey(id)] == Raw(key))
    && Load(d, BondsFile, naming).Loaded? && Replaced(Load(d, BondsFile, naming).bonds, bond) == Some(bonds)
    && ActiveTrust(Recording(d, bonds, id, key)) == ActiveTrust(Recording(s, bonds, id, key))
  }

  lemma PromotionRecovers(d: Dir, s: Dir, bond: Bond, key: bytes, bonds: seq<Bond>, naming: Naming)
    requires Promotable(d, s, bond, key, bonds, naming) && |key| == BOND_KEY_BYTES && bond.peerId == naming(bond.pubkey)
    ensures var plan := PromotePlan(d, bond.peerId, naming);
            plan.ok && ActiveTrust(ApplyAll(d, plan.steps)) == ActiveTrust(Recording(s, bonds, bond.peerId, key))
  {
    var id := bond.peerId;
    assert StagedBond(d, id, naming) == Some(bond);
    KeysInPlace(d, id, naming);
    PromotedTrust(d, id, naming);
  }

  /** The directories a crash can leave while the terminal command records and clears. */
  lemma RecordingCrashes(s: Dir, bonds: seq<Bond>, id: string, key: bytes, d': Dir)
    requires Crash(s, RecordSteps(bonds, id, key) + ClearSteps(id), d')
    ensures var s1 := s[BondsFile := Store(bonds)]; var s2 := Recording(s, bonds, id, key);
            || d' == s || d' == s1 || (ActiveKey(id) in d' && d' == s1[ActiveKey(id) := d'[ActiveKey(id)]])
            || d' == s2 - {PendingKey(id)} || d' == s2 - {PendingKey(id), JournalFile}
            || d' == s2 - {PendingKey(id), JournalFile, PendingStore}
  {
    var steps := RecordSteps(bonds, id, key);
    var rest := ClearSteps(id);
    CrashAppend(s, steps, rest, d');
    Unrolled(s, steps[0], steps[1], steps[1]);
    var s2 := Recording(s, bonds, id, key);
    if Crash(s, steps, d') {
      assert steps == [steps[0]] + [steps[1]];
      CrashOfSave(s, steps[0], [steps[1]], d');
      assert [steps[1]][1..] == [];
    } else {
      ClearCrashes(s2, id, d');
    }
  }

  lemma ClearCrashes(d: Dir, id: string, d': Dir)
    requires Crash(d, ClearSteps(id), d')
    ensures || d' == d || d' == d - {PendingKey(id)} || d' == d - {PendingKey(id), JournalFile}
            || d' == d - {PendingKey(id), JournalFile, PendingStore}
  {
    var steps := ClearSteps(id);
    assert steps[1..] == [steps[1], steps[2]] && steps[1..][1..] == [steps[2]] && [steps[2]][1..] == [];
    var d1 := d - {PendingKey(id)};
    var d2 := d1 - {JournalFile};
    assert d2 == d - {PendingKey(id), JournalFile};
    assert d2 - {PendingStore} == d - {PendingKey(id), JournalFile, PendingStore};
    if d' != d {
      assert Crash(d1, [steps[1], steps[2]], d');
      if d' != d1 { assert Crash(d2, [steps[2]], d'); }
    }
  }

  /**
   A crash of a recording attempt loses nothing: while the journal is there, promoting the
   staged bond reaches the trust the finished run reaches; once it is gone, that trust is
   already in place.
   */
  lemma RecordingSurvivesCrashes(d: Dir, a: Attempt, naming: Naming, d': Dir)
    requires var r := AttemptSteps(d, a, Completed, naming).1; r.Recorded?
    requires Unique(Load(d, BondsFile, naming).bonds)
    requires var bond := NewBond(a, naming);
             Crash(Staging(d, a, bond), Ending(Load(d, BondsFile, naming).bonds, bond, a.key, Completed).0, d')
    ensures var final := ApplyAll(d, AttemptSteps(d, a, Completed, naming).0);
            var plan := PromotePlan(d', naming(a.pubkey), naming);
            && (JournalFile in d' ==> plan.ok && ActiveTrust(ApplyAll(d', plan.steps)) == ActiveTrust(final))
            && (JournalFile !in d' ==> ActiveTrust(d') == ActiveTrust(final))
  {
    var bond := NewBond(a, naming);
    var active := Load(d, BondsFile, naming).bonds;
    var bonds := Replaced(active, bond).value;
    RecordedRun(d, a, naming);
    ActiveTrustIgnoresStaging(Recording(Staging(d, a, bond), bonds, bond.peerId, a.key), bond.peerId);
    StagingFiles(d, a, bond, naming);
    ReplacedTwice(active, bond);
    NamedAfterReplacing(active, bond, naming);
    CrashedRecording(Staging(d, a, bond), bond, a.key, active, bonds, naming, d');
  }

  lemma StagingFiles(d: Dir, a: Attempt, bond: Bond, naming: Naming)
    ensures var s := Staging(d, a, bond);
            && Load(s, BondsFile, naming) == Load(d, BondsFile, naming) && JournalFile in s
            && PendingStore in s && s[PendingStore] == Store([bond])
            && PendingKey(bond.peerId) in s && s[PendingKey(bond.peerId)] == Raw(a.key)
  {}

  lemma CrashedRecording(s: Dir, bond: Bond, key: bytes, active: seq<Bond>, bonds: seq<Bond>, naming: Naming, d': Dir)
    requires Load(s, BondsFile, naming) == Loaded(active) && Named(bonds, naming)
    requires Replaced(active, bond) == Some(bonds) && Replaced(bonds, bond) == Some(bonds)
    requires PendingStore in s && s[PendingStore] == Store([bond]) && JournalFile in s
    requires PendingKey(bond.peerId) in s && s[PendingKey(bond.peerId)] == Raw(key)
    requires |key| == BOND_KEY_BYTES && bond.peerId == naming(bond.pubkey)
    requires Crash(s, RecordSteps(bonds, bond.peerId, key) + ClearSteps(bond.peerId), d')
    ensures var plan := PromotePlan(d', bond.peerId, naming);
            var goal := ActiveTrust(Recording(s, bonds, bond.peerId, key));
            && (JournalFile in d' ==> plan.ok && ActiveTrust(ApplyAll(d', plan.steps)) == goal)
            && (JournalFile !in d' ==> ActiveTrust(d') == goal)
  {
    if JournalFile in d' {
      StillPromotable(s, bond, key, active, bonds, naming, d');
      PromotionRecovers(d', s, bond, key, bonds, naming);
    } else {
      ClearedTrust(s, bonds, bond.peerId, key, d');
    }
  }

  lemma ActiveTrustIgnoresStaging(d: Dir, id: string)
    ensures ActiveTrust(d - {PendingKey(id), JournalFile, PendingStore}) == ActiveTrust(d)
  {}

  /** The journal goes last but one, when the recorded trust is in place. */
  lemma ClearedTrust(s: Dir, bonds: seq<Bond>, id: string, key: bytes, d': Dir)
    requires Crash(s, RecordSteps(bonds, id, key) + ClearSteps(id), d') && JournalFile in s && JournalFile !in d'
    ensures ActiveTrust(d') == ActiveTrust(Recording(s, bonds, id, key))
  {
    RecordingCrashes(s, bonds, id, key, d');
  }

  /** While the journal is there, every such crash leaves what promotion needs. */
  lemma StillPromotable(s: Dir, bond: Bond, key: bytes, active: seq<Bond>, bonds: seq<Bond>, naming: Naming, d': Dir)
    requires Load(s, BondsFile, naming) == Loaded(active) && Named(bonds, naming)
    requires Replaced(active, bond) == Some(bonds) && Replaced(bonds, bond) == Some(bonds)
    requires PendingStore in s && s[PendingStore] == Store([bond])
    requires PendingKey(bond.peerId) in s && s[PendingKey(bond.peerId)] == Raw(key)
    requires Crash(s, RecordSteps(bonds, bond.peerId, key) + ClearSteps(bond.peerId), d') && JournalFile in d'
    ensures Promotable(d', s, bond, key, bonds, naming)
  {
    CrashedFiles(s, bonds, bond.peerId, key, d');
    CrashedTrust(s, bonds, bond.peerId, key, d');
  }

  lemma CrashedFiles(s: Dir, bonds: seq<Bond>, id: string, key: bytes, d': Dir)
    requires Crash(s, RecordSteps(bonds, id, key) + ClearSteps(id), d') && JournalFile in d'
    requires PendingStore in s && PendingKey(id) in s && s[PendingKey(id)] == Raw(key)
    ensures PendingStore in d' && d'[PendingStore] == s[PendingStore]
    ensures if PendingKey(id) in d' then d'[PendingKey(id)] == Raw(key)
            else ActiveKey(id) in d' && d'[ActiveKey(id)] == Raw(key)
    ensures d' == s || (BondsFile in d' && d'[BondsFile] == Store(bonds))
  {
    RecordingCrashes(s, bonds, id, key, d');
  }

  lemma CrashedTrust(s: Dir, bonds: seq<Bond>, id: string, key: bytes, d': Dir)
    requires Crash(s, RecordSteps(bonds, id, key) + ClearSteps(id), d')
    ensures ActiveTrust(Recording(d', bonds, id, key)) == ActiveTrust(Recording(s, bonds, id, key))
  {
    RecordingCrashes(s, bonds, id, key, d');
  }

  /**
   Until recovery runs, such a crash can leave what the daemon's promotion never leaves: the
   active store already names the peer while its active key is cut short.
   */
  lemma RecordingExposesShortKey(d: Dir, a: Attempt, naming: Naming)
    requires AttemptSteps(d, a, Completed, naming).1.Recorded?
    ensures exists d' :: Crash(d, AttemptSteps(d, a, Completed, naming).0, d') && !Trustworthy(d', naming)
  {
    var bond := NewBond(a, naming);
    var id := bond.peerId;
    var bonds := Replaced(Load(d, BondsFile, naming).bonds, bond).value;
    var s := Staging(d, a, bond);
    var steps := RecordSteps(bonds, id, a.key) + ClearSteps(id);
    var s1 := s[BondsFile := Store(bonds)];
    var d' := s1[ActiveKey(id) := Raw([])];
    assert steps[1..][0] == Write(ActiveKey(id), Raw(a.key)) && Torn(Raw([]), Raw(a.key));
    assert Crash(s1, steps[1..], d');
    assert Crash(s, steps, d');
    StagingLeaves(d, a, bond);
    CrashLater(d, StagingSteps(a, bond), steps, d');
    assert d'[ActiveKey(id)] == Raw([]);
    assert !KeysComplete(d');
  }

  lemma {:induction false} CrashLater(d: Dir, a: seq<FileStep>, b: seq<FileStep>, d': Dir)
    requires Crash(ApplyAll(d, a), b, d')
    ensures Crash(d, a + b, d')
    decreases |a|
  {
    if a == [] {
      assert a + b == b;
    } else {
      CrashLater(Apply(d, a[0]), a[1..], b, d');
      assert (a + b)[1..] == a[1..] + b;
    }
  }

  /**
   The attempt gets as far as the active store, and its key is either written after the store
   or, being of the wrong length, not written at all where there is none.
   */
  predicate Exposed(d: Dir, a: Attempt, coordination: Coordination, naming: Naming) {
    var id := naming(a.pubkey);
    && coordination.Completed? && Load(d, BondsFile, naming).Loaded?
    && (a.force || !Has(Load(d, BondsFile, naming).bonds, id))
    && (|a.key| == BOND_KEY_BYTES || ActiveKey(id) !in d)
  }

  /** Exactly when the terminal command keeps trust at every point a crash can fall. */
  lemma TerminalTrustExactly(d: Dir, a: Attempt, coordination: Coordination, naming: Naming)
    requires Trustworthy(d, naming)
    ensures (forall d' :: Crash(d, AttemptSteps(d, a, coordination, naming).0, d') ==> Trustworthy(d', naming)) <==>
            !Exposed(d, a, coordination, naming)
    ensures |a.key| == BOND_KEY_BYTES ==>
              (Exposed(d, a, coordination, naming) <==> AttemptSteps(d, a, coordination, naming).1.Recorded?)
  {
    ReplacedKeeps(Load(d, BondsFile, naming).bonds, NewBond(a, naming));
    if Exposed(d, a, coordination, naming) {
      if |a.key| == BOND_KEY_BYTES {
        RecordingExposesShortKey(d, a, naming);
      } else {
        RecordingWithoutKey(d, a, naming);
      }
    } else {
      forall d' | Crash(d, AttemptSteps(d, a, coordination, naming).0, d') ensures Trustworthy(d', naming) {
        UnexposedKeepsTrust(d, a, coordination, naming, d');
      }
    }
  }

  lemma RecordingWithoutKey(d: Dir, a: Attempt, naming: Naming)
    requires Trustworthy(d, naming) && Exposed(d, a, Completed, naming) && |a.key| != BOND_KEY_BYTES
    ensures exists d' :: Crash(d, AttemptSteps(d, a, Completed, naming).0, d') && !Trustworthy(d', naming)
  {
    var bond := NewBond(a, naming);
    var active := Load(d, BondsFile, naming).bonds;
    ReplacedKeeps(active, bond);
    var bonds := Replaced(active, bond).value;
    var s := Staging(d, a, bond);
    var save := Save(BondsFile, Store(bonds));
    StagingLeaves(d, a, bond);
    var d' := Apply(s, save);
    assert Crash(s, [save], d') by { assert Crash(d', [save][1..], d'); }
    CrashLater(d, StagingSteps(a, bond), [save], d');
    var i :| 0 <= i < |bonds| && bonds[i] == bond;
    assert !BondedHaveKeys(d', bonds);
  }

  lemma UnexposedKeepsTrust(d: Dir, a: Attempt, coordination: Coordination, naming: Naming, d': Dir)
    requires Trustworthy(d, naming) && !Exposed(d, a, coordination, naming)
    requires Crash(d, AttemptSteps(d, a, coordination, naming).0, d')
    ensures Trustworthy(d', naming)
  {
    var bond := NewBond(a, naming);
    var active := Load(d, BondsFile, naming).bonds;
    ReplacedKeeps(active, bond);
    var (steps, r) := AttemptSteps(d, a, coordination, naming);
    if coordination.Completed? && steps != [] {
      SavedOverKey(d, a, naming, d');
    } else {
      assert AllQuiet(steps);
      QuietCrash(d, steps, d');
      TrustIsActiveTrust(d, d', naming);
    }
  }

  /** A record whose key is already in place may be saved at any time. */
  lemma SavedOverKey(d: Dir, a: Attempt, naming: Naming, d': Dir)
    requires Trustworthy(d, naming) && ActiveKey(naming(a.pubkey)) in d
    requires var bond := NewBond(a, naming); var active := Load(d, BondsFile, naming).bonds;
             && Replaced(active, bond).Some?
             && Crash(d, StagingSteps(a, bond) + [Save(BondsFile, Store(Replaced(active, bond).value))], d')
    ensures Trustworthy(d', naming)
  {
    var bond := NewBond(a, naming);
    var active := Load(d, BondsFile, naming).bonds;
    var bonds := Replaced(active, bond).value;
    var staging := StagingSteps(a, bond);
    var save := Save(BondsFile, Store(bonds));
    var s := Staging(d, a, bond);
    StagingLeaves(d, a, bond);
    CrashAtEnd(d, staging);
    assert AllQuiet(staging);
    QuietCrash(d, staging, s);
    TrustIsActiveTrust(d, s, naming);
    ReplacedKeeps(active, bond);
    NamedAfterReplacing(active, bond, naming);
    KeysAfterReplacing(d, s, active, bond);
    CrashAppend(d, staging, [save], d');
    if Crash(d, staging, d') {
      QuietCrash(d, staging, d');
      TrustIsActiveTrust(d, d', naming);
    } else {
      CrashOfSave(s, save, [], d');
    }
  }
}
