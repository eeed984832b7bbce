/** Recovery from whatever is on disk: journals cut anywhere, in any life of the directory. */
module TornRecovery {
  import opened Bytes
  import opened PairTransaction
  import opened PairSystem
  import opened Journal
  import opened BondDirectory
  import opened PairRecovery
  import opened Reconcile

  predicate OneLine(r: JournalRecord) { '\n' !in r.peerId && '\n' !in r.peerAddress }

  /** `text` is what a write of the record may leave. */
  predicate CutOf(text: string, r: JournalRecord) { OneLine(r) && text <= JournalText(r) }

  /** The fields of a cut record: none, or the record's transaction with at most its labels and its state. */
  lemma CutFields(text: string, r: JournalRecord)
    requires CutOf(text, r) && Field(text, "peer_address").Some?
    ensures var id := Field(text, "transaction_id"); id.Some? && HexId(id.value) == Some(r.transaction)
    ensures Field(text, "peer_id") == Some(StripCr(r.peerId)) && Field(text, "peer_address").value <= r.peerAddress
    ensures AtMost(Field(text, "state"), StateText(r.state))
  {
    var n := |text|;
    assert text == JournalText(r)[..n];
    TornAddress(r, n);
    TornState(r, n);
    TornIdentity(r, n);
  }

  /** What is read from a cut record is about its transaction, and staged or possibly decided. */
  lemma CutReads(text: string, r: JournalRecord)
    requires CutOf(text, r)
    ensures var q := ReconcilerReads(text);
            q.Some? ==> && q.value.transaction == r.transaction
                        && (q.value.status.PreCommit? || q.value.status.CommitPending?)
    ensures var q := ReadJournal(text); q.Some? ==> q.value.transaction == r.transaction && OneLine(q.value)
  {
    if Field(text, "peer_address").Some? {
      CutFields(text, r);
      var state := Field(text, "state");
      assert state.Some? && state.value != "" ==> state.value[0] != 'a';
    }
  }

  /** The journal, if there is one, is what is left of a record of one of the transactions. */
  ghost predicate JournalAbout(d: Dir, ids: set<TransactionId>) {
    JournalFile in d ==>
      && d[JournalFile].Note?
      && exists r: JournalRecord :: CutOf(d[JournalFile].text, r) && r.transaction in ids
  }

  /** A step that leaves the journal alone, removes it or writes a record of one of the transactions. */
  ghost predicate Minds(s: FileStep, ids: set<TransactionId>) {
    match s
    case Write(p, f) =>
      p == JournalFile ==> exists r: JournalRecord :: OneLine(r) && f == Note(JournalText(r)) && r.transaction in ids
    case Save(p, _) => p != JournalFile
    case Rename(_, q) => q != JournalFile
    case Unlink(_) => true
  }

  ghost predicate AllMind(steps: seq<FileStep>, ids: set<TransactionId>) {
    forall i :: 0 <= i < |steps| ==> Minds(steps[i], ids)
  }

  lemma {:induction false} CrashMinds(d: Dir, steps: seq<FileStep>, d': Dir, ids: set<TransactionId>)
    requires JournalAbout(d, ids) && AllMind(steps, ids) && Crash(d, steps, d')
    ensures JournalAbout(d', ids)
    decreases |steps|
  {
    if d' != d {
      assert Minds(steps[0], ids);
      if Crash(Apply(d, steps[0]), steps[1..], d') {
        CrashMinds(Apply(d, steps[0]), steps[1..], d', ids);
      } else {
        var f :| Torn(f, steps[0].file) && d' == d[steps[0].path := f];
      }
    }
  }

  lemma {:induction false} UnlinksMind(bonds: seq<Bond>, ids: set<TransactionId>)
    ensures AllMind(UnlinkKeys(bonds), ids)
  {
    if bonds != [] { UnlinksMind(bonds[1..], ids); }
  }

  /** The stagings among the requests carry one-line labels. */
  predicate OneLineStage(r: Request) { r.Stage? ==> '\n' !in r.peerId && '\n' !in r.address }

  lemma MarkMinds(d: Dir, ids: set<TransactionId>)
    requires JournalAbout(d, ids)
    ensures AllMind(MarkPlan(d).steps, ids)
  {
    if MarkPlan(d).ok {
      var text := d[JournalFile].text;
      var r: JournalRecord :| CutOf(text, r) && r.transaction in ids;
      CutReads(text, r);
      var written := ReadJournal(text).value.(state := Decided);
      assert OneLine(written) && written.transaction in ids;
      assert MarkPlan(d).steps == [Write(JournalFile, Note(JournalText(written)))];
    }
  }

  lemma DiscardAllMinds(d: Dir, naming: Naming, ids: set<TransactionId>)
    ensures AllMind(DiscardAllSteps(d, naming), ids)
  {
    match Load(d, PendingStore, naming)
    case Loaded(bonds) => UnlinksMind(bonds, ids);
    case LoadFailed(_) =>
  }

  lemma PeerStepsMind(d: Dir, id: string, naming: Naming, ids: set<TransactionId>)
    ensures AllMind(PromotePlan(d, id, naming).steps, ids) && AllMind(RevokePlan(d, id, naming).steps, ids)
  {
    assert AllMind(KeyPlan(d, id).steps, ids) && AllMind(DiscardSteps(id), ids);
  }

  /** Every request minds the journal, whatever is in it. */
  lemma RequestMinds(d: Dir, r: Request, naming: Naming, ids: set<TransactionId>)
    requires JournalAbout(d, ids) && OneLineStage(r) && (r.Stage? ==> r.transaction in ids)
    ensures AllMind(StepsOf(d, r, naming), ids)
  {
    match r
    case Stage(_, _, _, _, _) =>
    case MarkCommit => MarkMinds(d, ids);
    case DiscardAll => DiscardAllMinds(d, naming, ids);
    case Discard(_) =>
    case Promote(id) => PeerStepsMind(d, id, naming, ids);
    case Revoke(id) => PeerStepsMind(d, id, naming, ids);
  }

  /** The transactions staged by the first `n` requests. */
  function StagedIds(requests: seq<Request>, n: nat): set<TransactionId>
    requires n <= |requests|
  {
    set k | 0 <= k < n && requests[k].Stage? :: requests[k].transaction
  }

  /** In every life the journal on disk is what is left of a record of a staged transaction. */
  lemma {:induction false} LifeMinds(dirs: seq<Dir>, requests: seq<Request>, naming: Naming, n: nat)
    requires Life(dirs, requests, naming) && n < |dirs|
    requires forall k :: 0 <= k < |requests| ==> OneLineStage(requests[k])
    ensures JournalAbout(dirs[n], StagedIds(requests, n))
  {
    if n > 0 {
      LifeMinds(dirs, requests, naming, n - 1);
      var ids := StagedIds(requests, n);
      assert StagedIds(requests, n - 1) <= ids;
      assert JournalAbout(dirs[n - 1], ids);
      assert requests[n - 1].Stage? ==> requests[n - 1].transaction in ids;
      RequestMinds(dirs[n - 1], requests[n - 1], naming, ids);
      CrashMinds(dirs[n - 1], StepsOf(dirs[n - 1], requests[n - 1], naming), dirs[n], ids);
    }
  }

  /** So what recovery reads is about a staged transaction, and staged or possibly decided. */
  lemma RecoveredWasStaged(dirs: seq<Dir>, requests: seq<Request>, naming: Naming, n: nat)
    requires Life(dirs, requests, naming) && n < |dirs|
    requires forall k :: 0 <= k < |requests| ==> OneLineStage(requests[k])
    requires Recoverable(dirs[n], naming).Some?
    ensures var (q, _) := Recoverable(dirs[n], naming).value;
            && (q.status.PreCommit? || q.status.CommitPending?)
            && exists k :: 0 <= k < n && requests[k].Stage? && requests[k].transaction == q.transaction
  {
    LifeMinds(dirs, requests, naming, n);
    var text := dirs[n][JournalFile].text;
    var r: JournalRecord :| CutOf(text, r) && r.transaction in StagedIds(requests, n);
    CutReads(text, r);
  }

  /**
   One run of the recovery service on any directory of any life, against any history of the
   recovered attempt: it activates the staged bond only if both operators confirmed, both
   sides staged and the phone recorded the commit; it clears the staging only if the phone
   never records it; and trust stays complete.
   */
  method RecoverSoundly(dir: Directory, reply: StatusMessage, nonce: u64,
                        ghost dirs: seq<Dir>, ghost requests: seq<Request>, ghost n: nat,
                        ghost id: TransactionId, ghost run: seq<System>, ghost i: nat)
    returns (r: ReconcileResult)
    requires Life(dirs, requests, dir.naming) && n < |dirs| && dir.files == dirs[n]
    requires forall k :: 0 <= k < |requests| ==> OneLineStage(requests[k])
    requires History(id, run) && i < |run| && Honest(reply, id, run[i].phoneStatuses)
    requires Recoverable(dir.files, dir.naming).Some? ==> Recoverable(dir.files, dir.naming).value.0.transaction == id
    modifies dir
    ensures r.BondedNow? ==> AllFour(run[i].made) && run[i].made.commitDecided && run[i].made.commitRecorded
    ensures r.AbortedNow? ==> forall j :: i <= j < |run| ==> !run[j].made.commitRecorded
    ensures Trustworthy(dir.files, dir.naming)
    ensures r.AbortedNow? || r.StillUncertain? || r.NoJournalFound? ==>
              ActiveTrust(dir.files) == ActiveTrust(old(dir.files))
  {
    ghost var d := dir.files;
    LifeIsTrustworthy(dirs, requests, dir.naming, n);
    r := RunReconcile(dir, Some(reply), nonce);
    if Recoverable(d, dir.naming).Some? {
      ghost var (q, bond) := Recoverable(d, dir.naming).value;
      RecoveredWasStaged(dirs, requests, dir.naming, n);
      ghost var v := VerdictFor(q.status, q.transaction, reply, nonce);
      CrashAtEnd(d, VerdictSteps(d, bond.peerId, v, dir.naming));
      ReconcileKeepsTrust(d, bond.peerId, v, dir.naming, dir.files);
      forall j | i <= j < |run|
        ensures v.Activate? ==> AllFour(run[i].made) && run[i].made.commitDecided && run[i].made.commitRecorded
        ensures v.Clear? ==> !run[j].made.commitRecorded
      {
        ReplyIsRight(id, run, i, q.status, reply, nonce, j);
      }
    }
  }
}
