/** What an attempt of the pair engine leaves on disk, and what recovery can make of it. */
module PairOutcome {
  import opened Bytes
  import opened PairTransaction
  import opened Journal
  import opened BondDirectory
  import opened PairRecovery
  import opened Reconcile
  import opened PairEngine

  /** The staging request the daemon builds: the bond named after its key, a whole key, one-line labels. */
  predicate WellStaged(stage: Request, naming: Naming) {
    && stage.Stage? && stage.bond.peerId == stage.peerId == naming(stage.bond.pubkey)
    && |stage.key| == BOND_KEY_BYTES && Clean(stage.peerId) && Clean(stage.address)
  }

  /** The replies are those the commit consumer gives on directory `d`. */
  predicate Obeys(d: Dir, made: seq<Request>, replies: seq<bool>, naming: Naming) {
    |made| <= |replies| && Replies(d, made, naming) == replies[..|made|]
  }

  function Record(stage: Request, state: JournalState): JournalRecord
    requires stage.Stage?
  {
    JournalRecord(stage.transaction, stage.peerId, stage.address, state)
  }

  lemma WrittenIsRead(r: JournalRecord)
    requires Clean(r.peerId) && Clean(r.peerAddress)
    ensures ReadJournal(JournalText(r)) == Some(r)
    ensures ReconcilerReads(JournalText(r)) ==
            Some(Recovered(r.transaction, r.peerId, r.peerAddress, StatusOfState(r.state)))
  {
    JournalRoundTrip(r);
    ReadersAgreeOnWritten(r);
  }

  // ---------------------------------------------------------------------------------------
  // Trust
  // ---------------------------------------------------------------------------------------

  lemma {:induction false} QuietRequests(d: Dir, requests: seq<Request>, naming: Naming)
    requires forall i :: 0 <= i < |requests| ==> !requests[i].Promote? && !requests[i].Revoke?
    ensures ActiveTrust(Served(d, requests, naming)) == ActiveTrust(d)
    decreases |requests|
  {
    if requests != [] {
      var steps := StepsOf(d, requests[0], naming);
      CrashAtEnd(d, steps);
      StagingIsolation(d, requests[0], naming, ApplyAll(d, steps));
      QuietRequests(ApplyAll(d, steps), requests[1..], naming);
    }
  }

  /** Short of five answers in script nothing an attempt does touches trust; and it always stays complete. */
  lemma OnlyFullExchangeTrusts(d: Dir, n: nat, accept: bool, replies: seq<bool>, stage: Request, naming: Naming)
    requires stage.Stage? && n <= 5
    ensures n < 5 ==> ActiveTrust(Served(d, Requested(n, accept, replies, stage), naming)) == ActiveTrust(d)
    ensures Trustworthy(d, naming) ==> Trustworthy(Served(d, Requested(n, accept, replies, stage), naming), naming)
  {
    if n < 5 { QuietRequests(d, Requested(n, accept, replies, stage), naming); }
    if Trustworthy(d, naming) { ServedIsTrustworthy(d, Requested(n, accept, replies, stage), naming); }
  }

  // ---------------------------------------------------------------------------------------
  // Recovery
  // ---------------------------------------------------------------------------------------

  /** What staging and the commit mark leave behind. */
  predicate Marked(d: Dir, stage: Request)
    requires stage.Stage?
  {
    && JournalFile in d && d[JournalFile] == Note(JournalText(Record(stage, Decided)))
    && PendingStore in d && d[PendingStore] == Store([stage.bond])
    && PendingKey(stage.peerId) in d && d[PendingKey(stage.peerId)] == Raw(stage.key)
  }

  lemma StagedFiles(d: Dir, stage: Request, naming: Naming)
    requires stage.Stage?
    ensures var t := ApplyAll(d, StepsOf(d, stage, naming));
            && JournalFile in t && t[JournalFile] == Note(JournalText(Record(stage, Staged)))
            && PendingStore in t && t[PendingStore] == Store([stage.bond])
            && PendingKey(stage.peerId) in t && t[PendingKey(stage.peerId)] == Raw(stage.key)
  {
    var steps := StepsOf(d, stage, naming);
    Unrolled(d, steps[0], steps[1], steps[2]);
    Snoc(d, [steps[0], steps[1], steps[2]], steps[3]);
    assert steps == [steps[0], steps[1], steps[2]] + [steps[3]];
  }

  lemma MarkedFiles(d: Dir, stage: Request, naming: Naming)
    requires WellStaged(stage, naming)
    ensures Marked(Served(d, [stage, MarkCommit], naming), stage)
    ensures Replies(d, [stage, MarkCommit], naming) == [true, true]
  {
    ServedTwo(d, stage, MarkCommit, naming);
    StagedFiles(d, stage, naming);
    WrittenIsRead(Record(stage, Staged));
    var t := ApplyAll(d, StepsOf(d, stage, naming));
    One(t, JournalStep(Record(stage, Decided)));
  }

  lemma MarkedIsRecoverable(d: Dir, stage: Request, naming: Naming)
    requires WellStaged(stage, naming) && Marked(d, stage)
    ensures Recoverable(d, naming) ==
            Some((Recovered(stage.transaction, stage.peerId, stage.address, StatusState.CommitPending), stage.bond))
  {
    WrittenIsRead(Record(stage, Decided));
  }

  /** A promotion that fails leaves the staging as it was. */
  lemma FailedPromotionKeepsMark(d: Dir, stage: Request, naming: Naming)
    requires stage.Stage? && Marked(d, stage) && !PromotePlan(d, stage.peerId, naming).ok
    ensures Marked(ApplyAll(d, PromotePlan(d, stage.peerId, naming).steps), stage)
  {
    var plan := PromotePlan(d, stage.peerId, naming);
    if plan.steps != [] {
      assert plan.steps == KeyPlan(d, stage.peerId).steps;
      KeysInPlace(d, stage.peerId, naming);
    }
  }

  lemma DiscardedJournal(d: Dir, peerId: string, naming: Naming)
    ensures var e := ApplyAll(d, StepsOf(d, Discard(peerId), naming)); JournalFile !in e
  {
    var steps := DiscardSteps(peerId);
    Unrolled(d, steps[0], steps[1], steps[2]);
  }

  /**
   An attempt that ends uncertain leaves something for recovery exactly when it did not
   discard its staging: that is, unless the peer's COMMIT acknowledgement was the answer
   that failed to arrive while the consumer was there to serve the discard.
   */
  lemma UncertainSurvivesExactly(d: Dir, n: nat, accept: bool, replies: seq<bool>, stage: Request, naming: Naming)
    requires WellStaged(stage, naming) && n <= 5
    requires Commits(n, accept, replies) && !Pairs(n, accept, replies)
    requires Obeys(d, Requested(n, accept, replies, stage), replies, naming)
    ensures var e := Served(d, Requested(n, accept, replies, stage), naming);
            && (Recoverable(e, naming).Some? <==> n >= 4 || |replies| == 2)
            && (Recoverable(e, naming).Some? ==> Marked(e, stage))
  {
    var made := Requested(n, accept, replies, stage);
    var marked := Served(d, [stage, MarkCommit], naming);
    MarkedFiles(d, stage, naming);
    MarkedIsRecoverable(marked, stage, naming);
    if made != [stage, MarkCommit] {
      var last := made[2];
      assert made == [stage, MarkCommit] + [last];
      ServedSnoc(d, [stage, MarkCommit], last, naming);
      if n == 3 {
        DiscardedJournal(marked, stage.peerId, naming);
      } else {
        assert !replies[2] && Replies(d, made, naming)[2] == replies[2];
        FailedPromotionKeepsMark(marked, stage, naming);
        MarkedIsRecoverable(Served(d, made, naming), stage, naming);
      }
    }
  }

  lemma MarkedPromotes(d: Dir, stage: Request, naming: Naming)
    requires WellStaged(stage, naming) && Marked(d, stage) && Trustworthy(d, naming)
    ensures PromotePlan(d, stage.peerId, naming).ok
  {}

  /**
   Recovery finishes the attempt: after four answers, a peer that says it committed makes
   the reconciler activate the bond, and trust is then what five answers would have made it.
   */
  lemma RecoveryFinishesAttempt(d: Dir, replies: seq<bool>, stage: Request, naming: Naming,
                                reply: StatusMessage, nonce: u64)
    requires WellStaged(stage, naming) && Trustworthy(d, naming) && Commits(4, true, replies)
    requires reply.Response? && reply.transaction == stage.transaction && reply.nonce == nonce
    requires reply.state.Committed? || reply.state.Bonded?
    ensures var left := Served(d, Requested(4, true, replies, stage), naming);
            var full := [stage, MarkCommit, Promote(stage.peerId)];
            && Recoverable(left, naming).Some?
            && var (q, bond) := Recoverable(left, naming).value;
               && VerdictFor(q.status, q.transaction, reply, nonce) == Activate
               && VerdictResult(left, bond.peerId, Activate, naming) == BondedNow
               && ApplyAll(left, VerdictSteps(left, bond.peerId, Activate, naming)) == Served(d, full, naming)
               && Replies(d, full, naming) == [true, true, true]
  {
    var left := Served(d, [stage, MarkCommit], naming);
    MarkedFiles(d, stage, naming);
    MarkedIsRecoverable(left, stage, naming);
    ServedIsTrustworthy(d, [stage, MarkCommit], naming);
    MarkedPromotes(left, stage, naming);
    ServedSnoc(d, [stage, MarkCommit], Promote(stage.peerId), naming);
    assert [stage, MarkCommit] + [Promote(stage.peerId)] == [stage, MarkCommit, Promote(stage.peerId)];
  }

  /** After a discarded commit no reply of the peer makes the reconciler do anything. */
  lemma DiscardedCommitIsLost(d: Dir, replies: seq<bool>, stage: Request, naming: Naming)
    requires stage.Stage? && Commits(3, true, replies) && |replies| >= 3
    ensures var e := Served(d, Requested(3, true, replies, stage), naming);
            ActiveTrust(e) == ActiveTrust(d) && Recoverable(e, naming).None?
  {
    var made := Requested(3, true, replies, stage);
    QuietRequests(d, made, naming);
    assert made == [stage, MarkCommit] + [Discard(stage.peerId)];
    ServedSnoc(d, [stage, MarkCommit], Discard(stage.peerId), naming);
    DiscardedJournal(Served(d, [stage, MarkCommit], naming), stage.peerId, naming);
  }

  // ---------------------------------------------------------------------------------------
  // How long a decision stays recoverable
  // ---------------------------------------------------------------------------------------

  /** The requests that end a recorded decision: a new staging, any discard, and the promotion of its own peer. */
  predicate EndsMark(r: Request, peerId: string) {
    r.Stage? || r.Discard? || r.DiscardAll? || r == Promote(peerId)
  }

  lemma NoJournalAfterUnlinks(d: Dir, steps: seq<FileStep>, peerId: string)
    ensures JournalFile !in ApplyAll(d, steps + DiscardSteps(peerId))
    ensures JournalFile !in ApplyAll(d, steps + [Unlink(JournalFile), Unlink(PendingStore)])
  {
    var last := DiscardSteps(peerId);
    ApplyAllAppend(d, steps, last);
    Unrolled(ApplyAll(d, steps), last[0], last[1], last[2]);
    ApplyAllAppend(d, steps, [last[0], last[1]]);
  }

  /** A journal of a staging is never the journal of a decision: their last lines differ. */
  lemma JournalsDiffer(staged: JournalRecord, decided: JournalRecord)
    requires staged.state.Staged? && decided.state.Decided?
    ensures JournalText(staged) != JournalText(decided)
  {
    EndsWith(staged);
    EndsWith(decided);
  }

  lemma EndsWith(r: JournalRecord)
    ensures var text := JournalText(r);
            |text| >= 2 && text[|text| - 2] == if r.state.Staged? then 't' else 'g'
  {
    var tail := AfterAddress(r);
    assert tail[|tail| - 2] == if r.state.Staged? then 't' else 'g';
  }

  lemma StagingEndsMark(d: Dir, stage: Request, r: Request, naming: Naming)
    requires stage.Stage? && r.Stage?
    ensures !Marked(ApplyAll(d, StepsOf(d, r, naming)), stage)
  {
    StagedFiles(d, r, naming);
    JournalsDiffer(Record(r, Staged), Record(stage, Decided));
  }

  lemma PromotionEndsMark(d: Dir, stage: Request, naming: Naming)
    requires WellStaged(stage, naming) && Marked(d, stage) && Trustworthy(d, naming)
    ensures JournalFile !in ApplyAll(d, PromotePlan(d, stage.peerId, naming).steps)
  {
    MarkedPromotes(d, stage, naming);
    var keys := KeyPlan(d, stage.peerId).steps;
    var bonds := Replaced(Load(d, BondsFile, naming).bonds, stage.bond).value;
    var save := Save(BondsFile, Store(bonds));
    assert StagedBond(d, stage.peerId, naming) == Some(stage.bond);
    NoJournalAfterUnlinks(d, keys + [save], stage.peerId);
    assert keys + [save] + DiscardSteps(stage.peerId) == keys + ([save] + DiscardSteps(stage.peerId));
  }

  lemma OthersKeepMark(d: Dir, stage: Request, r: Request, naming: Naming)
    requires WellStaged(stage, naming) && Marked(d, stage) && !EndsMark(r, stage.peerId)
    ensures Marked(ApplyAll(d, StepsOf(d, r, naming)), stage)
  {
    match r
    case MarkCommit =>
      WrittenIsRead(Record(stage, Decided));
      One(d, JournalStep(Record(stage, Decided)));
    case Promote(id) =>
      assert StagedBond(d, id, naming) == None;
    case Revoke(id) =>
      var steps := RevokePlan(d, id, naming).steps;
      if steps != [] { Unrolled(d, steps[0], steps[1], steps[1]); }
  }

  /** One request keeps a recorded decision exactly when it is none of those that end it. */
  lemma MarkKeptExactly(d: Dir, stage: Request, r: Request, naming: Naming)
    requires WellStaged(stage, naming) && Marked(d, stage) && Trustworthy(d, naming)
    ensures Marked(ApplyAll(d, StepsOf(d, r, naming)), stage) <==> !EndsMark(r, stage.peerId)
  {
    if !EndsMark(r, stage.peerId) {
      OthersKeepMark(d, stage, r, naming);
    } else {
      match r
      case Stage(_, _, _, _, _) => StagingEndsMark(d, stage, r, naming);
      case Discard(id) => DiscardedJournal(d, id, naming);
      case DiscardAll => NoJournalAfterUnlinks(d, UnlinkKeys([stage.bond]), stage.peerId);
      case Promote(id) => PromotionEndsMark(d, stage, naming);
    }
  }

  /**
   Whatever else the consumer is asked afterwards, by this attempt or another, a recorded
   decision is there and recoverable at every point exactly when none of the requests ends it.
   */
  lemma MarkLastsExactly(d: Dir, stage: Request, requests: seq<Request>, naming: Naming)
    requires WellStaged(stage, naming) && Marked(d, stage) && Trustworthy(d, naming)
    ensures (forall k :: 0 <= k <= |requests| ==> Marked(Served(d, requests[..k], naming), stage)) <==>
            (forall i :: 0 <= i < |requests| ==> !EndsMark(requests[i], stage.peerId))
  {
    if forall k :: 0 <= k <= |requests| ==> Marked(Served(d, requests[..k], naming), stage) {
      forall i | 0 <= i < |requests| ensures !EndsMark(requests[i], stage.peerId) {
        assert Marked(Served(d, requests[..i], naming), stage) && Marked(Served(d, requests[..i + 1], naming), stage);
        NextPrefix(d, stage, requests, i, naming);
      }
    }
    if forall i :: 0 <= i < |requests| ==> !EndsMark(requests[i], stage.peerId) {
      forall k | 0 <= k <= |requests| ensures Marked(Served(d, requests[..k], naming), stage) {
        MarkLasts(d, stage, requests, k, naming);
      }
    }
  }

  lemma NextPrefix(d: Dir, stage: Request, requests: seq<Request>, i: nat, naming: Naming)
    requires WellStaged(stage, naming) && Trustworthy(d, naming) && i < |requests|
    requires Marked(Served(d, requests[..i], naming), stage)
    ensures Marked(Served(d, requests[..i + 1], naming), stage) <==> !EndsMark(requests[i], stage.peerId)
  {
    assert requests[..i + 1] == requests[..i] + [requests[i]];
    ServedSnoc(d, requests[..i], requests[i], naming);
    ServedIsTrustworthy(d, requests[..i], naming);
    MarkKeptExactly(Served(d, requests[..i], naming), stage, requests[i], naming);
  }

  lemma {:induction false} MarkLasts(d: Dir, stage: Request, requests: seq<Request>, k: nat, naming: Naming)
    requires WellStaged(stage, naming) && Marked(d, stage) && Trustworthy(d, naming) && k <= |requests|
    requires forall i :: 0 <= i < k ==> !EndsMark(requests[i], stage.peerId)
    ensures Marked(Served(d, requests[..k], naming), stage)
  {
    if k > 0 {
      MarkLasts(d, stage, requests, k - 1, naming);
      NextPrefix(d, stage, requests, k - 1, naming);
    }
  }
}
