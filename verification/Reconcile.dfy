/** Crash recovery: from the journal and one authenticated status reply to a durable outcome. */
module Reconcile {
  import opened Bytes
  import opened PairTransaction
  import opened PairSystem
  import opened Journal
  import opened BondDirectory
  import opened PairRecovery

  datatype ReconcileResult = BondedNow | AbortedNow | StillUncertain | NoJournalFound | Failed

  /** What a reply means for the staged bond, by journal state and peer status alone. */
  datatype Verdict = Activate | Clear | Retain | Refuse

  function VerdictFor(local: StatusState, id: TransactionId, reply: StatusMessage, nonce: u64): Verdict {
    if reply.Query? || reply.transaction != id || reply.nonce != nonce then Refuse
    else if local.CommitPending? && (reply.state.Committed? || reply.state.Bonded?) then Activate
    else if local.PreCommit? && reply.state.Aborted? then Clear
    else if local.Aborted? && (reply.state.Aborted? || reply.state.PreCommit?) then Clear
    else Retain
  }

  /** The states a journal can name. */
  predicate FromJournal(s: StatusState) {
    s.PreCommit? || s.CommitPending? || s.Aborted?
  }

  function VerdictSteps(d: Dir, peerId: string, verdict: Verdict, naming: Naming): seq<FileStep> {
    match verdict
    case Activate => PromotePlan(d, peerId, naming).steps
    case Clear => DiscardSteps(peerId)
    case _ => []
  }

  function VerdictResult(d: Dir, peerId: string, verdict: Verdict, naming: Naming): ReconcileResult {
    match verdict
    case Activate => if PromotePlan(d, peerId, naming).ok then BondedNow else Failed
    case Clear => AbortedNow
    case Retain => StillUncertain
    case Refuse => Failed
  }

  /** Each result of a recovery with its exact condition, by the journal's state and the reply. */
  lemma ResultExactly(d: Dir, peerId: string, local: StatusState, id: TransactionId, reply: StatusMessage, nonce: u64,
                      naming: Naming)
    requires FromJournal(local)
    ensures var r := VerdictResult(d, peerId, VerdictFor(local, id, reply, nonce), naming);
            var taken := reply.Response? && reply.transaction == id && reply.nonce == nonce;
            var recorded := taken && local.CommitPending? && (reply.state.Committed? || reply.state.Bonded?);
            && (r.BondedNow? <==> recorded && PromotePlan(d, peerId, naming).ok)
            && (r.AbortedNow? <==> taken && !local.CommitPending? && (reply.state.Aborted? ||
                                     (local.Aborted? && reply.state.PreCommit?)))
            && (r.Failed? <==> !taken || (recorded && !PromotePlan(d, peerId, naming).ok))
            && !r.NoJournalFound?
  {}

  /** Drive a recovered transaction with the reply and act on where it ends. */
  method ApplyStatusDecision(dir: Directory, pending: Bond, tx: Transaction, ghost local: StatusState,
                             reply: StatusMessage, nonce: u64)
    returns (r: ReconcileResult)
    requires FromJournal(local) && tx.Value() == FromRecoveryStatus(tx.id, Coordinator, local)
    modifies dir, tx
    ensures var v := VerdictFor(local, tx.id, reply, nonce);
            dir.Performed(VerdictSteps(old(dir.files), pending.peerId, v, dir.naming))
    ensures r == VerdictResult(old(dir.files), pending.peerId, VerdictFor(local, tx.id, reply, nonce), dir.naming)
  {
    if reply.Query? { return Failed; }
    var applied := tx.ApplyStatusResponse(reply, nonce);
    if applied.Refused? { return Failed; }
    if reply.state.Unknown? || tx.phase.Uncertain? { return StillUncertain; }
    if tx.phase.Committed? {
      var noted := tx.Local(LocalEvent.Committed);
      if noted.Refused? { return Failed; }
      var _ := tx.ReconcileStatus(reply.state);
    }
    match tx.phase {
      case Bonded =>
        var ok := dir.PromoteBond(pending.peerId);
        r := if ok then BondedNow else Failed;
      case Aborted(_) =>
        dir.DiscardStaging(pending.peerId);
        r := AbortedNow;
      case _ => r := StillUncertain;
    }
  }

  /** The journal and the staged bond that belongs to it, if both can be read. */
  function Recoverable(d: Dir, naming: Naming): Option<(Recovered, Bond)> {
    if JournalFile !in d || !d[JournalFile].Note? then None
    else match (ReconcilerReads(d[JournalFile].text), Load(d, PendingStore, naming))
      case (Some(q), Loaded(bonds)) => if bonds != [] && bonds[0].peerId == q.peerId then Some((q, bonds[0])) else None
      case _ => None
  }

  /**
   One run of the recovery service. Its effect on the directory is exact: a promotion or a
   discard under the stated verdicts, and otherwise not one file step.
   */
  method RunReconcile(dir: Directory, answer: Option<StatusMessage>, nonce: u64) returns (r: ReconcileResult)
    modifies dir
    ensures match (Recoverable(old(dir.files), dir.naming), answer)
            case (Some((q, bond)), Some(reply)) =>
              var v := VerdictFor(q.status, q.transaction, reply, nonce);
              && dir.Performed(VerdictSteps(old(dir.files), bond.peerId, v, dir.naming))
              && r == VerdictResult(old(dir.files), bond.peerId, v, dir.naming)
            case _ =>
              && dir.files == old(dir.files) && dir.trace == old(dir.trace)
              && r == (if JournalFile in old(dir.files) && old(dir.files)[JournalFile].Note? then Failed
                       else NoJournalFound)
  {
    if JournalFile !in dir.files || !dir.files[JournalFile].Note? { return NoJournalFound; }
    var read := ReconcilerReads(dir.files[JournalFile].text);
    if read.None? { return Failed; }
    var loaded := dir.LoadStore(PendingStore);
    if loaded.LoadFailed? || loaded.bonds == [] { return Failed; }
    var pending := loaded.bonds[0];
    if pending.peerId != read.value.peerId { return Failed; }
    var tx := new Transaction.Recover(read.value.transaction, Coordinator, read.value.status);
    if answer.None? { return Failed; }
    r := ApplyStatusDecision(dir, pending, tx, read.value.status, answer.value, nonce);
  }

  /** Whatever the verdict and wherever the recovery service dies, trust stays complete. */
  lemma ReconcileKeepsTrust(d: Dir, peerId: string, verdict: Verdict, naming: Naming, d': Dir)
    requires Trustworthy(d, naming) && Crash(d, VerdictSteps(d, peerId, verdict, naming), d')
    ensures Trustworthy(d', naming)
    ensures !verdict.Activate? ==> ActiveTrust(d') == ActiveTrust(d)
  {
    if verdict.Activate? {
      RequestKeepsTrust(d, Promote(peerId), naming, d');
    } else {
      QuietCrash(d, VerdictSteps(d, peerId, verdict, naming), d');
      TrustIsActiveTrust(d, d', naming);
    }
  }

  lemma {:induction false} PhoneStatusesGrow(id: TransactionId, run: seq<System>, i: nat, j: nat)
    requires History(id, run) && i <= j < |run|
    ensures run[i].phoneStatuses <= run[j].phoneStatuses
    decreases j
  {
    if i < j {
      PhoneStatusesGrow(id, run, i, j - 1);
      assert Follows(run[j - 1], run[j]);
    }
  }

  /**
   A reply is right about the peer. In every history, for a journal that was staged or may
   have been decided, an honest, possibly stale reply activates the staged bond only if both
   operators confirmed, both sides staged and the phone recorded the commit; and it clears
   the staging only if the phone has not recorded the commit and never will.
   */
  lemma ReplyIsRight(id: TransactionId, run: seq<System>, i: nat, local: StatusState, reply: StatusMessage,
                     nonce: u64, j: nat)
    requires History(id, run) && i <= j < |run| && (local.PreCommit? || local.CommitPending?)
    requires Honest(reply, id, run[i].phoneStatuses)
    ensures var v := VerdictFor(local, id, reply, nonce);
            && (v.Activate? ==> AllFour(run[i].made) && run[i].made.commitDecided && run[i].made.commitRecorded)
            && (v.Clear? ==> !run[j].made.commitRecorded)
  {
    HistoryKeeps(id, run, i);
    HistoryKeeps(id, run, j);
    PhoneStatusesGrow(id, run, i, j);
  }

  /** So a desktop that recovers from its journal mark is right about the peer. */
  lemma RecoveryIsSound(id: TransactionId, run: seq<System>, i: nat, reply: StatusMessage, nonce: u64, j: nat)
    requires History(id, run) && i <= j < |run|
    requires run[i].mark != NoJournal && Honest(reply, id, run[i].phoneStatuses)
    ensures var v := VerdictFor(RecoveredStatus(run[i].mark), id, reply, nonce);
            && (v.Activate? ==> AllFour(run[i].made) && run[i].made.commitDecided && run[i].made.commitRecorded)
            && (v.Clear? ==> !run[j].made.commitRecorded)
  {
    ReplyIsRight(id, run, i, RecoveredStatus(run[i].mark), reply, nonce, j);
  }
}
