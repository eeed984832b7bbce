/**
 The pairing as a two-party commit protocol: the desktop's and the phone's transactions, a
 network that may lose, duplicate, reorder and delay, aborts and disconnects at any moment,
 desktop crashes that leave only the journal mark, and status replies that may be stale.
 */
module PairSystem {
  import opened Bytes
  import opened PairTransaction

  /** What the desktop's recovery journal says about this transaction. */
  datatype JournalMark = NoJournal | PreCommitMark | CommitPendingMark

  datatype Sent = Sent(from: Role, message: Message)

  /** Decisions actually taken, as opposed to flags a recovered transaction assumes. */
  datatype Decisions = Decisions(
    desktopConfirmed: bool, phoneConfirmed: bool,
    desktopStaged: bool, phoneStaged: bool,
    commitDecided: bool, commitRecorded: bool)

  /**
   `sent` only grows: delivering a message does not consume it, so a delivery schedule may
   repeat, reorder or omit messages. The status sets hold every status a side has ever had.
   */
  datatype System = System(
    desktop: Tx, phone: Tx,
    recovered: bool, mark: JournalMark,
    sent: set<Sent>,
    desktopStatuses: set<StatusState>, phoneStatuses: set<StatusState>,
    made: Decisions)

  datatype Action =
    | DesktopFact(fact: LocalEvent)
    | PhoneFact(fact: LocalEvent)
    | Send(from: Role, operation: Operation)
    | Stray(from: Role, message: Message)
    | DesktopReceives(message: Message)
    | PhoneReceives(message: Message)
    | WriteMark(mark: JournalMark)
    | LoseJournal
    | DesktopRestarts
    | DesktopReconciles(reply: StatusMessage, nonce: u64)
    | DesktopFinishes
    | PhoneReconciles(reply: StatusMessage, nonce: u64)

  predicate IsDecision(op: Operation) {
    op.Confirm? || op.Prepared? || op.Commit? || op.CommitAck? || op.Committed?
  }

  /**
   A side states a decision only after taking it. Everything else (capability offers, aborts,
   status traffic, revocations) may be sent at any moment.
   */
  predicate MaySend(t: Tx, op: Operation) {
    match op
    case Confirm => t.confirmed.mine
    case Prepared => t.prepared.mine
    case Commit => t.role.Coordinator? && t.phase.CommitPending?
    case CommitAck => t.role.Participant? && (t.phase.Committed? || t.phase.Bonded?)
    case Committed => t.phase.Committed? || t.phase.Bonded?
    case _ => true
  }

  /** A reply that is about this transaction carries a status its sender has had, or `Unknown`. */
  predicate Honest(reply: StatusMessage, id: TransactionId, held: set<StatusState>) {
    reply.transaction == id && reply.Response? ==> reply.state in held || reply.state.Unknown?
  }

  predicate Enabled(s: System, a: Action) {
    match a
    case DesktopFact(e) => !s.recovered && (e.Commit? ==> s.mark == CommitPendingMark)
    case PhoneFact(_) => true
    case Send(from, op) =>
      (IsDecision(op) ==> from.Coordinator? ==> !s.recovered) &&
      MaySend(if from.Coordinator? then s.desktop else s.phone, op)
    case Stray(_, m) => m.transaction != s.desktop.id
    case DesktopReceives(m) => !s.recovered && Sent(Participant, m) in s.sent
    case PhoneReceives(m) => Sent(Coordinator, m) in s.sent
    case WriteMark(mark) =>
      !s.recovered && (mark == PreCommitMark ==> s.mark == NoJournal && s.desktop.phase.Preparing?)
    case LoseJournal => true
    case DesktopRestarts => s.mark != NoJournal
    case DesktopReconciles(reply, _) => s.recovered && Honest(reply, s.phone.id, s.phoneStatuses)
    case DesktopFinishes => s.recovered
    case PhoneReconciles(reply, _) => Honest(reply, s.desktop.id, s.desktopStatuses)
  }

  function WithDesktop(s: System, t: Tx): System {
    s.(desktop := t, desktopStatuses := s.desktopStatuses + {StatusOf(t.phase)})
  }

  function WithPhone(s: System, t: Tx): System {
    s.(phone := t, phoneStatuses := s.phoneStatuses + {StatusOf(t.phase)})
  }

  function Or<T>(o: Outcome<T>, t: T): T {
    if o.Accepted? then o.value else t
  }

  function NoteDesktop(made: Decisions, e: LocalEvent): Decisions {
    match e
    case Confirm => made.(desktopConfirmed := true)
    case Prepared => made.(desktopStaged := true)
    case Commit => made.(commitDecided := true)
    case _ => made
  }

  function NotePhone(made: Decisions, e: LocalEvent): Decisions {
    match e
    case Confirm => made.(phoneConfirmed := true)
    case Prepared => made.(phoneStaged := true)
    case CommitAck => made.(commitRecorded := true)
    case _ => made
  }

  function RecoveredStatus(mark: JournalMark): StatusState {
    if mark.CommitPendingMark? then StatusState.CommitPending else StatusState.PreCommit
  }

  function Next(s: System, a: Action): System {
    match a
    case DesktopFact(e) =>
      var o := LocalStep(s.desktop, e);
      if o.Accepted? then WithDesktop(s, o.value).(made := NoteDesktop(s.made, e)) else s
    case PhoneFact(e) =>
      var o := LocalStep(s.phone, e);
      if o.Accepted? then WithPhone(s, o.value).(made := NotePhone(s.made, e)) else s
    case Send(from, op) => s.(sent := s.sent + {Sent(from, Message(s.desktop.id, op))})
    case Stray(from, m) => s.(sent := s.sent + {Sent(from, m)})
    case DesktopReceives(m) => WithDesktop(s, Or(RemoteStep(s.desktop, m), s.desktop))
    case PhoneReceives(m) => WithPhone(s, Or(RemoteStep(s.phone, m), s.phone))
    case WriteMark(mark) => s.(mark := mark)
    case LoseJournal => s.(mark := NoJournal)
    case DesktopRestarts =>
      WithDesktop(s, FromRecoveryStatus(s.desktop.id, Coordinator, RecoveredStatus(s.mark))).(recovered := true)
    case DesktopReconciles(reply, nonce) => WithDesktop(s, Or(StatusStep(s.desktop, reply, nonce), s.desktop))
    case DesktopFinishes => WithDesktop(s, Or(LocalStep(s.desktop, LocalEvent.Committed), s.desktop))
    case PhoneReconciles(reply, nonce) => WithPhone(s, Or(StatusStep(s.phone, reply, nonce), s.phone))
  }

  function Start(id: TransactionId): System {
    System(New(id, Coordinator), New(id, Participant), false, NoJournal, {},
           {StatusState.PreCommit}, {StatusState.PreCommit},
           Decisions(false, false, false, false, false, false))
  }

  /** `run` is a possible history of pairing attempt `id`. */
  ghost predicate History(id: TransactionId, run: seq<System>) {
    |run| > 0 && run[0] == Start(id) && Chain(run)
  }

  ghost predicate Chain(run: seq<System>) {
    forall i :: 0 < i < |run| ==> Follows(run[i - 1], run[i])
  }

  ghost predicate Follows(s: System, s': System) {
    exists a :: Enabled(s, a) && s' == Next(s, a)
  }

  // ---------------------------------------------------------------------------------------
  // The invariant
  // ---------------------------------------------------------------------------------------

  predicate Said(s: System, from: Role, op: Operation) {
    Sent(from, Message(s.desktop.id, op)) in s.sent
  }

  predicate AllFour(made: Decisions) {
    made.desktopConfirmed && made.phoneConfirmed && made.desktopStaged && made.phoneStaged
  }

  predicate Shape(s: System) {
    && s.desktop.role.Coordinator? && s.phone.role.Participant? && s.desktop.id == s.phone.id
    && Consistent(s.desktop) && Consistent(s.phone)
    && StatusOf(s.desktop.phase) in s.desktopStatuses
    && StatusOf(s.phone.phase) in s.phoneStatuses
  }

  /** Every message of this transaction that states a decision is true. */
  predicate MessagesTrue(s: System) {
    && (Said(s, Coordinator, Operation.Confirm) ==> s.made.desktopConfirmed)
    && (Said(s, Participant, Operation.Confirm) ==> s.made.phoneConfirmed)
    && (Said(s, Coordinator, Operation.Prepared) ==> s.made.desktopStaged)
    && (Said(s, Participant, Operation.Prepared) ==> s.made.phoneStaged)
    && (Said(s, Coordinator, Operation.Commit) ==> s.made.commitDecided)
    && (Said(s, Participant, Operation.CommitAck) ==> s.made.commitRecorded)
    && (Said(s, Coordinator, Operation.Committed) ==> s.made.commitRecorded)
    && (Said(s, Participant, Operation.Committed) ==> s.made.commitRecorded)
  }

  /** Flags of a transaction that never went through recovery are true. */
  predicate FlagsTrue(s: System) {
    && (!s.recovered ==>
          && (s.desktop.confirmed.mine ==> s.made.desktopConfirmed)
          && (s.desktop.confirmed.theirs ==> s.made.phoneConfirmed)
          && (s.desktop.prepared.mine ==> s.made.desktopStaged)
          && (s.desktop.prepared.theirs ==> s.made.phoneStaged))
    && (s.phone.confirmed.mine ==> s.made.phoneConfirmed)
    && (s.phone.confirmed.theirs ==> s.made.desktopConfirmed)
    && (s.phone.prepared.mine ==> s.made.phoneStaged)
    && (s.phone.prepared.theirs ==> s.made.desktopStaged)
  }

  /** The commit decision is unique to the desktop, is never forgotten, and excludes aborts. */
  predicate CommitTrue(s: System) {
    && (s.made.commitDecided ==> AllFour(s.made))
    && (s.made.commitRecorded ==> s.made.commitDecided)
    && (!s.recovered && s.desktop.phase.CommitPending? ==> s.made.commitDecided)
    && (s.phone.phase.CommitPending? ==> s.made.commitDecided)
    && (s.made.commitDecided ==> PastCommitPoint(s.desktop.phase) && s.mark != PreCommitMark)
    && (s.made.commitRecorded ==> PastCommitPoint(s.phone.phase))
    && (StatusState.Aborted in s.desktopStatuses ==> !s.made.commitDecided)
    && (StatusState.Aborted in s.desktopStatuses && !s.recovered ==> s.desktop.phase.Aborted?)
    && (StatusState.Aborted in s.phoneStatuses ==> s.phone.phase.Aborted? || s.phone.phase.Uncertain?)
    && (StatusState.Aborted in s.phoneStatuses ==> !s.made.commitRecorded)
    && (StatusState.Committed in s.desktopStatuses || StatusState.Bonded in s.desktopStatuses ==> s.made.commitRecorded)
    && (StatusState.Committed in s.phoneStatuses || StatusState.Bonded in s.phoneStatuses ==> s.made.commitRecorded)
  }

  predicate Inv(s: System) {
    Shape(s) && MessagesTrue(s) && FlagsTrue(s) && CommitTrue(s)
  }

  /** What has to hold of a new desktop transaction, given the decisions taken so far. */
  predicate DesktopTrue(t: Tx, made: Decisions, recovered: bool) {
    && t.role.Coordinator? && Consistent(t)
    && (!recovered ==>
          && (t.confirmed.mine ==> made.desktopConfirmed) && (t.confirmed.theirs ==> made.phoneConfirmed)
          && (t.prepared.mine ==> made.desktopStaged) && (t.prepared.theirs ==> made.phoneStaged)
          && (t.phase.CommitPending? ==> made.commitDecided))
    && (t.phase.Committed? || t.phase.Bonded? ==> made.commitRecorded)
    && (made.commitDecided ==> PastCommitPoint(t.phase))
  }

  predicate PhoneTrue(t: Tx, made: Decisions) {
    && t.role.Participant? && Consistent(t)
    && (t.confirmed.mine ==> made.phoneConfirmed) && (t.confirmed.theirs ==> made.desktopConfirmed)
    && (t.prepared.mine ==> made.phoneStaged) && (t.prepared.theirs ==> made.desktopStaged)
    && (t.phase.CommitPending? ==> made.commitDecided)
    && (t.phase.Committed? || t.phase.Bonded? ==> made.commitRecorded)
    && (made.commitRecorded ==> PastCommitPoint(t.phase))
  }

  lemma DesktopMoves(s: System, t: Tx, made: Decisions, recovered: bool)
    requires Inv(s)
    requires t.id == s.desktop.id && DesktopTrue(t, made, recovered)
    requires s.recovered ==> recovered
    requires !recovered && s.desktop.phase.Aborted? ==> t.phase.Aborted?
    requires made == s.made || (exists e :: made == NoteDesktop(s.made, e))
    requires made.commitDecided && !s.made.commitDecided ==>
               AllFour(made) && s.mark == CommitPendingMark && StatusState.Aborted !in s.desktopStatuses
    ensures Inv(WithDesktop(s, t).(made := made, recovered := recovered))
  {}

  lemma PhoneMoves(s: System, t: Tx, made: Decisions)
    requires Inv(s)
    requires t.id == s.phone.id && PhoneTrue(t, made)
    requires s.phone.phase.Aborted? || s.phone.phase.Uncertain? ==> t.phase.Aborted? || t.phase.Uncertain?
    requires made == s.made || (exists e :: made == NotePhone(s.made, e))
    requires made.commitRecorded && !s.made.commitRecorded ==>
               s.made.commitDecided && StatusState.Aborted !in s.phoneStatuses
    ensures Inv(WithPhone(s, t).(made := made))
  {}

  lemma PhoneHears(t: Tx, m: Message, made: Decisions)
    requires PhoneTrue(t, made) && RemoteStep(t, m).Accepted?
    requires m.operation.Confirm? ==> made.desktopConfirmed
    requires m.operation.Prepared? ==> made.desktopStaged
    requires m.operation.Commit? ==> made.commitDecided
    ensures PhoneTrue(RemoteStep(t, m).value, made) && Moved(t, RemoteStep(t, m).value)
  {
    RemoteMoves(t, m);
  }

  lemma DesktopHears(t: Tx, m: Message, made: Decisions)
    requires DesktopTrue(t, made, false) && RemoteStep(t, m).Accepted?
    requires m.operation.Confirm? ==> made.phoneConfirmed
    requires m.operation.Prepared? ==> made.phoneStaged
    requires m.operation.CommitAck? ==> made.commitRecorded
    ensures DesktopTrue(RemoteStep(t, m).value, made, false)
    ensures t.phase.Aborted? ==> RemoteStep(t, m).value.phase.Aborted?
  {
    RemoteMoves(t, m);
  }

  lemma ReconciliationTrue(t: Tx, remote: StatusState, made: Decisions)
    requires remote.Committed? || remote.Bonded? ==> made.commitRecorded
    ensures PhoneTrue(t, made) ==> PhoneTrue(Reconciled(t, remote), made)
    ensures DesktopTrue(t, made, true) ==> DesktopTrue(Reconciled(t, remote), made, true)
  {
    if Consistent(t) { ReconcileMoves(t, remote); }
  }

  lemma DesktopFactKeeps(s: System, e: LocalEvent)
    requires Inv(s) && Enabled(s, DesktopFact(e))
    ensures Inv(Next(s, DesktopFact(e)))
  {
    var o := LocalStep(s.desktop, e);
    if o.Accepted? {
      DesktopMoves(s, o.value, NoteDesktop(s.made, e), false);
    }
  }

  lemma PhoneFactKeeps(s: System, e: LocalEvent)
    requires Inv(s)
    ensures Inv(Next(s, PhoneFact(e)))
  {
    var o := LocalStep(s.phone, e);
    if o.Accepted? {
      LocalMoves(s.phone, e);
      PhoneMoves(s, o.value, NotePhone(s.made, e));
    }
  }

  lemma SendKeeps(s: System, from: Role, op: Operation)
    requires Inv(s) && Enabled(s, Send(from, op))
    ensures Inv(Next(s, Send(from, op)))
  {
    assert StatusState.Committed in s.desktopStatuses ==> s.made.commitRecorded;
  }

  lemma DesktopReceivesKeeps(s: System, m: Message)
    requires Inv(s) && Enabled(s, DesktopReceives(m))
    ensures Inv(Next(s, DesktopReceives(m)))
  {
    var o := RemoteStep(s.desktop, m);
    if o.Accepted? {
      assert Said(s, Participant, m.operation);
      DesktopHears(s.desktop, m, s.made);
      DesktopMoves(s, o.value, s.made, false);
    } else {
      DesktopMoves(s, s.desktop, s.made, false);
    }
  }

  lemma PhoneReceivesKeeps(s: System, m: Message)
    requires Inv(s) && Enabled(s, PhoneReceives(m))
    ensures Inv(Next(s, PhoneReceives(m)))
  {
    var o := RemoteStep(s.phone, m);
    if o.Accepted? {
      assert Said(s, Coordinator, m.operation);
      PhoneHears(s.phone, m, s.made);
      PhoneMoves(s, o.value, s.made);
    } else {
      PhoneMoves(s, s.phone, s.made);
    }
  }

  lemma DesktopRecoveryKeeps(s: System, a: Action)
    requires Inv(s) && Enabled(s, a)
    requires a.DesktopRestarts? || a.DesktopReconciles? || a.DesktopFinishes?
    ensures Inv(Next(s, a))
  {
    if a.DesktopReconciles? && StatusStep(s.desktop, a.reply, a.nonce).Accepted? {
      ReconciliationTrue(s.desktop, a.reply.state, s.made);
    }
    DesktopMoves(s, Next(s, a).desktop, s.made, true);
  }

  lemma PhoneReconcilesKeeps(s: System, reply: StatusMessage, nonce: u64)
    requires Inv(s) && Enabled(s, PhoneReconciles(reply, nonce))
    ensures Inv(Next(s, PhoneReconciles(reply, nonce)))
  {
    if StatusStep(s.phone, reply, nonce).Accepted? {
      ReconciliationTrue(s.phone, reply.state, s.made);
      ReconcileMoves(s.phone, reply.state);
    }
    PhoneMoves(s, Next(s, PhoneReconciles(reply, nonce)).phone, s.made);
  }

  lemma JournalAndStraysKeep(s: System, a: Action)
    requires Inv(s) && Enabled(s, a)
    requires a.Stray? || a.WriteMark? || a.LoseJournal?
    ensures Inv(Next(s, a))
  {}

  lemma ActionKeeps(s: System, a: Action)
    requires Inv(s) && Enabled(s, a)
    ensures Inv(Next(s, a))
  {
    match a
    case DesktopFact(e) => DesktopFactKeeps(s, e);
    case PhoneFact(e) => PhoneFactKeeps(s, e);
    case Send(from, op) => SendKeeps(s, from, op);
    case DesktopReceives(m) => DesktopReceivesKeeps(s, m);
    case PhoneReceives(m) => PhoneReceivesKeeps(s, m);
    case PhoneReconciles(reply, nonce) => PhoneReconcilesKeeps(s, reply, nonce);
    case DesktopRestarts | DesktopReconciles(_, _) | DesktopFinishes => DesktopRecoveryKeeps(s, a);
    case Stray(_, _) | WriteMark(_) | LoseJournal => JournalAndStraysKeep(s, a);
  }

  lemma {:induction false} HistoryKeeps(id: TransactionId, run: seq<System>, i: nat)
    requires History(id, run) && i < |run|
    ensures Inv(run[i])
  {
    if i > 0 {
      HistoryKeeps(id, run, i - 1);
      assert Follows(run[i - 1], run[i]);
      var a :| Enabled(run[i - 1], a) && run[i] == Next(run[i - 1], a);
      ActionKeeps(run[i - 1], a);
    }
  }

  // ---------------------------------------------------------------------------------------
  // The theorems
  // ---------------------------------------------------------------------------------------

  lemma {:induction false} StatusesRemembered(id: TransactionId, run: seq<System>, i: nat, j: nat)
    requires History(id, run) && i <= j < |run|
    ensures StatusOf(run[i].desktop.phase) in run[j].desktopStatuses
    ensures StatusOf(run[i].phone.phase) in run[j].phoneStatuses
    decreases j
  {
    HistoryKeeps(id, run, i);
    if i < j {
      StatusesRemembered(id, run, i, j - 1);
      assert Follows(run[j - 1], run[j]);
    }
  }

  /**
   Agreement. If one side is ever bonded then the other is never aborted, whether before,
   after or at that moment.
   */
  lemma Agreement(id: TransactionId, run: seq<System>, i: nat, j: nat)
    requires History(id, run) && i < |run| && j < |run|
    ensures !(run[i].desktop.phase.Bonded? && run[j].phone.phase.Aborted?)
    ensures !(run[i].phone.phase.Bonded? && run[j].desktop.phase.Aborted?)
  {
    var last := |run| - 1;
    StatusesRemembered(id, run, i, last);
    StatusesRemembered(id, run, j, last);
    HistoryKeeps(id, run, last);
  }

  lemma StepRemembers(s: System, a: Action)
    requires s.made.commitRecorded
    ensures Next(s, a).made.commitRecorded
  {
    match a
    case DesktopFact(e) => assert NoteDesktop(s.made, e).commitRecorded;
    case PhoneFact(e) => assert NotePhone(s.made, e).commitRecorded;
    case _ => assert Next(s, a).made == s.made;
  }

  lemma FollowerRemembers(s: System, s': System)
    requires Follows(s, s') && s.made.commitRecorded
    ensures s'.made.commitRecorded
  {
    var a :| Enabled(s, a) && s' == Next(s, a);
    StepRemembers(s, a);
  }

  lemma {:induction false} DecisionsRemembered(run: seq<System>, i: nat, j: nat)
    requires Chain(run) && i <= j < |run|
    requires run[i].made.commitRecorded
    ensures run[j].made.commitRecorded
    decreases j
  {
    if i < j {
      DecisionsRemembered(run, i, j - 1);
      FollowerRemembers(run[j - 1], run[j]);
    }
  }

  /**
   Causality. Reaching Committed or Bonded on either side, by messages, by reconciliation or
   after a restart, means both operators confirmed, both sides staged, the desktop decided to
   commit and the phone recorded that decision.
   */
  lemma Causality(id: TransactionId, run: seq<System>, i: nat)
    requires History(id, run) && i < |run|
    requires run[i].desktop.phase.Committed? || run[i].desktop.phase.Bonded? ||
             run[i].phone.phase.Committed? || run[i].phone.phase.Bonded?
    ensures AllFour(run[i].made) && run[i].made.commitDecided && run[i].made.commitRecorded
  {
    HistoryKeeps(id, run, i);
  }

  /**
   A recorded decision is final on both sides: from then on neither side is ever before the
   commit point or aborted, through any later crash, journal loss or stale reply.
   */
  lemma RecordedIsFinal(id: TransactionId, run: seq<System>, i: nat, j: nat)
    requires History(id, run) && i <= j < |run| && run[i].made.commitRecorded
    ensures PastCommitPoint(run[j].desktop.phase) && PastCommitPoint(run[j].phone.phase)
  {
    DecisionsRemembered(run, i, j);
    HistoryKeeps(id, run, j);
  }
}
