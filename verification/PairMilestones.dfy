/**
 The order of a pairing as a reference: eleven milestones in seven ranks. The transaction
 accepts an input exactly if the milestone it stands for is due.
 */
module PairMilestones {
  import opened Bytes
  import opened PairTransaction

  datatype Milestone =
    | MyCapability | TheirCapability | KeysExchanged | MyConfirmation | TheirConfirmation
    | MyStaging | TheirStaging | Decision | Acknowledgement | MyRecord | TheirRecord

  function Rank(m: Milestone): nat {
    match m
    case MyCapability | TheirCapability => 0
    case KeysExchanged => 1
    case MyConfirmation | TheirConfirmation => 2
    case MyStaging | TheirStaging => 3
    case Decision => 4
    case Acknowledgement => 5
    case MyRecord | TheirRecord => 6
  }

  /** How many ranks a phase has behind it. */
  function Behind(p: Phase): nat {
    match p
    case Negotiating => 0 case OobPending => 2 case Preparing => 3 case Prepared => 4 case CommitPending => 5
    case Committed => 6 case Bonded => 7 case Aborted(_) | Uncertain => 0
  }

  /** The transaction has passed the milestone. */
  predicate Passed(t: Tx, m: Milestone) {
    match m
    case MyCapability => t.capabilities.mine
    case TheirCapability => t.capabilities.theirs
    case KeysExchanged => Behind(t.phase) > 1
    case MyConfirmation => t.confirmed.mine
    case TheirConfirmation => t.confirmed.theirs
    case MyStaging => t.prepared.mine
    case TheirStaging => t.prepared.theirs
    case Decision => Behind(t.phase) > 4
    case Acknowledgement => Behind(t.phase) > 5
    case MyRecord => t.committed.mine
    case TheirRecord => t.committed.theirs
  }

  /** It has not, and it has passed every milestone of a lower rank. */
  ghost predicate Due(t: Tx, m: Milestone) {
    !Passed(t, m) && forall k :: Rank(k) < Rank(m) ==> Passed(t, k)
  }

  /** The milestone an event stands for; a decision and its acknowledgement each belong to one role. */
  function MilestoneOf(role: Role, e: Event): Option<Milestone> {
    match e
    case Fact(Capability) => Some(MyCapability)
    case Fact(VerifiedExchange) => Some(KeysExchanged)
    case Fact(Confirm) => Some(MyConfirmation)
    case Fact(Prepared) => Some(MyStaging)
    case Fact(Commit) => if role.Coordinator? then Some(Decision) else None
    case Fact(CommitAck) => if role.Participant? then Some(Acknowledgement) else None
    case Fact(Committed) => Some(MyRecord)
    case Wire(Message(_, Capability)) => Some(TheirCapability)
    case Wire(Message(_, Confirm)) => Some(TheirConfirmation)
    case Wire(Message(_, Prepared)) => Some(TheirStaging)
    case Wire(Message(_, Commit)) => if role.Participant? then Some(Decision) else None
    case Wire(Message(_, CommitAck)) => if role.Coordinator? then Some(Acknowledgement) else None
    case Wire(Message(_, Committed)) => Some(TheirRecord)
    case _ => None
  }

  /** The pairing goes on: it has neither succeeded nor failed. */
  predicate Going(p: Phase) { !Terminal(p) }

  /** The event is a step of the pairing, of whichever role. */
  predicate IsStep(e: Event) {
    MilestoneOf(Coordinator, e).Some? || MilestoneOf(Participant, e).Some?
  }

  predicate Foreign(t: Tx, e: Event) { e.Wire? && e.message.transaction != t.id }

  /**
   In every consistent state a step of the pairing is accepted exactly if the pairing goes on
   and the step's milestone is due.
   */
  lemma AcceptedExactly(t: Tx, e: Event)
    requires Consistent(t) && IsStep(e) && !Foreign(t, e)
    ensures var m := MilestoneOf(t.role, e);
            Attempt(t, e).Accepted? <==> Going(t.phase) && m.Some? && Due(t, m.value)
    ensures Attempt(t, e).Refused? ==> Attempt(t, e) == Refused(InvalidTransition)
  {
    AcceptedInPhase(t, e);
    var m := MilestoneOf(t.role, e);
    if Going(t.phase) && m.Some? { DueExactly(t, m.value); }
  }

  /** An accepted step passes its milestone and no other. */
  lemma PassesExactly(t: Tx, e: Event, k: Milestone)
    requires Consistent(t) && IsStep(e) && Attempt(t, e).Accepted?
    ensures var u := Attempt(t, e).value;
            && u.id == t.id && u.role == t.role && !u.phase.Aborted? && !u.phase.Uncertain?
            && (Passed(u, k) <==> Passed(t, k) || MilestoneOf(t.role, e) == Some(k))
  {
    match e
    case Fact(_) => FactPasses(t, e, k);
    case Wire(_) => WirePasses(t, e, k);
  }

  lemma FactPasses(t: Tx, e: Event, k: Milestone)
    requires Consistent(t) && IsStep(e) && e.Fact? && Attempt(t, e).Accepted?
    ensures var u := Attempt(t, e).value;
            && u.id == t.id && u.role == t.role && !u.phase.Aborted? && !u.phase.Uncertain?
            && (Passed(u, k) <==> Passed(t, k) || MilestoneOf(t.role, e) == Some(k))
  {}

  lemma WirePasses(t: Tx, e: Event, k: Milestone)
    requires Consistent(t) && IsStep(e) && e.Wire? && Attempt(t, e).Accepted?
    ensures var u := Attempt(t, e).value;
            && u.id == t.id && u.role == t.role && !u.phase.Aborted? && !u.phase.Uncertain?
            && (Passed(u, k) <==> Passed(t, k) || MilestoneOf(t.role, e) == Some(k))
  {}

  /** What is due, phase by phase. */
  predicate DueInPhase(t: Tx, m: Milestone) {
    match m
    case MyCapability => t.phase.Negotiating? && !t.capabilities.mine
    case TheirCapability => t.phase.Negotiating? && !t.capabilities.theirs
    case KeysExchanged => t.phase.Negotiating? && t.capabilities.All()
    case MyConfirmation => t.phase.OobPending? && !t.confirmed.mine
    case TheirConfirmation => t.phase.OobPending? && !t.confirmed.theirs
    case MyStaging => t.phase.Preparing? && !t.prepared.mine
    case TheirStaging => t.phase.Preparing? && !t.prepared.theirs
    case Decision => t.phase.Prepared?
    case Acknowledgement => t.phase.CommitPending?
    case MyRecord => t.phase.Committed? && !t.committed.mine
    case TheirRecord => t.phase.Committed? && !t.committed.theirs
  }

  lemma DueExactly(t: Tx, m: Milestone)
    requires Consistent(t) && Going(t.phase)
    ensures Due(t, m) <==> DueInPhase(t, m)
  {
    assert Rank(MyCapability) == 0 && Rank(TheirCapability) == 0 && Rank(KeysExchanged) == 1;
    assert Rank(MyConfirmation) == 2 && Rank(TheirConfirmation) == 2;
    assert Rank(MyStaging) == 3 && Rank(TheirStaging) == 3;
    assert Rank(Decision) == 4 && Rank(Acknowledgement) == 5;
  }

  lemma AcceptedInPhase(t: Tx, e: Event)
    requires Consistent(t) && IsStep(e) && !Foreign(t, e)
    ensures var m := MilestoneOf(t.role, e);
            Attempt(t, e).Accepted? <==> Going(t.phase) && m.Some? && DueInPhase(t, m.value)
    ensures Attempt(t, e).Refused? ==> Attempt(t, e) == Refused(InvalidTransition)
  {}

  /** Milestones are passed rank by rank. */
  lemma PassedInOrder(id: TransactionId, role: Role, events: seq<Event>, m: Milestone, k: Milestone)
    requires var t := Run(New(id, role), events);
             Passed(t, m) && Rank(k) < Rank(m) && !t.phase.Aborted? && !t.phase.Uncertain?
    ensures Passed(Run(New(id, role), events), k)
  {
    RunConsistent(New(id, role), events);
  }

  /** A message about another transaction is refused for that. */
  lemma ForeignIsRefused(t: Tx, e: Event)
    requires Foreign(t, e)
    ensures Attempt(t, e) == Refused(WrongTransaction)
  {}

  /** What breaks a pairing off: a lost link, an abort decided here, an abort heard. */
  function BreakOf(e: Event): Option<Operation> {
    match e
    case Fact(Disconnected) => Some(Cancel)
    case Fact(Abort(op)) => if IsAbort(op) then Some(op) else None
    case Wire(Message(_, op)) => if IsAbort(op) then Some(op) else None
    case _ => None
  }

  /**
   Every other input of this transaction. What breaks it off aborts it with its cause before
   the decision and leaves uncertainty after it; once it has ended an abort is refused and a
   lost link changes nothing; status traffic changes nothing; all else is refused.
   */
  lemma OthersExactly(t: Tx, e: Event)
    requires Consistent(t) && !IsStep(e) && !Foreign(t, e) && !e.Peer?
    ensures Attempt(t, e) ==
            if BreakOf(e).Some? then
              if t.phase.Bonded? || t.phase.Aborted?
              then (if e == Fact(Disconnected) then Accepted(t) else Refused(InvalidTransition))
              else if t.phase.Uncertain? || Passed(t, Decision) then Accepted(t.(phase := Phase.Uncertain))
              else Accepted(t.(phase := Phase.Aborted(BreakOf(e).value)))
            else if e.Wire? && (e.message.operation.Status? || e.message.operation.StatusQuery? ||
                                e.message.operation.StatusResponse?)
            then Accepted(t)
            else Refused(InvalidTransition)
  {}

  // ---------------------------------------------------------------------------------------
  // What is believed
  // ---------------------------------------------------------------------------------------

  /** What a journal's status is taken to mean: every milestone up to it, and the own record of a commit. */
  lemma RecoveredExactly(id: TransactionId, role: Role, status: StatusState, m: Milestone)
    ensures var t := FromRecoveryStatus(id, role, status);
            && t.id == id && t.role == role
            && (status.Aborted? <==> t.phase == Phase.Aborted(Error))
            && (status.Unknown? <==> t.phase.Uncertain?)
            && (status.PreCommit? ==> (Passed(t, m) <==> Rank(m) < 4))
            && (status.CommitPending? ==> (Passed(t, m) <==> Rank(m) < 5))
            && (status.Committed? ==> (Passed(t, m) <==> Rank(m) < 6 || m == MyRecord))
            && (status.Bonded? ==> Passed(t, m))
  {}

  /** The flags that no one looks at before their time. */
  function WithoutLater(t: Tx): Tx {
    match t.phase
    case Negotiating => t.(confirmed := NEITHER, prepared := NEITHER, committed := NEITHER)
    case OobPending => t.(prepared := NEITHER, committed := NEITHER)
    case Preparing => t.(committed := NEITHER)
    case _ => t
  }

  /**
   Exactly which stored metadata is believed: apart from flags before their time, what is
   consistent and did not offer its capability first; and whatever claims to have failed.
   */
  lemma BelievedExactly(t: Tx)
    ensures Validated(t) <==>
            || t.phase.Aborted? || t.phase.Uncertain?
            || (Consistent(WithoutLater(t)) && !(t.phase.Negotiating? && t.capabilities == Flags(true, false)))
  {}
}
