/**
 The pairing transaction: a deterministic validator of local facts, peer messages and
 recovered peer statuses.

 `Tx` is the value of a transaction and `LocalStep`, `RemoteStep` and `Reconciled` say what
 each input does to it; `Transaction` is the object the desktop and the phone mutate, proved
 against those functions.
 */
module PairTransaction {
  import opened Bytes

  datatype Operation =
    | Capability | Confirm | Reject | Cancel | Timeout | Prepared | Commit
    | CommitAck | Committed | Status | Error | StatusQuery | StatusResponse | Revoke

  datatype Message = Message(transaction: TransactionId, operation: Operation)

  datatype StatusState = PreCommit | CommitPending | Committed | Bonded | Aborted | Unknown

  /** A query carries no state, a response carries one. */
  datatype StatusMessage = Query(transaction: TransactionId, nonce: u64)
                         | Response(transaction: TransactionId, nonce: u64, state: StatusState)

  datatype TransactionError = Incompatible | WrongTransaction | InvalidTransition

  datatype Phase =
    | Negotiating | OobPending | Preparing | Prepared
    | CommitPending | Committed | Bonded | Aborted(cause: Operation) | Uncertain

  datatype Role = Coordinator | Participant

  datatype LocalEvent =
    | VerifiedExchange | Capability | Confirm | Prepared | Commit | CommitAck | Committed
    | Disconnected | Abort(operation: Operation)

  /** One boolean fact about each side of the link, seen from the local side. */
  datatype Flags = Flags(mine: bool, theirs: bool) {
    predicate All() { mine && theirs }
    predicate None() { !mine && !theirs }
    predicate At(local: bool) { if local then mine else theirs }
    function Raise(local: bool): Flags { if local then this.(mine := true) else this.(theirs := true) }
    function Count(): nat { (if mine then 1 else 0) + (if theirs then 1 else 0) }
  }

  const NEITHER := Flags(false, false)
  const BOTH := Flags(true, true)

  datatype Tx = Tx(id: TransactionId, role: Role, phase: Phase,
                   capabilities: Flags, confirmed: Flags, prepared: Flags, committed: Flags)

  datatype Outcome<T> = Accepted(value: T) | Refused(error: TransactionError)

  function New(id: TransactionId, role: Role): Tx {
    Tx(id, role, Phase.Negotiating, NEITHER, NEITHER, NEITHER, NEITHER)
  }

  predicate IsAbort(op: Operation) {
    op.Reject? || op.Cancel? || op.Timeout? || op.Error?
  }

  /** The phases in which a commit decision may exist somewhere. */
  predicate PastCommitPoint(p: Phase) {
    p.CommitPending? || p.Committed? || p.Bonded? || p.Uncertain?
  }

  function StatusOf(p: Phase): StatusState {
    match p
    case Negotiating | OobPending | Preparing | Prepared => StatusState.PreCommit
    case CommitPending => StatusState.CommitPending
    case Committed => StatusState.Committed
    case Bonded => StatusState.Bonded
    case Aborted(_) => StatusState.Aborted
    case Uncertain => StatusState.Unknown
  }

  // ---------------------------------------------------------------------------------------
  // What each input does
  // ---------------------------------------------------------------------------------------

  function ConfirmStep(t: Tx, local: bool): Outcome<Tx> {
    if !t.phase.OobPending? || t.confirmed.At(local) then Refused(InvalidTransition)
    else
      var f := t.confirmed.Raise(local);
      Accepted(t.(confirmed := f, phase := if f.All() then Phase.Preparing else t.phase))
  }

  function PrepareStep(t: Tx, local: bool): Outcome<Tx> {
    if !t.phase.Preparing? || t.prepared.At(local) then Refused(InvalidTransition)
    else
      var f := t.prepared.Raise(local);
      Accepted(t.(prepared := f, phase := if f.All() then Phase.Prepared else t.phase))
  }

  function CommittedStep(t: Tx, local: bool): Outcome<Tx> {
    if !t.phase.Committed? || t.committed.At(local) then Refused(InvalidTransition)
    else
      var f := t.committed.Raise(local);
      Accepted(t.(committed := f, phase := if f.All() then Phase.Bonded else t.phase))
  }

  function AfterDisconnect(p: Phase): Phase {
    if p.CommitPending? || p.Committed? || p.Uncertain? then Phase.Uncertain
    else if p.Bonded? || p.Aborted? then p
    else Phase.Aborted(Operation.Cancel)
  }

  function AbortStep(t: Tx, op: Operation): Outcome<Tx> {
    if !IsAbort(op) || t.phase.Bonded? || t.phase.Aborted? then Refused(InvalidTransition)
    else Accepted(t.(phase := if PastCommitPoint(t.phase) then Phase.Uncertain else Phase.Aborted(op)))
  }

  function LocalStep(t: Tx, e: LocalEvent): Outcome<Tx> {
    match e
    case Capability =>
      if t.phase.Negotiating? && !t.capabilities.mine
      then Accepted(t.(capabilities := t.capabilities.Raise(true))) else Refused(InvalidTransition)
    case VerifiedExchange =>
      if t.phase.Negotiating? && t.capabilities.All()
      then Accepted(t.(phase := Phase.OobPending)) else Refused(InvalidTransition)
    case Confirm => ConfirmStep(t, true)
    case Prepared => PrepareStep(t, true)
    case Commit =>
      if t.role.Coordinator? && t.phase.Prepared?
      then Accepted(t.(phase := Phase.CommitPending)) else Refused(InvalidTransition)
    case CommitAck =>
      if t.role.Participant? && t.phase.CommitPending?
      then Accepted(t.(phase := Phase.Committed)) else Refused(InvalidTransition)
    case Committed => CommittedStep(t, true)
    case Disconnected => Accepted(t.(phase := AfterDisconnect(t.phase)))
    case Abort(op) => AbortStep(t, op)
  }

  function RemoteStep(t: Tx, m: Message): Outcome<Tx> {
    if m.transaction != t.id then Refused(WrongTransaction)
    else match m.operation
      case Capability =>
        if t.phase.Negotiating? && !t.capabilities.theirs
        then Accepted(t.(capabilities := t.capabilities.Raise(false))) else Refused(InvalidTransition)
      case Confirm => ConfirmStep(t, false)
      case Prepared => PrepareStep(t, false)
      case Commit =>
        if t.role.Participant? && t.phase.Prepared?
        then Accepted(t.(phase := Phase.CommitPending)) else Refused(InvalidTransition)
      case CommitAck =>
        if t.role.Coordinator? && t.phase.CommitPending?
        then Accepted(t.(phase := Phase.Committed)) else Refused(InvalidTransition)
      case Committed => CommittedStep(t, false)
      case Status | StatusQuery | StatusResponse => Accepted(t)
      case Reject | Cancel | Timeout | Error => AbortStep(t, m.operation)
      case Revoke => Refused(InvalidTransition)
  }

  function Reconciled(t: Tx, remote: StatusState): Tx {
    match (StatusOf(t.phase), remote)
    case (Unknown, _) => t.(phase := Phase.Uncertain)
    case (_, Unknown) => t.(phase := Phase.Uncertain)
    case (PreCommit, Aborted) => t.(phase := Phase.Aborted(Operation.Error))
    case (PreCommit, PreCommit) => t
    case (CommitPending, Committed) => t.(phase := Phase.Committed)
    case (CommitPending, Bonded) => t.(committed := BOTH, phase := Phase.Bonded)
    case (Committed, CommitPending) => t
    case (Committed, Committed) => t.(committed := BOTH, phase := Phase.Bonded)
    case (Committed, Bonded) => t.(committed := BOTH, phase := Phase.Bonded)
    case (Bonded, Committed) => t.(committed := BOTH, phase := Phase.Bonded)
    case (Bonded, Bonded) => t.(committed := BOTH, phase := Phase.Bonded)
    case (Aborted, Aborted) => t
    case (Aborted, PreCommit) => t
    case _ => t.(phase := Phase.Uncertain)
  }

  /** Only a response for this transaction and this query's nonce is reconciled. */
  function StatusStep(t: Tx, reply: StatusMessage, nonce: u64): Outcome<Tx> {
    if reply.transaction != t.id || reply.nonce != nonce || reply.Query? then Refused(WrongTransaction)
    else Accepted(Reconciled(t, reply.state))
  }

  /** The conditions under which stored metadata is believed. */
  predicate Validated(t: Tx) {
    match t.phase
    case Negotiating => !t.capabilities.mine || t.capabilities.theirs
    case OobPending => t.capabilities == BOTH && t.confirmed != BOTH
    case Preparing => t.capabilities == BOTH && t.confirmed == BOTH && t.prepared != BOTH
    case Prepared => t.capabilities == BOTH && t.confirmed == BOTH && t.prepared == BOTH && t.committed == NEITHER
    case CommitPending => t.capabilities == BOTH && t.confirmed == BOTH && t.prepared == BOTH && t.committed == NEITHER
    case Committed => t.capabilities == BOTH && t.confirmed == BOTH && t.prepared == BOTH && t.committed != BOTH
    case Bonded => t.capabilities == BOTH && t.confirmed == BOTH && t.prepared == BOTH && t.committed == BOTH
    case Aborted(_) => true
    case Uncertain => true
  }

  /** The coarse state a surviving journal restores; every flag is assumed, not observed. */
  function FromRecoveryStatus(id: TransactionId, role: Role, status: StatusState): (t: Tx)
    ensures Validated(t) && StatusOf(t.phase) == status
  {
    var phase := match status
      case PreCommit => Phase.Prepared
      case CommitPending => Phase.CommitPending
      case Committed => Phase.Committed
      case Bonded => Phase.Bonded
      case Aborted => Phase.Aborted(Operation.Error)
      case Unknown => Phase.Uncertain;
    var committed := if phase.Bonded? then BOTH else if phase.Committed? then Flags(true, false) else NEITHER;
    Tx(id, role, phase, BOTH, BOTH, BOTH, committed)
  }

  // ---------------------------------------------------------------------------------------
  // The object
  // ---------------------------------------------------------------------------------------

  /** A call that `step` describes took `before` to `after` and answered `r`; a refusal changes nothing. */
  predicate Took(step: Outcome<Tx>, before: Tx, after: Tx, r: Outcome<()>) {
    match step
    case Accepted(t) => r == Accepted(()) && after == t
    case Refused(e) => r == Refused(e) && after == before
  }

  class Transaction {
    const id: TransactionId
    const role: Role
    var phase: Phase
    var capabilities: Flags
    var confirmed: Flags
    var prepared: Flags
    var committed: Flags

    function Value(): (t: Tx)
      reads this
    {
      Tx(id, role, phase, capabilities, confirmed, prepared, committed)
    }

    constructor (id: TransactionId, role: Role)
      ensures Value() == New(id, role)
    {
      this.id, this.role := id, role;
      phase := Phase.Negotiating;
      capabilities, confirmed, prepared, committed := NEITHER, NEITHER, NEITHER, NEITHER;
    }

    constructor Recover(id: TransactionId, role: Role, status: StatusState)
      ensures Value() == FromRecoveryStatus(id, role, status)
    {
      var t := FromRecoveryStatus(id, role, status);
      this.id, this.role, this.phase := id, role, t.phase;
      capabilities, confirmed, prepared, committed := t.capabilities, t.confirmed, t.prepared, t.committed;
    }

    method Local(event: LocalEvent) returns (r: Outcome<()>)
      modifies this
      ensures Took(LocalStep(old(Value()), event), old(Value()), Value(), r)
    {
      r := Accepted(());
      match event {
        case Capability =>
          if !phase.Negotiating? || capabilities.mine { return Refused(InvalidTransition); }
          capabilities := capabilities.(mine := true);
        case VerifiedExchange =>
          if !phase.Negotiating? || capabilities != BOTH { return Refused(InvalidTransition); }
          phase := Phase.OobPending;
        case Confirm => r := RecordConfirmed(true);
        case Prepared => r := RecordPrepared(true);
        case Commit =>
          if !role.Coordinator? || !phase.Prepared? { return Refused(InvalidTransition); }
          phase := Phase.CommitPending;
        case CommitAck =>
          if !role.Participant? || !phase.CommitPending? { return Refused(InvalidTransition); }
          phase := Phase.Committed;
        case Committed => r := RecordCommitted(true);
        case Disconnected => Disconnect();
        case Abort(operation) => r := AbortWith(operation);
      }
    }

    method Remote(message: Message) returns (r: Outcome<()>)
      modifies this
      ensures Took(RemoteStep(old(Value()), message), old(Value()), Value(), r)
    {
      if message.transaction != id { return Refused(WrongTransaction); }
      r := Accepted(());
      match message.operation {
        case Capability =>
          if !phase.Negotiating? || capabilities.theirs { return Refused(InvalidTransition); }
          capabilities := capabilities.(theirs := true);
        case Confirm => r := RecordConfirmed(false);
        case Prepared => r := RecordPrepared(false);
        case Commit =>
          if !role.Participant? || !phase.Prepared? { return Refused(InvalidTransition); }
          phase := Phase.CommitPending;
        case CommitAck =>
          if !role.Coordinator? || !phase.CommitPending? { return Refused(InvalidTransition); }
          phase := Phase.Committed;
        case Committed => r := RecordCommitted(false);
        case Status | StatusQuery | StatusResponse =>
        case Reject | Cancel | Timeout | Error => r := AbortWith(message.operation);
        case Revoke => r := Refused(InvalidTransition);
      }
    }

    method ReconcileStatus(remote: StatusState) returns (p: Phase)
      modifies this
      ensures Value() == Reconciled(old(Value()), remote) && p == phase
    {
      match (StatusOf(phase), remote) {
        case (Unknown, _) => phase := Phase.Uncertain;
        case (_, Unknown) => phase := Phase.Uncertain;
        case (PreCommit, Aborted) => phase := Phase.Aborted(Operation.Error);
        case (PreCommit, PreCommit) =>
        case (CommitPending, Committed) => phase := Phase.Committed;
        case (CommitPending, Bonded) => committed := BOTH; phase := Phase.Bonded;
        case (Committed, CommitPending) =>
        case (Committed, Committed) => committed := BOTH; phase := Phase.Bonded;
        case (Committed, Bonded) => committed := BOTH; phase := Phase.Bonded;
        case (Bonded, Committed) => committed := BOTH; phase := Phase.Bonded;
        case (Bonded, Bonded) => committed := BOTH; phase := Phase.Bonded;
        case (Aborted, Aborted) =>
        case (Aborted, PreCommit) =>
        case (_, _) => phase := Phase.Uncertain;
      }
      p := phase;
    }

    method ApplyStatusResponse(reply: StatusMessage, nonce: u64) returns (r: Outcome<()>)
      modifies this
      ensures Took(StatusStep(old(Value()), reply, nonce), old(Value()), Value(), r)
    {
      if reply.transaction != id || reply.nonce != nonce || reply.Query? { return Refused(WrongTransaction); }
      var _ := ReconcileStatus(reply.state);
      r := Accepted(());
    }

    method RecordConfirmed(local: bool) returns (r: Outcome<()>)
      modifies this
      ensures Took(ConfirmStep(old(Value()), local), old(Value()), Value(), r)
    {
      if !phase.OobPending? || confirmed.At(local) { return Refused(InvalidTransition); }
      confirmed := confirmed.Raise(local);
      if confirmed == BOTH { phase := Phase.Preparing; }
      r := Accepted(());
    }

    method RecordPrepared(local: bool) returns (r: Outcome<()>)
      modifies this
      ensures Took(PrepareStep(old(Value()), local), old(Value()), Value(), r)
    {
      if !phase.Preparing? || prepared.At(local) { return Refused(InvalidTransition); }
      prepared := prepared.Raise(local);
      if prepared == BOTH { phase := Phase.Prepared; }
      r := Accepted(());
    }

    method RecordCommitted(local: bool) returns (r: Outcome<()>)
      modifies this
      ensures Took(CommittedStep(old(Value()), local), old(Value()), Value(), r)
    {
      if !phase.Committed? || committed.At(local) { return Refused(InvalidTransition); }
      committed := committed.Raise(local);
      if committed == BOTH { phase := Phase.Bonded; }
      r := Accepted(());
    }

    method Disconnect()
      modifies this
      ensures Value() == old(Value()).(phase := AfterDisconnect(old(phase)))
    {
      if phase.CommitPending? || phase.Committed? {
        phase := Phase.Uncertain;
      } else if !phase.Bonded? && !phase.Aborted? && !phase.Uncertain? {
        phase := Phase.Aborted(Operation.Cancel);
      }
    }

    method AbortWith(operation: Operation) returns (r: Outcome<()>)
      modifies this
      ensures Took(AbortStep(old(Value()), operation), old(Value()), Value(), r)
    {
      if !IsAbort(operation) || phase.Bonded? || phase.Aborted? { return Refused(InvalidTransition); }
      if phase.CommitPending? || phase.Committed? || phase.Uncertain? {
        phase := Phase.Uncertain;
      } else {
        phase := Phase.Aborted(operation);
      }
      r := Accepted(());
    }
  }

  // ---------------------------------------------------------------------------------------
  // Whole runs
  // ---------------------------------------------------------------------------------------

  datatype Event = Fact(fact: LocalEvent) | Wire(message: Message) | Peer(status: StatusState)

  function Attempt(t: Tx, e: Event): Outcome<Tx> {
    match e
    case Fact(f) => LocalStep(t, f)
    case Wire(m) => RemoteStep(t, m)
    case Peer(s) => Accepted(Reconciled(t, s))
  }

  /** A refused event leaves the transaction as it was. */
  function Step(t: Tx, e: Event): Tx {
    match Attempt(t, e)
    case Accepted(t') => t'
    case Refused(_) => t
  }

  function Run(t: Tx, events: seq<Event>): Tx
    decreases |events|
  {
    if events == [] then t else Run(Step(t, events[0]), events[1..])
  }

  /** How many events of the run changed the transaction. */
  function Changes(t: Tx, events: seq<Event>): nat
    decreases |events|
  {
    if events == [] then 0
    else (if Step(t, events[0]) != t then 1 else 0) + Changes(Step(t, events[0]), events[1..])
  }

  /** No recovered peer status takes part in the run. */
  predicate Live(events: seq<Event>) {
    forall i :: 0 <= i < |events| ==> !events[i].Peer?
  }

  /** The flags each phase really carries; strictly stronger than `Validated` outside negotiation. */
  predicate Consistent(t: Tx) {
    match t.phase
    case Negotiating => t.confirmed.None() && t.prepared.None() && t.committed.None()
    case OobPending => t.capabilities.All() && !t.confirmed.All() && t.prepared.None() && t.committed.None()
    case Preparing => t.capabilities.All() && t.confirmed.All() && !t.prepared.All() && t.committed.None()
    case Prepared => t.capabilities.All() && t.confirmed.All() && t.prepared.All() && t.committed.None()
    case CommitPending => t.capabilities.All() && t.confirmed.All() && t.prepared.All() && t.committed.None()
    case Committed => t.capabilities.All() && t.confirmed.All() && t.prepared.All() && !t.committed.All()
    case Bonded => t.capabilities.All() && t.confirmed.All() && t.prepared.All() && t.committed.All()
    case Aborted(op) => IsAbort(op) && t.committed.None()
    case Uncertain => true
  }

  /** Everything one accepted input may change, in the terms the proofs about runs need. */
  predicate Moved(t: Tx, t': Tx) {
    && t'.id == t.id && t'.role == t.role
    && Consistent(t')
    && (PastCommitPoint(t.phase) ==> PastCommitPoint(t'.phase))
    && (t.phase.Aborted? ==> t'.phase.Aborted? || t'.phase.Uncertain?)
    && (t.phase.Uncertain? ==> t'.phase.Uncertain?)
  }

  lemma ConfirmMoves(t: Tx, local: bool)
    requires Consistent(t) && ConfirmStep(t, local).Accepted?
    ensures Moved(t, ConfirmStep(t, local).value)
  {}

  lemma PrepareMoves(t: Tx, local: bool)
    requires Consistent(t) && PrepareStep(t, local).Accepted?
    ensures Moved(t, PrepareStep(t, local).value)
  {}

  lemma CommittedMoves(t: Tx, local: bool)
    requires Consistent(t) && CommittedStep(t, local).Accepted?
    ensures Moved(t, CommittedStep(t, local).value)
  {}

  lemma LocalMoves(t: Tx, e: LocalEvent)
    requires Consistent(t) && LocalStep(t, e).Accepted?
    ensures Moved(t, LocalStep(t, e).value)
  {}

  lemma RemoteMoves(t: Tx, m: Message)
    requires Consistent(t) && RemoteStep(t, m).Accepted?
    ensures Moved(t, RemoteStep(t, m).value)
  {
    if m.operation.Confirm? { ConfirmMoves(t, false); }
    else if m.operation.Prepared? { PrepareMoves(t, false); }
    else if m.operation.Committed? { CommittedMoves(t, false); }
  }

  lemma ReconcileMoves(t: Tx, remote: StatusState)
    requires Consistent(t)
    ensures Moved(t, Reconciled(t, remote))
  {}

  lemma StepConsistent(t: Tx, e: Event)
    requires Consistent(t)
    ensures Moved(t, Step(t, e))
  {
    if Attempt(t, e).Accepted? {
      match e
      case Fact(f) => LocalMoves(t, f);
      case Wire(m) => RemoteMoves(t, m);
      case Peer(remote) => ReconcileMoves(t, remote);
    }
  }

  /** Every reachable state carries exactly the flags of its phase. */
  lemma {:induction false} RunConsistent(t: Tx, events: seq<Event>)
    requires Consistent(t)
    ensures Consistent(Run(t, events)) && Run(t, events).id == t.id && Run(t, events).role == t.role
    decreases |events|
  {
    if events != [] {
      StepConsistent(t, events[0]);
      RunConsistent(Step(t, events[0]), events[1..]);
    }
  }

  /**
   Of all states reachable from a fresh transaction, `Validated` refuses exactly those that
   offered the local capability before seeing the peer's.
   */
  lemma ReachableValidity(id: TransactionId, role: Role, events: seq<Event>)
    ensures var t := Run(New(id, role), events);
            Consistent(t) &&
            (Validated(t) <==> !(t.phase.Negotiating? && t.capabilities == Flags(true, false)))
  {
    RunConsistent(New(id, role), events);
  }

  /** Once a commit decision may exist, no mix of inputs ever reports an abort. */
  lemma {:induction false} CommitIsIrrevocable(t: Tx, events: seq<Event>)
    requires PastCommitPoint(t.phase)
    ensures PastCommitPoint(Run(t, events).phase)
    decreases |events|
  {
    if events != [] {
      CommitIsIrrevocable(Step(t, events[0]), events[1..]);
    }
  }

  predicate Terminal(p: Phase) { p.Bonded? || p.Aborted? || p.Uncertain? }

  /** Bonded, Aborted and Uncertain are final for everything but a recovered status. */
  lemma {:induction false} TerminalIsFinal(t: Tx, events: seq<Event>)
    requires Terminal(t.phase) && Live(events)
    ensures Run(t, events) == t
    decreases |events|
  {
    if events != [] {
      assert !events[0].Peer?;
      assert Step(t, events[0]) == t;
      assert Live(events[1..]);
      TerminalIsFinal(t, events[1..]);
    }
  }

  /** Distance travelled from a fresh transaction, out of eleven. */
  function Progress(t: Tx): nat {
    match t.phase
    case Negotiating => t.capabilities.Count()
    case OobPending => 3 + t.confirmed.Count()
    case Preparing => 5 + t.prepared.Count()
    case Prepared => 7
    case CommitPending => 8
    case Committed => 9 + t.committed.Count()
    case Bonded | Aborted(_) | Uncertain => 11
  }

  lemma ChangeIsProgress(t: Tx, e: Event)
    requires Consistent(t) && !e.Peer?
    ensures Step(t, e) == t || Progress(t) < Progress(Step(t, e)) <= 11
  {}

  lemma {:induction false} ChangesBounded(t: Tx, events: seq<Event>)
    requires Consistent(t) && Live(events)
    ensures Changes(t, events) + Progress(t) <= 11
    decreases |events|
  {
    if events != [] {
      assert !events[0].Peer?;
      ChangeIsProgress(t, events[0]);
      StepConsistent(t, events[0]);
      assert Live(events[1..]);
      ChangesBounded(Step(t, events[0]), events[1..]);
    }
  }

  /** No live run of a fresh transaction changes it more than eleven times. */
  lemma AtMostElevenChanges(id: TransactionId, role: Role, events: seq<Event>)
    requires Live(events)
    ensures Changes(New(id, role), events) <= 11
  {
    ChangesBounded(New(id, role), events);
  }

  /** The accepted exchange of each role, in the order its driver applies it. */
  function FullExchange(id: TransactionId, role: Role): seq<Event> {
    [Wire(Message(id, Operation.Capability)), Fact(LocalEvent.Capability), Fact(VerifiedExchange),
     Fact(LocalEvent.Confirm), Wire(Message(id, Operation.Confirm)),
     Fact(LocalEvent.Prepared), Wire(Message(id, Operation.Prepared))] +
    (if role.Coordinator? then [Fact(LocalEvent.Commit), Wire(Message(id, Operation.CommitAck))]
     else [Wire(Message(id, Operation.Commit)), Fact(LocalEvent.CommitAck)]) +
    [Wire(Message(id, Operation.Committed)), Fact(LocalEvent.Committed)]
  }

  /** The transaction after the first `i` events of its full exchange. */
  function ExchangePoint(id: TransactionId, role: Role, i: nat): Tx
    requires i <= 11
  {
    var phase := if i < 3 then Phase.Negotiating else if i < 5 then Phase.OobPending
                 else if i < 7 then Phase.Preparing else if i == 7 then Phase.Prepared
                 else if i == 8 then Phase.CommitPending else if i < 11 then Phase.Committed else Phase.Bonded;
    Tx(id, role, phase, Flags(i >= 2, i >= 1), Flags(i >= 4, i >= 5), Flags(i >= 6, i >= 7), Flags(i >= 11, i >= 10))
  }

  lemma ExchangeAdvances(id: TransactionId, role: Role, i: nat)
    requires i < 11
    ensures Step(ExchangePoint(id, role, i), FullExchange(id, role)[i]) == ExchangePoint(id, role, i + 1)
  {}

  lemma {:induction false} ExchangeFrom(id: TransactionId, role: Role, i: nat)
    requires i <= 11
    ensures var rest := FullExchange(id, role)[i..]; var t := ExchangePoint(id, role, i);
            Changes(t, rest) == 11 - i && Run(t, rest) == ExchangePoint(id, role, 11)
    decreases 11 - i
  {
    var rest := FullExchange(id, role)[i..];
    if i < 11 {
      ExchangeAdvances(id, role, i);
      assert ExchangePoint(id, role, i) != ExchangePoint(id, role, i + 1);
      assert rest[0] == FullExchange(id, role)[i] && rest[1..] == FullExchange(id, role)[i + 1..];
      ExchangeFrom(id, role, i + 1);
    }
  }

  /** Eleven is attained, by the complete exchange, which ends bonded on both sides. */
  lemma ElevenIsAttained(id: TransactionId, role: Role)
    ensures Changes(New(id, role), FullExchange(id, role)) == 11
    ensures Run(New(id, role), FullExchange(id, role)) == Tx(id, role, Phase.Bonded, BOTH, BOTH, BOTH, BOTH)
  {
    ExchangeFrom(id, role, 0);
    assert FullExchange(id, role)[0..] == FullExchange(id, role);
  }
}
