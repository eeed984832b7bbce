/**
 Byte formats of the pairing protocol and the phone's byte-level transaction interface,
 proved equivalent to the in-memory machine.
 */
module PairCodec {
  import opened Bytes
  import opened PairTransaction

  const VERSION: byte := 2
  const MESSAGE_LEN := 18
  const STATUS_MESSAGE_LEN := 27
  const SNAPSHOT_LEN := 27
  const STATUS_QUERY_STATE: byte := 0

  // ---------------------------------------------------------------------------------------
  // Control messages
  // ---------------------------------------------------------------------------------------

  function OperationCode(op: Operation): byte {
    match op
    case Capability => 1 case Confirm => 2 case Reject => 3 case Cancel => 4 case Timeout => 5
    case Prepared => 6 case Commit => 7 case CommitAck => 8 case Committed => 9 case Status => 10
    case Error => 11 case StatusQuery => 12 case StatusResponse => 13 case Revoke => 14
  }

  function DecodeOperation(b: byte): Option<Operation> {
    if b == 1 then Some(Operation.Capability) else if b == 2 then Some(Operation.Confirm)
    else if b == 3 then Some(Reject) else if b == 4 then Some(Cancel) else if b == 5 then Some(Timeout)
    else if b == 6 then Some(Operation.Prepared) else if b == 7 then Some(Operation.Commit)
    else if b == 8 then Some(Operation.CommitAck) else if b == 9 then Some(Operation.Committed)
    else if b == 10 then Some(Status) else if b == 11 then Some(Error) else if b == 12 then Some(StatusQuery)
    else if b == 13 then Some(StatusResponse) else if b == 14 then Some(Revoke) else None
  }

  function MessageBytes(m: Message): (b: bytes)
    ensures |b| == MESSAGE_LEN
  {
    [VERSION] + m.transaction + [OperationCode(m.operation)]
  }

  function DecodeMessage(b: bytes): Outcome<Message> {
    if |b| != MESSAGE_LEN || b[0] != VERSION then Refused(Incompatible)
    else match DecodeOperation(b[17])
      case Some(op) => Accepted(Message(b[1..17], op))
      case None => Refused(Incompatible)
  }

  /** Decoding and encoding are exact inverses: every message has one byte string and no other decodes to it. */
  lemma MessageExact(b: bytes, m: Message)
    ensures DecodeMessage(b) == Accepted(m) <==> b == MessageBytes(m)
  {}

  method EncodeMessage(m: Message) returns (b: array<byte>)
    ensures b[..] == MessageBytes(m)
  {
    b := new byte[MESSAGE_LEN];
    b[0] := VERSION;
    for i := 0 to 16
      invariant b[0] == VERSION && forall k :: 0 <= k < i ==> b[1 + k] == m.transaction[k]
    {
      b[1 + i] := m.transaction[i];
    }
    b[17] := OperationCode(m.operation);
  }

  // ---------------------------------------------------------------------------------------
  // Status messages
  // ---------------------------------------------------------------------------------------

  function StateCode(s: StatusState): byte {
    match s
    case PreCommit => 1 case CommitPending => 2 case Committed => 3 case Bonded => 4 case Aborted => 5 case Unknown => 6
  }

  function DecodeState(b: byte): Option<StatusState> {
    if b == 1 then Some(PreCommit) else if b == 2 then Some(StatusState.CommitPending)
    else if b == 3 then Some(StatusState.Committed) else if b == 4 then Some(StatusState.Bonded)
    else if b == 5 then Some(StatusState.Aborted) else if b == 6 then Some(Unknown) else None
  }

  function StatusBytes(m: StatusMessage): (b: bytes)
    ensures |b| == STATUS_MESSAGE_LEN
  {
    [VERSION] + m.transaction + ToBigEndian(m.nonce, 8) +
    (if m.Query? then [OperationCode(StatusQuery), STATUS_QUERY_STATE]
     else [OperationCode(StatusResponse), StateCode(m.state)])
  }

  function DecodeNonce(b: bytes): u64
    requires |b| == 8
  {
    BigEndianBounded(b);
    U64IsEightOctets();
    FromBigEndian(b)
  }

  function DecodeStatus(b: bytes): Outcome<StatusMessage> {
    if |b| != STATUS_MESSAGE_LEN || b[0] != VERSION then Refused(Incompatible)
    else if b[25] == 12 then
      if b[26] == STATUS_QUERY_STATE then Accepted(Query(b[1..17], DecodeNonce(b[17..25]))) else Refused(Incompatible)
    else if b[25] == 13 then
      match DecodeState(b[26])
      case Some(s) => Accepted(Response(b[1..17], DecodeNonce(b[17..25]), s))
      case None => Refused(Incompatible)
    else Refused(Incompatible)
  }

  lemma StatusExact(b: bytes, m: StatusMessage)
    ensures DecodeStatus(b) == Accepted(m) <==> b == StatusBytes(m)
  {
    U64IsEightOctets();
    if b == StatusBytes(m) {
      BigEndianDecodesEncoding(m.nonce, 8);
      assert b[1..17] == m.transaction;
      assert b[17..25] == ToBigEndian(m.nonce, 8);
    }
    if DecodeStatus(b) == Accepted(m) {
      BigEndianEncodesDecoding(b[17..25]);
      assert b == [b[0]] + b[1..17] + b[17..25] + [b[25], b[26]];
    }
  }

  method EncodeStatus(m: StatusMessage) returns (b: array<byte>)
    ensures b[..] == StatusBytes(m)
  {
    b := new byte[STATUS_MESSAGE_LEN];
    b[0] := VERSION;
    for i := 0 to 16
      invariant b[0] == VERSION && forall k :: 0 <= k < i ==> b[1 + k] == m.transaction[k]
    {
      b[1 + i] := m.transaction[i];
    }
    var nonce := ToBigEndian(m.nonce, 8);
    for i := 0 to 8
      invariant b[0] == VERSION && forall k :: 0 <= k < 16 ==> b[1 + k] == m.transaction[k]
      invariant forall k :: 0 <= k < i ==> b[17 + k] == nonce[k]
    {
      b[17 + i] := nonce[i];
    }
    b[25] := if m.Query? then OperationCode(StatusQuery) else OperationCode(StatusResponse);
    b[26] := if m.Query? then STATUS_QUERY_STATE else StateCode(m.state);
  }

  // ---------------------------------------------------------------------------------------
  // Transaction snapshots
  // ---------------------------------------------------------------------------------------

  function PhaseCode(p: Phase): byte {
    match p
    case Negotiating => 0 case OobPending => 1 case Preparing => 2 case Prepared => 3 case CommitPending => 4
    case Committed => 5 case Bonded => 6 case Aborted(_) => 7 case Uncertain => 8
  }

  function DecodePhase(b: byte): Option<Phase> {
    if b == 0 then Some(Negotiating) else if b == 1 then Some(OobPending) else if b == 2 then Some(Preparing)
    else if b == 3 then Some(Phase.Prepared) else if b == 4 then Some(Phase.CommitPending)
    else if b == 5 then Some(Phase.Committed) else if b == 6 then Some(Phase.Bonded)
    else if b == 8 then Some(Uncertain) else None
  }

  function Bit(b: bool): byte { if b then 1 else 0 }

  function FlagBytes(f: Flags): bytes { [Bit(f.mine), Bit(f.theirs)] }

  function DecodeFlags(mine: byte, theirs: byte): Option<Flags> {
    if mine <= 1 && theirs <= 1 then Some(Flags(mine != 0, theirs != 0)) else None
  }

  function Serialize(t: Tx): (b: bytes)
    ensures |b| == SNAPSHOT_LEN
  {
    [VERSION, if t.role.Coordinator? then 0 else 1, PhaseCode(t.phase)] + t.id +
    FlagBytes(t.capabilities) + FlagBytes(t.confirmed) + FlagBytes(t.prepared) + FlagBytes(t.committed)
  }

  function Restore(b: bytes): Outcome<Tx> {
    if |b| != SNAPSHOT_LEN || b[0] != VERSION || b[1] > 1 then Refused(Incompatible)
    else
      var role := if b[1] == 0 then Coordinator else Participant;
      match (DecodePhase(b[2]), DecodeFlags(b[19], b[20]), DecodeFlags(b[21], b[22]),
             DecodeFlags(b[23], b[24]), DecodeFlags(b[25], b[26]))
      case (Some(phase), Some(cap), Some(conf), Some(prep), Some(comm)) =>
        var t := Tx(b[3..19], role, phase, cap, conf, prep, comm);
        if Validated(t) then Accepted(t) else Refused(InvalidTransition)
      case _ => Refused(Incompatible)
  }

  /** The states a snapshot can bring back. */
  predicate Restorable(t: Tx) {
    Validated(t) && !t.phase.Aborted?
  }

  lemma SnapshotLayout(t: Tx)
    ensures var b := Serialize(t);
            && b[0] == VERSION && b[1] == (if t.role.Coordinator? then 0 else 1) && b[2] == PhaseCode(t.phase)
            && b[3..19] == t.id
            && b[19..21] == FlagBytes(t.capabilities) && b[21..23] == FlagBytes(t.confirmed)
            && b[23..25] == FlagBytes(t.prepared) && b[25..27] == FlagBytes(t.committed)
  {}

  lemma PartsDecode(f: Flags, p: Phase)
    ensures DecodeFlags(FlagBytes(f)[0], FlagBytes(f)[1]) == Some(f)
    ensures !p.Aborted? ==> DecodePhase(PhaseCode(p)) == Some(p)
  {}

  lemma PartsEncode(x: byte, y: byte)
    ensures DecodeFlags(x, y).Some? ==> FlagBytes(DecodeFlags(x, y).value) == [x, y]
    ensures DecodePhase(x).Some? ==> PhaseCode(DecodePhase(x).value) == x && !DecodePhase(x).value.Aborted?
  {}

  lemma RestoresSerialization(t: Tx)
    requires Restorable(t)
    ensures Restore(Serialize(t)) == Accepted(t)
  {
    var b := Serialize(t);
    SnapshotLayout(t);
    PartsDecode(t.capabilities, t.phase);
    PartsDecode(t.confirmed, t.phase);
    PartsDecode(t.prepared, t.phase);
    PartsDecode(t.committed, t.phase);
    assert b[19] == b[19..21][0] && b[20] == b[19..21][1];
    assert b[21] == b[21..23][0] && b[22] == b[21..23][1];
    assert b[23] == b[23..25][0] && b[24] == b[23..25][1];
    assert b[25] == b[25..27][0] && b[26] == b[25..27][1];
  }

  lemma SerializesRestoration(b: bytes)
    requires Restore(b).Accepted?
    ensures Restorable(Restore(b).value) && Serialize(Restore(b).value) == b
  {
    var t := Restore(b).value;
    PartsEncode(b[2], b[2]);
    PartsEncode(b[19], b[20]);
    PartsEncode(b[21], b[22]);
    PartsEncode(b[23], b[24]);
    PartsEncode(b[25], b[26]);
    InParts(b);
  }

  lemma InParts(b: bytes)
    requires |b| == SNAPSHOT_LEN
    ensures b == [b[0], b[1], b[2]] + b[3..19] + [b[19], b[20]] + [b[21], b[22]] + [b[23], b[24]] + [b[25], b[26]]
  {}

  /**
   A byte string restores to `t` exactly when it is the serialization of `t` and `t` is
   restorable; in particular both round trips hold and nothing else is ever accepted.
   */
  lemma SnapshotExact(b: bytes, t: Tx)
    ensures Restore(b) == Accepted(t) <==> b == Serialize(t) && Restorable(t)
  {
    if Restorable(t) { RestoresSerialization(t); }
    if Restore(b) == Accepted(t) { SerializesRestoration(b); }
  }

  /** The two ways a live state fails to survive serialization, for every reachable state. */
  lemma ReachableRestorable(id: TransactionId, role: Role, events: seq<Event>)
    ensures var t := Run(New(id, role), events);
            Restore(Serialize(t)) == Accepted(t) <==>
            !t.phase.Aborted? && !(t.phase.Negotiating? && t.capabilities == Flags(true, false))
  {
    ReachableValidity(id, role, events);
    SnapshotExact(Serialize(Run(New(id, role), events)), Run(New(id, role), events));
  }

  // ---------------------------------------------------------------------------------------
  // The phone's byte-level interface
  // ---------------------------------------------------------------------------------------

  datatype MobileError = InvalidKey | BadFrame

  datatype MobileResult = Ok(state: bytes) | Err(error: MobileError)

  datatype Call =
    | ApplyLocal(event: byte)
    | ApplyRemote(message: bytes)
    | ApplyStatus(response: bytes, nonce: int)

  predicate WellTyped(c: Call) {
    c.ApplyStatus? ==> -0x8000_0000_0000_0000 <= c.nonce < 0x8000_0000_0000_0000
  }

  function LocalEventOf(event: byte): Option<LocalEvent> {
    if event == 0 then Some(LocalEvent.Capability) else if event == 1 then Some(VerifiedExchange)
    else if event == 2 then Some(LocalEvent.Confirm) else if event == 3 then Some(LocalEvent.Prepared)
    else if event == 4 then Some(LocalEvent.Commit) else if event == 5 then Some(LocalEvent.CommitAck)
    else if event == 6 then Some(LocalEvent.Committed) else if event == 7 then Some(Disconnected)
    else if event == 8 then Some(Abort(Reject)) else if event == 9 then Some(Abort(Cancel))
    else if event == 10 then Some(Abort(Timeout)) else if event == 11 then Some(Abort(Error)) else None
  }

  function Create(id: bytes, role: byte): MobileResult {
    if |id| != 16 || role > 1 then Err(InvalidKey)
    else Ok(Serialize(New(id, if role == 0 then Coordinator else Participant)))
  }

  function Answer(o: Outcome<Tx>): MobileResult {
    match o case Accepted(t) => Ok(Serialize(t)) case Refused(_) => Err(BadFrame)
  }

  /** One call of the interface: bytes in, bytes out. */
  function Invoke(state: bytes, c: Call): MobileResult
    requires WellTyped(c)
  {
    if c.ApplyStatus? && c.nonce < 0 then Err(InvalidKey)
    else match Restore(state)
      case Refused(_) => Err(BadFrame)
      case Accepted(t) =>
        match c
        case ApplyLocal(event) =>
          (match LocalEventOf(event) case Some(e) => Answer(LocalStep(t, e)) case None => Err(BadFrame))
        case ApplyRemote(message) =>
          (match DecodeMessage(message) case Accepted(m) => Answer(RemoteStep(t, m)) case Refused(_) => Err(BadFrame))
        case ApplyStatus(response, nonce) =>
          (match DecodeStatus(response)
           case Accepted(m) => if m.Query? then Err(BadFrame) else Answer(StatusStep(t, m, nonce))
           case Refused(_) => Err(BadFrame))
  }

  /** The same input given to a transaction held in memory. */
  function InMemory(t: Tx, c: Call): Outcome<Tx>
    requires WellTyped(c)
  {
    match c
    case ApplyLocal(event) =>
      (match LocalEventOf(event) case Some(e) => LocalStep(t, e) case None => Refused(Incompatible))
    case ApplyRemote(message) =>
      (match DecodeMessage(message) case Accepted(m) => RemoteStep(t, m) case Refused(e) => Refused(e))
    case ApplyStatus(response, nonce) =>
      if nonce < 0 then Refused(Incompatible) else
      (match DecodeStatus(response) case Accepted(m) => StatusStep(t, m, nonce) case Refused(e) => Refused(e))
  }

  predicate SameAnswer(r: MobileResult, o: Outcome<Tx>) {
    match o case Accepted(t) => r == Ok(Serialize(t)) case Refused(_) => r.Err?
  }

  /**
   The interface agrees with the machine on every call exactly in the restorable states:
   in any other state it refuses even the inputs the machine takes without moving.
   */
  lemma InterfaceExact(t: Tx)
    ensures Restorable(t) <==> forall c :: WellTyped(c) ==> SameAnswer(Invoke(Serialize(t), c), InMemory(t, c))
  {
    if Restorable(t) {
      SnapshotExact(Serialize(t), t);
    } else {
      var probe := ApplyRemote(MessageBytes(Message(t.id, Status)));
      MessageExact(MessageBytes(Message(t.id, Status)), Message(t.id, Status));
      if Restore(Serialize(t)).Accepted? {
        var u := Restore(Serialize(t)).value;
        SnapshotExact(Serialize(t), u);
        SnapshotInjective(t, u);
      }
      assert WellTyped(probe) && InMemory(t, probe) == Accepted(t) && Invoke(Serialize(t), probe).Err?;
    }
  }

  /** Snapshots of different transactions differ, up to the cause of an abort. */
  lemma SnapshotInjective(t: Tx, u: Tx)
    requires Serialize(t) == Serialize(u)
    ensures t == u || (t.phase.Aborted? && u.phase.Aborted? && t == u.(phase := t.phase))
  {
    SnapshotLayout(t);
    SnapshotLayout(u);
  }

  /** Runs: the bytes the phone holds, and the transaction an in-memory driver would hold. */
  function ByteRun(state: bytes, calls: seq<Call>): (bytes, seq<bool>)
    requires forall c :: c in calls ==> WellTyped(c)
    decreases |calls|
  {
    if calls == [] then (state, [])
    else
      var r := Invoke(state, calls[0]);
      var (final, rest) := ByteRun(if r.Ok? then r.state else state, calls[1..]);
      (final, [r.Ok?] + rest)
  }

  function MachineRun(t: Tx, calls: seq<Call>): (Tx, seq<bool>)
    requires forall c :: c in calls ==> WellTyped(c)
    decreases |calls|
  {
    if calls == [] then (t, [])
    else
      var o := InMemory(t, calls[0]);
      var (final, rest) := MachineRun(if o.Accepted? then o.value else t, calls[1..]);
      (final, [o.Accepted?] + rest)
  }

  /** Every state the machine passes through, the last one excepted, can be restored. */
  predicate StaysRestorable(t: Tx, calls: seq<Call>)
    requires forall c :: c in calls ==> WellTyped(c)
    decreases |calls|
  {
    calls != [] ==>
      Restorable(t) &&
      (var o := InMemory(t, calls[0]); StaysRestorable(if o.Accepted? then o.value else t, calls[1..]))
  }

  /**
   Over every sequence of calls the bytes are the serialization of the in-memory state and
   exactly the calls the machine accepts are accepted.
   */
  lemma {:induction false} InterfaceSimulates(t: Tx, calls: seq<Call>)
    requires forall c :: c in calls ==> WellTyped(c)
    requires StaysRestorable(t, calls)
    ensures ByteRun(Serialize(t), calls) == (Serialize(MachineRun(t, calls).0), MachineRun(t, calls).1)
    decreases |calls|
  {
    if calls != [] {
      InterfaceExact(t);
      var c := calls[0];
      assert WellTyped(c) && SameAnswer(Invoke(Serialize(t), c), InMemory(t, c));
      var o := InMemory(t, c);
      InterfaceSimulates(if o.Accepted? then o.value else t, calls[1..]);
    }
  }

  /** Neither aborted nor ahead of the peer's capability offer. */
  predicate InOrder(t: Tx) {
    !t.phase.Aborted? && !(t.phase.Negotiating? && t.capabilities == Flags(true, false))
  }

  predicate StaysInOrder(t: Tx, calls: seq<Call>)
    requires forall c :: c in calls ==> WellTyped(c)
    decreases |calls|
  {
    calls != [] ==>
      InOrder(t) &&
      (var o := InMemory(t, calls[0]); StaysInOrder(if o.Accepted? then o.value else t, calls[1..]))
  }

  lemma CallConsistent(t: Tx, c: Call)
    requires WellTyped(c) && Consistent(t) && InMemory(t, c).Accepted?
    ensures Consistent(InMemory(t, c).value)
  {
    match c
    case ApplyLocal(event) => LocalMoves(t, LocalEventOf(event).value);
    case ApplyRemote(message) => RemoteMoves(t, DecodeMessage(message).value);
    case ApplyStatus(response, _) => ReconcileMoves(t, DecodeStatus(response).value.state);
  }

  lemma {:induction false} InOrderIsRestorable(t: Tx, calls: seq<Call>)
    requires forall c :: c in calls ==> WellTyped(c)
    requires Consistent(t)
    ensures StaysInOrder(t, calls) <==> StaysRestorable(t, calls)
    decreases |calls|
  {
    if calls != [] {
      var o := InMemory(t, calls[0]);
      if o.Accepted? { CallConsistent(t, calls[0]); }
      InOrderIsRestorable(if o.Accepted? then o.value else t, calls[1..]);
    }
  }

  /**
   For the phone's own transactions: from creation on, until the first abort and as long as
   the peer's capability precedes the local one, the interface is the machine.
   */
  lemma PhoneInterfaceIsMachine(id: TransactionId, role: byte, calls: seq<Call>)
    requires role <= 1
    requires forall c :: c in calls ==> WellTyped(c)
    requires StaysInOrder(New(id, if role == 0 then Coordinator else Participant), calls)
    ensures var t := New(id, if role == 0 then Coordinator else Participant);
            Create(id, role).Ok? &&
            ByteRun(Create(id, role).state, calls) == (Serialize(MachineRun(t, calls).0), MachineRun(t, calls).1)
  {
    var t := New(id, if role == 0 then Coordinator else Participant);
    InOrderIsRestorable(t, calls);
    InterfaceSimulates(t, calls);
  }
}
