/** Every octet on the wire and in a stored snapshot, and the phone's script in octets. */
module WireFormat {
  import opened Bytes
  import opened PairTransaction
  import opened PairCodec

  // ---------------------------------------------------------------------------------------
  // Octet by octet
  // ---------------------------------------------------------------------------------------

  /** A control message: version, identifier, operation. */
  lemma MessageOctets(id: TransactionId)
    ensures MessageBytes(Message(id, Operation.Capability)) == [2] + id + [1]
    ensures MessageBytes(Message(id, Operation.Confirm)) == [2] + id + [2]
    ensures MessageBytes(Message(id, Reject)) == [2] + id + [3]
    ensures MessageBytes(Message(id, Cancel)) == [2] + id + [4]
    ensures MessageBytes(Message(id, Timeout)) == [2] + id + [5]
    ensures MessageBytes(Message(id, Operation.Prepared)) == [2] + id + [6]
    ensures MessageBytes(Message(id, Operation.Commit)) == [2] + id + [7]
    ensures MessageBytes(Message(id, Operation.CommitAck)) == [2] + id + [8]
    ensures MessageBytes(Message(id, Operation.Committed)) == [2] + id + [9]
    ensures MessageBytes(Message(id, Status)) == [2] + id + [10]
    ensures MessageBytes(Message(id, Error)) == [2] + id + [11]
    ensures MessageBytes(Message(id, StatusQuery)) == [2] + id + [12]
    ensures MessageBytes(Message(id, StatusResponse)) == [2] + id + [13]
    ensures MessageBytes(Message(id, Revoke)) == [2] + id + [14]
  {}

  /** The eight octets of a nonce, the highest first. */
  function NonceOctets(n: u64): bytes {
    [n / 0x100_0000_0000_0000, n / 0x1_0000_0000_0000 % 256, n / 0x100_0000_0000 % 256, n / 0x1_0000_0000 % 256,
     n / 0x100_0000 % 256, n / 0x1_0000 % 256, n / 0x100 % 256, n % 256]
  }

  lemma Halves(n: nat)
    ensures n / 256 / 256 == n / 0x1_0000 && n / 0x1_0000 / 256 == n / 0x100_0000
    ensures n / 0x100_0000 / 256 == n / 0x1_0000_0000 && n / 0x1_0000_0000 / 256 == n / 0x100_0000_0000
    ensures n / 0x100_0000_0000 / 256 == n / 0x1_0000_0000_0000
    ensures n / 0x1_0000_0000_0000 / 256 == n / 0x100_0000_0000_0000
  {}

  lemma NonceIsBigEndian(n: u64)
    ensures ToBigEndian(n, 8) == NonceOctets(n)
  {
    Halves(n);
    assert ToBigEndian(n / 0x100_0000_0000_0000, 1) == [n / 0x100_0000_0000_0000];
    assert ToBigEndian(n / 0x1_0000_0000_0000, 2) == NonceOctets(n)[..2];
    assert ToBigEndian(n / 0x100_0000_0000, 3) == NonceOctets(n)[..3];
    assert ToBigEndian(n / 0x1_0000_0000, 4) == NonceOctets(n)[..4];
    assert ToBigEndian(n / 0x100_0000, 5) == NonceOctets(n)[..5];
    assert ToBigEndian(n / 0x1_0000, 6) == NonceOctets(n)[..6];
    assert ToBigEndian(n / 0x100, 7) == NonceOctets(n)[..7];
  }

  /** A status message: version, identifier, nonce, kind, state. */
  lemma StatusOctets(id: TransactionId, n: u64)
    ensures var head := [2] + id + NonceOctets(n);
            && StatusBytes(Query(id, n)) == head + [12, 0]
            && StatusBytes(Response(id, n, PreCommit)) == head + [13, 1]
            && StatusBytes(Response(id, n, StatusState.CommitPending)) == head + [13, 2]
            && StatusBytes(Response(id, n, StatusState.Committed)) == head + [13, 3]
            && StatusBytes(Response(id, n, StatusState.Bonded)) == head + [13, 4]
            && StatusBytes(Response(id, n, StatusState.Aborted)) == head + [13, 5]
            && StatusBytes(Response(id, n, Unknown)) == head + [13, 6]
  {
    NonceIsBigEndian(n);
  }

  function Octet(b: bool): byte { if b then 1 else 0 }

  function PhaseOctet(p: Phase): byte {
    match p case Negotiating => 0 case OobPending => 1 case Preparing => 2 case Prepared => 3
            case CommitPending => 4 case Committed => 5 case Bonded => 6 case Aborted(_) => 7 case Uncertain => 8
  }

  function FlagOctets(t: Tx): bytes {
    [Octet(t.capabilities.mine), Octet(t.capabilities.theirs), Octet(t.confirmed.mine), Octet(t.confirmed.theirs),
     Octet(t.prepared.mine), Octet(t.prepared.theirs), Octet(t.committed.mine), Octet(t.committed.theirs)]
  }

  /** A snapshot: version, role, phase, identifier and eight flags. */
  lemma SnapshotOctets(t: Tx)
    ensures Serialize(t) == [2, if t.role.Participant? then 1 else 0, PhaseOctet(t.phase)] + t.id + FlagOctets(t)
  {
    var flags := FlagBytes(t.capabilities) + FlagBytes(t.confirmed) + FlagBytes(t.prepared) + FlagBytes(t.committed);
    assert flags == FlagOctets(t);
    var head := [VERSION, if t.role.Coordinator? then 0 else 1, PhaseCode(t.phase)] + t.id;
    assert Serialize(t) == head + flags;
  }

  // ---------------------------------------------------------------------------------------
  // The phone's script, octet by octet
  // ---------------------------------------------------------------------------------------

  /** The calls of a whole pairing: the phone's for role 1, the desktop's for role 0. */
  function Script(id: TransactionId, role: byte): (calls: seq<Call>)
    requires role <= 1
    ensures |calls| == 11 && forall c :: c in calls ==> WellTyped(c)
  {
    [ApplyRemote([2] + id + [1]), ApplyLocal(0), ApplyLocal(1), ApplyLocal(2), ApplyRemote([2] + id + [2]),
     ApplyLocal(3), ApplyRemote([2] + id + [6])] +
    (if role == 1 then [ApplyRemote([2] + id + [7]), ApplyLocal(5)] else [ApplyLocal(4), ApplyRemote([2] + id + [8])]) +
    [ApplyRemote([2] + id + [9]), ApplyLocal(6)]
  }

  function RoleOfByte(role: byte): Role { if role == 0 then Coordinator else Participant }

  lemma RemoteCall(t: Tx, op: Operation, octets: bytes)
    requires octets == MessageBytes(Message(t.id, op))
    ensures InMemory(t, ApplyRemote(octets)) == RemoteStep(t, Message(t.id, op))
  {
    MessageExact(octets, Message(t.id, op));
  }

  lemma ScriptAdvances(id: TransactionId, role: byte, k: nat)
    requires role <= 1 && k < 11
    ensures var t := ExchangePoint(id, RoleOfByte(role), k);
            Restorable(t) && InMemory(t, Script(id, role)[k]) == Accepted(ExchangePoint(id, RoleOfByte(role), k + 1))
  {
    var t := ExchangePoint(id, RoleOfByte(role), k);
    MessageOctets(id);
    match Script(id, role)[k]
    case ApplyRemote(octets) =>
      var op := if k == 0 then Operation.Capability else if k == 4 then Operation.Confirm
                else if k == 6 then Operation.Prepared else if k == 7 then Operation.Commit
                else if k == 8 then Operation.CommitAck else Operation.Committed;
      RemoteCall(t, op, octets);
    case _ =>
  }

  lemma {:induction false} ScriptFrom(id: TransactionId, role: byte, k: nat)
    requires role <= 1 && k <= 11
    ensures var t := ExchangePoint(id, RoleOfByte(role), k); var rest := Script(id, role)[k..];
            && MachineRun(t, rest) == (ExchangePoint(id, RoleOfByte(role), 11), seq(11 - k, _ => true))
            && StaysRestorable(t, rest)
    decreases 11 - k
  {
    var rest := Script(id, role)[k..];
    if k < 11 {
      ScriptAdvances(id, role, k);
      ScriptFrom(id, role, k + 1);
      assert rest[0] == Script(id, role)[k] && rest[1..] == Script(id, role)[k + 1..];
      assert [true] + seq(11 - (k + 1), _ => true) == seq(11 - k, _ => true);
    }
  }

  lemma EndSnapshots(id: TransactionId, role: byte)
    requires role <= 1
    ensures Serialize(New(id, RoleOfByte(role))) == [2, role, 0] + id + [0, 0, 0, 0, 0, 0, 0, 0]
    ensures Serialize(ExchangePoint(id, RoleOfByte(role), 11)) == [2, role, 6] + id + [1, 1, 1, 1, 1, 1, 1, 1]
  {
    SnapshotOctets(New(id, RoleOfByte(role)));
    SnapshotOctets(ExchangePoint(id, RoleOfByte(role), 11));
  }

  /**
   From the bytes of a new transaction the eleven calls of its script bond it: every call is
   accepted and the bytes at the end are those of the bonded transaction.
   */
  lemma ScriptBonds(id: TransactionId, role: byte)
    requires role <= 1
    ensures Create(id, role) == Ok([2, role, 0] + id + [0, 0, 0, 0, 0, 0, 0, 0])
    ensures ByteRun(Create(id, role).state, Script(id, role)) ==
            ([2, role, 6] + id + [1, 1, 1, 1, 1, 1, 1, 1], seq(11, _ => true))
  {
    var calls, t := Script(id, role), New(id, RoleOfByte(role));
    assert calls[0..] == calls && t == ExchangePoint(id, RoleOfByte(role), 0);
    ScriptFrom(id, role, 0);
    InterfaceSimulates(t, calls);
    EndSnapshots(id, role);
  }

  /**
   The other local events of the interface: 7 is a lost link, 8 to 11 abort with the cause
   they stand for, before the commit point; anything above is refused.
   */
  lemma AbortCalls(t: Tx, event: byte)
    requires !PastCommitPoint(t.phase) && !t.phase.Aborted? && event >= 7
    ensures InMemory(t, ApplyLocal(event)) ==
            if event == 7 then Accepted(t.(phase := Phase.Aborted(Cancel)))
            else if event == 8 then Accepted(t.(phase := Phase.Aborted(Reject)))
            else if event == 9 then Accepted(t.(phase := Phase.Aborted(Cancel)))
            else if event == 10 then Accepted(t.(phase := Phase.Aborted(Timeout)))
            else if event == 11 then Accepted(t.(phase := Phase.Aborted(Error)))
            else Refused(Incompatible)
    ensures Restorable(t) ==>
              Invoke(Serialize(t), ApplyLocal(event)) ==
              if event <= 11 then Ok(Serialize(t.(phase := Phase.Aborted(Cancel)))) else Err(BadFrame)
  {
    if Restorable(t) { RestoresSerialization(t); }
  }

  /** Which error a call gives: a bad key for arguments no state could make good, a bad frame otherwise. */
  lemma CallErrors(state: bytes, c: Call, id: bytes, role: byte)
    requires WellTyped(c)
    ensures Invoke(state, c) == Err(InvalidKey) <==> c.ApplyStatus? && c.nonce < 0
    ensures Create(id, role) == (if |id| == 16 && role <= 1 then Create(id, role) else Err(InvalidKey))
    ensures Create(id, role).Ok? <==> |id| == 16 && role <= 1
  {}

  /** Past the commit point, and not bonded, all of them leave uncertainty. */
  lemma LateAbortCalls(t: Tx, event: byte)
    requires PastCommitPoint(t.phase) && !t.phase.Bonded? && 7 <= event <= 11
    ensures InMemory(t, ApplyLocal(event)) == Accepted(t.(phase := Phase.Uncertain))
  {}
}
