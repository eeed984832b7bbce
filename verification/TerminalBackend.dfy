/** The terminal command's side of the exchange: inbox, status register and commit script. */
module TerminalBackend {
  import opened Bytes
  import opened PairTransaction
  import opened PairCodec
  import opened PairDrivers
  import opened PairFaults
  import opened ControlInbox

  datatype Coordination = Completed | ProtocolUncertain | RemoteAbort | ProtocolTimeout | BackendError

  datatype WaitResult = Arrived | Lost(error: Coordination)

  /** Why a wait is lost: silence, an abort or anything else that was not waited for. */
  function LossOf(ops: seq<Operation>): Coordination {
    if ops == [] then ProtocolTimeout else if IsAbort(ops[0]) then RemoteAbort else BackendError
  }

  /** The operations that count for the script; status queries are answered on the side. */
  function Counted(ops: seq<Operation>): seq<Operation> {
    if ops == [] then []
    else if ops[0].StatusQuery? then Counted(ops[1..])
    else [ops[0]] + Counted(ops[1..])
  }

  function Heard(inbox: seq<bytes>, id: TransactionId): seq<Operation> { Counted(Ours(inbox, id)) }

  /** The register after a wait: the status at its start, if the first of our operations was a query. */
  function Shown(register: bytes, t: Tx, ours: seq<Operation>): bytes {
    if ours != [] && ours[0].StatusQuery? then StatusBytes(Response(t.id, 0, StatusOf(t.phase))) else register
  }

  /** How many operations, from the `k`-th on, arrive exactly as the script expects them. */
  function InScript(ops: seq<Operation>, k: nat): (n: nat)
    requires k <= 5
    ensures n <= 5 - k && n <= |ops|
    decreases 5 - k
  {
    if k == 5 || ops == [] || ops[0] != Utterance(Participant, k) then 0 else 1 + InScript(ops[1..], k + 1)
  }

  /** What is left of a transaction when an expected operation does not arrive. */
  function Interrupted(t: Tx, ops: seq<Operation>): Tx {
    if ops == [] then t.(phase := AfterDisconnect(t.phase))
    else if IsAbort(ops[0]) then Step(t, Wire(Message(t.id, ops[0])))
    else t
  }

  /** Why a wait is lost, and what it does to the transaction, each with its exact condition. */
  lemma LostExactly(t: Tx, ops: seq<Operation>)
    ensures LossOf(ops).ProtocolTimeout? <==> ops == []
    ensures LossOf(ops).RemoteAbort? <==>
              ops != [] && (ops[0].Reject? || ops[0].Cancel? || ops[0].Timeout? || ops[0].Error?)
    ensures LossOf(ops).BackendError? <==> !LossOf(ops).ProtocolTimeout? && !LossOf(ops).RemoteAbort?
    ensures LossOf(ops).BackendError? ==> Interrupted(t, ops) == t
    ensures !LossOf(ops).BackendError? && !PairTransaction.Terminal(t.phase) ==>
              Interrupted(t, ops) == t.(phase := if PastCommitPoint(t.phase) then Phase.Uncertain
                                                 else Phase.Aborted(if ops == [] then Cancel else ops[0]))
  {}

  /** In the courses that go wrong the terminal command leaves its waits as it does here. */
  lemma CoursesInterruptAlike(x: Session)
    requires x.desktopUp && AtWait(PairDrivers.Terminal, x.link.desktop)
    ensures After(PairDrivers.Terminal, x, DesktopStops).desktop == Interrupted(x.desktop, [])
    ensures Possible(PairDrivers.Terminal, x, DesktopHeeds) ==>
              After(PairDrivers.Terminal, x, DesktopHeeds).desktop == Interrupted(x.desktop, x.link.inbox)
  {}

  function Desktop(id: TransactionId, k: nat): Tx
    requires k <= 11
  {
    ExchangePoint(id, Coordinator, k)
  }

  class Backend {
    const tx: Transaction
    var inbox: seq<bytes>
    var register: bytes
    ghost var published: seq<Operation>

    constructor (id: TransactionId, inbox: seq<bytes>)
      ensures fresh(tx) && tx.Value() == New(id, Coordinator)
      ensures this.inbox == inbox && published == []
    {
      tx := new Transaction(id, Coordinator);
      this.inbox, register, published := inbox, StatusBytes(Response(id, 0, StatusOf(Negotiating))), [];
    }

    ghost function Pending(): seq<Operation>
      reads this`inbox
    {
      Heard(inbox, tx.id)
    }

    method PublishProtocol(op: Operation)
      modifies this`register, this`published
      ensures register == MessageBytes(Message(tx.id, op)) && published == old(published) + [op]
    {
      register := MessageBytes(Message(tx.id, op));
      published := published + [op];
    }

    method PublishStatus()
      modifies this`register
      ensures register == StatusBytes(Response(tx.id, 0, StatusOf(tx.phase)))
    {
      register := StatusBytes(Response(tx.id, 0, StatusOf(tx.phase)));
    }

    method TakeProtocol() returns (r: Option<Operation>)
      modifies this`inbox
      ensures var ours := old(Ours(inbox, tx.id));
              if ours == [] then r == None && inbox == old(inbox)
              else r == Some(ours[0]) && Ours(inbox, tx.id) == ours[1..]
    {
      var rest;
      r, rest := TakeFirst(inbox, tx.id);
      inbox := rest;
    }

    /** Wait for one operation; an abort, a surprise or an exhausted inbox ends the wait. */
    method WaitProtocol(wanted: Operation) returns (r: WaitResult)
      requires !wanted.StatusQuery? && !IsAbort(wanted)
      modifies this`inbox, this`register, tx
      ensures var ops := old(Pending());
              if ops != [] && ops[0] == wanted
              then r.Arrived? && Pending() == ops[1..] && tx.Value() == old(tx.Value())
              else r == Lost(LossOf(ops)) && tx.Value() == Interrupted(old(tx.Value()), ops)
      ensures register == Shown(old(register), old(tx.Value()), old(Ours(inbox, tx.id)))
    {
      ghost var t, ours := tx.Value(), Ours(inbox, tx.id);
      while true
        invariant Pending() == old(Pending()) && tx.Value() == t
        invariant |Ours(inbox, tx.id)| <= |ours|
        invariant |Ours(inbox, tx.id)| == |ours| ==> Ours(inbox, tx.id) == ours && register == old(register)
        invariant |Ours(inbox, tx.id)| < |ours| ==>
                    ours[0].StatusQuery? && register == StatusBytes(Response(t.id, 0, StatusOf(t.phase)))
        decreases |Ours(inbox, tx.id)|
      {
        var operation := TakeProtocol();
        if operation.None? {
          break;
        } else if operation.value.StatusQuery? {
          PublishStatus();
        } else if operation.value == wanted {
          return Arrived;
        } else if IsAbort(operation.value) {
          var _ := tx.Remote(Message(tx.id, operation.value));
          return Lost(RemoteAbort);
        } else {
          return Lost(BackendError);
        }
      }
      var _ := tx.Local(Disconnected);
      r := Lost(ProtocolTimeout);
    }

    /** Apply local facts in order, stopping at the first one the transaction refuses. */
    method ApplyFacts(facts: seq<LocalEvent>) returns (ok: bool)
      modifies tx
      ensures tx.Value() == Through(old(tx.Value()), Facts(facts))
      ensures ok == AllAccepted(old(tx.Value()), Facts(facts))
    {
      ghost var t := tx.Value();
      for i := 0 to |facts|
        invariant Through(t, Facts(facts)) == Through(tx.Value(), Facts(facts[i..]))
        invariant AllAccepted(t, Facts(facts)) == AllAccepted(tx.Value(), Facts(facts[i..]))
      {
        assert Facts(facts[i..])[1..] == Facts(facts[i + 1..]);
        var applied := tx.Local(facts[i]);
        if applied.Refused? { return false; }
      }
      ok := true;
    }

    /**
     One round of the script: publish, wait for the peer's operation, apply it and the local
     facts that follow it.
     */
    method Round(say: Operation, hear: Operation, facts: seq<LocalEvent>) returns (error: Option<Coordination>)
      requires !hear.StatusQuery? && !IsAbort(hear)
      modifies this`inbox, this`register, this`published, tx
      ensures published == old(published) + [say]
      ensures var ops := old(Pending()); var t := old(tx.Value()); var events := RoundEvents(tx.id, hear, facts);
              if ops != [] && ops[0] == hear
              then && Pending() == ops[1..] && tx.Value() == Through(t, events)
                   && error == (if AllAccepted(t, events) then None else Some(BackendError))
              else error == Some(LossOf(ops)) && tx.Value() == Interrupted(t, ops)
      ensures register == Shown(MessageBytes(Message(tx.id, say)), old(tx.Value()), old(Ours(inbox, tx.id)))
    {
      PublishProtocol(say);
      var heard := WaitProtocol(hear);
      if heard.Lost? { return Some(heard.error); }
      assert RoundEvents(tx.id, hear, facts)[1..] == Facts(facts);
      var applied := tx.Remote(Message(tx.id, hear));
      if applied.Refused? { return Some(BackendError); }
      var ok := ApplyFacts(facts);
      error := if ok then None else Some(BackendError);
    }

    /** The first `k` rounds are behind and the peer has `ops` still to say. */
    ghost predicate Reached(k: nat, ops: seq<Operation>)
      requires k <= 5
      reads this, tx
    {
      tx.Value() == Desktop(tx.id, RoundStart(k)) && Pending() == ops && published == Utterances(k)
    }

    method ScriptedRound(ghost k: nat, say: Operation, hear: Operation, facts: seq<LocalEvent>)
      returns (error: Option<Coordination>)
      requires k < 5 && say == Utterance(Coordinator, k) && hear == Utterance(Participant, k) && facts == RoundFacts(k)
      requires Reached(k, Pending())
      modifies this`inbox, this`register, this`published, tx
      ensures published == Utterances(k + 1)
      ensures var ops := old(Pending());
              if error.Some? then InScript(ops, k) == 0
              else ops != [] && InScript(ops, k) == 1 + InScript(ops[1..], k + 1) && Reached(k + 1, ops[1..])
      ensures error.Some? ==> && error.value == LossOf(old(Pending()))
                              && tx.Value() == Interrupted(Desktop(tx.id, RoundStart(k)), old(Pending()))
                              && (k < 3 ==> !PastCommitPoint(tx.phase))
                              && (k >= 3 ==> AfterDisconnect(tx.phase).Uncertain?)
    {
      RoundAdvances(tx.id, k, Pending());
      error := Round(say, hear, facts);
    }

    /** The link-layer pairing finished: the capability offer is recorded and advertised. */
    method InitiateLesc()
      requires tx.Value() == New(tx.id, Coordinator)
      modifies this`register, tx
      ensures register == MessageBytes(Message(tx.id, Operation.Capability))
      ensures tx.Value() == New(tx.id, Coordinator).(capabilities := Flags(true, false))
    {
      register := MessageBytes(Message(tx.id, Operation.Capability));
      var _ := tx.Local(LocalEvent.Capability);
    }

    /** The capability round: refused after a first offer, however the peer answers. */
    method OpeningRound() returns (error: Option<Coordination>)
      requires tx.Value() == New(tx.id, Coordinator).(capabilities := Flags(tx.capabilities.mine, false))
      requires published == []
      modifies this`inbox, this`register, this`published, tx
      ensures published == Utterances(1)
      ensures var ops := old(Pending());
              error.None? ==> && !old(tx.capabilities.mine) && ops != []
                              && InScript(ops, 0) == 1 + InScript(ops[1..], 1) && Reached(1, ops[1..])
      ensures error.Some? ==> && error.value == OpeningLoss(old(tx.capabilities.mine), old(Pending()))
                              && !PastCommitPoint(tx.phase)
                              && (!old(tx.capabilities.mine) ==>
                                    && InScript(old(Pending()), 0) == 0
                                    && tx.Value() == Interrupted(Desktop(tx.id, 0), old(Pending())))
    {
      if tx.capabilities.mine { OfferedTwice(tx.id, Pending()); } else { RoundAdvances(tx.id, 0, Pending()); }
      error := Round(Operation.Capability, Operation.Capability,
                     [LocalEvent.Capability, VerifiedExchange, LocalEvent.Confirm]);
    }

    /** Confirmation and preparation. */
    method MiddleRounds() returns (error: Option<Coordination>)
      requires Reached(1, Pending())
      modifies this`inbox, this`register, this`published, tx
      ensures var n := InScript(old(Pending()), 1);
              if error.Some?
              then && n < 2 && published == Utterances(n + 2) && error.value == LossOf(old(Pending())[n..])
                   && tx.Value() == Interrupted(Desktop(tx.id, RoundStart(n + 1)), old(Pending())[n..])
              else n >= 2 && Reached(3, Pending()) && n == 2 + InScript(Pending(), 3)
      ensures error.Some? ==> !PastCommitPoint(tx.phase)
    {
      error := ScriptedRound(1, Operation.Confirm, Operation.Confirm, [LocalEvent.Prepared]);
      if error.Some? { return; }
      error := ScriptedRound(2, Operation.Prepared, Operation.Prepared, [LocalEvent.Commit]);
    }

    /** From COMMIT on, every failure is uncertainty. */
    method CommitRounds() returns (r: Coordination)
      requires Reached(3, Pending())
      modifies this`inbox, this`register, this`published, tx
      ensures var n := InScript(old(Pending()), 3);
              && published == Utterances(if n == 0 then 4 else 5)
              && r == (if n == 2 then Completed else ProtocolUncertain)
              && (if n == 2 then tx.phase.Bonded? else tx.phase.Uncertain?)
    {
      var error := ScriptedRound(3, Operation.Commit, Operation.CommitAck, []);
      if error.Some? {
        var _ := tx.Local(Disconnected);
        return ProtocolUncertain;
      }
      error := ScriptedRound(4, Operation.Committed, Operation.Committed, [LocalEvent.Committed]);
      if error.Some? {
        var _ := tx.Local(Disconnected);
        return ProtocolUncertain;
      }
      r := Completed;
    }

    /**
     The commit script. On a transaction that has not offered its capability yet, the result
     is decided by how far the peer kept to the script: it completes exactly when all five
     operations arrive in order, it is uncertain exactly when COMMIT was published and it did
     not complete, and any other failure leaves the transaction before the commit point.
     On one that has, it never gets past the first operation.
     */
    method CoordinateV2() returns (r: Coordination)
      requires tx.Value() == New(tx.id, Coordinator).(capabilities := Flags(tx.capabilities.mine, false))
      requires published == []
      modifies this`inbox, this`register, this`published, tx
      ensures old(tx.capabilities.mine) ==>
                r == OpeningLoss(true, old(Pending())) && published == Utterances(1) && !PastCommitPoint(tx.phase)
      ensures !old(tx.capabilities.mine) ==> ScriptResult(old(Pending()), r, tx.Value(), published)
    {
      var error := OpeningRound();
      if error.Some? { return error.value; }
      error := MiddleRounds();
      if error.Some? { return error.value; }
      r := CommitRounds();
    }
  }

  /** Why the capability round is lost: after a first offer even the expected answer is an error. */
  function OpeningLoss(offered: bool, ops: seq<Operation>): Coordination {
    if offered && ops != [] && ops[0].Capability? then BackendError else LossOf(ops)
  }

  /** What the script amounts to when the peer says `ops`. */
  predicate ScriptResult(ops: seq<Operation>, r: Coordination, t: Tx, published: seq<Operation>) {
    var n := InScript(ops, 0);
    && published == Utterances(if n < 5 then n + 1 else 5)
    && (r.Completed? <==> n == 5) && (r.Completed? ==> t.phase.Bonded?)
    && (r.ProtocolUncertain? <==> 3 <= n < 5) && (r.ProtocolUncertain? ==> t.phase.Uncertain?)
    && (n < 3 ==> && r == LossOf(ops[n..]) && t == Interrupted(Desktop(t.id, RoundStart(n)), ops[n..])
                  && !PastCommitPoint(t.phase))
  }

  function Utterances(n: nat): seq<Operation>
    requires n <= 5
  {
    seq(n, k requires 0 <= k < n => Utterance(Coordinator, k))
  }

  function Facts(facts: seq<LocalEvent>): (events: seq<Event>)
    ensures |events| == |facts|
  {
    seq(|facts|, i requires 0 <= i < |facts| => Fact(facts[i]))
  }

  function RoundEvents(id: TransactionId, hear: Operation, facts: seq<LocalEvent>): seq<Event> {
    [Wire(Message(id, hear))] + Facts(facts)
  }

  /** The transaction after the events up to, and not including, the first refused one. */
  function Through(t: Tx, events: seq<Event>): Tx
    decreases |events|
  {
    if events == [] then t
    else match Attempt(t, events[0]) case Accepted(t') => Through(t', events[1..]) case Refused(_) => t
  }

  predicate AllAccepted(t: Tx, events: seq<Event>)
    decreases |events|
  {
    events != [] ==>
      match Attempt(t, events[0]) case Accepted(t') => AllAccepted(t', events[1..]) case Refused(_) => false
  }

  /** Where in the full exchange round `k` begins, and the events it applies. */
  function RoundStart(k: nat): (n: nat)
    requires k <= 5
    ensures n <= 11
  {
    if k == 0 then 0 else if k == 1 then 4 else if k == 2 then 6 else if k == 3 then 8 else if k == 4 then 9 else 11
  }

  function RoundFacts(k: nat): seq<LocalEvent>
    requires k < 5
  {
    if k == 0 then [LocalEvent.Capability, VerifiedExchange, LocalEvent.Confirm]
    else if k == 1 then [LocalEvent.Prepared] else if k == 2 then [LocalEvent.Commit]
    else if k == 3 then [] else [LocalEvent.Committed]
  }

  lemma {:induction false} ThroughExchange(id: TransactionId, k: nat, events: seq<Event>)
    requires k + |events| <= 11
    requires forall i :: 0 <= i < |events| ==> events[i] == FullExchange(id, Coordinator)[k + i]
    ensures Through(Desktop(id, k), events) == Desktop(id, k + |events|) && AllAccepted(Desktop(id, k), events)
    decreases |events|
  {
    if events != [] {
      ExchangeAdvances(id, Coordinator, k);
      assert Desktop(id, k) != Desktop(id, k + 1);
      ThroughExchange(id, k + 1, events[1..]);
    }
  }

  /** The operations and facts of round `k` are the next stretch of the full exchange. */
  lemma RoundIsExchange(id: TransactionId, k: nat)
    requires k < 5
    ensures var events := RoundEvents(id, Utterance(Participant, k), RoundFacts(k));
            && RoundStart(k + 1) == RoundStart(k) + |events|
            && forall i :: 0 <= i < |events| ==> events[i] == FullExchange(id, Coordinator)[RoundStart(k) + i]
  {}

  /** A round that hears the expected operation moves on; one that does not is interrupted. */
  lemma RoundAdvances(id: TransactionId, k: nat, ops: seq<Operation>)
    requires k < 5
    ensures var t := Desktop(id, RoundStart(k));
            var events := RoundEvents(id, Utterance(Participant, k), RoundFacts(k));
            && Through(t, events) == Desktop(id, RoundStart(k + 1)) && AllAccepted(t, events)
            && InScript(ops, k) ==
               (if ops != [] && ops[0] == Utterance(Participant, k) then 1 + InScript(ops[1..], k + 1) else 0)
            && (k < 3 ==> !PastCommitPoint(Interrupted(t, ops).phase))
            && (k >= 3 ==> AfterDisconnect(Interrupted(t, ops).phase).Uncertain?)
            && Utterances(k + 1) == Utterances(k) + [Utterance(Coordinator, k)]
  {
    RoundIsExchange(id, k);
    ThroughExchange(id, RoundStart(k), RoundEvents(id, Utterance(Participant, k), RoundFacts(k)));
  }

  /** A second capability offer is refused, so nothing after it happens. */
  lemma OfferedTwice(id: TransactionId, ops: seq<Operation>)
    ensures var t := New(id, Coordinator).(capabilities := Flags(true, false));
            var events := RoundEvents(id, Operation.Capability, RoundFacts(0));
            && !AllAccepted(t, events) && !PastCommitPoint(Through(t, events).phase)
            && !PastCommitPoint(Interrupted(t, ops).phase)
  {}

  /**
   The terminal command as it is wired: the link-layer step records the capability offer
   that the script then makes again, so no inbox whatever completes a pairing.
   */
  method PairOverTerminal(id: TransactionId, inbox: seq<bytes>) returns (r: Coordination)
    ensures !r.Completed? && !r.ProtocolUncertain?
    ensures r == OpeningLoss(true, Heard(inbox, id))
  {
    var backend := new Backend(id, inbox);
    backend.InitiateLesc();
    r := backend.CoordinateV2();
  }
}
