/** The daemon's pair engine: one attempt, its durable requests and what is left when it ends. */
module PairEngine {
  import opened Bytes
  import opened PairTransaction
  import opened PairDrivers
  import opened PairFaults
  import opened ControlInbox
  import opened BondDirectory
  import TerminalBackend

  datatype EngineResult = Paired | Aborted | Rejected | Persistence | Uncertain

  function InScript(ops: seq<Operation>, k: nat): nat
    requires k <= 5
  {
    TerminalBackend.InScript(ops, k)
  }

  // ---------------------------------------------------------------------------------------
  // The script and where it is left
  // ---------------------------------------------------------------------------------------

  const LAST := Length(Daemon)

  /** The transaction before instruction `pc` of the daemon's script. */
  function Desktop(id: TransactionId, pc: nat): Tx { ExchangePoint(id, Coordinator, Exchanged(Daemon, pc)) }

  /** What the first `pc` instructions publish. */
  function Scripted(pc: nat): seq<Operation> {
    seq(Published(Daemon, pc), k requires 0 <= k => Utterance(Coordinator, k))
  }

  /** The status stored before instruction `pc`. */
  function Stored(pc: nat): Option<StatusState> {
    if pc < 4 then None else if pc < 15 then Some(PreCommit)
    else if pc < 18 then Some(StatusState.Committed) else Some(StatusState.Bonded)
  }

  /** The words and the stored status grow as the instructions say. */
  lemma ScriptGrows(id: TransactionId, pc: nat)
    requires pc < LAST
    ensures Scripted(0) == [] && Stored(0) == None
    ensures Scripted(pc + 1) == Scripted(pc) + (match Code(Daemon, pc) case Publish(op) => [op] case _ => [])
    ensures Stored(pc + 1) == if Remembers(Daemon, pc) then Some(StatusOf(Desktop(id, pc + 1).phase)) else Stored(pc)
  {
    CodeCounts(Daemon, pc);
  }

  /** The transaction of a script left at `pc`. */
  function Parted(id: TransactionId, pc: nat): Tx {
    match Leaving(Daemon, pc).0
    case Some(event) => if pc < LAST then Step(Desktop(id, pc), Fact(event)) else Desktop(id, pc)
    case None => Desktop(id, pc)
  }

  /** Everything it has published. */
  function Spoken(pc: nat): seq<Operation> {
    Scripted(pc) + if pc < LAST then AsSeq(Leaving(Daemon, pc).1) else []
  }

  /** The status it leaves stored. */
  function Kept(id: TransactionId, pc: nat): Option<StatusState> {
    if pc < LAST && Leaving(Daemon, pc).0.Some? then Some(StatusOf(Parted(id, pc).phase)) else Stored(pc)
  }

  /** Where an attempt leaves the script: at the first thing that goes wrong, in the order of the exchange. */
  function StopsAt(n: nat, accept: bool, replies: seq<bool>): (pc: nat)
    ensures pc <= LAST
  {
    if n == 0 then 1 else if !accept then 4 else if n == 1 then 6
    else if !Granted(replies, 0) then 7 else if n == 2 then 9
    else if !Granted(replies, 1) then 11 else if n == 3 then 14 else if n == 4 then 16
    else if !Granted(replies, 2) then 17 else LAST
  }

  /** What an attempt says: the desktop's words in order, and a last one if it breaks off aloud. */
  function Said(n: nat, accept: bool, replies: seq<bool>): seq<Operation> {
    if n == 0 then [Operation.Capability]
    else if !accept then [Operation.Capability, Operation.Reject]
    else if n == 1 then [Operation.Capability, Operation.Confirm]
    else if !Granted(replies, 0) || n == 2 then [Operation.Capability, Operation.Confirm, Operation.Error]
    else if !Granted(replies, 1) then
      [Operation.Capability, Operation.Confirm, Operation.Prepared, Operation.Error]
    else if n == 3 then
      [Operation.Capability, Operation.Confirm, Operation.Prepared, Operation.Commit, Operation.Error]
    else [Operation.Capability, Operation.Confirm, Operation.Prepared, Operation.Commit, Operation.Committed]
  }

  /** The phase it ends in. */
  function EndPhase(n: nat, accept: bool, replies: seq<bool>): Phase {
    if n == 0 then Phase.Negotiating
    else if !accept then Phase.Aborted(Operation.Reject)
    else if n == 1 then Phase.OobPending
    else if !Granted(replies, 0) || n == 2 || !Granted(replies, 1) then Phase.Aborted(Operation.Error)
    else if n <= 4 || !Granted(replies, 2) then Phase.Uncertain
    else Phase.Bonded
  }

  /**
   What leaving the script where an attempt stops amounts to: its words are those of the
   exchange, cut off, with REJECT or ERROR behind them; it stores the status it ends with,
   or none if the peer never offered its capability.
   */
  lemma LeavesExactly(id: TransactionId, n: nat, accept: bool, replies: seq<bool>)
    requires n <= 5
    ensures var pc := StopsAt(n, accept, replies);
            && Spoken(pc) == Said(n, accept, replies)
            && Parted(id, pc).phase == EndPhase(n, accept, replies)
            && Kept(id, pc) == (if n == 0 then None else Some(StatusOf(EndPhase(n, accept, replies))))
  {
    SpokenExactly(n, accept, replies);
  }

  lemma SpokenExactly(n: nat, accept: bool, replies: seq<bool>)
    requires n <= 5
    ensures Spoken(StopsAt(n, accept, replies)) == Said(n, accept, replies)
  {
    var pc := StopsAt(n, accept, replies);
    var said := Said(n, accept, replies);
    assert |Spoken(pc)| == |said| && forall k :: 0 <= k < |said| ==> Spoken(pc)[k] == said[k];
  }

  /** An attempt is past the commit point exactly if it has said COMMIT. */
  lemma CommitsExactly(n: nat, accept: bool, replies: seq<bool>)
    requires n <= 5
    ensures PastCommitPoint(EndPhase(n, accept, replies)) <==> Operation.Commit in Said(n, accept, replies)
    ensures PastCommitPoint(EndPhase(n, accept, replies)) <==> Commits(n, accept, replies)
  {}

  // ---------------------------------------------------------------------------------------
  // The requests an attempt makes, by how far the peer kept to the script
  // ---------------------------------------------------------------------------------------

  /**
   The requests that reach the commit consumer when `n` answers arrive in script. It answers
   them in order with `replies`; when they run out it is gone and nothing more is served.
   */
  function Requested(n: nat, accept: bool, replies: seq<bool>, stage: Request): seq<Request>
    requires stage.Stage?
  {
    if n < 2 || !accept || |replies| == 0 then []
    else if |replies| == 1 || !replies[0] then [stage]
    else if n == 2 then [stage, Discard(stage.peerId)]
    else if |replies| == 2 || !replies[1] || n == 4 then [stage, MarkCommit]
    else if n == 3 then [stage, MarkCommit, Discard(stage.peerId)]
    else [stage, MarkCommit, Promote(stage.peerId)]
  }

  /** COMMIT is sent exactly when staging and the journal mark are durable and three answers are in. */
  predicate Commits(n: nat, accept: bool, replies: seq<bool>) {
    accept && n >= 3 && |replies| >= 2 && replies[0] && replies[1]
  }

  predicate Pairs(n: nat, accept: bool, replies: seq<bool>) {
    Commits(n, accept, replies) && n == 5 && |replies| >= 3 && replies[2]
  }

  /** The `i`-th request is served and granted. */
  predicate Granted(replies: seq<bool>, i: nat) { i < |replies| && replies[i] }

  /** What an attempt reports: the first thing that goes wrong, in the order of the exchange. */
  function Report(n: nat, accept: bool, replies: seq<bool>): EngineResult {
    if n == 0 then EngineResult.Aborted
    else if !accept then Rejected
    else if n == 1 then EngineResult.Aborted
    else if !Granted(replies, 0) then Persistence
    else if n == 2 then EngineResult.Aborted
    else if !Granted(replies, 1) then Persistence
    else if n == 3 then EngineResult.Aborted
    else if n == 4 then EngineResult.Uncertain
    else if !Granted(replies, 2) then Persistence
    else Paired
  }

  /** Each result of an attempt with its exact condition. */
  lemma ReportExactly(n: nat, accept: bool, replies: seq<bool>)
    requires n <= 5
    ensures var r := Report(n, accept, replies);
            && (r.Rejected? <==> n >= 1 && !accept)
            && (r.Persistence? <==> accept && exists i: nat :: i < 3 && n >= (if i == 2 then 5 else i + 2)
                                                              && !Granted(replies, i))
            && (r.Uncertain? <==> n == 4 && accept && Granted(replies, 0) && Granted(replies, 1))
            && (r.Paired? <==> n == 5 && accept && Granted(replies, 0) && Granted(replies, 1) && Granted(replies, 2))
  {
    var missing := if !Granted(replies, 0) then 0 else if !Granted(replies, 1) then 1 else 2;
    assert missing < 3;
  }

  /** Which requests an attempt makes, each with its exact condition. */
  lemma RequestsExactly(n: nat, accept: bool, replies: seq<bool>, stage: Request)
    requires n <= 5 && stage.Stage?
    ensures var made := Requested(n, accept, replies, stage);
            && |made| <= |replies| && (made != [] ==> made[0] == stage)
            && (stage in made <==> accept && n >= 2 && |replies| > 0)
            && (MarkCommit in made <==> accept && n >= 3 && |replies| > 1 && replies[0])
            && (Promote(stage.peerId) in made <==> Commits(n, accept, replies) && n == 5 && |replies| > 2)
            && (Discard(stage.peerId) in made <==>
                  || (accept && n == 2 && |replies| > 1 && replies[0])
                  || (Commits(n, accept, replies) && n == 3 && |replies| > 2))
  {}

  /** How an attempt ends: its requests and its result. */
  predicate Ends(n: nat, accept: bool, replies: seq<bool>, stage: Request, made: seq<Request>, r: EngineResult)
    requires stage.Stage?
  {
    && made == Requested(n, accept, replies, stage)
    && r == Report(n, accept, replies) && (r.Paired? <==> Pairs(n, accept, replies))
  }

  class Engine {
    const tx: Transaction
    var inbox: seq<bytes>
    var session: Option<StatusState>
    /** The commit consumer's replies, in the order of the requests. */
    const replies: seq<bool>
    var made: seq<Request>
    /** Every operation put into the register. */
    ghost var published: seq<Operation>

    constructor (id: TransactionId, inbox: seq<bytes>, replies: seq<bool>)
      ensures fresh(tx) && tx.Value() == New(id, Coordinator)
      ensures this.inbox == inbox && this.replies == replies && made == [] && session == None && published == []
    {
      tx := new Transaction(id, Coordinator);
      this.inbox, this.replies, session, made, published := inbox, replies, None, [], [];
    }

    ghost function Pending(): seq<Operation>
      reads this`inbox
    {
      Ours(inbox, tx.id)
    }

    /** How many more answers, from the `j`-th on, arrive in script. */
    ghost function Left(j: nat): (n: nat)
      requires j <= 5
      reads this`inbox
      ensures n <= 5 - j
    {
      InScript(Pending(), j)
    }

    /** The attempt has run the first `pc` instructions of the script. */
    ghost predicate Reached(pc: nat)
      reads this`session, this`published, tx
    {
      tx.Value() == Desktop(tx.id, pc) && published == Scripted(pc) && session == Stored(pc)
    }

    /** It has left the script at `pc`. */
    ghost predicate Gone(pc: nat)
      reads this`session, this`published, tx
    {
      tx.Value() == Parted(tx.id, pc) && published == Spoken(pc) && session == Kept(tx.id, pc)
    }

    method Publish(op: Operation)
      modifies this`published
      ensures published == old(published) + [op]
    {
      published := published + [op];
    }

    /** The next word of the script. */
    method PublishPaced(ghost pc: nat, op: Operation)
      requires pc < LAST && Reached(pc) && Code(Daemon, pc) == Instruction.Publish(op)
      modifies this`published
      ensures Reached(pc + 1)
    {
      ScriptGrows(tx.id, pc);
      Publish(op);
    }

    method Remember()
      modifies this`session
      ensures session == Some(StatusOf(tx.phase))
    {
      session := Some(StatusOf(tx.phase));
    }

    /** The next operation of this attempt; an abort or silence is no operation. */
    method WaitForOperation() returns (r: Option<Operation>)
      modifies this`inbox
      ensures var ops := old(Pending());
              if ops == [] then r == None
              else Pending() == ops[1..] && r == (if IsAbort(ops[0]) then None else Some(ops[0]))
    {
      var rest;
      r, rest := TakeFirst(inbox, tx.id);
      inbox := rest;
      if r.Some? && IsAbort(r.value) { r := None; }
    }

    /** Wait for the `j`-th answer. */
    method Await(ghost j: nat, wanted: Operation) returns (ok: bool)
      requires j < 5 && wanted == Utterance(Participant, j)
      modifies this`inbox
      ensures old(Left(j)) == if ok then 1 + Left(j + 1) else 0
    {
      var operation := WaitForOperation();
      ok := operation == Some(wanted);
    }

    /** A local fact that the script has reached is never refused. */
    method Note(ghost pc: nat, fact: LocalEvent)
      requires pc < LAST && Reached(pc) && Code(Daemon, pc) == Apply(fact)
      modifies tx
      ensures tx.Value() == Desktop(tx.id, pc + 1) && published == Scripted(pc + 1)
      ensures !Remembers(Daemon, pc) ==> Reached(pc + 1)
    {
      ProgramSteps(Daemon, tx.id, pc);
      ScriptGrows(tx.id, pc);
      var _ := tx.Local(fact);
    }

    /** Nor is a peer's operation. */
    method Hear(ghost pc: nat, op: Operation)
      requires pc < LAST && Reached(pc) && Code(Daemon, pc) == Instruction.Await(op)
      modifies tx
      ensures tx.Value() == Desktop(tx.id, pc + 1) && published == Scripted(pc + 1)
      ensures !Remembers(Daemon, pc) ==> Reached(pc + 1)
    {
      ProgramSteps(Daemon, tx.id, pc);
      ScriptGrows(tx.id, pc);
      var _ := tx.Remote(Message(tx.id, op));
    }

    /** Ask the commit consumer; a consumer that is gone does nothing and answers no. */
    method Ask(request: Request) returns (ok: bool)
      modifies this`made
      ensures if |replies| <= |old(made)| then !ok && made == old(made)
              else ok == replies[|old(made)|] && made == old(made) + [request]
    {
      if |replies| <= |made| { return false; }
      ok := replies[|made|];
      made := made + [request];
    }

    /** The link is lost past the commit point: uncertainty. */
    method LoseLink(ghost pc: nat)
      requires pc < LAST && Reached(pc) && Leaving(Daemon, pc) == (Some(Disconnected), None)
      modifies tx, this`session
      ensures Gone(pc)
    {
      var _ := tx.Local(Disconnected);
      Remember();
    }

    /** Break off aloud. */
    method AbortLocally(ghost pc: nat, word: Operation)
      requires pc < LAST && Reached(pc) && Leaving(Daemon, pc) == (Some(LocalEvent.Abort(word)), Some(word))
      modifies tx, this`session, this`published
      ensures Gone(pc)
    {
      Publish(word);
      var _ := tx.Local(LocalEvent.Abort(word));
      Remember();
    }

    method AbortWithDiscard(ghost pc: nat, peerId: string)
      requires pc == 9 || pc == 14
      requires Reached(pc)
      modifies tx, this`session, this`made, this`published
      ensures Gone(pc)
      ensures made == old(made) + (if |replies| <= |old(made)| then [] else [Discard(peerId)])
    {
      AbortLocally(pc, Operation.Error);
      var _ := Ask(Discard(peerId));
    }

    /** The peer has committed: promote, and record it or stay uncertain. */
    method Conclude(peerId: string) returns (ok: bool)
      requires Reached(16)
      modifies tx, this`session, this`made
      ensures if |replies| <= |old(made)| then !ok && made == old(made)
              else ok == replies[|old(made)|] && made == old(made) + [Promote(peerId)]
      ensures Gone(if ok then LAST else 17)
    {
      Hear(16, Operation.Committed);
      ok := Ask(Promote(peerId));
      if !ok {
        LoseLink(17);
        return;
      }
      Note(17, LocalEvent.Committed);
      Remember();
    }

    /** The peer has acknowledged COMMIT: say that it is committed, and wait to hear the same. */
    method AfterAck(ghost stage: Request, peerId: string) returns (r: EngineResult)
      requires stage.Stage? && stage.peerId == peerId && Reached(14)
      requires made == [stage, MarkCommit] && |replies| >= 2 && replies[0] && replies[1]
      modifies this, tx
      ensures var n := 4 + old(Left(4));
              Ends(n, true, replies, stage, made, r) && Gone(StopsAt(n, true, replies))
    {
      Hear(14, Operation.CommitAck);
      Remember();
      PublishPaced(15, Operation.Committed);
      var heard := Await(4, Operation.Committed);
      if !heard {
        LoseLink(16);
        return EngineResult.Uncertain;
      }
      var promoted := Conclude(peerId);
      r := if promoted then Paired else Persistence;
    }

    /** From COMMIT on. */
    method AfterCommit(ghost stage: Request, peerId: string) returns (r: EngineResult)
      requires stage.Stage? && stage.peerId == peerId && Reached(14)
      requires made == [stage, MarkCommit] && |replies| >= 2 && replies[0] && replies[1]
      modifies this, tx
      ensures var n := 3 + old(Left(3));
              Ends(n, true, replies, stage, made, r) && Gone(StopsAt(n, true, replies))
    {
      var heard := Await(3, Operation.CommitAck);
      if !heard {
        AbortWithDiscard(14, peerId);
        return EngineResult.Aborted;
      }
      r := AfterAck(stage, peerId);
    }

    /** Make the commit decision durable, then send it; otherwise abort. */
    method Decide() returns (ok: bool)
      requires Reached(11)
      modifies tx, this`session, this`made, this`published
      ensures ok == (|replies| > |old(made)| && replies[|old(made)|])
      ensures made == old(made) + (if |replies| > |old(made)| then [MarkCommit] else [])
      ensures if ok then Reached(14) else Gone(11)
    {
      ok := Ask(MarkCommit);
      if !ok {
        AbortLocally(11, Operation.Error);
        return;
      }
      assert Reached(12);
      Note(12, LocalEvent.Commit);
      PublishPaced(13, Operation.Commit);
    }

    /** From the peer's PREPARED on. */
    method AfterPrepared(ghost stage: Request, peerId: string) returns (r: EngineResult)
      requires stage.Stage? && stage.peerId == peerId && Reached(10)
      requires made == [stage] && |replies| >= 1 && replies[0]
      modifies this, tx
      ensures var n := 3 + old(Left(3));
              Ends(n, true, replies, stage, made, r) && Gone(StopsAt(n, true, replies))
    {
      PublishPaced(10, Operation.Prepared);
      var decided := Decide();
      if !decided { return Persistence; }
      r := AfterCommit(stage, peerId);
    }

    /** From durable staging to the commit decision and beyond. */
    method AfterStaging(ghost stage: Request, peerId: string) returns (r: EngineResult)
      requires stage.Stage? && stage.peerId == peerId && Reached(9)
      requires made == [stage] && |replies| >= 1 && replies[0]
      modifies this, tx
      ensures var n := 2 + old(Left(2));
              Ends(n, true, replies, stage, made, r) && Gone(StopsAt(n, true, replies))
    {
      var heard := Await(2, Operation.Prepared);
      if !heard {
        AbortWithDiscard(9, peerId);
        return EngineResult.Aborted;
      }
      Hear(9, Operation.Prepared);
      r := AfterPrepared(stage, peerId);
    }

    /** Our confirmation goes out, then the peer's comes in. */
    method ConfirmBoth() returns (heard: bool)
      requires Reached(4)
      modifies tx, this`inbox, this`published
      ensures old(Left(1)) == if heard then 1 + Left(2) else 0
      ensures Reached(if heard then 7 else 6)
    {
      Note(4, LocalEvent.Confirm);
      PublishPaced(5, Operation.Confirm);
      heard := Await(1, Operation.Confirm);
      if heard { Hear(6, Operation.Confirm); }
    }

    /** From the operator's confirmation to durable staging and beyond. */
    method AfterConfirmation(stage: Request) returns (r: EngineResult)
      requires stage.Stage? && Reached(4) && made == []
      modifies this, tx
      ensures var n := 1 + old(Left(1));
              Ends(n, true, replies, stage, made, r) && Gone(StopsAt(n, true, replies))
    {
      var heard := ConfirmBoth();
      if !heard { return EngineResult.Aborted; }
      var staged := Ask(stage);
      if !staged {
        AbortLocally(7, Operation.Error);
        return Persistence;
      }
      assert Reached(8);
      Note(8, LocalEvent.Prepared);
      r := AfterStaging(stage, stage.peerId);
    }

    /** The peer's capability, then ours, then the verified exchange of keys. */
    method Negotiate()
      requires Reached(1)
      modifies tx, this`session
      ensures Reached(4)
    {
      Hear(1, Operation.Capability);
      Note(2, LocalEvent.Capability);
      Note(3, VerifiedExchange);
      Remember();
    }

    /**
     One attempt is a run of the daemon's script up to where it stops, by how many answers
     arrive in script, the operator and the consumer's replies. That fixes its requests, its
     result, every word it says, the phase it ends in and the status it leaves stored.
     */
    method Drive(accept: bool, stage: Request) returns (r: EngineResult)
      requires stage.Stage? && tx.Value() == New(tx.id, Coordinator)
      requires made == [] && session == None && published == []
      modifies this, tx
      ensures var n := old(Left(0));
              && Ends(n, accept, replies, stage, made, r) && Gone(StopsAt(n, accept, replies))
              && published == Said(n, accept, replies) && tx.phase == EndPhase(n, accept, replies)
              && session == (if n == 0 then None else Some(StatusOf(tx.phase)))
    {
      LeavesExactly(tx.id, Left(0), accept, replies);
      r := RunScript(accept, stage);
    }

    method RunScript(accept: bool, stage: Request) returns (r: EngineResult)
      requires stage.Stage? && Reached(0) && made == []
      modifies this, tx
      ensures var n := old(Left(0));
              Ends(n, accept, replies, stage, made, r) && Gone(StopsAt(n, accept, replies))
    {
      PublishPaced(0, Operation.Capability);
      var heard := Await(0, Operation.Capability);
      if !heard { return EngineResult.Aborted; }
      Negotiate();
      if !accept {
        AbortLocally(4, Operation.Reject);
        return Rejected;
      }
      r := AfterConfirmation(stage);
    }
  }
}
