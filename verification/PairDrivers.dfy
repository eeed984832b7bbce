/**
 The three drivers of the protocol (terminal command, desktop daemon, phone) as instruction
 sequences, and the channel between them: the desktop publishes into a last-value register
 that the phone polls, the phone writes into the desktop's inbox.
 */
module PairDrivers {
  import opened Bytes
  import opened PairTransaction
  import opened PairSystem

  datatype Driver = Terminal | Daemon | Phone

  datatype Instruction =
    | Publish(operation: Operation)
    | Await(operation: Operation)
    | Apply(fact: LocalEvent)
    | Durable(mark: JournalMark)

  function Length(driver: Driver): nat {
    match driver case Terminal => 17 case Daemon => 18 case Phone => 16
  }

  function RoleOf(driver: Driver): Role {
    if driver.Phone? then Participant else Coordinator
  }

  function Code(driver: Driver, pc: nat): Instruction
    requires pc < Length(driver)
  {
    match driver
    case Terminal =>
      if pc == 0 then Durable(CommitPendingMark)
      else if pc == 1 then Publish(Operation.Capability)
      else if pc == 2 then Await(Operation.Capability)
      else if pc == 3 then Apply(LocalEvent.Capability)
      else if pc == 4 then Apply(VerifiedExchange)
      else if pc == 5 then Apply(LocalEvent.Confirm)
      else if pc == 6 then Publish(Operation.Confirm)
      else if pc == 7 then Await(Operation.Confirm)
      else if pc == 8 then Apply(LocalEvent.Prepared)
      else if pc == 9 then Publish(Operation.Prepared)
      else if pc == 10 then Await(Operation.Prepared)
      else if pc == 11 then Apply(LocalEvent.Commit)
      else if pc == 12 then Publish(Operation.Commit)
      else if pc == 13 then Await(Operation.CommitAck)
      else if pc == 14 then Publish(Operation.Committed)
      else if pc == 15 then Await(Operation.Committed)
      else Apply(LocalEvent.Committed)
    case Daemon =>
      if pc == 0 then Publish(Operation.Capability)
      else if pc == 1 then Await(Operation.Capability)
      else if pc == 2 then Apply(LocalEvent.Capability)
      else if pc == 3 then Apply(VerifiedExchange)
      else if pc == 4 then Apply(LocalEvent.Confirm)
      else if pc == 5 then Publish(Operation.Confirm)
      else if pc == 6 then Await(Operation.Confirm)
      else if pc == 7 then Durable(PreCommitMark)
      else if pc == 8 then Apply(LocalEvent.Prepared)
      else if pc == 9 then Await(Operation.Prepared)
      else if pc == 10 then Publish(Operation.Prepared)
      else if pc == 11 then Durable(CommitPendingMark)
      else if pc == 12 then Apply(LocalEvent.Commit)
      else if pc == 13 then Publish(Operation.Commit)
      else if pc == 14 then Await(Operation.CommitAck)
      else if pc == 15 then Publish(Operation.Committed)
      else if pc == 16 then Await(Operation.Committed)
      else Apply(LocalEvent.Committed)
    case Phone =>
      if pc == 0 then Await(Operation.Capability)
      else if pc == 1 then Publish(Operation.Capability)
      else if pc == 2 then Apply(LocalEvent.Capability)
      else if pc == 3 then Apply(VerifiedExchange)
      else if pc == 4 then Apply(LocalEvent.Confirm)
      else if pc == 5 then Publish(Operation.Confirm)
      else if pc == 6 then Await(Operation.Confirm)
      else if pc == 7 then Apply(LocalEvent.Prepared)
      else if pc == 8 then Publish(Operation.Prepared)
      else if pc == 9 then Await(Operation.Prepared)
      else if pc == 10 then Await(Operation.Commit)
      else if pc == 11 then Apply(LocalEvent.CommitAck)
      else if pc == 12 then Publish(Operation.CommitAck)
      else if pc == 13 then Await(Operation.Committed)
      else if pc == 14 then Apply(LocalEvent.Committed)
      else Publish(Operation.Committed)
  }

  /** The link: two program counters, the register the phone polls, the desktop's inbox. */
  datatype Link = Link(desktop: nat, phone: nat,
                       register: seq<Operation>, unread: bool,
                       inbox: seq<Operation>, overwritten: bool)

  const IDLE := Link(0, 0, [], false, [], false)

  predicate DesktopCan(driver: Driver, l: Link)
    requires !driver.Phone?
  {
    l.desktop < Length(driver) &&
    (Code(driver, l.desktop).Await? ==> l.inbox != [] && l.inbox[0] == Code(driver, l.desktop).operation)
  }

  function DesktopStep(driver: Driver, l: Link): Link
    requires !driver.Phone? && DesktopCan(driver, l)
  {
    var next := l.(desktop := l.desktop + 1);
    match Code(driver, l.desktop)
    case Publish(op) => next.(register := [op], unread := true, overwritten := l.overwritten || l.unread)
    case Await(_) => next.(inbox := l.inbox[1..])
    case _ => next
  }

  /** The phone polls until the register shows what it waits for; every poll clears `unread`. */
  predicate PhoneSees(l: Link) {
    l.phone < Length(Phone) && (Code(Phone, l.phone).Await? ==> l.register == [Code(Phone, l.phone).operation])
  }

  function PhoneStep(l: Link): Link
    requires l.phone < Length(Phone)
  {
    var next := l.(phone := l.phone + 1);
    match Code(Phone, l.phone)
    case Publish(op) => next.(inbox := l.inbox + [op])
    case Await(_) => if PhoneSees(l) then next.(unread := false) else l.(unread := false)
    case _ => next
  }

  ghost predicate Moves(driver: Driver, l: Link, l': Link)
    requires !driver.Phone?
  {
    || (DesktopCan(driver, l) && l' == DesktopStep(driver, l))
    || (l.phone < Length(Phone) && l' == PhoneStep(l))
  }

  ghost predicate Pairing(driver: Driver, run: seq<Link>)
    requires !driver.Phone?
  {
    |run| > 0 && run[0] == IDLE && forall i :: 0 < i < |run| ==> Moves(driver, run[i - 1], run[i])
  }

  // ---------------------------------------------------------------------------------------
  // Where a driver stands
  // ---------------------------------------------------------------------------------------

  /** Publications made before `pc`. */
  function Published(driver: Driver, pc: nat): nat {
    match driver
    case Terminal =>
      if pc < 2 then 0 else if pc < 7 then 1 else if pc < 10 then 2
      else if pc < 13 then 3 else if pc < 15 then 4 else 5
    case Daemon =>
      if pc < 1 then 0 else if pc < 6 then 1 else if pc < 11 then 2
      else if pc < 14 then 3 else if pc < 16 then 4 else 5
    case Phone =>
      if pc < 2 then 0 else if pc < 6 then 1 else if pc < 9 then 2
      else if pc < 13 then 3 else if pc < 16 then 4 else 5
  }

  /** Peer operations taken before `pc`. */
  function Awaited(driver: Driver, pc: nat): nat {
    match driver
    case Terminal =>
      if pc < 3 then 0 else if pc < 8 then 1 else if pc < 11 then 2
      else if pc < 14 then 3 else if pc < 16 then 4 else 5
    case Daemon =>
      if pc < 2 then 0 else if pc < 7 then 1 else if pc < 10 then 2
      else if pc < 15 then 3 else if pc < 17 then 4 else 5
    case Phone =>
      if pc < 1 then 0 else if pc < 7 then 1 else if pc < 10 then 2
      else if pc < 11 then 3 else if pc < 14 then 4 else 5
  }

  /** Events of the full exchange applied to the driver's transaction before `pc`. */
  function Exchanged(driver: Driver, pc: nat): (n: nat)
    ensures n <= 11
  {
    match driver
    case Terminal => if pc < 3 then 0 else if pc < 7 then pc - 2 else if pc < 8 then 4 else if pc < 9 then 5
                     else if pc < 11 then 6 else if pc < 12 then 7 else if pc < 14 then 8 else if pc < 16 then 9
                     else if pc < 17 then 10 else 11
    case Daemon => if pc < 2 then 0 else if pc < 6 then pc - 1 else if pc < 7 then 4 else if pc < 9 then 5
                   else if pc < 10 then 6 else if pc < 13 then 7 else if pc < 15 then 8 else if pc < 17 then 9
                   else if pc < 18 then 10 else 11
    case Phone => if pc < 1 then 0 else if pc < 3 then 1 else if pc < 6 then pc - 1 else if pc < 7 then 4
                  else if pc < 8 then 5 else if pc < 10 then 6 else if pc < 11 then 7 else if pc < 12 then 8
                  else if pc < 14 then 9 else if pc < 15 then 10 else 11
  }

  function Marked(driver: Driver, pc: nat): JournalMark {
    match driver
    case Terminal => if pc < 1 then NoJournal else CommitPendingMark
    case Daemon => if pc < 8 then NoJournal else if pc < 12 then PreCommitMark else CommitPendingMark
    case Phone => NoJournal
  }

  /** What the desktop says, in order, and what the phone says, in order. */
  function Utterance(role: Role, k: nat): Operation {
    if k == 0 then Operation.Capability else if k == 1 then Operation.Confirm
    else if k == 2 then Operation.Prepared
    else if k == 3 then (if role.Coordinator? then Operation.Commit else Operation.CommitAck)
    else Operation.Committed
  }

  function Peer(driver: Driver): Role { if driver.Phone? then Coordinator else Participant }

  lemma CodeCounts(driver: Driver, pc: nat)
    requires pc < Length(driver)
    ensures var c := Code(driver, pc);
            && Published(driver, pc + 1) == Published(driver, pc) + (if c.Publish? then 1 else 0) <= 5
            && Awaited(driver, pc + 1) == Awaited(driver, pc) + (if c.Await? then 1 else 0) <= 5
            && (c.Publish? ==> c.operation == Utterance(RoleOf(driver), Published(driver, pc)))
            && (c.Await? ==> c.operation == Utterance(Peer(driver), Awaited(driver, pc)))
            && Marked(driver, pc + 1) == (if c.Durable? then c.mark else Marked(driver, pc))
  {}

  // ---------------------------------------------------------------------------------------
  // The channel
  // ---------------------------------------------------------------------------------------

  function Lag(driver: Driver, l: Link): int {
    Published(driver, l.desktop) - Awaited(Phone, l.phone)
  }

  /**
   The inbox holds exactly what the phone said and the desktop has not taken; the register
   holds the desktop's last word, which is the one the phone waits for unless it was
   overwritten.
   */
  predicate ChannelInv(driver: Driver, l: Link)
    requires !driver.Phone?
  {
    var said, taken := Published(Phone, l.phone), Awaited(driver, l.desktop);
    var words := Published(driver, l.desktop);
    && l.desktop <= Length(driver) && l.phone <= Length(Phone)
    && taken <= said && |l.inbox| == said - taken
    && (forall k :: 0 <= k < |l.inbox| ==> l.inbox[k] == Utterance(Participant, taken + k))
    && l.register == (if words == 0 then [] else [Utterance(Coordinator, words - 1)])
    && (!l.overwritten ==> 0 <= Lag(driver, l) <= 1 && l.unread == (Lag(driver, l) == 1))
    && (l.overwritten ==> Lag(driver, l) >= 2)
  }

  lemma DesktopKeepsChannel(driver: Driver, l: Link)
    requires !driver.Phone? && ChannelInv(driver, l) && DesktopCan(driver, l)
    ensures ChannelInv(driver, DesktopStep(driver, l))
  {
    CodeCounts(driver, l.desktop);
  }

  lemma PhoneReadKeepsChannel(driver: Driver, l: Link)
    requires !driver.Phone? && ChannelInv(driver, l) && l.phone < Length(Phone) && !Code(Phone, l.phone).Publish?
    ensures ChannelInv(driver, PhoneStep(l))
  {
    CodeCounts(Phone, l.phone);
  }

  lemma PhoneKeepsChannel(driver: Driver, l: Link)
    requires !driver.Phone? && ChannelInv(driver, l) && l.phone < Length(Phone)
    ensures ChannelInv(driver, PhoneStep(l))
  {
    if !Code(Phone, l.phone).Publish? {
      PhoneReadKeepsChannel(driver, l);
    }
  }

  lemma {:induction false} PairingKeepsChannel(driver: Driver, run: seq<Link>, i: nat)
    requires !driver.Phone? && Pairing(driver, run) && i < |run|
    ensures ChannelInv(driver, run[i])
  {
    if i > 0 {
      PairingKeepsChannel(driver, run, i - 1);
      var l := run[i - 1];
      assert Moves(driver, l, run[i]);
      if DesktopCan(driver, l) && run[i] == DesktopStep(driver, l) {
        DesktopKeepsChannel(driver, l);
      } else {
        PhoneKeepsChannel(driver, l);
      }
    }
  }

  predicate Finished(driver: Driver, l: Link) {
    l.desktop == Length(driver) && l.phone == Length(Phone)
  }

  /**
   As long as the desktop never published over an unread message, the two drivers cannot
   block each other: unless both are done, one of them can take its next instruction.
   */
  lemma NoDeadlock(driver: Driver, run: seq<Link>, i: nat)
    requires !driver.Phone? && Pairing(driver, run) && i < |run|
    requires !run[i].overwritten && !Finished(driver, run[i])
    ensures DesktopCan(driver, run[i]) || PhoneSees(run[i])
  {
    var l := run[i];
    PairingKeepsChannel(driver, run, i);
    if !DesktopCan(driver, l) && !PhoneSees(l) {
      if l.desktop < Length(driver) { CodeCounts(driver, l.desktop); }
      if l.phone < Length(Phone) { CodeCounts(Phone, l.phone); }
    }
  }

  /** A pairing completes only if no message was ever overwritten unread. */
  lemma CompletionNeedsEveryMessage(driver: Driver, run: seq<Link>, i: nat, j: nat)
    requires !driver.Phone? && Pairing(driver, run) && i <= j < |run|
    requires Finished(driver, run[j])
    ensures !run[i].overwritten
  {
    PairingKeepsChannel(driver, run, j);
    OverwrittenIsForever(driver, run, i, j);
  }

  lemma {:induction false} OverwrittenIsForever(driver: Driver, run: seq<Link>, i: nat, j: nat)
    requires !driver.Phone? && Pairing(driver, run) && i <= j < |run|
    ensures run[i].overwritten ==> run[j].overwritten
    decreases j
  {
    if i < j {
      OverwrittenIsForever(driver, run, i, j - 1);
      assert Moves(driver, run[j - 1], run[j]);
    }
  }

  /** Pacing: a publication waits until the phone has read the previous one. */
  predicate Paced(driver: Driver, l: Link)
    requires !driver.Phone?
  {
    l.desktop < Length(driver) && Code(driver, l.desktop).Publish? ==> !l.unread
  }

  /** The step to `run[k]` is a publication that did not wait. */
  predicate Hasty(driver: Driver, run: seq<Link>, k: nat)
    requires !driver.Phone? && 0 < k < |run|
  {
    run[k].desktop != run[k - 1].desktop && !Paced(driver, run[k - 1])
  }

  /** A message is lost exactly if some publication did not wait for the previous one to be read. */
  lemma {:induction false} PacingIsLossless(driver: Driver, run: seq<Link>, i: nat)
    requires !driver.Phone? && Pairing(driver, run) && i < |run|
    ensures run[i].overwritten <==> exists k :: 0 < k <= i && Hasty(driver, run, k)
  {
    if i > 0 {
      PacingIsLossless(driver, run, i - 1);
      assert Moves(driver, run[i - 1], run[i]);
      if Hasty(driver, run, i) {
        assert run[i].overwritten;
      } else if k :| 0 < k <= i && Hasty(driver, run, k) {
        assert k <= i - 1;
      }
    }
  }

  /** What a script can lose: the terminal command CONFIRM or PREPARED, the daemon PREPARED to its COMMIT. */
  predicate CanBeLost(driver: Driver, op: Operation) {
    op.Prepared? || (driver.Terminal? && op.Confirm?)
  }

  lemma LostAt(driver: Driver, l: Link)
    requires !driver.Phone? && ChannelInv(driver, l) && DesktopCan(driver, l) && !l.overwritten && !Paced(driver, l)
    ensures |l.register| == 1 && CanBeLost(driver, l.register[0])
  {
    CodeCounts(driver, l.desktop);
  }

  lemma LostOnHaste(driver: Driver, l: Link, l': Link)
    requires !driver.Phone? && Moves(driver, l, l') && l'.overwritten && !l.overwritten
    ensures DesktopCan(driver, l) && !Paced(driver, l)
  {}

  /** The first message a pairing loses is one of these. */
  lemma LostExactly(driver: Driver, run: seq<Link>, i: nat)
    requires !driver.Phone? && Pairing(driver, run) && 0 < i < |run|
    requires run[i].overwritten && !run[i - 1].overwritten
    ensures |run[i - 1].register| == 1 && CanBeLost(driver, run[i - 1].register[0])
  {
    var l := run[i - 1];
    PairingKeepsChannel(driver, run, i - 1);
    assert Moves(driver, l, run[i]);
    LostOnHaste(driver, l, run[i]);
    LostAt(driver, l);
  }

  /** Pacing never blocks for good: if only pacing holds the desktop back, the phone can read. */
  lemma PacingDoesNotBlock(driver: Driver, run: seq<Link>, i: nat)
    requires !driver.Phone? && Pairing(driver, run) && i < |run|
    requires !run[i].overwritten && !Paced(driver, run[i])
    ensures PhoneSees(run[i])
  {
    var l := run[i];
    PairingKeepsChannel(driver, run, i);
    CodeCounts(driver, l.desktop);
    assert Awaited(Phone, l.phone) < 5;
    assert l.phone < Length(Phone);
    CodeCounts(Phone, l.phone);
  }

  lemma Extend(driver: Driver, run: seq<Link>, l: Link)
    requires !driver.Phone? && Pairing(driver, run) && Moves(driver, run[|run| - 1], l)
    ensures Pairing(driver, run + [l])
  {}

  /** From every state whose channel is still lossless, the pairing can be completed. */
  lemma {:induction false} CanComplete(driver: Driver, run: seq<Link>) returns (longer: seq<Link>)
    requires !driver.Phone? && Pairing(driver, run) && !run[|run| - 1].overwritten
    ensures Pairing(driver, longer) && run <= longer && Finished(driver, longer[|longer| - 1])
    decreases Length(driver) + Length(Phone) - run[|run| - 1].desktop - run[|run| - 1].phone
  {
    var last := |run| - 1;
    var l := run[last];
    PairingKeepsChannel(driver, run, last);
    if Finished(driver, l) { return run; }
    if PhoneSees(l) {
      Extend(driver, run, PhoneStep(l));
      longer := CanComplete(driver, run + [PhoneStep(l)]);
    } else {
      NoDeadlock(driver, run, last);
      if !Paced(driver, l) { PacingDoesNotBlock(driver, run, last); }
      Extend(driver, run, DesktopStep(driver, l));
      longer := CanComplete(driver, run + [DesktopStep(driver, l)]);
    }
  }

  /** No continuation of the run completes. */
  ghost predicate Lost(driver: Driver, run: seq<Link>)
    requires !driver.Phone?
  {
    forall longer, j: nat :: Pairing(driver, longer) && run <= longer && |run| <= j + 1 && j < |longer| ==>
                          !Finished(driver, longer[j])
  }

  lemma OverwrittenIsLost(driver: Driver, run: seq<Link>)
    requires !driver.Phone? && Pairing(driver, run) && run[|run| - 1].overwritten
    ensures Lost(driver, run)
  {
    forall longer, j: nat | Pairing(driver, longer) && run <= longer && |run| <= j + 1 && j < |longer|
      ensures !Finished(driver, longer[j])
    {
      assert longer[|run| - 1] == run[|run| - 1];
      if Finished(driver, longer[j]) {
        CompletionNeedsEveryMessage(driver, longer, |run| - 1, j);
      }
    }
  }

  /** A run of the terminal's script that loses CONFIRM, state by state. */
  function UnpacedLink(i: nat): Link {
    Link(if i < 2 then i else if i < 8 then 2 else i - 6,
         if i < 2 then 0 else if i < 8 then i - 2 else 6,
         if i < 2 then [] else if i < 13 then [Operation.Capability]
         else if i < 16 then [Operation.Confirm] else [Operation.Prepared],
         i == 2 || i >= 13,
         if i < 4 || i >= 14 then [] else if i < 8 then [Operation.Capability]
         else if i == 8 then [Operation.Capability, Operation.Confirm] else [Operation.Confirm],
         i == 16)
  }

  lemma UnpacedStep(i: nat)
    requires i < 16
    ensures Moves(Terminal, UnpacedLink(i), UnpacedLink(i + 1))
  {
    var l := UnpacedLink(i);
    if i < 2 || i >= 8 {
      assert DesktopCan(Terminal, l) && DesktopStep(Terminal, l) == UnpacedLink(i + 1);
    } else {
      assert PhoneStep(l) == UnpacedLink(i + 1);
    }
  }

  /**
   The terminal command publishes without pacing, and PREPARED may overwrite an unread
   CONFIRM; the phone then waits for CONFIRM for ever.
   */
  lemma TerminalCanLoseConfirm() returns (run: seq<Link>)
    ensures Pairing(Terminal, run) && |run| > 1 && run[|run| - 1].overwritten
    ensures run[|run| - 2].register == [Operation.Confirm]
    ensures Lost(Terminal, run)
  {
    run := seq(17, i requires 0 <= i => UnpacedLink(i));
    forall k | 0 < k < |run| ensures Moves(Terminal, run[k - 1], run[k]) { UnpacedStep(k - 1); }
    OverwrittenIsLost(Terminal, run);
  }

  /** A run of the daemon's script that loses PREPARED, state by state. */
  function LosingLink(i: nat): Link {
    Link(if i == 0 then 0 else if i < 8 then 1 else if i < 16 then i - 6 else if i < 19 then 9 else i - 9,
         if i < 2 then 0 else if i < 8 then i - 1 else if i < 16 then 6 else if i < 19 then i - 9 else 9,
         if i == 0 then [] else if i < 12 then [Operation.Capability] else if i < 20 then [Operation.Confirm]
         else if i < 23 then [Operation.Prepared] else [Operation.Commit],
         i == 1 || 12 <= i < 16 || i >= 20,
         if i < 3 || 13 <= i < 18 || i >= 19 then [] else if i < 7 then [Operation.Capability]
         else if i == 7 then [Operation.Capability, Operation.Confirm]
         else if i < 13 then [Operation.Confirm] else [Operation.Prepared],
         i == 23)
  }

  lemma LosingStep(i: nat)
    requires i < 23
    ensures Moves(Daemon, LosingLink(i), LosingLink(i + 1))
    ensures i < 22 && LosingLink(i + 1).desktop != LosingLink(i).desktop ==> Paced(Daemon, LosingLink(i))
  {
    var l := LosingLink(i);
    if i == 0 || 7 <= i < 15 || i >= 18 {
      assert DesktopCan(Daemon, l) && DesktopStep(Daemon, l) == LosingLink(i + 1);
    } else {
      assert PhoneStep(l) == LosingLink(i + 1);
    }
  }

  /**
   The daemon publishes anyway once it has waited long enough, and COMMIT may then overwrite
   an unread PREPARED: with that one publication that did not wait, nothing completes.
   */
  lemma DaemonCanLosePrepared() returns (run: seq<Link>)
    ensures Pairing(Daemon, run) && |run| > 1 && run[|run| - 1].overwritten
    ensures run[|run| - 2].register == [Operation.Prepared]
    ensures Lost(Daemon, run)
    ensures forall k :: 0 < k < |run| - 1 ==> !Hasty(Daemon, run, k)
  {
    run := seq(24, i requires 0 <= i => LosingLink(i));
    forall k | 0 < k < |run|
      ensures Moves(Daemon, run[k - 1], run[k]) && (k < |run| - 1 ==> !Hasty(Daemon, run, k))
    {
      LosingStep(k - 1);
    }
    OverwrittenIsLost(Daemon, run);
  }

  // ---------------------------------------------------------------------------------------
  // The drivers refine the protocol
  // ---------------------------------------------------------------------------------------

  /** `s` is the protocol state the link `l` stands for. */
  ghost predicate Represents(driver: Driver, id: TransactionId, l: Link, s: System)
  {
    && !s.recovered && s.mark == Marked(driver, l.desktop)
    && s.desktop == ExchangePoint(id, Coordinator, Exchanged(driver, l.desktop))
    && s.phone == ExchangePoint(id, Participant, Exchanged(Phone, l.phone))
    && (forall k :: 0 <= k < Published(driver, l.desktop) ==>
          Sent(Coordinator, Message(id, Utterance(Coordinator, k))) in s.sent)
    && (forall k :: 0 <= k < Published(Phone, l.phone) ==>
          Sent(Participant, Message(id, Utterance(Participant, k))) in s.sent)
  }

  lemma DesktopProgramSends(driver: Driver, id: TransactionId, l: Link, s: System)
    requires !driver.Phone? && ChannelInv(driver, l) && Represents(driver, id, l, s) && DesktopCan(driver, l)
    requires Code(driver, l.desktop).Publish?
    ensures var a := Send(Coordinator, Code(driver, l.desktop).operation);
            Enabled(s, a) && Represents(driver, id, DesktopStep(driver, l), Next(s, a))
  {
    CodeCounts(driver, l.desktop);
  }

  lemma DesktopProgramHears(driver: Driver, id: TransactionId, l: Link, s: System)
    requires !driver.Phone? && ChannelInv(driver, l) && Represents(driver, id, l, s) && DesktopCan(driver, l)
    requires Code(driver, l.desktop).Await?
    ensures var a := DesktopReceives(Message(id, Code(driver, l.desktop).operation));
            Enabled(s, a) && Represents(driver, id, DesktopStep(driver, l), Next(s, a))
  {
    CodeCounts(driver, l.desktop);
    ExchangeAdvances(id, Coordinator, Exchanged(driver, l.desktop));
    assert l.inbox[0] == Utterance(Participant, Awaited(driver, l.desktop));
  }

  lemma DesktopProgramNotes(driver: Driver, id: TransactionId, l: Link, s: System)
    requires !driver.Phone? && ChannelInv(driver, l) && Represents(driver, id, l, s) && DesktopCan(driver, l)
    requires Code(driver, l.desktop).Apply?
    ensures var a := DesktopFact(Code(driver, l.desktop).fact);
            Enabled(s, a) && Represents(driver, id, DesktopStep(driver, l), Next(s, a))
  {
    CodeCounts(driver, l.desktop);
    ExchangeAdvances(id, Coordinator, Exchanged(driver, l.desktop));
  }

  lemma DesktopRefines(driver: Driver, id: TransactionId, l: Link, s: System) returns (a: Action)
    requires !driver.Phone? && ChannelInv(driver, l) && Represents(driver, id, l, s) && DesktopCan(driver, l)
    ensures Enabled(s, a) && Represents(driver, id, DesktopStep(driver, l), Next(s, a))
  {
    match Code(driver, l.desktop)
    case Publish(op) => DesktopProgramSends(driver, id, l, s); a := Send(Coordinator, op);
    case Await(op) => DesktopProgramHears(driver, id, l, s); a := DesktopReceives(Message(id, op));
    case Apply(e) => DesktopProgramNotes(driver, id, l, s); a := DesktopFact(e);
    case Durable(mark) => a := WriteMark(mark);
  }

  lemma PhoneProgramSends(driver: Driver, id: TransactionId, l: Link, s: System)
    requires !driver.Phone? && ChannelInv(driver, l) && Represents(driver, id, l, s) && PhoneSees(l)
    requires Code(Phone, l.phone).Publish?
    ensures var a := Send(Participant, Code(Phone, l.phone).operation);
            Enabled(s, a) && Represents(driver, id, PhoneStep(l), Next(s, a))
  {
    CodeCounts(Phone, l.phone);
  }

  lemma PhoneProgramHears(driver: Driver, id: TransactionId, l: Link, s: System)
    requires !driver.Phone? && ChannelInv(driver, l) && Represents(driver, id, l, s) && PhoneSees(l)
    requires Code(Phone, l.phone).Await?
    ensures var a := PhoneReceives(Message(id, Code(Phone, l.phone).operation));
            Enabled(s, a) && Represents(driver, id, PhoneStep(l), Next(s, a))
  {
    CodeCounts(Phone, l.phone);
    ExchangeAdvances(id, Participant, Exchanged(Phone, l.phone));
    assert l.register[0] == Utterance(Coordinator, Published(driver, l.desktop) - 1);
  }

  lemma PhoneProgramNotes(driver: Driver, id: TransactionId, l: Link, s: System)
    requires !driver.Phone? && ChannelInv(driver, l) && Represents(driver, id, l, s) && PhoneSees(l)
    requires Code(Phone, l.phone).Apply?
    ensures var a := PhoneFact(Code(Phone, l.phone).fact);
            Enabled(s, a) && Represents(driver, id, PhoneStep(l), Next(s, a))
  {
    CodeCounts(Phone, l.phone);
    ExchangeAdvances(id, Participant, Exchanged(Phone, l.phone));
  }

  lemma PhoneRefines(driver: Driver, id: TransactionId, l: Link, s: System) returns (a: Action)
    requires !driver.Phone? && ChannelInv(driver, l) && Represents(driver, id, l, s) && PhoneSees(l)
    ensures Enabled(s, a) && Represents(driver, id, PhoneStep(l), Next(s, a))
  {
    match Code(Phone, l.phone)
    case Publish(op) => PhoneProgramSends(driver, id, l, s); a := Send(Participant, op);
    case Await(op) => PhoneProgramHears(driver, id, l, s); a := PhoneReceives(Message(id, op));
    case Apply(e) => PhoneProgramNotes(driver, id, l, s); a := PhoneFact(e);
  }

  lemma MoveRefines(driver: Driver, id: TransactionId, l: Link, l': Link, history: seq<System>)
    returns (longer: seq<System>)
    requires !driver.Phone? && ChannelInv(driver, l) && Moves(driver, l, l')
    requires History(id, history) && Represents(driver, id, l, history[|history| - 1])
    ensures History(id, longer) && Represents(driver, id, l', longer[|longer| - 1])
  {
    var s := history[|history| - 1];
    if DesktopCan(driver, l) && l' == DesktopStep(driver, l) {
      var a := DesktopRefines(driver, id, l, s);
      longer := Prolong(id, history, a);
    } else if PhoneSees(l) {
      var a := PhoneRefines(driver, id, l, s);
      longer := Prolong(id, history, a);
    } else {
      longer := history;
    }
  }

  /** Every run of the drivers over the link is a history of the protocol. */
  lemma {:induction false} DriversRefineProtocol(driver: Driver, id: TransactionId, run: seq<Link>, i: nat)
    returns (history: seq<System>)
    requires !driver.Phone? && Pairing(driver, run) && i < |run|
    ensures History(id, history) && Represents(driver, id, run[i], history[|history| - 1])
  {
    if i == 0 {
      history := [Start(id)];
    } else {
      history := DriversRefineProtocol(driver, id, run, i - 1);
      PairingKeepsChannel(driver, run, i - 1);
      assert Moves(driver, run[i - 1], run[i]);
      history := MoveRefines(driver, id, run[i - 1], run[i], history);
    }
  }

  lemma Prolong(id: TransactionId, history: seq<System>, a: Action) returns (longer: seq<System>)
    requires History(id, history) && Enabled(history[|history| - 1], a)
    ensures History(id, longer) && longer == history + [Next(history[|history| - 1], a)]
  {
    longer := history + [Next(history[|history| - 1], a)];
    forall i | 0 < i < |longer| ensures Follows(longer[i - 1], longer[i]) {
      if i < |history| { assert longer[i - 1] == history[i - 1] && longer[i] == history[i]; }
    }
  }

  /** The pairing both sides are meant to have: with either desktop driver both can end bonded. */
  lemma BothCanBond(driver: Driver, id: TransactionId) returns (history: seq<System>)
    requires !driver.Phone?
    ensures History(id, history)
    ensures var s := history[|history| - 1]; s.desktop.phase.Bonded? && s.phone.phase.Bonded?
  {
    var run := CanComplete(driver, [IDLE]);
    history := DriversRefineProtocol(driver, id, run, |run| - 1);
  }
}
