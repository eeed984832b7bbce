/**
 The drivers over the link when things go wrong: status answers that take the register,
 refusals, aborts, lost links, discarded staging, a desktop that dies and recovers from its
 journal, and reconciliation with answers that may be old.
 */
module PairFaults {
  import opened Bytes
  import opened PairTransaction
  import opened PairSystem
  import opened PairDrivers
  import opened PairAsking

  /**
   Both sides with the link between them. A side that is no longer up has left its program.
   `snapshot` is the status the daemon last stored for its answers; the two sets hold the
   statuses each side has answered with.
   */
  datatype Session = Session(link: Link, desktop: Tx, phone: Tx, desktopUp: bool, phoneUp: bool,
                             mark: JournalMark, recovered: bool, snapshot: Option<StatusState>,
                             desktopSaid: set<StatusState>, phoneSaid: set<StatusState>)

  function Opening(id: TransactionId): Session {
    Session(IDLE, New(id, Coordinator), New(id, Participant), true, true, NoJournal, false, None, {}, {})
  }

  datatype Move =
    | DesktopRuns
    | PhoneRuns
    | DesktopAnswers
    | PhoneAnswers
    | DesktopStops
    | DesktopHeeds
    | DesktopDies
    | PhoneStops(word: Option<Operation>)
    | PhoneHeeds
    | StagingDiscarded
    | DesktopRecovers(lost: bool)
    | DesktopAsks(reply: StatusMessage, nonce: u64)
    | DesktopCloses
    | PhoneAsks(reply: StatusMessage, nonce: u64)

  predicate AtWait(driver: Driver, pc: nat) {
    pc < Length(driver) && Code(driver, pc).Await?
  }

  /**
   What a desktop script that breaks off at `pc` applies to its transaction and says: the
   daemon on a refusal of its operator, on a failed request and at its later waits, the
   terminal command at every wait that runs out.
   */
  function Leaving(driver: Driver, pc: nat): (Option<LocalEvent>, Option<Operation>) {
    match driver
    case Daemon =>
      if pc == 4 then (Some(LocalEvent.Abort(Operation.Reject)), Some(Operation.Reject))
      else if pc == 7 || pc == 9 || pc == 11 || pc == 14 then
        (Some(LocalEvent.Abort(Operation.Error)), Some(Operation.Error))
      else if pc >= 16 then (Some(LocalEvent.Disconnected), None)
      else (None, None)
    case Terminal => if AtWait(Terminal, pc) then (Some(LocalEvent.Disconnected), None) else (None, None)
    case Phone => (None, None)
  }

  /** Where the daemon stores its status. */
  predicate Remembers(driver: Driver, pc: nat) {
    driver.Daemon? && (pc == 3 || pc == 14 || pc == 17)
  }

  /** An answer about this attempt is one the other side gave at some time, or says that it knows nothing. */
  predicate Answers(reply: StatusMessage, id: TransactionId, said: set<StatusState>) {
    reply.Response? && reply.transaction == id ==> reply.state in said || reply.state.Unknown?
  }

  /** What the desktop answers now: the terminal command its status, the daemon the stored one. */
  function Answer(driver: Driver, x: Session): Option<StatusState> {
    match driver
    case Daemon => x.snapshot
    case Terminal => if x.desktopUp then Some(StatusOf(x.desktop.phase)) else None
    case Phone => None
  }

  /** The phone never asks about a transaction it knows to be aborted: its bytes are not restored. */
  predicate Possible(driver: Driver, x: Session, m: Move)
    requires !driver.Phone?
  {
    match m
    case DesktopRuns => x.desktopUp && DesktopCan(driver, x.link)
    case PhoneRuns => x.phoneUp && x.link.phone < Length(Phone)
    case DesktopAnswers => Answer(driver, x).Some?
    case PhoneAnswers => true
    case DesktopStops => x.desktopUp && x.link.desktop < Length(driver)
    case DesktopHeeds =>
      x.desktopUp && AtWait(driver, x.link.desktop) && x.link.inbox != [] && IsAbort(x.link.inbox[0])
    case DesktopDies => x.desktopUp
    case PhoneStops(word) => x.phoneUp && (word.Some? ==> word.value.Cancel? || word.value.Reject?)
    case PhoneHeeds => x.phoneUp && AtWait(Phone, x.link.phone) && x.link.register != [] && IsAbort(x.link.register[0])
    case StagingDiscarded => !x.desktopUp
    case DesktopRecovers(lost) => x.mark != NoJournal && (x.desktopUp ==> lost)
    case DesktopAsks(reply, _) => x.recovered && Answers(reply, x.phone.id, x.phoneSaid)
    case DesktopCloses => x.recovered
    case PhoneAsks(reply, _) =>
      !x.phoneUp && !x.phone.phase.Aborted? && Answers(reply, x.desktop.id, x.desktopSaid)
  }

  /** The event an instruction applies to its side's transaction. */
  function Applied(t: Tx, c: Instruction): Tx {
    match c
    case Await(op) => Step(t, Wire(Message(t.id, op)))
    case Apply(fact) => Step(t, Fact(fact))
    case _ => t
  }

  /** The desktop's next instruction, up to what the daemon stores of it. */
  function Ran(driver: Driver, x: Session): Session
    requires !driver.Phone? && DesktopCan(driver, x.link)
  {
    var c := Code(driver, x.link.desktop);
    x.(link := DesktopStep(driver, x.link), desktop := Applied(x.desktop, c),
       mark := if c.Durable? then c.mark else x.mark)
  }

  /** The desktop breaks off its script where it stands. */
  function Left(driver: Driver, x: Session): Session {
    var (event, word) := Leaving(driver, x.link.desktop);
    var t := if event.Some? then Step(x.desktop, Fact(event.value)) else x.desktop;
    x.(desktopUp := false, desktop := t,
       snapshot := if driver.Daemon? && event.Some? then Some(StatusOf(t.phase)) else x.snapshot,
       link := if word.Some? then x.link.(register := [word.value], unread := true) else x.link)
  }

  function AsSeq<T>(o: Option<T>): seq<T> { if o.Some? then [o.value] else [] }

  function Emptied(l: Link): Link { l.(register := [], inbox := []) }

  function After(driver: Driver, x: Session, m: Move): Session
    requires !driver.Phone? && Possible(driver, x, m)
  {
    var l := x.link;
    match m
    case DesktopRuns =>
      var y := Ran(driver, x);
      if Remembers(driver, l.desktop) then y.(snapshot := Some(StatusOf(y.desktop.phase))) else y
    case PhoneRuns =>
      x.(link := PhoneStep(l), phone := if PhoneSees(l) then Applied(x.phone, Code(Phone, l.phone)) else x.phone)
    case DesktopAnswers =>
      x.(link := l.(register := [], unread := true), desktopSaid := x.desktopSaid + {Answer(driver, x).value})
    case PhoneAnswers => x.(phoneSaid := x.phoneSaid + {StatusOf(x.phone.phase)})
    case DesktopStops => Left(driver, x)
    case DesktopHeeds =>
      var y := if driver.Daemon? then Left(driver, x)
               else x.(desktopUp := false, desktop := Step(x.desktop, Wire(Message(x.desktop.id, l.inbox[0]))));
      y.(link := y.link.(inbox := l.inbox[1..]))
    case DesktopDies => x.(desktopUp := false, snapshot := None, link := Emptied(l))
    case PhoneStops(word) => x.(phoneUp := false, link := l.(inbox := l.inbox + AsSeq(word)))
    case PhoneHeeds => x.(phoneUp := false, link := l.(unread := false))
    case StagingDiscarded => x.(mark := NoJournal)
    case DesktopRecovers(lost) =>
      x.(desktopUp := false, recovered := true, snapshot := if lost then None else x.snapshot,
         link := if lost then Emptied(l) else l,
         desktop := FromRecoveryStatus(x.desktop.id, Coordinator, RecoveredStatus(x.mark)))
    case DesktopAsks(reply, nonce) => x.(desktop := Or(StatusStep(x.desktop, reply, nonce), x.desktop))
    case DesktopCloses => x.(desktop := Step(x.desktop, Fact(LocalEvent.Committed)))
    case PhoneAsks(reply, nonce) => x.(phone := Or(StatusStep(x.phone, reply, nonce), x.phone))
  }

  ghost predicate Succeeds(driver: Driver, x: Session, x': Session)
    requires !driver.Phone?
  {
    exists m :: Possible(driver, x, m) && x' == After(driver, x, m)
  }

  /** `run` is a possible course of pairing attempt `id`. */
  ghost predicate Course(driver: Driver, id: TransactionId, run: seq<Session>)
    requires !driver.Phone?
  {
    |run| > 0 && run[0] == Opening(id) && forall i :: 0 < i < |run| ==> Succeeds(driver, run[i - 1], run[i])
  }

  // ---------------------------------------------------------------------------------------
  // Refinement
  // ---------------------------------------------------------------------------------------

  /** What is on the link was said. */
  predicate LinkTrue(id: TransactionId, l: Link, sent: set<Sent>) {
    && (forall op :: op in l.register ==> Sent(Coordinator, Message(id, op)) in sent)
    && (forall op :: op in l.inbox ==> Sent(Participant, Message(id, op)) in sent)
  }

  /** A side that is up is where its program is. */
  predicate OnProgram(driver: Driver, id: TransactionId, x: Session)
    requires !driver.Phone?
  {
    && x.link.desktop <= Length(driver) && x.link.phone <= Length(Phone)
    && (x.desktopUp ==>
          && !x.recovered && x.mark == Marked(driver, x.link.desktop)
          && x.desktop == ExchangePoint(id, Coordinator, Exchanged(driver, x.link.desktop)))
    && (x.phoneUp ==> x.phone == ExchangePoint(id, Participant, Exchanged(Phone, x.link.phone)))
  }

  /** `s` is the protocol state of `x`. */
  ghost predicate Shows(driver: Driver, id: TransactionId, x: Session, s: System)
    requires !driver.Phone?
  {
    && s.desktop == x.desktop && s.phone == x.phone && s.mark == x.mark && s.recovered == x.recovered
    && x.desktop.id == id && x.phone.id == id
    && LinkTrue(id, x.link, s.sent) && OnProgram(driver, id, x)
    && x.desktopSaid <= s.desktopStatuses && x.phoneSaid <= s.phoneStatuses
    && (x.snapshot.Some? ==> x.snapshot.value in s.desktopStatuses)
  }

  lemma ProgramSpeaks(driver: Driver, id: TransactionId, pc: nat)
    requires pc < Length(driver) && Code(driver, pc).Publish?
    ensures MaySend(ExchangePoint(id, RoleOf(driver), Exchanged(driver, pc)), Code(driver, pc).operation)
  {}

  lemma ProgramMarks(driver: Driver, id: TransactionId, pc: nat)
    requires !driver.Phone? && pc < Length(driver)
    ensures var c := Code(driver, pc);
            && (c == Durable(PreCommitMark) ==>
                  && Marked(driver, pc) == NoJournal
                  && ExchangePoint(id, Coordinator, Exchanged(driver, pc)).phase.Preparing?)
            && (c == Apply(LocalEvent.Commit) ==> Marked(driver, pc) == CommitPendingMark)
            && Marked(driver, pc + 1) == (if c.Durable? then c.mark else Marked(driver, pc))
  {}

  lemma ProgramSteps(driver: Driver, id: TransactionId, pc: nat)
    requires pc < Length(driver)
    ensures Applied(ExchangePoint(id, RoleOf(driver), Exchanged(driver, pc)), Code(driver, pc)) ==
            ExchangePoint(id, RoleOf(driver), Exchanged(driver, pc + 1))
  {
    if Exchanged(driver, pc) < 11 { ExchangeAdvances(id, RoleOf(driver), Exchanged(driver, pc)); }
  }

  function DesktopAction(id: TransactionId, c: Instruction): Action {
    match c
    case Publish(op) => Send(Coordinator, op)
    case Await(op) => DesktopReceives(Message(id, op))
    case Apply(fact) => DesktopFact(fact)
    case Durable(mark) => WriteMark(mark)
  }

  lemma DesktopSpeechShown(driver: Driver, id: TransactionId, x: Session, s: System)
    requires !driver.Phone? && Shows(driver, id, x, s) && Possible(driver, x, DesktopRuns)
    requires Code(driver, x.link.desktop).Publish?
    ensures var a := DesktopAction(id, Code(driver, x.link.desktop));
            Enabled(s, a) && Shows(driver, id, Ran(driver, x), Next(s, a))
  {
    ProgramMarks(driver, id, x.link.desktop);
    ProgramSteps(driver, id, x.link.desktop);
    ProgramSpeaks(driver, id, x.link.desktop);
  }

  lemma DesktopHearingShown(driver: Driver, id: TransactionId, x: Session, s: System)
    requires !driver.Phone? && Shows(driver, id, x, s) && Possible(driver, x, DesktopRuns)
    requires Code(driver, x.link.desktop).Await?
    ensures var a := DesktopAction(id, Code(driver, x.link.desktop));
            Enabled(s, a) && Shows(driver, id, Ran(driver, x), Next(s, a))
  {
    ProgramMarks(driver, id, x.link.desktop);
    ProgramSteps(driver, id, x.link.desktop);
  }

  lemma DesktopDeedShown(driver: Driver, id: TransactionId, x: Session, s: System)
    requires !driver.Phone? && Shows(driver, id, x, s) && Possible(driver, x, DesktopRuns)
    requires Code(driver, x.link.desktop).Apply?
    ensures var a := DesktopAction(id, Code(driver, x.link.desktop));
            Enabled(s, a) && Shows(driver, id, Ran(driver, x), Next(s, a))
  {
    ProgramMarks(driver, id, x.link.desktop);
    ProgramSteps(driver, id, x.link.desktop);
  }

  lemma DesktopMarkShown(driver: Driver, id: TransactionId, x: Session, s: System)
    requires !driver.Phone? && Shows(driver, id, x, s) && Possible(driver, x, DesktopRuns)
    requires Code(driver, x.link.desktop).Durable?
    ensures var a := DesktopAction(id, Code(driver, x.link.desktop));
            Enabled(s, a) && Shows(driver, id, Ran(driver, x), Next(s, a))
  {
    ProgramMarks(driver, id, x.link.desktop);
    ProgramSteps(driver, id, x.link.desktop);
  }

  lemma DesktopRunShown(driver: Driver, id: TransactionId, x: Session, s: System)
    requires !driver.Phone? && Shows(driver, id, x, s) && Possible(driver, x, DesktopRuns)
    ensures var a := DesktopAction(id, Code(driver, x.link.desktop));
            Enabled(s, a) && Shows(driver, id, Ran(driver, x), Next(s, a))
  {
    match Code(driver, x.link.desktop)
    case Publish(_) => DesktopSpeechShown(driver, id, x, s);
    case Await(_) => DesktopHearingShown(driver, id, x, s);
    case Apply(_) => DesktopDeedShown(driver, id, x, s);
    case Durable(_) => DesktopMarkShown(driver, id, x, s);
  }

  /** What the daemon stores is the status it has. */
  lemma SnapshotShown(driver: Driver, id: TransactionId, x: Session, s: System)
    requires !driver.Phone? && Shows(driver, id, x, s) && Inv(s)
    ensures Shows(driver, id, x.(snapshot := Some(StatusOf(x.desktop.phase))), s)
  {}

  function PhoneAction(id: TransactionId, c: Instruction): Action
    requires !c.Durable?
  {
    match c
    case Publish(op) => Send(Participant, op)
    case Await(op) => PhoneReceives(Message(id, op))
    case Apply(fact) => PhoneFact(fact)
  }

  lemma PhoneRunShown(driver: Driver, id: TransactionId, x: Session, s: System)
    requires !driver.Phone? && Shows(driver, id, x, s) && Possible(driver, x, PhoneRuns) && PhoneSees(x.link)
    ensures var c := Code(Phone, x.link.phone);
            && !c.Durable? && Enabled(s, PhoneAction(id, c))
            && Shows(driver, id, After(driver, x, PhoneRuns), Next(s, PhoneAction(id, c)))
  {
    ProgramSteps(Phone, id, x.link.phone);
    if Code(Phone, x.link.phone).Publish? { ProgramSpeaks(Phone, id, x.link.phone); }
  }

  /** The desktop leaves its program on an event of its own. */
  lemma EventShown(driver: Driver, id: TransactionId, x: Session, s: System, e: LocalEvent)
    requires !driver.Phone? && Shows(driver, id, x, s) && x.desktopUp && (e.Disconnected? || e.Abort?)
    ensures var t := Step(x.desktop, Fact(e)); var s' := Next(s, DesktopFact(e));
            && Enabled(s, DesktopFact(e)) && (Inv(s) ==> StatusOf(t.phase) in s'.desktopStatuses)
            && Shows(driver, id, x.(desktopUp := false, desktop := t), s')
  {}

  /** A side says that it aborts. */
  lemma WordShown(driver: Driver, id: TransactionId, x: Session, s: System, op: Operation)
    requires !driver.Phone? && Shows(driver, id, x, s) && IsAbort(op)
    ensures var a := Send(Coordinator, op); var l := x.link;
            Enabled(s, a) && Shows(driver, id, x.(link := l.(register := [op], unread := true)), Next(s, a))
    ensures var a := Send(Participant, op); var l := x.link;
            Enabled(s, a) && Shows(driver, id, x.(link := l.(inbox := l.inbox + [op])), Next(s, a))
  {}

  /** The terminal command applies the abort it hears. */
  lemma TerminalHeedShown(id: TransactionId, x: Session, s: System)
    requires Shows(Terminal, id, x, s) && Possible(Terminal, x, DesktopHeeds)
    ensures var a := DesktopReceives(Message(id, x.link.inbox[0]));
            Enabled(s, a) && Shows(Terminal, id, After(Terminal, x, DesktopHeeds), Next(s, a))
  {}

  /** Discarding, recovery and reconciliation. */
  lemma RecoveryShown(driver: Driver, id: TransactionId, x: Session, s: System, m: Move)
    requires !driver.Phone? && Shows(driver, id, x, s) && Possible(driver, x, m)
    requires m.StagingDiscarded? || m.DesktopRecovers? || m.DesktopAsks? || m.DesktopCloses? || m.PhoneAsks?
    ensures Enabled(s, RecoveryAction(m)) && Shows(driver, id, After(driver, x, m), Next(s, RecoveryAction(m)))
  {}

  function RecoveryAction(m: Move): Action
    requires m.StagingDiscarded? || m.DesktopRecovers? || m.DesktopAsks? || m.DesktopCloses? || m.PhoneAsks?
  {
    match m
    case StagingDiscarded => LoseJournal
    case DesktopRecovers(_) => DesktopRestarts
    case DesktopAsks(reply, nonce) => DesktopReconciles(reply, nonce)
    case DesktopCloses => DesktopFinishes
    case PhoneAsks(reply, nonce) => PhoneReconciles(reply, nonce)
  }

  /** Moves that leave the protocol where it was. */
  predicate Silent(m: Move) {
    m.DesktopAnswers? || m.PhoneAnswers? || m.DesktopDies? || m.PhoneHeeds? || m == PhoneStops(None)
  }

  lemma SilentShown(driver: Driver, id: TransactionId, x: Session, s: System, m: Move)
    requires !driver.Phone? && Shows(driver, id, x, s) && Inv(s) && Possible(driver, x, m) && Silent(m)
    ensures Shows(driver, id, After(driver, x, m), s)
  {
    assert x.link.inbox + [] == x.link.inbox;
  }

  function Last(history: seq<System>): System
    requires history != []
  {
    history[|history| - 1]
  }

  lemma LeavingShown(driver: Driver, id: TransactionId, x: Session, history: seq<System>)
    returns (longer: seq<System>)
    requires !driver.Phone? && History(id, history) && Shows(driver, id, x, Last(history)) && x.desktopUp
    ensures History(id, longer) && history <= longer && Shows(driver, id, Left(driver, x), Last(longer))
  {
    longer := history;
    var (event, word) := Leaving(driver, x.link.desktop);
    var y := x.(desktopUp := false);
    if event.Some? {
      HistoryKeeps(id, history, |history| - 1);
      EventShown(driver, id, x, Last(longer), event.value);
      longer := Prolong(id, longer, DesktopFact(event.value));
      y := Left(driver, x).(link := x.link);
    }
    if word.Some? {
      WordShown(driver, id, y, Last(longer), word.value);
      longer := Prolong(id, longer, Send(Coordinator, word.value));
    }
  }

  lemma DesktopHeedShown(driver: Driver, id: TransactionId, x: Session, history: seq<System>)
    returns (longer: seq<System>)
    requires !driver.Phone? && History(id, history) && Shows(driver, id, x, Last(history))
    requires Possible(driver, x, DesktopHeeds)
    ensures History(id, longer) && history <= longer
    ensures Shows(driver, id, After(driver, x, DesktopHeeds), Last(longer))
  {
    if driver.Daemon? {
      longer := LeavingShown(driver, id, x, history);
    } else {
      TerminalHeedShown(id, x, Last(history));
      longer := Prolong(id, history, DesktopReceives(Message(id, x.link.inbox[0])));
    }
  }

  lemma ProgramShown(driver: Driver, id: TransactionId, x: Session, m: Move, history: seq<System>)
    returns (longer: seq<System>)
    requires !driver.Phone? && History(id, history) && Shows(driver, id, x, Last(history))
    requires (m.DesktopRuns? || m.PhoneRuns?) && Possible(driver, x, m)
    ensures History(id, longer) && history <= longer && Shows(driver, id, After(driver, x, m), Last(longer))
  {
    if m.DesktopRuns? {
      DesktopRunShown(driver, id, x, Last(history));
      longer := Prolong(id, history, DesktopAction(id, Code(driver, x.link.desktop)));
      HistoryKeeps(id, longer, |longer| - 1);
      SnapshotShown(driver, id, Ran(driver, x), Last(longer));
    } else if PhoneSees(x.link) {
      PhoneRunShown(driver, id, x, Last(history));
      longer := Prolong(id, history, PhoneAction(id, Code(Phone, x.link.phone)));
    } else {
      longer := history;
    }
  }

  lemma QuietShown(driver: Driver, id: TransactionId, x: Session, m: Move, history: seq<System>)
    returns (longer: seq<System>)
    requires !driver.Phone? && History(id, history) && Shows(driver, id, x, Last(history))
    requires (Silent(m) || m.PhoneStops?) && Possible(driver, x, m)
    ensures History(id, longer) && history <= longer && Shows(driver, id, After(driver, x, m), Last(longer))
  {
    if Silent(m) {
      HistoryKeeps(id, history, |history| - 1);
      SilentShown(driver, id, x, Last(history), m);
      longer := history;
    } else {
      WordShown(driver, id, x.(phoneUp := false), Last(history), m.word.value);
      longer := Prolong(id, history, Send(Participant, m.word.value));
    }
  }

  lemma MoveShown(driver: Driver, id: TransactionId, x: Session, m: Move, history: seq<System>)
    returns (longer: seq<System>)
    requires !driver.Phone? && History(id, history) && Shows(driver, id, x, Last(history)) && Possible(driver, x, m)
    ensures History(id, longer) && history <= longer && Shows(driver, id, After(driver, x, m), Last(longer))
  {
    match m
    case DesktopRuns => longer := ProgramShown(driver, id, x, m, history);
    case PhoneRuns => longer := ProgramShown(driver, id, x, m, history);
    case DesktopStops => longer := LeavingShown(driver, id, x, history);
    case DesktopHeeds => longer := DesktopHeedShown(driver, id, x, history);
    case PhoneStops(_) => longer := QuietShown(driver, id, x, m, history);
    case DesktopAnswers => longer := QuietShown(driver, id, x, m, history);
    case PhoneAnswers => longer := QuietShown(driver, id, x, m, history);
    case DesktopDies => longer := QuietShown(driver, id, x, m, history);
    case PhoneHeeds => longer := QuietShown(driver, id, x, m, history);
    case _ =>
      RecoveryShown(driver, id, x, Last(history), m);
      longer := Prolong(id, history, RecoveryAction(m));
  }

  /** Somewhere in the history both sides stand as in `x`. */
  ghost predicate Passes(history: seq<System>, x: Session) {
    exists k :: 0 <= k < |history| && history[k].desktop == x.desktop && history[k].phone == x.phone
  }

  /**
   Every course, with whatever goes wrong in it, is a history of the protocol: the history
   passes through every state of the course and ends in the last one.
   */
  lemma {:induction false} CoursesRefineProtocol(driver: Driver, id: TransactionId, run: seq<Session>, i: nat)
    returns (history: seq<System>)
    requires !driver.Phone? && Course(driver, id, run) && i < |run|
    ensures History(id, history) && Shows(driver, id, run[i], Last(history))
    ensures forall j :: 0 <= j <= i ==> Passes(history, run[j])
  {
    if i == 0 {
      history := [Start(id)];
      assert history[0].desktop == run[0].desktop;
    } else {
      var before := CoursesRefineProtocol(driver, id, run, i - 1);
      var m :| Possible(driver, run[i - 1], m) && run[i] == After(driver, run[i - 1], m);
      history := MoveShown(driver, id, run[i - 1], m, before);
      forall j | 0 <= j <= i ensures Passes(history, run[j]) {
        if j == i {
          assert history[|history| - 1].desktop == run[i].desktop;
        } else {
          var k :| 0 <= k < |before| && before[k].desktop == run[j].desktop && before[k].phone == run[j].phone;
          assert history[k] == before[k];
        }
      }
    }
  }

  /**
   Agreement and causality over the link: whatever goes wrong, a side that is ever bonded
   excludes that the other is ever aborted, and a side that has committed means that both
   operators confirmed, both sides staged, the desktop decided and the phone recorded it.
   */
  lemma CourseAgreement(driver: Driver, id: TransactionId, run: seq<Session>, i: nat, j: nat)
    returns (history: seq<System>)
    requires !driver.Phone? && Course(driver, id, run) && i < |run| && j < |run|
    ensures !(run[i].desktop.phase.Bonded? && run[j].phone.phase.Aborted?)
    ensures !(run[i].phone.phase.Bonded? && run[j].desktop.phase.Aborted?)
    ensures History(id, history) && Passes(history, run[i])
    ensures run[i].desktop.phase.Committed? || run[i].desktop.phase.Bonded? ||
            run[i].phone.phase.Committed? || run[i].phone.phase.Bonded? ==>
              AllFour(Last(history).made) && Last(history).made.commitDecided && Last(history).made.commitRecorded
  {
    history := CoursesRefineProtocol(driver, id, run, |run| - 1);
    assert Passes(history, run[i]) && Passes(history, run[j]);
    var k :| 0 <= k < |history| && history[k].desktop == run[i].desktop && history[k].phone == run[i].phone;
    var n :| 0 <= n < |history| && history[n].desktop == run[j].desktop && history[n].phone == run[j].phone;
    Agreement(id, history, k, n);
    if run[i].desktop.phase.Committed? || run[i].desktop.phase.Bonded? ||
       run[i].phone.phase.Committed? || run[i].phone.phase.Bonded? {
      Causality(id, history, k);
      DecisionsRemembered(history, k, |history| - 1);
      HistoryKeeps(id, history, |history| - 1);
    }
  }

  // ---------------------------------------------------------------------------------------
  // Which aborts reach the other side
  // ---------------------------------------------------------------------------------------

  /** The desktop was aborted at this moment of the course or before. */
  ghost predicate AbortedBy(run: seq<Session>, i: nat)
    requires i < |run|
  {
    exists k :: 0 <= k <= i && run[k].desktop.phase.Aborted?
  }

  /** A stored or given answer of abort comes from a daemon that aborted; an aborted phone was given one. */
  ghost predicate AbortsAnswered(driver: Driver, run: seq<Session>, i: nat)
    requires i < |run|
  {
    var x := run[i];
    && (x.snapshot == Some(StatusState.Aborted) || StatusState.Aborted in x.desktopSaid ==>
          driver.Daemon? && AbortedBy(run, i))
    && (x.phone.phase.Aborted? ==> StatusState.Aborted in x.desktopSaid)
  }

  /** A side that runs is at a point of the exchange, and none of those is aborted. */
  lemma RunningIsNotAborted(driver: Driver, id: TransactionId, run: seq<Session>, i: nat)
    requires !driver.Phone? && Course(driver, id, run) && i < |run|
    ensures run[i].desktopUp ==> OnProgram(driver, id, run[i]) && !run[i].desktop.phase.Aborted?
    ensures run[i].phoneUp ==> OnProgram(driver, id, run[i]) && !run[i].phone.phase.Aborted?
    ensures run[i].desktop.id == run[i].phone.id == id
  {
    var history := CoursesRefineProtocol(driver, id, run, i);
  }

  /** An answer of abort is stored or given only by a daemon that has one or is aborted now. */
  lemma AnswerComesFrom(driver: Driver, x: Session, m: Move)
    requires !driver.Phone? && Possible(driver, x, m)
    requires x.desktopUp ==> !x.desktop.phase.Aborted?
    requires m.DesktopRuns? ==> !After(driver, x, m).desktop.phase.Aborted?
    ensures var y := After(driver, x, m);
            y.snapshot == Some(StatusState.Aborted) || StatusState.Aborted in y.desktopSaid ==>
              || x.snapshot == Some(StatusState.Aborted) || StatusState.Aborted in x.desktopSaid
              || (driver.Daemon? && y.desktop.phase.Aborted?)
  {}

  /** The phone's transaction is aborted only by asking. */
  lemma PhoneAbortComesFrom(driver: Driver, x: Session, m: Move)
    requires !driver.Phone? && Possible(driver, x, m) && x.desktop.id == x.phone.id
    requires m.PhoneRuns? ==> !After(driver, x, m).phone.phase.Aborted?
    ensures After(driver, x, m).phone.phase.Aborted? ==> x.phone.phase.Aborted? || StatusState.Aborted in x.desktopSaid
  {}

  lemma AbortedByGrows(run: seq<Session>, i: nat)
    requires 0 < i < |run|
    ensures AbortedBy(run, i - 1) || run[i].desktop.phase.Aborted? ==> AbortedBy(run, i)
  {
    if AbortedBy(run, i - 1) {
      var k :| 0 <= k <= i - 1 && run[k].desktop.phase.Aborted?;
    }
  }

  lemma AbortsAnsweredOn(driver: Driver, run: seq<Session>, i: nat, m: Move)
    requires !driver.Phone? && 0 < i < |run| && AbortsAnswered(driver, run, i - 1)
    requires Possible(driver, run[i - 1], m) && run[i] == After(driver, run[i - 1], m)
    requires run[i - 1].desktop.id == run[i - 1].phone.id
    requires run[i - 1].desktopUp ==> !run[i - 1].desktop.phase.Aborted?
    requires m.DesktopRuns? ==> !run[i].desktop.phase.Aborted?
    requires m.PhoneRuns? ==> !run[i].phone.phase.Aborted?
    ensures AbortsAnswered(driver, run, i)
  {
    AbortedByGrows(run, i);
    AnswerComesFrom(driver, run[i - 1], m);
    PhoneAbortComesFrom(driver, run[i - 1], m);
  }

  lemma MoveTaken(driver: Driver, id: TransactionId, run: seq<Session>, i: nat) returns (m: Move)
    requires !driver.Phone? && Course(driver, id, run) && 0 < i < |run|
    ensures Possible(driver, run[i - 1], m) && run[i] == After(driver, run[i - 1], m)
    ensures m.DesktopRuns? ==> run[i].desktopUp
    ensures m.PhoneRuns? ==> run[i].phoneUp
  {
    assert Succeeds(driver, run[i - 1], run[i]);
    m :| Possible(driver, run[i - 1], m) && run[i] == After(driver, run[i - 1], m);
  }

  lemma {:induction false} CourseAnswersAborts(driver: Driver, id: TransactionId, run: seq<Session>, i: nat)
    requires !driver.Phone? && Course(driver, id, run) && i < |run|
    ensures AbortsAnswered(driver, run, i)
  {
    if i > 0 {
      CourseAnswersAborts(driver, id, run, i - 1);
      RunningIsNotAborted(driver, id, run, i - 1);
      RunningIsNotAborted(driver, id, run, i);
      var m := MoveTaken(driver, id, run, i);
      AbortsAnsweredOn(driver, run, i, m);
    }
  }

  /**
   No refusal, no abort and no lost link aborts the phone: in every course an aborted phone
   was told so by a status answer of a daemon that had aborted. With the terminal command it
   is never aborted.
   */
  lemma PhoneAbortsByAnswerOnly(driver: Driver, id: TransactionId, run: seq<Session>, i: nat)
    requires !driver.Phone? && Course(driver, id, run) && i < |run| && run[i].phone.phase.Aborted?
    ensures driver.Daemon? && StatusState.Aborted in run[i].desktopSaid && AbortedBy(run, i)
  {
    CourseAnswersAborts(driver, id, run, i);
  }

  /** Before the commit point a status answer aborts the phone exactly if it is about it and says so. */
  lemma PhoneAbortsExactly(driver: Driver, x: Session, reply: StatusMessage, nonce: u64)
    requires !driver.Phone? && Possible(driver, x, PhoneAsks(reply, nonce)) && !PastCommitPoint(x.phone.phase)
    ensures After(driver, x, PhoneAsks(reply, nonce)).phone.phase.Aborted? <==>
              reply == Response(x.phone.id, nonce, StatusState.Aborted)
  {}

  /** What an answer about it makes of the phone, in every course, by the two statuses. */
  lemma PhoneAsksExactly(driver: Driver, id: TransactionId, run: seq<Session>, state: StatusState, nonce: u64)
    requires !driver.Phone? && Course(driver, id, run)
    requires Possible(driver, run[|run| - 1], PhoneAsks(Response(id, nonce, state), nonce))
    ensures var t := run[|run| - 1].phone;
            var u := After(driver, run[|run| - 1], PhoneAsks(Response(id, nonce, state), nonce)).phone;
            var mine := StatusOf(t.phase);
            && (u.phase.Bonded? <==> (Recorded(mine) && Recorded(state)) || (mine.CommitPending? && state.Bonded?))
            && (u.phase.Uncertain? <==> || mine.Unknown? || state.Unknown? || Decided(mine) != Decided(state)
                                        || (Decided(mine) && state.CommitPending? && !mine.Committed?))
            && (u == t <==> || mine.Unknown? || (mine.PreCommit? && state.PreCommit?)
                            || (mine.Committed? && state.CommitPending?) || (mine.Bonded? && Recorded(state)))
  {
    var history := CoursesRefineProtocol(driver, id, run, |run| - 1);
    HistoryKeeps(id, history, |history| - 1);
    AskedExactly(run[|run| - 1].phone, Response(id, nonce, state), nonce);
  }

  /** A daemon that died answers nothing. */
  lemma DeadIsSilent(x: Session)
    requires Possible(Daemon, x, DesktopDies)
    ensures !Possible(Daemon, After(Daemon, x, DesktopDies), DesktopAnswers)
  {}

  /** A status answer takes the register: a phone that waits for a word no longer sees it. */
  lemma AnswerHidesWord(driver: Driver, x: Session)
    requires !driver.Phone? && Possible(driver, x, DesktopAnswers) && AtWait(Phone, x.link.phone)
    ensures var y := After(driver, x, DesktopAnswers); !PhoneSees(y.link) && !Possible(driver, y, PhoneHeeds)
  {}

  lemma OneMore(driver: Driver, id: TransactionId, run: seq<Session>, m: Move)
    requires !driver.Phone? && Course(driver, id, run) && Possible(driver, run[|run| - 1], m)
    ensures Course(driver, id, run + [After(driver, run[|run| - 1], m)])
  {}

  /**
   A refusal the phone has read is not a refusal it has recorded: wherever the daemon breaks
   off before the commit point and says so to a waiting phone, the daemon is aborted and the
   phone has left its script with the transaction it had, which is not.
   */
  lemma RefusalLeavesPhone(id: TransactionId, run: seq<Session>) returns (longer: seq<Session>)
    requires Course(Daemon, id, run)
    requires var x := run[|run| - 1];
             && x.desktopUp && x.phoneUp && AtWait(Phone, x.link.phone) && !PastCommitPoint(x.desktop.phase)
             && x.link.desktop < Length(Daemon) && Leaving(Daemon, x.link.desktop).1.Some?
    ensures Course(Daemon, id, longer) && run <= longer && |longer| == |run| + 2
    ensures var x, y := run[|run| - 1], longer[|run| + 1];
            && y.desktop.phase == Phase.Aborted(Leaving(Daemon, x.link.desktop).1.value)
            && y.snapshot == Some(StatusState.Aborted)
            && y.phone == x.phone && !y.phone.phase.Aborted? && !y.phoneUp
  {
    var x := run[|run| - 1];
    RunningIsNotAborted(Daemon, id, run, |run| - 1);
    OneMore(Daemon, id, run, DesktopStops);
    var y := After(Daemon, x, DesktopStops);
    OneMore(Daemon, id, run + [y], PhoneHeeds);
    longer := run + [y] + [After(Daemon, y, PhoneHeeds)];
  }

  /**
   From there the phone is aborted by asking: in every state of every course in which the
   phone has left its script before the commit point, the daemon's next answer lets it ask
   its way to an abort exactly if the daemon has stored one or has given one before.
   */
  lemma AskingAbortsExactly(id: TransactionId, run: seq<Session>, nonce: u64)
    requires Course(Daemon, id, run)
    requires var x := run[|run| - 1];
             && !x.phoneUp && !PastCommitPoint(x.phone.phase) && !x.phone.phase.Aborted? && x.snapshot.Some?
    ensures var x := run[|run| - 1]; var y := After(Daemon, x, DesktopAnswers);
            (exists reply :: Possible(Daemon, y, PhoneAsks(reply, nonce)) &&
                             After(Daemon, y, PhoneAsks(reply, nonce)).phone.phase.Aborted?) <==>
            x.snapshot == Some(StatusState.Aborted) || StatusState.Aborted in x.desktopSaid
  {
    var x := run[|run| - 1];
    var y := After(Daemon, x, DesktopAnswers);
    var history := CoursesRefineProtocol(Daemon, id, run, |run| - 1);
    var reply := Response(x.phone.id, nonce, StatusState.Aborted);
    if StatusState.Aborted in y.desktopSaid {
      assert Possible(Daemon, y, PhoneAsks(reply, nonce));
      PhoneAbortsExactly(Daemon, y, reply, nonce);
      assert After(Daemon, y, PhoneAsks(reply, nonce)).phone.phase.Aborted?;
    }
    forall other | Possible(Daemon, y, PhoneAsks(other, nonce)) &&
                   After(Daemon, y, PhoneAsks(other, nonce)).phone.phase.Aborted?
      ensures StatusState.Aborted in y.desktopSaid
    {
      PhoneAbortsExactly(Daemon, y, other, nonce);
    }
  }

  /** A desktop that hears the phone's abort records one exactly at these waits. */
  lemma HeedAbortsExactly(driver: Driver, id: TransactionId, run: seq<Session>)
    requires !driver.Phone? && Course(driver, id, run) && Possible(driver, run[|run| - 1], DesktopHeeds)
    ensures var x := run[|run| - 1];
            After(driver, x, DesktopHeeds).desktop.phase.Aborted? <==>
              if driver.Daemon? then Code(Daemon, x.link.desktop) == Await(Operation.Prepared)
              else !PastCommitPoint(x.desktop.phase)
  {
    RunningIsNotAborted(driver, id, run, |run| - 1);
  }

  /** Such a refusal happens: the operator of the desktop declines while the phone waits for CONFIRM. */
  lemma OperatorDeclines(id: TransactionId) returns (run: seq<Session>)
    ensures Course(Daemon, id, run)
    ensures var x := run[|run| - 1]; x.desktop.phase == Phase.Aborted(Operation.Reject) && x.phone.phase.OobPending?
  {
    run := [Opening(id)];
    var i := 0;
    while i < 10
      invariant 0 <= i <= 10 && |run| == i + 1 && Course(Daemon, id, run)
      invariant var x := run[i]; var l := x.link;
                && x.desktopUp && x.phoneUp
                && l.desktop == (if i < 1 then 0 else if i < 8 then 1 else i - 6)
                && l.phone == (if i < 2 then 0 else if i < 8 then i - 1 else 6)
                && l.register == (if i < 1 then [] else [Operation.Capability])
                && l.inbox == (if i < 3 then [] else if i < 7 then [Operation.Capability]
                               else if i == 7 then [Operation.Capability, Operation.Confirm] else [Operation.Confirm])
    {
      var m := if i == 0 || i > 6 then DesktopRuns else PhoneRuns;
      OneMore(Daemon, id, run, m);
      run := run + [After(Daemon, run[i], m)];
      i := i + 1;
    }
    RunningIsNotAborted(Daemon, id, run, 10);
    run := RefusalLeavesPhone(id, run);
  }
}
