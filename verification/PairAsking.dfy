/** What a transaction learns by asking its peer for a status, and what two sides learn from each other. */
module PairAsking {
  import opened Bytes
  import opened PairTransaction

  /** A commit decision is known. */
  predicate Decided(s: StatusState) { s.CommitPending? || s.Committed? || s.Bonded? }

  /** The decision is recorded. */
  predicate Recorded(s: StatusState) { s.Committed? || s.Bonded? }

  /** A reply is taken exactly if it is a response about this transaction to this query. */
  lemma ReplyTakenExactly(t: Tx, reply: StatusMessage, nonce: u64)
    ensures StatusStep(t, reply, nonce).Accepted? <==>
              reply.Response? && reply.transaction == t.id && reply.nonce == nonce
    ensures StatusStep(t, reply, nonce).Refused? ==> StatusStep(t, reply, nonce) == Refused(WrongTransaction)
  {}

  /**
   What a reply makes of a transaction, by the two statuses alone. Nothing but the phase
   changes, and the committed records of both sides when it bonds.
   */
  lemma AskedExactly(t: Tx, reply: StatusMessage, nonce: u64)
    requires Consistent(t) && StatusStep(t, reply, nonce).Accepted?
    ensures var u := StatusStep(t, reply, nonce).value;
            var mine, theirs := StatusOf(t.phase), reply.state;
            && (u.phase.Bonded? <==> (Recorded(mine) && Recorded(theirs)) || (mine.CommitPending? && theirs.Bonded?))
            && (u.phase.Committed? <==> || (mine.CommitPending? && theirs.Committed?)
                                        || (mine.Committed? && theirs.CommitPending?))
            && (u.phase.Aborted? <==> || (mine.Aborted? && (theirs.Aborted? || theirs.PreCommit?))
                                      || (mine.PreCommit? && theirs.Aborted?))
            && (u.phase.Uncertain? <==> || mine.Unknown? || theirs.Unknown? || Decided(mine) != Decided(theirs)
                                        || (Decided(mine) && theirs.CommitPending? && !mine.Committed?))
            && (u == t <==> || mine.Unknown? || (mine.PreCommit? && theirs.PreCommit?)
                            || (mine.Aborted? && (theirs.Aborted? || theirs.PreCommit?))
                            || (mine.Committed? && theirs.CommitPending?) || (mine.Bonded? && Recorded(theirs)))
            && u == t.(phase := u.phase, committed := if u.phase.Bonded? then BOTH else t.committed)
            && (u.phase.Aborted? && u != t ==> u.phase == Phase.Aborted(Operation.Error))
  {}

  /** The transaction after its peer `u`, asked for its status, has answered with the one it has. */
  function Asks(t: Tx, u: Tx, nonce: u64): (r: Tx)
    ensures r.id == t.id
  {
    StatusStep(t, Response(t.id, nonce, StatusOf(u.phase)), nonce).value
  }

  /** Two sides asking each other; each turn tells whether the first one asks, and its nonce. */
  function Dialogue(a: Tx, b: Tx, turns: seq<(bool, u64)>): (Tx, Tx)
    decreases |turns|
  {
    if turns == [] then (a, b)
    else if turns[0].0 then Dialogue(Asks(a, b, turns[0].1), b, turns[1..])
    else Dialogue(a, Asks(b, a, turns[0].1), turns[1..])
  }

  /** One question before the commit point. */
  lemma AskedBeforeCommit(t: Tx, u: Tx, nonce: u64)
    requires Consistent(t) && !PastCommitPoint(t.phase) && !PastCommitPoint(u.phase)
    ensures var r := Asks(t, u, nonce);
            && Consistent(r) && !PastCommitPoint(r.phase)
            && (r.phase.Aborted? <==> t.phase.Aborted? || u.phase.Aborted?)
            && (r == t <==> t.phase.Aborted? || !u.phase.Aborted?)
  {
    AskedExactly(t, Response(t.id, nonce, StatusOf(u.phase)), nonce);
  }

  /**
   Two honest sides before the commit point, asking each other any number of times in any
   order, stay before it, so neither becomes uncertain; a side changes exactly if the other
   was aborted, it was not and it asked, and then it is aborted too.
   */
  lemma {:induction false} HonestBeforeCommit(a: Tx, b: Tx, turns: seq<(bool, u64)>)
    requires Consistent(a) && Consistent(b) && !PastCommitPoint(a.phase) && !PastCommitPoint(b.phase)
    ensures var (a', b') := Dialogue(a, b, turns);
            && !PastCommitPoint(a'.phase) && !PastCommitPoint(b'.phase)
            && (a' != a <==> !a.phase.Aborted? && b.phase.Aborted? && exists i :: 0 <= i < |turns| && turns[i].0)
            && (b' != b <==> !b.phase.Aborted? && a.phase.Aborted? && exists i :: 0 <= i < |turns| && !turns[i].0)
            && (a' != a ==> a'.phase.Aborted?) && (b' != b ==> b'.phase.Aborted?)
    decreases |turns|
  {
    if turns != [] {
      var asks, nonce, rest := turns[0].0, turns[0].1, turns[1..];
      assert forall i :: 0 < i < |turns| ==> turns[i] == rest[i - 1];
      if asks {
        AskedBeforeCommit(a, b, nonce);
        HonestBeforeCommit(Asks(a, b, nonce), b, rest);
      } else {
        AskedBeforeCommit(b, a, nonce);
        HonestBeforeCommit(a, Asks(b, a, nonce), rest);
      }
    }
  }

  /**
   Past the commit point, where one side has recorded the decision, three questions in turn
   bond both, the first asked by the side that may only have decided.
   */
  lemma AskingBonds(a: Tx, b: Tx, nonce: u64)
    requires Consistent(a) && Consistent(b) && Decided(StatusOf(a.phase)) && Recorded(StatusOf(b.phase))
    ensures var a1 := Asks(a, b, nonce); var b1 := Asks(b, a1, nonce); var a2 := Asks(a1, b1, nonce);
            a2.phase.Bonded? && b1.phase.Bonded?
  {
    var a1 := Asks(a, b, nonce);
    AskedExactly(a, Response(a.id, nonce, StatusOf(b.phase)), nonce);
    assert Recorded(StatusOf(a1.phase));
    AskedExactly(b, Response(b.id, nonce, StatusOf(a1.phase)), nonce);
  }
}
