/** The control inbox both desktop drivers keep: frames of any transaction, taken one at a time. */
module ControlInbox {
  import opened Bytes
  import opened PairTransaction
  import opened PairCodec

  /** The frames of the inbox that belong to transaction `id`, decoded, in order of arrival. */
  function Ours(inbox: seq<bytes>, id: TransactionId): seq<Operation> {
    if inbox == [] then []
    else match DecodeMessage(inbox[0])
      case Accepted(m) => (if m.transaction == id then [m.operation] else []) + Ours(inbox[1..], id)
      case Refused(_) => Ours(inbox[1..], id)
  }

  predicate IsOurs(frame: bytes, id: TransactionId) {
    match DecodeMessage(frame) case Accepted(m) => m.transaction == id case Refused(_) => false
  }

  lemma {:induction false} TakingOurs(inbox: seq<bytes>, id: TransactionId, k: nat)
    requires k < |inbox| && IsOurs(inbox[k], id)
    requires forall i :: 0 <= i < k ==> !IsOurs(inbox[i], id)
    ensures Ours(inbox, id) == [DecodeMessage(inbox[k]).value.operation] + Ours(inbox[..k] + inbox[k + 1..], id)
  {
    if k == 0 {
      assert inbox[..0] + inbox[1..] == inbox[1..];
    } else {
      TakingOurs(inbox[1..], id, k - 1);
      assert (inbox[..k] + inbox[k + 1..])[1..] == inbox[1..][..k - 1] + inbox[1..][k..];
    }
  }

  lemma {:induction false} NothingOurs(inbox: seq<bytes>, id: TransactionId)
    requires forall i :: 0 <= i < |inbox| ==> !IsOurs(inbox[i], id)
    ensures Ours(inbox, id) == []
  {
    if inbox != [] {
      assert !IsOurs(inbox[0], id);
      NothingOurs(inbox[1..], id);
    }
  }

  lemma {:induction false} OursAppend(inbox: seq<bytes>, frame: bytes, id: TransactionId)
    ensures Ours(inbox + [frame], id) == Ours(inbox, id) + Ours([frame], id)
  {
    if inbox == [] {
      assert inbox + [frame] == [frame];
    } else {
      assert (inbox + [frame])[1..] == inbox[1..] + [frame];
      OursAppend(inbox[1..], frame, id);
    }
  }

  /** An operation of this transaction counts when it arrives. */
  lemma OwnFrameCounts(inbox: seq<bytes>, id: TransactionId, op: Operation)
    ensures Ours(inbox + [MessageBytes(Message(id, op))], id) == Ours(inbox, id) + [op]
  {
    OursAppend(inbox, MessageBytes(Message(id, op)), id);
    MessageExact(MessageBytes(Message(id, op)), Message(id, op));
  }

  /** Anything else that arrives, of another transaction or of none, does not. */
  lemma OtherFrameDoesNot(inbox: seq<bytes>, id: TransactionId, frame: bytes)
    requires forall op :: frame != MessageBytes(Message(id, op))
    ensures Ours(inbox + [frame], id) == Ours(inbox, id)
  {
    OursAppend(inbox, frame, id);
    if DecodeMessage(frame).Accepted? {
      var m := DecodeMessage(frame).value;
      MessageExact(frame, m);
      assert m == Message(m.transaction, m.operation);
    }
  }

  /** Take the first frame of transaction `id`; every other frame stays where it is. */
  method TakeFirst(inbox: seq<bytes>, id: TransactionId) returns (r: Option<Operation>, rest: seq<bytes>)
    ensures var ours := Ours(inbox, id);
            if ours == [] then r == None && rest == inbox
            else && r == Some(ours[0]) && Ours(rest, id) == ours[1..]
                 && exists k :: 0 <= k < |inbox| && IsOurs(inbox[k], id) && rest == inbox[..k] + inbox[k + 1..]
  {
    for k := 0 to |inbox|
      invariant forall i :: 0 <= i < k ==> !IsOurs(inbox[i], id)
    {
      if IsOurs(inbox[k], id) {
        TakingOurs(inbox, id, k);
        return Some(DecodeMessage(inbox[k]).value.operation), inbox[..k] + inbox[k + 1..];
      }
    }
    NothingOurs(inbox, id);
    r, rest := None, inbox;
  }
}
