/** The control characteristic as a byte stream: writes run together and have to be told apart again. */
module ControlStream {
  import opened Bytes
  import opened PairTransaction
  import opened PairCodec

  /** The length of the frame a payload starts with: a status frame, else a control message, else none. */
  function FrameWidth(payload: bytes): (w: nat)
    ensures w <= |payload|
  {
    if |payload| >= STATUS_MESSAGE_LEN && DecodeStatus(payload[..STATUS_MESSAGE_LEN]).Accepted? then STATUS_MESSAGE_LEN
    else if |payload| >= MESSAGE_LEN && DecodeMessage(payload[..MESSAGE_LEN]).Accepted? then MESSAGE_LEN
    else 0
  }

  /** The frames found in a payload; where none starts, one byte is skipped. */
  function Reframe(payload: bytes): seq<bytes>
    decreases |payload|
  {
    if payload == [] then []
    else
      var w := FrameWidth(payload);
      if w > 0 then [payload[..w]] + Reframe(payload[w..]) else Reframe(payload[1..])
  }

  method FrameControlPayload(payload: bytes) returns (frames: seq<bytes>)
    ensures frames == Reframe(payload)
  {
    frames := [];
    var offset := 0;
    while offset < |payload|
      invariant offset <= |payload| && frames + Reframe(payload[offset..]) == Reframe(payload)
    {
      var rest := payload[offset..];
      var w := FrameWidth(rest);
      if w > 0 {
        frames := frames + [rest[..w]];
        offset := offset + w;
        assert rest[w..] == payload[offset..];
      } else {
        offset := offset + 1;
        assert rest[1..] == payload[offset..];
      }
    }
  }

  // ---------------------------------------------------------------------------------------
  // What was written
  // ---------------------------------------------------------------------------------------

  datatype Written = Control(message: Message) | StatusFrame(status: StatusMessage)

  function Octets(w: Written): bytes {
    match w case Control(m) => MessageBytes(m) case StatusFrame(m) => StatusBytes(m)
  }

  function IdOf(w: Written): TransactionId {
    match w case Control(m) => m.transaction case StatusFrame(m) => m.transaction
  }

  /** Several writes that arrive as one payload. */
  function Coalesced(writes: seq<Written>): bytes {
    if writes == [] then [] else Octets(writes[0]) + Coalesced(writes[1..])
  }

  function EachOctets(writes: seq<Written>): seq<bytes> {
    seq(|writes|, i requires 0 <= i < |writes| => Octets(writes[i]))
  }

  /** The two identifier bytes that, after a control message, sit where a status frame has its operation and state. */
  predicate Confusable(id: TransactionId) {
    (id[6] == 12 && id[7] == 0) || (id[6] == 13 && 1 <= id[7] <= 6)
  }

  /** No control message is followed by a frame whose identifier can pass for the end of a status frame. */
  predicate Separable(writes: seq<Written>) {
    forall i :: 0 < i < |writes| && writes[i - 1].Control? ==> !Confusable(IdOf(writes[i]))
  }

  /** The bytes after a control message let it pass for the beginning of a status frame. */
  predicate Swallows(rest: bytes) {
    |rest| >= 9 && ((rest[7] == 12 && rest[8] == 0) || (rest[7] == 13 && 1 <= rest[8] <= 6))
  }

  lemma StatusGoesFirst(m: StatusMessage, rest: bytes)
    ensures FrameWidth(StatusBytes(m) + rest) == STATUS_MESSAGE_LEN
  {}

  /** A control message is taken for the beginning of a status frame exactly when the bytes after it allow it. */
  lemma MessageGoesFirst(m: Message, rest: bytes)
    ensures FrameWidth(MessageBytes(m) + rest) == if Swallows(rest) then STATUS_MESSAGE_LEN else MESSAGE_LEN
  {}

  /** A frame in front, recognised at its own length, comes off whole. */
  lemma FrontFrame(front: bytes, rest: bytes)
    requires front != []
    ensures var w := FrameWidth(front + rest);
            && (w == |front| ==> Reframe(front + rest) == [front] + Reframe(rest))
            && (w > |front| ==> Reframe(front + rest) != [] && |Reframe(front + rest)[0]| == w)
  {}

  lemma IdentifierBytes(w: Written, rest: bytes)
    ensures Swallows(Octets(w) + rest) <==> Confusable(IdOf(w))
  {}

  /** The first of several writes comes off whole unless it and what follows pass for a status frame. */
  lemma FirstWrite(first: Written, rest: bytes)
    ensures var frames := Reframe(Octets(first) + rest);
            if first.Control? && Swallows(rest)
            then frames != [] && |frames[0]| != |Octets(first)|
            else frames == [Octets(first)] + Reframe(rest)
  {
    FrontFrame(Octets(first), rest);
    match first
    case StatusFrame(m) => StatusGoesFirst(m, rest);
    case Control(m) => MessageGoesFirst(m, rest);
  }

  lemma EachCons(writes: seq<Written>)
    requires writes != []
    ensures EachOctets(writes) == [Octets(writes[0])] + EachOctets(writes[1..])
    ensures EachOctets(writes)[0] == Octets(writes[0])
  {}

  lemma SameTail<T>(x: T, a: seq<T>, b: seq<T>)
    ensures [x] + a == [x] + b <==> a == b
  {
    assert ([x] + a)[1..] == a && ([x] + b)[1..] == b;
  }

  lemma SeparableCons(writes: seq<Written>)
    requires writes != []
    ensures Separable(writes) <==>
            Separable(writes[1..]) && (|writes| > 1 && writes[0].Control? ==> !Confusable(IdOf(writes[1])))
  {}

  /** A tail too short for a frame yields none. */
  lemma {:induction false} ShortTailIsDropped(tail: bytes)
    requires |tail| < MESSAGE_LEN
    ensures Reframe(tail) == []
    decreases |tail|
  {
    if tail != [] { ShortTailIsDropped(tail[1..]); }
  }

  /** The last write is not swallowed together with the tail behind it. */
  predicate TailApart(writes: seq<Written>, tail: bytes) {
    writes != [] && writes[|writes| - 1].Control? ==> !Swallows(tail)
  }

  function Stream(writes: seq<Written>, tail: bytes): bytes {
    if writes == [] then tail else Octets(writes[0]) + Stream(writes[1..], tail)
  }

  lemma {:induction false} StreamIsCoalesced(writes: seq<Written>, tail: bytes)
    ensures Stream(writes, tail) == Coalesced(writes) + tail
  {
    if writes != [] { StreamIsCoalesced(writes[1..], tail); }
  }

  lemma SwallowedBy(writes: seq<Written>, tail: bytes)
    ensures Swallows(Stream(writes, tail)) <==> if writes == [] then Swallows(tail) else Confusable(IdOf(writes[0]))
  {
    if writes != [] { IdentifierBytes(writes[0], Stream(writes[1..], tail)); }
  }

  lemma ApartCons(writes: seq<Written>, tail: bytes)
    requires writes != []
    ensures Separable(writes) && TailApart(writes, tail) <==>
            && Separable(writes[1..]) && TailApart(writes[1..], tail)
            && !(writes[0].Control? && Swallows(Stream(writes[1..], tail)))
  {
    SeparableCons(writes);
    SwallowedBy(writes[1..], tail);
  }

  /** Writes that run together, with a truncated one behind them, are told apart exactly when nothing swallows. */
  lemma {:induction false} ReframedBeforeTail(writes: seq<Written>, tail: bytes)
    requires |tail| < MESSAGE_LEN
    ensures Reframe(Stream(writes, tail)) == EachOctets(writes) <==> Separable(writes) && TailApart(writes, tail)
    decreases |writes|
  {
    if writes == [] {
      ShortTailIsDropped(tail);
    } else {
      var first, rest := writes[0], writes[1..];
      ReframedBeforeTail(rest, tail);
      ApartCons(writes, tail);
      FirstWrite(first, Stream(rest, tail));
      EachCons(writes);
      SameTail(Octets(first), Reframe(Stream(rest, tail)), EachOctets(rest));
    }
  }

  /**
   Writes that run together are told apart exactly when they are separable; otherwise two of
   them are swallowed as one status frame.
   */
  lemma ReframedExactly(writes: seq<Written>)
    ensures Reframe(Coalesced(writes)) == EachOctets(writes) <==> Separable(writes)
  {
    ReframedBeforeTail(writes, []);
    StreamIsCoalesced(writes, []);
    assert Coalesced(writes) + [] == Coalesced(writes);
  }

  /** Bytes that cannot start a frame are passed over. */
  lemma {:induction false} JunkIsSkipped(junk: bytes, rest: bytes)
    requires VERSION !in junk
    ensures Reframe(junk + rest) == Reframe(rest)
    decreases |junk|
  {
    if junk == [] {
      assert junk + rest == rest;
    } else {
      assert (junk + rest)[0] == junk[0] && (junk + rest)[1..] == junk[1..] + rest;
      JunkIsSkipped(junk[1..], rest);
    }
  }

  /**
   A channel out of step finds its feet: junk, then writes, then a truncated tail. The writes
   are recovered exactly when nothing swallows.
   */
  lemma ResynchronisesExactly(junk: bytes, writes: seq<Written>, tail: bytes)
    requires VERSION !in junk && |tail| < MESSAGE_LEN
    ensures Reframe(junk + Coalesced(writes) + tail) == EachOctets(writes) <==>
            Separable(writes) && TailApart(writes, tail)
  {
    assert junk + Coalesced(writes) + tail == junk + (Coalesced(writes) + tail);
    JunkIsSkipped(junk, Coalesced(writes) + tail);
    ReframedBeforeTail(writes, tail);
    StreamIsCoalesced(writes, tail);
  }

  /** The case the reframing was written for: one attempt's messages come apart unless its identifier is confusable. */
  lemma AttemptReframedExactly(id: TransactionId, ops: seq<Operation>)
    requires |ops| > 1
    ensures var writes := seq(|ops|, i requires 0 <= i < |ops| => Control(Message(id, ops[i])));
            Reframe(Coalesced(writes)) == EachOctets(writes) <==> !Confusable(id)
  {
    var writes := seq(|ops|, i requires 0 <= i < |ops| => Control(Message(id, ops[i])));
    ReframedExactly(writes);
    assert writes[0].Control? && IdOf(writes[1]) == id;
  }
}
