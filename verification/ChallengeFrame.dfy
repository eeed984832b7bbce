/** The challenge frame: its wire form, its authentication tag and the phone's two checks. */
module ChallengeFrame {
  import opened Bytes

  const WIRE_VERSION: byte := 1
  const NONCE_LEN := 16
  const TAG_LEN := 16
  const HEADER_LEN := 17
  const MIN_FRAME_LEN := 33
  const MAX_PAYLOAD_LEN := 4096
  const BOND_KEY_LEN := 32
  const SECRET_KEY_LEN := 32
  const SIGNATURE_LEN := 64

  type Nonce = b: bytes | |b| == NONCE_LEN witness seq(NONCE_LEN, _ => 0)
  type Tag = b: bytes | |b| == TAG_LEN witness seq(TAG_LEN, _ => 0)

  datatype Frame = Frame(version: byte, nonce: Nonce, payload: bytes, tag: Tag)

  datatype FrameError = TooShort(needed: nat, got: nat) | BadVersion(version: byte) | BadLength

  datatype Parsed<+T> = Parsed(value: T) | Rejected(error: FrameError)

  /** The bytes that are signed and authenticated: everything but the tag. */
  function Body(f: Frame): Parsed<bytes> {
    if |f.payload| > MAX_PAYLOAD_LEN then Rejected(BadLength) else Parsed([f.version] + f.nonce + f.payload)
  }

  function FrameBytes(f: Frame): bytes {
    [f.version] + f.nonce + f.payload + f.tag
  }

  function DecodeFrame(b: bytes): Parsed<Frame> {
    if |b| < MIN_FRAME_LEN then Rejected(TooShort(MIN_FRAME_LEN, |b|))
    else if b[0] != WIRE_VERSION then Rejected(BadVersion(b[0]))
    else if |b| - MIN_FRAME_LEN > MAX_PAYLOAD_LEN then Rejected(BadLength)
    else
      var end := |b| - TAG_LEN;
      Parsed(Frame(b[0], b[1..HEADER_LEN], b[HEADER_LEN..end], b[end..]))
  }

  /** Append a frame to a buffer; a payload that is too long leaves the buffer as it was. */
  method EncodeFrame(f: Frame, buf: bytes) returns (error: Option<FrameError>, out: bytes)
    ensures if |f.payload| <= MAX_PAYLOAD_LEN then error == None && out == buf + FrameBytes(f)
            else error == Some(BadLength) && out == buf
  {
    out := buf;
    if |f.payload| > MAX_PAYLOAD_LEN { return Some(BadLength), out; }
    out := out + [f.version];
    out := out + f.nonce;
    out := out + f.payload;
    out := out + f.tag;
    error := None;
  }

  /** A byte string decodes to a frame exactly when it is that frame's encoding and the frame may be sent. */
  lemma FrameExact(b: bytes, f: Frame)
    ensures DecodeFrame(b) == Parsed(f) <==>
            f.version == WIRE_VERSION && |f.payload| <= MAX_PAYLOAD_LEN && b == FrameBytes(f)
  {
    var e := FrameBytes(f);
    var end := |e| - TAG_LEN;
    assert e[1..HEADER_LEN] == f.nonce && e[HEADER_LEN..end] == f.payload && e[end..] == f.tag;
    if DecodeFrame(b) == Parsed(f) {
      assert b == [b[0]] + b[1..HEADER_LEN] + b[HEADER_LEN..|b| - TAG_LEN] + b[|b| - TAG_LEN..];
    }
  }

  // ---------------------------------------------------------------------------------------
  // Tags and signatures
  // ---------------------------------------------------------------------------------------

  /** The cryptography as given: a keyed hash, and signing with its check. */
  datatype Crypto = Crypto(mac: (bytes, bytes) -> Tag,
                           public: bytes -> bytes,
                           sign: (bytes, bytes) -> bytes,
                           validKey: bytes -> bool,
                           verify: (bytes, bytes, bytes) -> bool)

  /** What is asked of the signature scheme for one key pair and one message. */
  predicate Signs(c: Crypto, secret: bytes, body: bytes) {
    var signature := c.sign(secret, body);
    |signature| == SIGNATURE_LEN && c.validKey(c.public(secret)) && c.verify(c.public(secret), body, signature)
  }

  datatype PhoneAnswer = Answered(octets: bytes) | InvalidKey | BadFrame(error: FrameError) | VerifyFailed

  /** The phone's check of a challenge: the frame's payload, if its tag is right under the phone's key. */
  function VerifyChallenge(c: Crypto, bondKey: bytes, frame: bytes): PhoneAnswer {
    if |bondKey| != BOND_KEY_LEN then InvalidKey
    else match DecodeFrame(frame)
      case Rejected(e) => BadFrame(e)
      case Parsed(f) =>
        match Body(f)
        case Rejected(e) => BadFrame(e)
        case Parsed(body) => if c.mac(bondKey, body) == f.tag then Answered(f.payload) else VerifyFailed
  }

  function SignChallenge(c: Crypto, secret: bytes, frame: bytes): PhoneAnswer {
    if |secret| != SECRET_KEY_LEN then InvalidKey
    else match DecodeFrame(frame)
      case Rejected(e) => BadFrame(e)
      case Parsed(f) =>
        match Body(f) case Rejected(e) => BadFrame(e) case Parsed(body) => Answered(c.sign(secret, body))
  }

  /** The challenge the daemon sends: an empty payload under a fresh nonce, tagged with the bond key. */
  function Challenge(c: Crypto, bondKey: bytes, nonce: Nonce): Frame {
    Tagged(c, bondKey, nonce, [])
  }

  function ChallengeBody(nonce: Nonce): bytes { [WIRE_VERSION] + nonce + [] }

  function Tagged(c: Crypto, bondKey: bytes, nonce: Nonce, payload: bytes): Frame {
    Frame(WIRE_VERSION, nonce, payload, c.mac(bondKey, [WIRE_VERSION] + nonce + payload))
  }

  /** The daemon's challenge in full: the octet 1, sixteen octets of nonce, sixteen of tag. */
  lemma ChallengeInFull(c: Crypto, bondKey: bytes, nonce: Nonce)
    ensures |nonce| == 16
    ensures var tag := c.mac(bondKey, [1] + nonce);
            |tag| == 16 && FrameBytes(Challenge(c, bondKey, nonce)) == [1] + nonce + tag
    ensures ChallengeBody(nonce) == [1] + nonce
  {
    assert [1] + nonce + [] == [1] + nonce;
  }

  /** What the phone makes of a frame, in numbers, and which error it gives when it takes it for none. */
  lemma PhoneCheckExactly(c: Crypto, bondKey: bytes, frame: bytes)
    ensures VerifyChallenge(c, bondKey, frame) ==
            if |bondKey| != 32 then InvalidKey
            else if |frame| < 33 then BadFrame(TooShort(33, |frame|))
            else if frame[0] != 1 then BadFrame(BadVersion(frame[0]))
            else if |frame| > 33 + 4096 then BadFrame(BadLength)
            else if c.mac(bondKey, frame[..|frame| - 16]) != frame[|frame| - 16..] then VerifyFailed
            else Answered(frame[17..|frame| - 16])
    ensures |bondKey| == 32 ==>
              forall secret: bytes ::
                SignChallenge(c, secret, frame) ==
                if |secret| != 32 then InvalidKey
                else if |frame| < 33 || frame[0] != 1 || |frame| > 33 + 4096 then VerifyChallenge(c, bondKey, frame)
                else Answered(c.sign(secret, frame[..|frame| - 16]))
  {
    if 33 <= |frame| <= 33 + 4096 && frame[0] == 1 {
      var end := |frame| - 16;
      assert [frame[0]] + frame[1..17] + frame[17..end] == frame[..end];
    }
  }

  /** The phone accepts exactly the encodings of frames tagged under its own key. */
  lemma PhoneAcceptsExactly(c: Crypto, bondKey: bytes, frame: bytes, payload: bytes)
    ensures VerifyChallenge(c, bondKey, frame) == Answered(payload) <==>
            && |bondKey| == BOND_KEY_LEN && |payload| <= MAX_PAYLOAD_LEN
            && exists nonce: Nonce :: frame == FrameBytes(Tagged(c, bondKey, nonce, payload))
  {
    if VerifyChallenge(c, bondKey, frame) == Answered(payload) {
      var f := DecodeFrame(frame).value;
      FrameExact(frame, f);
      assert frame == FrameBytes(Tagged(c, bondKey, f.nonce, payload));
    }
    if |payload| <= MAX_PAYLOAD_LEN {
      forall nonce: Nonce | frame == FrameBytes(Tagged(c, bondKey, nonce, payload))
        ensures DecodeFrame(frame) == Parsed(Tagged(c, bondKey, nonce, payload))
      {
        FrameExact(frame, Tagged(c, bondKey, nonce, payload));
      }
    }
  }

  /**
   The two ends meet: a phone takes the daemon's challenge exactly when its key gives the
   same tag, and what it then signs is the very body the daemon checks.
   */
  lemma ChallengeMeetsPhone(c: Crypto, bondKey: bytes, phoneKey: bytes, secret: bytes, nonce: Nonce)
    requires |phoneKey| == BOND_KEY_LEN && |secret| == SECRET_KEY_LEN
    ensures var frame := FrameBytes(Challenge(c, bondKey, nonce));
            && (VerifyChallenge(c, phoneKey, frame) == Answered([]) <==>
                c.mac(phoneKey, ChallengeBody(nonce)) == c.mac(bondKey, ChallengeBody(nonce)))
            && SignChallenge(c, secret, frame) == Answered(c.sign(secret, ChallengeBody(nonce)))
            && Body(Challenge(c, bondKey, nonce)) == Parsed(ChallengeBody(nonce))
  {
    var f := Challenge(c, bondKey, nonce);
    FrameExact(FrameBytes(f), f);
  }

  /** Different nonces make different challenges, whatever the keys. */
  lemma ChallengesDiffer(c: Crypto, k1: bytes, k2: bytes, n1: Nonce, n2: Nonce)
    requires n1 != n2
    ensures ChallengeBody(n1) != ChallengeBody(n2)
    ensures FrameBytes(Challenge(c, k1, n1)) != FrameBytes(Challenge(c, k2, n2))
  {
    assert ChallengeBody(n1)[1..HEADER_LEN] == n1 && ChallengeBody(n2)[1..HEADER_LEN] == n2;
    assert FrameBytes(Challenge(c, k1, n1))[1..HEADER_LEN] == n1;
    assert FrameBytes(Challenge(c, k2, n2))[1..HEADER_LEN] == n2;
  }
}
