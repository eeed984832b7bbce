/** From a challenge outcome to a granted login: the dispatcher's reply and its two clients. */
module Verdict {
  import opened Bytes
  import opened BondDirectory
  import opened Orchestrator

  datatype Response = ChallengeReply(ok: bool, signature: Option<bytes>, reason: string) | OtherReply

  /** The dispatcher's reply; without an orchestrator there is only the placeholder. */
  function Respond(outcome: Option<ChallengeOutcome>): Response {
    match outcome
    case None => ChallengeReply(false, None, "not-implemented")
    case Some(o) => ChallengeReply(o.Ok?, if o.Ok? then Some(o.signature) else None, ReasonOf(o))
  }

  datatype PamCode = Success | AuthErr | AuthInfoUnavail

  function PamFor(reason: string): PamCode {
    if reason == "ok" then Success
    else if reason == "denied" || reason == "replay" || reason == "bad-signature" then AuthErr
    else if reason == "response-timeout" || reason == "offline" || reason == "busy" || reason == "unknown-peer"
            || reason == "transport-error" || reason == "adapter-missing" then AuthInfoUnavail
    else AuthErr
  }

  /** The words the login module knows, one by one; any other word is a refusal. */
  lemma WordsInFull(reason: string)
    ensures PamFor(reason).Success? <==> reason == "ok"
    ensures PamFor(reason).AuthInfoUnavail? <==>
            || reason == "response-timeout" || reason == "offline" || reason == "busy"
            || reason == "unknown-peer" || reason == "transport-error" || reason == "adapter-missing"
  {}

  /** The login module reads the reason; anything but a challenge reply falls through. */
  function PamVerdict(reply: Option<Response>): PamCode {
    match reply
    case Some(ChallengeReply(_, _, reason)) => PamFor(reason)
    case _ => AuthInfoUnavail
  }

  /** The unlock command reads the flag. */
  predicate UnlockVerdict(reply: Option<Response>) {
    match reply
    case Some(ChallengeReply(ok, _, _)) => ok
    case _ => false
  }

  /** On every reply the dispatcher can give, or none, both clients decide alike. */
  lemma ClientsAgree(outcome: Option<ChallengeOutcome>)
    ensures var reply := Some(Respond(outcome));
            && (PamVerdict(reply).Success? <==> UnlockVerdict(reply))
            && (UnlockVerdict(reply) <==> outcome.Some? && outcome.value.Ok?)
            && reply.value.signature == (if UnlockVerdict(reply) then Some(outcome.value.signature) else None)
    ensures PamVerdict(None) == AuthInfoUnavail && !UnlockVerdict(None)
  {}

  /** Reasons that blame the phone's answer stop the stack; those that blame its absence let it go on. */
  lemma RefusalsAndAbsences(o: ChallengeOutcome)
    ensures PamFor(ReasonOf(o)) == if o.Ok? then Success
                                   else if o.Denied? || o.Replay? || o.BadSignature? then AuthErr
                                   else AuthInfoUnavail
  {}

  // ---------------------------------------------------------------------------------------
  // Which peer is asked
  // ---------------------------------------------------------------------------------------

  /** The most recently created bonded record; the later one in the store on a tie. */
  predicate IsNewest(bonds: seq<Bond>, k: nat) {
    && k < |bonds| && bonds[k].status.Bonded?
    && forall j :: 0 <= j < |bonds| && bonds[j].status.Bonded? ==>
         bonds[j].createdAt <= bonds[k].createdAt && (j > k ==> bonds[j].createdAt < bonds[k].createdAt)
  }

  lemma NewestIsUnique(bonds: seq<Bond>, j: nat, k: nat)
    requires IsNewest(bonds, j) && IsNewest(bonds, k)
    ensures j == k
  {}

  method NewestBonded(bonds: seq<Bond>) returns (r: Option<nat>)
    ensures r.Some? ==> IsNewest(bonds, r.value)
    ensures r.None? <==> forall j :: 0 <= j < |bonds| ==> !bonds[j].status.Bonded?
  {
    r := None;
    for i := 0 to |bonds|
      invariant r.Some? ==> r.value < i && IsNewest(bonds[..i], r.value)
      invariant r.None? <==> forall j :: 0 <= j < i ==> !bonds[j].status.Bonded?
    {
      if bonds[i].status.Bonded? && (r.None? || bonds[r.value].createdAt <= bonds[i].createdAt) {
        r := Some(i);
      }
    }
    assert bonds[..|bonds|] == bonds;
  }

  // ---------------------------------------------------------------------------------------
  // A login and an unlock, end to end
  // ---------------------------------------------------------------------------------------

  /** The client's side of the socket: its own nonce, the request's delivery and the reply's arrival. */
  datatype Socket = Socket(nonceDrawn: bool, delivered: bool, answered: bool)

  /** The peer is live, it signed the frame with this call's nonce, and that nonce is fresh. */
  ghost predicate Deserved(daemon: Orchestrator, peerId: string, w: World)
    reads daemon`peers, if peerId in daemon.peers then {daemon.peers[peerId].cache} else {}
  {
    daemon.Proved(peerId, w) && daemon.Fresh(peerId, w.nonce.value)
  }

  /** The challenge went out and the phone wrote a response to it. */
  ghost predicate PhoneWrote(daemon: Orchestrator, peerId: string, w: World)
    reads daemon`peers
  {
    daemon.Live(peerId) && w.permit && w.nonce.Some? && w.notifyError.None? && w.response.Wrote?
  }

  /** The reply condemns: there is no orchestrator, or what the phone wrote does not verify or is a replay. */
  ghost predicate Condemned(daemon: Orchestrator?, peerId: string, w: World)
    reads if daemon == null then {} else {daemon},
          if daemon != null && peerId in daemon.peers then {daemon.peers[peerId].cache} else {}
  {
    daemon == null || (PhoneWrote(daemon, peerId, w) && !Deserved(daemon, peerId, w))
  }

  method Ask(daemon: Orchestrator?, peerId: string, w: World) returns (reply: Response)
    requires daemon != null ==> daemon.Valid()
    modifies if daemon == null then {} else {daemon as object} + daemon.caches
    ensures daemon != null ==> daemon.Valid() && daemon.peers == old(daemon.peers)
    ensures PamVerdict(Some(reply)).Success? <==> UnlockVerdict(Some(reply))
    ensures UnlockVerdict(Some(reply)) <==> daemon != null && old(Deserved(daemon, peerId, w))
    ensures PamVerdict(Some(reply)).AuthErr? <==> old(Condemned(daemon, peerId, w))
    ensures reply.ChallengeReply?
    ensures reply.signature == if UnlockVerdict(Some(reply)) then Some(w.response.octets) else None
  {
    if daemon == null {
      ClientsAgree(None);
      return Respond(None);
    }
    var o := daemon.IssueChallenge(peerId, w);
    ClientsAgree(Some(o));
    RefusalsAndAbsences(o);
    reply := Respond(Some(o));
  }

  /**
   The login module: success exactly when the newest bonded peer deserved it, a refusal
   exactly when the daemon's answer about it condemned, and otherwise the stack goes on.
   */
  method Authenticate(daemon: Orchestrator?, store: Loaded, socket: Socket, w: World) returns (code: PamCode)
    requires daemon != null ==> daemon.Valid()
    modifies if daemon == null then {} else {daemon as object} + daemon.caches
    ensures code.Success? <==>
              && socket.nonceDrawn && socket.delivered && socket.answered && daemon != null && store.Loaded?
              && exists k: nat :: IsNewest(store.bonds, k) && old(Deserved(daemon, store.bonds[k].peerId, w))
    ensures code.AuthErr? <==>
              && socket.nonceDrawn && socket.delivered && socket.answered && store.Loaded?
              && exists k: nat :: IsNewest(store.bonds, k) && old(Condemned(daemon, store.bonds[k].peerId, w))
  {
    if store.LoadFailed? { return AuthInfoUnavail; }
    var newest := NewestBonded(store.bonds);
    if newest.None? { return AuthInfoUnavail; }
    if !socket.nonceDrawn || !socket.delivered { return PamVerdict(None); }
    var k := newest.value;
    var reply := Ask(daemon, store.bonds[k].peerId, w);
    code := PamVerdict(if socket.answered then Some(reply) else None);
    forall j: nat | IsNewest(store.bonds, j) ensures j == k { NewestIsUnique(store.bonds, j, k); }
  }

  /**
   The unlock command: the session manager is asked to unlock exactly when the asked peer
   deserved it and it was no rehearsal, and success is reported only for a rehearsal or a
   session that was unlocked.
   */
  method UnlockRequest(daemon: Orchestrator?, named: Option<string>, store: Loaded, socket: Socket, w: World,
                       dryRun: bool, unlocks: bool)
    returns (verified: bool, unlocked: bool, success: bool)
    requires daemon != null ==> daemon.Valid()
    modifies if daemon == null then {} else {daemon as object} + daemon.caches
    ensures verified <==>
              && socket.delivered && socket.answered && daemon != null
              && (if named.Some? then old(Deserved(daemon, named.value, w))
                  else && store.Loaded?
                       && exists k: nat :: IsNewest(store.bonds, k) && old(Deserved(daemon, store.bonds[k].peerId, w)))
    ensures unlocked <==> verified && !dryRun && unlocks
    ensures success <==> verified && (dryRun || unlocked)
  {
    verified, unlocked, success := false, false, false;
    var peerId := "";
    if named.Some? {
      peerId := named.value;
    } else {
      if store.LoadFailed? { return; }
      var newest := NewestBonded(store.bonds);
      if newest.None? { return; }
      var k := newest.value;
      peerId := store.bonds[k].peerId;
      forall j: nat | IsNewest(store.bonds, j) ensures j == k { NewestIsUnique(store.bonds, j, k); }
    }
    if !socket.delivered { return; }
    var reply := Ask(daemon, peerId, w);
    verified := UnlockVerdict(if socket.answered then Some(reply) else None);
    if !verified { return; }
    if dryRun { return true, false, true; }
    unlocked := unlocks;
    success := unlocked;
  }
}
