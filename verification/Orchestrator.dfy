/** The daemon's challenge state machine and its live peer set. */
module Orchestrator {
  import opened Bytes
  import opened Journal
  import opened BondDirectory
  import opened ChallengeFrame
  import opened ReplayWindow

  // ---------------------------------------------------------------------------------------
  // Outcomes
  // ---------------------------------------------------------------------------------------

  datatype TransportError = UnknownToRadio | NoResponse | Backend

  datatype ChallengeOutcome =
    | Ok(signature: bytes)
    | Denied
    | Replay
    | BadSignature
    | TimedOut
    | UnknownPeer
    | Busy
    | TransportFailed

  function ReasonOf(o: ChallengeOutcome): string {
    match o
    case Ok(_) => "ok"
    case Denied => "denied"
    case Replay => "replay"
    case BadSignature => "bad-signature"
    case TimedOut => "response-timeout"
    case UnknownPeer => "unknown-peer"
    case Busy => "busy"
    case TransportFailed => "transport-error"
  }

  /** Each outcome has a word of its own. */
  lemma WordsExactly(o: ChallengeOutcome)
    ensures var reason := ReasonOf(o);
            && (reason == "ok" <==> o.Ok?) && (reason == "denied" <==> o.Denied?)
            && (reason == "replay" <==> o.Replay?) && (reason == "bad-signature" <==> o.BadSignature?)
            && (reason == "response-timeout" <==> o.TimedOut?) && (reason == "unknown-peer" <==> o.UnknownPeer?)
            && (reason == "busy" <==> o.Busy?) && (reason == "transport-error" <==> o.TransportFailed?)
  {}

  function TransportOutcome(e: TransportError): ChallengeOutcome {
    match e
    case UnknownToRadio => ChallengeOutcome.UnknownPeer
    case NoResponse => TimedOut
    case Backend => TransportFailed
  }

  /** Everything one challenge meets outside the daemon: clock, permit, random source, radio and phone. */
  datatype World = World(start: int, end: int, permit: bool, nonce: Option<Nonce>,
                         notifyError: Option<TransportError>, response: Reply)

  datatype Reply = Wrote(octets: bytes) | Silent(error: TransportError)

  /** What the radio reports, if it does not report a response. */
  function Failure(w: World): Option<TransportError> {
    if w.notifyError.Some? then w.notifyError else if w.response.Silent? then Some(w.response.error) else None
  }

  datatype AuditRecord = AuditRecord(peerId: string, nonceHex: string, start: int, end: int, reason: string)

  const ZERO_NONCE_HEX: string := "00000000000000000000000000000000"

  // ---------------------------------------------------------------------------------------
  // Peers and challenges
  // ---------------------------------------------------------------------------------------

  datatype PeerEntry = PeerEntry(bondKey: bytes, pubkey: Option<bytes>, cache: NonceCache)

  /** The signature check of a response to the challenge that carries `nonce`. */
  predicate Verifies(c: Crypto, pubkey: bytes, nonce: Nonce, response: bytes) {
    |response| == SIGNATURE_LEN && c.validKey(pubkey) && c.verify(pubkey, ChallengeBody(nonce), response)
  }

  /** Two keys give the challenge that carries `nonce` the same tag. */
  predicate SameTag(c: Crypto, key: bytes, other: bytes, nonce: Nonce) {
    c.mac(key, ChallengeBody(nonce)) == c.mac(other, ChallengeBody(nonce))
  }

  function Signature(c: Crypto, secret: bytes, nonce: Nonce): bytes { c.sign(secret, ChallengeBody(nonce)) }

  ghost predicate Sound(cache: NonceCache)
    reads cache
  {
    cache.Valid() && Spaced(cache.history)
  }

  class Orchestrator {
    const crypto: Crypto
    var peers: map<string, PeerEntry>
    var audit: seq<AuditRecord>
    ghost var sent: seq<(string, bytes)>
    /** Every nonce cache a peer has had. */
    ghost var caches: set<NonceCache>

    /** Every peer has a 32-octet key and a cache of its own, every cache is its window, none was ever violated. */
    ghost predicate Valid()
      reads this`peers, this`caches, caches
    {
      forall id :: id in peers ==>
        && |peers[id].bondKey| == 32
        && peers[id].cache in caches && peers[id].cache.owner == id && Sound(peers[id].cache)
    }

    constructor (crypto: Crypto)
      ensures Valid() && this.crypto == crypto && peers == map[] && audit == [] && sent == []
    {
      this.crypto, peers, audit, sent, caches := crypto, map[], [], [], {};
    }

    method Audit(peerId: string, nonceHex: string, start: int, end: int, reason: string)
      modifies this`audit
      ensures audit == old(audit) + [AuditRecord(peerId, nonceHex, start, end, reason)]
    {
      audit := audit + [AuditRecord(peerId, nonceHex, start, end, reason)];
    }

    /** A peer can be challenged when it is live and its public key is known. */
    ghost predicate Live(peerId: string)
      reads this`peers
    {
      peerId in peers && peers[peerId].pubkey.Some?
    }

    /** The exchange got as far as a response that carries a valid signature over this call's nonce. */
    ghost predicate Proved(peerId: string, w: World)
      reads this`peers
    {
      && Live(peerId) && w.permit && w.nonce.Some? && w.notifyError.None? && w.response.Wrote?
      && Verifies(crypto, peers[peerId].pubkey.value, w.nonce.value, w.response.octets)
    }

    /** None of the last 64 nonces accepted from the peer is this one. */
    ghost predicate Fresh(peerId: string, nonce: Nonce)
      requires peerId in peers
      reads this`peers, peers[peerId].cache
    {
      !Recent(peers[peerId].cache.history, nonce)
    }

    /** The nonce of this call is not among the last 64 accepted from the peer. */
    ghost predicate Unseen(peerId: string, w: World)
      reads this`peers, if peerId in peers then {peers[peerId].cache} else {}
    {
      peerId in peers && w.nonce.Some? && Fresh(peerId, w.nonce.value)
    }

    /** Every outcome with its exact condition. */
    ghost predicate Earned(peerId: string, w: World, unseen: bool, o: ChallengeOutcome)
      reads this`peers
    {
      var out := Live(peerId) && w.permit && w.nonce.Some?;
      && (o.Ok? <==> Proved(peerId, w) && unseen) && (o.Ok? ==> o.signature == w.response.octets && |o.signature| == 64)
      && (o.Replay? <==> Proved(peerId, w) && !unseen)
      && (o.BadSignature? <==> out && Failure(w).None? && !Proved(peerId, w))
      && (o.Busy? <==> Live(peerId) && !w.permit)
      && (o.TimedOut? <==> out && Failure(w) == Some(NoResponse))
      && (o.UnknownPeer? <==> !Live(peerId) || (out && Failure(w) == Some(UnknownToRadio)))
      && (o.TransportFailed? <==> Live(peerId) && w.permit && (w.nonce.None? || Failure(w) == Some(Backend)))
      && !o.Denied?
    }

    /** The word of an audit record, by what happened. */
    ghost predicate Worded(peerId: string, w: World, unseen: bool, reason: string)
      reads this`peers
    {
      var out := Live(peerId) && w.permit && w.nonce.Some?;
      && (reason == "ok" <==> Proved(peerId, w) && unseen)
      && (reason == "replay" <==> Proved(peerId, w) && !unseen)
      && (reason == "bad-signature" <==> out && Failure(w).None? && !Proved(peerId, w))
      && (reason == "busy" <==> Live(peerId) && !w.permit)
      && (reason == "response-timeout" <==> out && Failure(w) == Some(NoResponse))
      && (reason == "unknown-peer" <==> !Live(peerId) || (out && Failure(w) == Some(UnknownToRadio)))
      && (reason == "transport-error" <==>
            Live(peerId) && w.permit && (w.nonce.None? || Failure(w) == Some(Backend)))
    }

    lemma EarnedIsWorded(peerId: string, w: World, unseen: bool, o: ChallengeOutcome)
      requires Earned(peerId, w, unseen, o)
      ensures Worded(peerId, w, unseen, ReasonOf(o))
    {
      WordsExactly(o);
    }

    /** Send the challenge and judge the response, once the permit and a nonce are in hand. */
    method RunChallenge(peerId: string, nonce: Nonce, entry: PeerEntry, w: World) returns (o: ChallengeOutcome)
      requires Valid() && Live(peerId) && entry == peers[peerId] && w.permit && w.nonce == Some(nonce)
      modifies this`audit, this`sent, entry.cache
      ensures Earned(peerId, w, old(Unseen(peerId, w)), o)
      ensures entry.cache.history == old(entry.cache.history) + (if o.Ok? then [nonce] else [])
      ensures audit == old(audit) + [AuditRecord(peerId, Hex(nonce), w.start, w.end, ReasonOf(o))]
      ensures sent == old(sent) + [(peerId, FrameBytes(Challenge(crypto, entry.bondKey, nonce)))]
      ensures Valid()
    {
      var challenge := Frame(WIRE_VERSION, nonce, [], seq(TAG_LEN, _ => 0));
      challenge := challenge.(tag := crypto.mac(entry.bondKey, Body(challenge).value));
      var _, encoded := EncodeFrame(challenge, []);
      assert encoded == FrameBytes(Challenge(crypto, entry.bondKey, nonce));
      sent := sent + [(peerId, encoded)];
      if w.notifyError.Some? {
        o := TransportOutcome(w.notifyError.value);
      } else if w.response.Silent? {
        o := TransportOutcome(w.response.error);
      } else {
        var response := w.response.octets;
        if |response| != SIGNATURE_LEN || !crypto.validKey(entry.pubkey.value)
           || !crypto.verify(entry.pubkey.value, Body(challenge).value, response) {
          o := BadSignature;
        } else {
          o := Admit(entry.cache, nonce, response);
        }
      }
      Audit(peerId, Hex(nonce), w.start, w.end, ReasonOf(o));
    }

    /** The replay check and, if it passes, the insertion, under one lock. */
    method Admit(cache: NonceCache, nonce: Nonce, response: bytes) returns (o: ChallengeOutcome)
      requires cache.Valid() && Spaced(cache.history)
      modifies cache
      ensures cache.Valid() && Spaced(cache.history)
      ensures o == if Recent(old(cache.history), nonce) then Replay else Ok(response)
      ensures cache.history == old(cache.history) + (if o.Ok? then [nonce] else [])
    {
      SpacedExactly(cache.history, nonce);
      WindowExactly(cache.history, nonce);
      var seen := cache.Contains(nonce);
      if seen { return Replay; }
      cache.Insert(nonce);
      o := Ok(response);
    }

    /** The guards of a challenge, then the challenge. */
    method GuardedChallenge(peerId: string, w: World) returns (o: ChallengeOutcome)
      requires Valid()
      modifies this`audit, this`sent, caches
      ensures Valid()
      ensures Earned(peerId, w, old(Unseen(peerId, w)), o)
      ensures o.Ok? ==> peers[peerId].cache.history == old(peers[peerId].cache.history) + [w.nonce.value]
      ensures forall id :: id in peers && (id != peerId || !o.Ok?) ==>
                peers[id].cache.history == old(peers[id].cache.history)
      ensures |audit| == |old(audit)| + 1 && old(audit) <= audit
      ensures audit[|old(audit)|].peerId == peerId && audit[|old(audit)|].reason == ReasonOf(o)
      ensures audit[|old(audit)|].nonceHex ==
              if Live(peerId) && w.permit && w.nonce.Some? then Hex(w.nonce.value) else ZERO_NONCE_HEX
      ensures audit[|old(audit)|].start == w.start
      ensures audit[|old(audit)|].end == if Live(peerId) then w.end else w.start
      ensures sent == old(sent) + if Live(peerId) && w.permit && w.nonce.Some?
                                  then [(peerId, FrameBytes(Challenge(crypto, peers[peerId].bondKey, w.nonce.value)))]
                                  else []
    {
      if peerId !in peers || peers[peerId].pubkey.None? {
        o := ChallengeOutcome.UnknownPeer;
        Audit(peerId, ZERO_NONCE_HEX, w.start, w.start, ReasonOf(o));
      } else if !w.permit {
        o := Busy;
        Audit(peerId, ZERO_NONCE_HEX, w.start, w.end, ReasonOf(o));
      } else if w.nonce.None? {
        o := TransportFailed;
        Audit(peerId, ZERO_NONCE_HEX, w.start, w.end, ReasonOf(o));
      } else {
        o := RunChallenge(peerId, w.nonce.value, peers[peerId], w);
      }
    }

    /**
     One challenge. It succeeds exactly when the peer is live, the permit was had, the phone
     signed the frame carrying this call's nonce and that nonce is outside the peer's window;
     it then and only then enters the nonce in that peer's history; no other peer's history
     changes; and whatever happens, exactly one audit record is written, with its reason.
     */
    method IssueChallenge(peerId: string, w: World) returns (o: ChallengeOutcome)
      requires Valid()
      modifies this`audit, this`sent, caches
      ensures Valid()
      ensures Earned(peerId, w, old(Unseen(peerId, w)), o)
      ensures o.Ok? ==> peers[peerId].cache.history == old(peers[peerId].cache.history) + [w.nonce.value]
      ensures forall id :: id in peers && (id != peerId || !o.Ok?) ==>
                peers[id].cache.history == old(peers[id].cache.history)
      ensures |audit| == |old(audit)| + 1 && old(audit) <= audit
      ensures audit[|old(audit)|].peerId == peerId && audit[|old(audit)|].reason == ReasonOf(o)
      ensures Worded(peerId, w, old(Unseen(peerId, w)), audit[|old(audit)|].reason)
      ensures audit[|old(audit)|].nonceHex ==
              if Live(peerId) && w.permit && w.nonce.Some? then Hex(w.nonce.value) else seq(32, _ => '0')
      ensures audit[|old(audit)|].start == w.start
      ensures audit[|old(audit)|].end == if Live(peerId) then w.end else w.start
      ensures sent == old(sent) + if Live(peerId) && w.permit && w.nonce.Some?
                                  then [(peerId, FrameBytes(Challenge(crypto, peers[peerId].bondKey, w.nonce.value)))]
                                  else []
    {
      o := GuardedChallenge(peerId, w);
      EarnedIsWorded(peerId, w, old(Unseen(peerId, w)), o);
      assert ZERO_NONCE_HEX == seq(32, _ => '0');
    }

    /**
     The whole loop with a phone that holds `phoneKey` and `secret`: it answers exactly when
     its key gives the challenge's tag, and then it is let in exactly when its signature
     stands under the registered key and the nonce is fresh.
     */
    method ChallengePhone(peerId: string, phoneKey: bytes, secret: bytes, nonce: Nonce, start: int, end: int)
      returns (o: ChallengeOutcome)
      requires Valid() && |phoneKey| == BOND_KEY_LEN && |secret| == SECRET_KEY_LEN
      modifies this`audit, this`sent, caches
      ensures Valid()
      ensures !Live(peerId) ==> o.UnknownPeer?
      ensures Live(peerId) ==> (o.TimedOut? <==> !SameTag(crypto, phoneKey, peers[peerId].bondKey, nonce))
      ensures Live(peerId) ==>
                (o.BadSignature? <==>
                   && SameTag(crypto, phoneKey, peers[peerId].bondKey, nonce)
                   && !Verifies(crypto, peers[peerId].pubkey.value, nonce, Signature(crypto, secret, nonce)))
      ensures Live(peerId) ==> o.TimedOut? || o.BadSignature? || o.Ok? || o.Replay?
      ensures Live(peerId) ==>
                (o.Ok? <==> && SameTag(crypto, phoneKey, peers[peerId].bondKey, nonce) && old(Fresh(peerId, nonce))
                            && Verifies(crypto, peers[peerId].pubkey.value, nonce, Signature(crypto, secret, nonce)))
    {
      var response := Silent(NoResponse);
      if peerId in peers {
        response := PhoneReply(crypto, peers[peerId].bondKey, phoneKey, secret, nonce);
      }
      o := IssueChallenge(peerId, World(start, end, true, Some(nonce), None, response));
    }

    /** Every live peer's accepted nonces. */
    ghost function Histories(): map<string, seq<Nonce>>
      requires Valid()
      reads this`peers, this`caches, caches
    {
      map id | id in peers :: peers[id].cache.history
    }

    method ServeOne(request: (string, World)) returns (o: ChallengeOutcome)
      requires Valid()
      modifies this`audit, this`sent, caches
      ensures Valid() && Histories() == Grown(old(Histories()), request, o)
      ensures WellJudged(old(Histories()), request, o)
      ensures Proved(request.0, request.1) ==> o.Ok? || o.Replay?
      ensures |audit| == |old(audit)| + 1 && old(audit) <= audit && Reports(audit[|old(audit)|], request, o)
    {
      ghost var was := Histories();
      o := IssueChallenge(request.0, request.1);
      GrownExactly(was, Histories(), request, o);
    }

    /** Every properly signed request so far was let in or refused as a replay. */
    ghost predicate Settled(requests: seq<(string, World)>, outcomes: seq<ChallengeOutcome>)
      requires |outcomes| <= |requests|
      reads this`peers
    {
      forall i :: 0 <= i < |outcomes| && Proved(requests[i].0, requests[i].1) ==> outcomes[i].Ok? || outcomes[i].Replay?
    }

    /** Since the histories were `was`, the first requests have had these outcomes. */
    ghost predicate HasServed(was: map<string, seq<Nonce>>, requests: seq<(string, World)>,
                              outcomes: seq<ChallengeOutcome>)
      requires Valid() && |outcomes| <= |requests|
      reads this`peers, this`caches, caches
    {
      RunSoFar(was, Histories(), requests, outcomes) && Settled(requests, outcomes)
    }

    method ServeNext(ghost was: map<string, seq<Nonce>>, requests: seq<(string, World)>,
                     ghost outcomes: seq<ChallengeOutcome>, k: nat)
      returns (o: ChallengeOutcome)
      requires Valid() && |outcomes| == k < |requests| && HasServed(was, requests, outcomes)
      modifies this`audit, this`sent, caches
      ensures Valid() && HasServed(was, requests, outcomes + [o])
      ensures |audit| == |old(audit)| + 1 && old(audit) <= audit && Reports(audit[|old(audit)|], requests[k], o)
    {
      ghost var before := Histories();
      o := ServeOne(requests[k]);
      RunGoesOn(was, before, requests, outcomes, o);
    }

    /** In numbers, what no peer's history ever violates. */
    lemma HistoriesNeverSoon()
      requires Valid()
      ensures forall id :: id in peers ==> NeverSoon(Histories()[id])
    {
      forall id | id in peers ensures NeverSoon(Histories()[id]) {
        WindowExactly(peers[id].cache.history, seq(NONCE_LEN, _ => 0));
      }
    }

    /**
     Challenges one after another, as the socket server issues them: one audit record each;
     every peer's history grows by exactly the nonces of its successful challenges; a properly
     signed one is refused exactly if its nonce is among the last 64 accepted from that peer;
     so equal nonces are never accepted within 65 acceptances.
     */
    method Serve(requests: seq<(string, World)>) returns (outcomes: seq<ChallengeOutcome>)
      requires Valid()
      modifies this`audit, this`sent, caches
      ensures Valid() && |outcomes| == |requests|
      ensures Histories() == GrownBy(old(Histories()), requests, outcomes)
      ensures |audit| == |old(audit)| + |requests|
      ensures forall i :: 0 <= i < |requests| ==> Reports(audit[|old(audit)| + i], requests[i], outcomes[i])
      ensures AllJudged(old(Histories()), requests, outcomes) && Settled(requests, outcomes)
      ensures forall id :: id in peers ==> NeverSoon(Histories()[id])
    {
      outcomes := [];
      ghost var was := Histories();
      for k := 0 to |requests|
        invariant Valid() && |outcomes| == k && HasServed(was, requests, outcomes)
        invariant |audit| == |old(audit)| + k
        invariant forall i :: 0 <= i < k ==> Reports(audit[|old(audit)| + i], requests[i], outcomes[i])
      {
        var o := ServeNext(was, requests, outcomes, k);
        outcomes := outcomes + [o];
      }
      assert requests[..|requests|] == requests;
      HistoriesNeverSoon();
    }

    // -------------------------------------------------------------------------------------
    // Reload
    // -------------------------------------------------------------------------------------

    /** The peers a store asks for: not revoked, with a key file of the right length. */
    method ComputeNewSet(bonds: seq<Bond>, keys: map<string, bytes>) returns (wanted: map<string, bytes>)
      ensures forall id :: id in wanted <==> Wanted(bonds, keys, id)
      ensures forall id :: id in wanted ==> id in keys && wanted[id] == keys[id]
    {
      wanted := map[];
      for i := 0 to |bonds|
        invariant forall id :: id in wanted <==> Wanted(bonds[..i], keys, id)
        invariant forall id :: id in wanted ==> id in keys && wanted[id] == keys[id]
      {
        var bond := bonds[i];
        assert bonds[..i + 1] == bonds[..i] + [bond];
        if !bond.status.Revoked? && bond.peerId in keys && |keys[bond.peerId]| == BOND_KEY_BYTES {
          wanted := wanted[bond.peerId := keys[bond.peerId]];
        }
      }
      assert bonds[..|bonds|] == bonds;
    }

    /** Drop a peer if the radio lets it go. */
    method DoRemovePeer(peerId: string, radioFails: bool)
      requires Valid()
      modifies this`peers
      ensures Valid() && peers == if radioFails then old(peers) else old(peers) - {peerId}
    {
      if !radioFails { peers := peers - {peerId}; }
    }

    /** Add a peer with an empty nonce cache if the radio takes it. */
    method DoAddPeer(bonds: seq<Bond>, peerId: string, key: bytes, radioFails: bool)
      requires Valid() && peerId !in peers && Has(bonds, peerId) && |key| == 32
      modifies this`peers, this`caches
      ensures old(caches) <= caches && fresh(caches - old(caches))
      ensures Valid() && forall id :: id in peers <==> id in old(peers) || (id == peerId && !radioFails)
      ensures forall id :: id in old(peers) ==> peers[id] == old(peers[id])
      ensures !radioFails ==> Registered(bonds, key, peerId, peers[peerId]) && peers[peerId].cache.history == []
    {
      var n := IndexOf(bonds, peerId);
      if !radioFails {
        var cache := new NonceCache(peerId);
        caches := caches + {cache};
        peers := peers[peerId := PeerEntry(key, Some(bonds[n].pubkey), cache)];
      }
    }

    /** Remove the peers no longer wanted, one by one, in any order. */
    method RemoveAll(stale: set<string>, failures: set<string>)
      requires Valid()
      modifies this`peers
      ensures Valid() && forall id :: id in peers <==> id in old(peers) && id !in stale - failures
      ensures forall id :: id in peers ==> peers[id] == old(peers[id])
    {
      ghost var was := peers;
      var left := stale;
      while left != {}
        invariant Valid() && left <= stale
        invariant forall id :: id in peers ==> id in was && peers[id] == was[id]
        invariant forall id :: id in peers && id in stale && id !in left ==> id in failures
        invariant forall id :: id in was && id !in peers ==> id in stale && id !in failures
        decreases left
      {
        var id :| id in left;
        DoRemovePeer(id, id in failures);
        left := left - {id};
      }
    }

    /** Add the newly wanted peers, one by one, in any order. */
    method AddAll(bonds: seq<Bond>, wanted: map<string, bytes>, missing: set<string>, failures: set<string>)
      requires Valid() && missing !! peers.Keys && missing <= wanted.Keys
      requires forall id :: id in missing ==> Has(bonds, id) && |wanted[id]| == 32
      modifies this`peers, this`caches
      ensures old(caches) <= caches && fresh(caches - old(caches))
      ensures Valid() && forall id :: id in peers <==> id in old(peers) || id in missing - failures
      ensures forall id :: id in old(peers) ==> peers[id] == old(peers[id])
      ensures forall id :: id in missing - failures ==> Registered(bonds, wanted[id], id, peers[id])
      ensures forall id :: id in missing - failures ==> peers[id].cache.history == []
      decreases missing
    {
      if missing == {} { return; }
      var id :| id in missing;
      DoAddPeer(bonds, id, wanted[id], id in failures);
      AddAll(bonds, wanted, missing - {id}, failures);
    }

    /**
     Bring the live peers in line with a store, whatever the radio refuses. The live ids
     become those kept, those it would not let go and those it took; kept peers keep their
     very entry; new ones start with the stored key and an empty history. Returns the ids it
     tried to add and to remove.
     */
    method Reload(bonds: seq<Bond>, keys: map<string, bytes>, failedAdds: set<string>, failedRemoves: set<string>)
      returns (added: set<string>, removed: set<string>)
      requires Valid()
      modifies this`peers, this`caches
      ensures old(caches) <= caches && fresh(caches - old(caches))
      ensures Valid()
      ensures forall id :: id in added <==> Wanted(bonds, keys, id) && id !in old(peers)
      ensures forall id :: id in removed <==> !Wanted(bonds, keys, id) && id in old(peers)
      ensures peers.Keys == old(peers.Keys) - (removed - failedRemoves) + (added - failedAdds)
      ensures forall id :: id in peers && id in old(peers) ==> peers[id] == old(peers[id])
      ensures forall id :: id in added - failedAdds ==>
                id in keys && Registered(bonds, keys[id], id, peers[id]) && peers[id].cache.history == []
    {
      var wanted := ComputeNewSet(bonds, keys);
      added, removed := wanted.Keys - peers.Keys, peers.Keys - wanted.Keys;
      RemoveAll(removed, failedRemoves);
      assert forall id :: id in added ==> Has(bonds, id);
      AddAll(bonds, wanted, added, failedAdds);
    }

    /**
     When a reload that the radio does not hinder leaves every live peer with the key of its
     key file: exactly if no key file of a peer that stays has changed. A peer whose file has
     changed keeps the old key.
     */
    method ReloadKeys(bonds: seq<Bond>, keys: map<string, bytes>)
      requires Valid()
      modifies this`peers, this`caches
      ensures old(caches) <= caches && fresh(caches - old(caches))
      ensures Valid() && forall id :: id in peers <==> Wanted(bonds, keys, id)
      ensures (forall id :: id in peers ==> id in keys && peers[id].bondKey == keys[id]) <==>
              (forall id :: id in old(peers) && Wanted(bonds, keys, id) ==> old(peers[id].bondKey) == keys[id])
      ensures forall id :: id in old(peers) && Wanted(bonds, keys, id) && old(peers[id].bondKey) != keys[id] ==>
                peers[id].bondKey == old(peers[id].bondKey) != keys[id]
    {
      var _, _ := Reload(bonds, keys, {}, {});
    }

    /** Reloading the same store again, when the radio refused nothing, touches nothing. */
    method ReloadTwice(bonds: seq<Bond>, keys: map<string, bytes>) returns (added: set<string>, removed: set<string>)
      requires Valid()
      modifies this`peers, this`caches
      ensures old(caches) <= caches && fresh(caches - old(caches))
      ensures Valid() && added == {} && removed == {}
      ensures forall id :: id in peers <==> Wanted(bonds, keys, id)
    {
      added, removed := Reload(bonds, keys, {}, {});
      added, removed := Reload(bonds, keys, {}, {});
    }
  }

  /** One live peer, its key file rewritten, one reload: the daemon still holds the old key. */
  method ChangedKeyIsNotTakenUp(crypto: Crypto, bond: Bond, oldKey: bytes, newKey: bytes) returns (o: Orchestrator)
    requires !bond.status.Revoked? && |oldKey| == BOND_KEY_BYTES && |newKey| == BOND_KEY_BYTES && oldKey != newKey
    ensures o.Valid() && bond.peerId in o.peers && o.peers[bond.peerId].bondKey == oldKey
  {
    o := new Orchestrator(crypto);
    var store, id := [bond], bond.peerId;
    assert store[0].peerId == id;
    o.ReloadKeys(store, map[id := oldKey]);
    o.ReloadKeys(store, map[id := newKey]);
  }

  /** What a phone does with the daemon's challenge: sign it if the tag is right under its key, else say nothing. */
  method PhoneReply(c: Crypto, bondKey: bytes, phoneKey: bytes, secret: bytes, nonce: Nonce) returns (r: Reply)
    requires |phoneKey| == BOND_KEY_LEN && |secret| == SECRET_KEY_LEN
    ensures r == if SameTag(c, phoneKey, bondKey, nonce) then Wrote(Signature(c, secret, nonce)) else Silent(NoResponse)
  {
    var frame := FrameBytes(Challenge(c, bondKey, nonce));
    ChallengeMeetsPhone(c, bondKey, phoneKey, secret, nonce);
    var accepted := VerifyChallenge(c, phoneKey, frame);
    if accepted != Answered([]) { return Silent(NoResponse); }
    r := Wrote(SignChallenge(c, secret, frame).octets);
  }

  /** The public key of the first record of a peer. */
  ghost predicate FirstKey(bonds: seq<Bond>, id: string, pubkey: bytes) {
    exists k :: && 0 <= k < |bonds| && bonds[k].peerId == id && bonds[k].pubkey == pubkey
                && forall j :: 0 <= j < k ==> bonds[j].peerId != id
  }

  /** The entry a store and a key give a peer. */
  ghost predicate Registered(bonds: seq<Bond>, key: bytes, id: string, entry: PeerEntry) {
    entry.bondKey == key && entry.pubkey.Some? && FirstKey(bonds, id, entry.pubkey.value)
  }

  predicate Reports(record: AuditRecord, request: (string, World), o: ChallengeOutcome) {
    record.peerId == request.0 && record.reason == ReasonOf(o)
  }

  /** What one challenge adds to the history of peer `id`. */
  function Gain(request: (string, World), o: ChallengeOutcome, id: string): seq<Nonce> {
    if request.0 == id && o.Ok? && request.1.nonce.Some? then [request.1.nonce.value] else []
  }

  function Grown(histories: map<string, seq<Nonce>>, request: (string, World), o: ChallengeOutcome)
    : map<string, seq<Nonce>>
  {
    map id | id in histories :: histories[id] + Gain(request, o, id)
  }

  function GrownBy(histories: map<string, seq<Nonce>>, requests: seq<(string, World)>, outcomes: seq<ChallengeOutcome>)
    : (after: map<string, seq<Nonce>>)
    requires |requests| == |outcomes|
    ensures after.Keys == histories.Keys
  {
    if requests == [] then histories
    else
      var n := |requests| - 1;
      Grown(GrownBy(histories, requests[..n], outcomes[..n]), requests[n], outcomes[n])
  }

  lemma GrownByOne(histories: map<string, seq<Nonce>>, requests: seq<(string, World)>, outcomes: seq<ChallengeOutcome>,
                   request: (string, World), o: ChallengeOutcome)
    requires |requests| == |outcomes|
    ensures GrownBy(histories, requests + [request], outcomes + [o]) ==
            Grown(GrownBy(histories, requests, outcomes), request, o)
  {
    var n := |requests|;
    assert (requests + [request])[..n] == requests && (outcomes + [o])[..n] == outcomes;
  }

  lemma GrownExactly(was: map<string, seq<Nonce>>, now: map<string, seq<Nonce>>, request: (string, World),
                     o: ChallengeOutcome)
    requires was.Keys == now.Keys && (o.Ok? ==> request.1.nonce.Some?)
    requires o.Ok? && request.0 in was ==> now[request.0] == was[request.0] + [request.1.nonce.value]
    requires forall id :: id in was && (id != request.0 || !o.Ok?) ==> now[id] == was[id]
    ensures now == Grown(was, request, o)
  {
    forall id | id in was ensures now[id] == was[id] + Gain(request, o, id) {}
  }

  /** The nonces of the successful challenges to one peer, in order. */
  function Accepted(requests: seq<(string, World)>, outcomes: seq<ChallengeOutcome>, id: string): seq<Nonce>
    requires |requests| == |outcomes|
  {
    if requests == [] then []
    else
      var n := |requests| - 1;
      Accepted(requests[..n], outcomes[..n], id) + Gain(requests[n], outcomes[n], id)
  }

  /** Over a whole run each peer's history grows by its own accepted nonces and nothing else. */
  lemma {:induction false} HistoriesAreAcceptances(histories: map<string, seq<Nonce>>, requests: seq<(string, World)>,
                                                   outcomes: seq<ChallengeOutcome>, id: string)
    requires |requests| == |outcomes| && id in histories
    ensures var after := GrownBy(histories, requests, outcomes);
            id in after && after[id] == histories[id] + Accepted(requests, outcomes, id)
  {
    if requests != [] {
      var n := |requests| - 1;
      HistoriesAreAcceptances(histories, requests[..n], outcomes[..n], id);
    }
  }

  /** A replay was accepted among the last 64 nonces of the peer, and what is let in was not. */
  ghost predicate WellJudged(histories: map<string, seq<Nonce>>, request: (string, World), o: ChallengeOutcome) {
    var (id, w) := request;
    o.Ok? || o.Replay? ==>
      id in histories && w.nonce.Some? && (o.Replay? <==> Recent(histories[id], w.nonce.value))
  }

  /** The histories before request `i`, by the nonces accepted until then. */
  ghost function Before(histories: map<string, seq<Nonce>>, requests: seq<(string, World)>,
                        outcomes: seq<ChallengeOutcome>, i: nat): map<string, seq<Nonce>>
    requires i <= |outcomes| <= |requests|
  {
    map id | id in histories :: histories[id] + Accepted(requests[..i], outcomes[..i], id)
  }

  ghost predicate JudgedAt(histories: map<string, seq<Nonce>>, requests: seq<(string, World)>,
                           outcomes: seq<ChallengeOutcome>, i: nat)
    requires i < |outcomes| <= |requests|
  {
    WellJudged(Before(histories, requests, outcomes, i), requests[i], outcomes[i])
  }

  ghost predicate AllJudged(histories: map<string, seq<Nonce>>, requests: seq<(string, World)>,
                            outcomes: seq<ChallengeOutcome>)
    requires |outcomes| <= |requests|
  {
    forall i: nat :: i < |outcomes| ==> JudgedAt(histories, requests, outcomes, i)
  }

  lemma BeforeIsGrown(histories: map<string, seq<Nonce>>, requests: seq<(string, World)>,
                      outcomes: seq<ChallengeOutcome>)
    requires |outcomes| <= |requests|
    ensures Before(histories, requests, outcomes, |outcomes|) ==
            GrownBy(histories, requests[..|outcomes|], outcomes)
  {
    var k := |outcomes|;
    assert outcomes[..k] == outcomes;
    forall id | id in histories
      ensures GrownBy(histories, requests[..k], outcomes)[id] == histories[id] + Accepted(requests[..k], outcomes, id)
    {
      HistoriesAreAcceptances(histories, requests[..k], outcomes, id);
    }
  }

  /** Histories that were `was` are `now`, after the first requests had these outcomes. */
  ghost predicate RunSoFar(was: map<string, seq<Nonce>>, now: map<string, seq<Nonce>>,
                           requests: seq<(string, World)>, outcomes: seq<ChallengeOutcome>)
    requires |outcomes| <= |requests|
  {
    now == GrownBy(was, requests[..|outcomes|], outcomes) && AllJudged(was, requests, outcomes)
  }

  lemma RunGoesOn(was: map<string, seq<Nonce>>, now: map<string, seq<Nonce>>, requests: seq<(string, World)>,
                  outcomes: seq<ChallengeOutcome>, o: ChallengeOutcome)
    requires |outcomes| < |requests| && RunSoFar(was, now, requests, outcomes)
    requires WellJudged(now, requests[|outcomes|], o)
    ensures RunSoFar(was, Grown(now, requests[|outcomes|], o), requests, outcomes + [o])
  {
    var k := |outcomes|;
    NextJudged(was, requests, outcomes, o);
    assert requests[..k] + [requests[k]] == requests[..k + 1];
    GrownByOne(was, requests[..k], outcomes, requests[k], o);
  }

  lemma NextJudged(histories: map<string, seq<Nonce>>, requests: seq<(string, World)>,
                   outcomes: seq<ChallengeOutcome>, o: ChallengeOutcome)
    requires |outcomes| < |requests| && AllJudged(histories, requests, outcomes)
    requires WellJudged(GrownBy(histories, requests[..|outcomes|], outcomes), requests[|outcomes|], o)
    ensures AllJudged(histories, requests, outcomes + [o])
  {
    var k, longer := |outcomes|, outcomes + [o];
    forall i: nat | i < |longer| ensures JudgedAt(histories, requests, longer, i) {
      assert longer[..i] == outcomes[..i];
      assert Before(histories, requests, longer, i) == Before(histories, requests, outcomes, i);
      if i < k {
        assert JudgedAt(histories, requests, outcomes, i);
      } else {
        BeforeIsGrown(histories, requests, outcomes);
      }
    }
  }

  ghost predicate Wanted(bonds: seq<Bond>, keys: map<string, bytes>, id: string) {
    && id in keys && |keys[id]| == BOND_KEY_BYTES
    && exists i :: 0 <= i < |bonds| && bonds[i].peerId == id && !bonds[i].status.Revoked?
  }
}
