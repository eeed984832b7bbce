/** From a completed pairing to a peer that can be challenged. */
module PairedPeer {
  import opened Bytes
  import opened BondDirectory
  import opened PairRecovery
  import opened PairOutcome
  import opened ChallengeFrame
  import opened Orchestrator
  import opened TerminalPairing
  import TerminalBackend
  import Verdict

  /** The key files as the daemon finds them: peer identifier to contents. */
  function KeyFiles(d: Dir): map<string, bytes> {
    map p | p in d && p.ActiveKey? && d[p].Raw? :: p.peerId := d[p].octets
  }

  /** In a trustworthy directory the peers a reload wants are exactly the bonded ones. */
  lemma WantedAreBonded(d: Dir, naming: Naming, id: string)
    requires Trustworthy(d, naming) && BondsFile in d
    ensures Wanted(d[BondsFile].bonds, KeyFiles(d), id) <==>
            exists i :: && 0 <= i < |d[BondsFile].bonds| && d[BondsFile].bonds[i].peerId == id
                        && d[BondsFile].bonds[i].status.Bonded?
  {}

  /** The directory once the commit consumer has staged, marked and promoted. */
  function AfterPromote(d: Dir, stage: Request, naming: Naming): Dir
    requires stage.Stage?
  {
    Served(d, [stage, MarkCommit] + [Promote(stage.peerId)], naming)
  }

  /** What stage, mark and promote leave for the daemon: the staged bond and its key, in a trustworthy directory. */
  lemma PromotedFiles(d: Dir, stage: Request, naming: Naming)
    requires WellStaged(stage, naming) && Trustworthy(d, naming)
    ensures var e := AfterPromote(d, stage, naming);
            && Trustworthy(e, naming) && BondsFile in e && stage.bond in e[BondsFile].bonds
            && ActiveKey(stage.peerId) in e && e[ActiveKey(stage.peerId)] == Raw(stage.key)
  {
    var id := stage.peerId;
    var marked := Served(d, [stage, MarkCommit], naming);
    ServedIsTrustworthy(d, [stage, MarkCommit], naming);
    ServedIsTrustworthy(d, [stage, MarkCommit] + [Promote(id)], naming);
    MarkedFiles(d, stage, naming);
    MarkedPromotes(marked, stage, naming);
    ServedSnoc(d, [stage, MarkCommit], Promote(id), naming);
    PromotedStore(marked, stage, naming);
  }

  lemma PromotedStore(d: Dir, stage: Request, naming: Naming)
    requires WellStaged(stage, naming) && Marked(d, stage) && Trustworthy(d, naming)
    requires PromotePlan(d, stage.peerId, naming).ok
    ensures var e := ApplyAll(d, PromotePlan(d, stage.peerId, naming).steps);
            && BondsFile in e && e[BondsFile].Store? && stage.bond in e[BondsFile].bonds
            && ActiveKey(stage.peerId) in e && e[ActiveKey(stage.peerId)] == Raw(stage.key)
  {
    var id := stage.peerId;
    var e := ApplyAll(d, PromotePlan(d, id, naming).steps);
    var d1 := ApplyAll(d, KeyPlan(d, id).steps);
    var active := Load(d, BondsFile, naming).bonds;
    assert StagedBond(d, id, naming) == Some(stage.bond);
    ReplacedKeeps(active, stage.bond);
    KeysInPlace(d, id, naming);
    PromotedTrust(d, id, naming);
    var t := d1[BondsFile := Store(Replaced(active, stage.bond).value)];
    assert BondsFile in ActiveTrust(t) && ActiveKey(id) in ActiveTrust(t);
    assert e[BondsFile] == ActiveTrust(e)[BondsFile] && e[ActiveKey(id)] == ActiveTrust(e)[ActiveKey(id)];
  }

  /** What the daemon finds for a phone just paired: it is wanted, with the derived key and the paired public key. */
  lemma PairedIsWanted(d: Dir, stage: Request, naming: Naming)
    requires WellStaged(stage, naming) && stage.bond.status.Bonded? && Trustworthy(d, naming)
    ensures var e := AfterPromote(d, stage, naming);
            && BondsFile in e && e[BondsFile].Store?
            && Wanted(e[BondsFile].bonds, KeyFiles(e), stage.peerId) && KeyFiles(e)[stage.peerId] == stage.key
            && forall k :: FirstKey(e[BondsFile].bonds, stage.peerId, k) ==> k == stage.bond.pubkey
  {
    var e := AfterPromote(d, stage, naming);
    PromotedFiles(d, stage, naming);
    WantedAreBonded(e, naming, stage.peerId);
    forall k | FirstKey(e[BondsFile].bonds, stage.peerId, k) ensures k == stage.bond.pubkey {}
  }

  /**
   Once the daemon has promoted a bond and reloads, the phone is among the live peers. A phone
   that was not is so under the paired public key and the derived bond key, with no nonce used;
   one that was keeps the entry it had.
   */
  method ReloadAfterPairing(o: Orchestrator, d: Dir, stage: Request, naming: Naming)
    requires o.Valid() && WellStaged(stage, naming) && stage.bond.status.Bonded? && Trustworthy(d, naming)
    modifies o`peers, o`caches
    ensures old(o.caches) <= o.caches && fresh(o.caches - old(o.caches))
    ensures o.Valid() && stage.peerId in o.peers
    ensures stage.peerId !in old(o.peers) ==>
              && o.peers[stage.peerId].bondKey == stage.key
              && o.peers[stage.peerId].pubkey == Some(stage.bond.pubkey)
              && o.peers[stage.peerId].cache.history == []
    ensures stage.peerId in old(o.peers) ==> o.peers[stage.peerId] == old(o.peers[stage.peerId])
  {
    var e := AfterPromote(d, stage, naming);
    PairedIsWanted(d, stage, naming);
    var _, _ := o.Reload(e[BondsFile].bonds, KeyFiles(e), {}, {});
  }

  /**
   What pairing is for: the phone that paired is let in at its first challenge, whatever the
   nonce, if the daemon did not know it. If it did, the phone is let in exactly when the key
   the daemon kept gives the same tag, the nonce is fresh and the key it kept takes the signature.
   */
  method UnlockAfterPairing(o: Orchestrator, d: Dir, stage: Request, naming: Naming, secret: bytes, nonce: Nonce,
                            start: int, end: int) returns (r: ChallengeOutcome)
    requires o.Valid() && WellStaged(stage, naming) && stage.bond.status.Bonded? && Trustworthy(d, naming)
    requires |secret| == SECRET_KEY_LEN && stage.bond.pubkey == o.crypto.public(secret)
    requires Signs(o.crypto, secret, ChallengeBody(nonce))
    modifies o`peers, o`caches, o`audit, o`sent, o.caches
    ensures o.Valid()
    ensures stage.peerId !in old(o.peers) ==> r.Ok?
    ensures stage.peerId in old(o.peers) ==>
              var kept := old(o.peers[stage.peerId]);
              r.Ok? <==> && kept.pubkey.Some? && SameTag(o.crypto, stage.key, kept.bondKey, nonce)
                         && old(o.Fresh(stage.peerId, nonce))
                         && Verifies(o.crypto, kept.pubkey.value, nonce, Signature(o.crypto, secret, nonce))
  {
    ReloadAfterPairing(o, d, stage, naming);
    r := o.ChallengePhone(stage.peerId, stage.key, secret, nonce, start, end);
  }

  // ---------------------------------------------------------------------------------------
  // Which peer is asked after a pairing
  // ---------------------------------------------------------------------------------------

  /** No other peer's bonded record was made after `now`. */
  ghost predicate NoneYounger(bonds: seq<Bond>, id: string, now: int) {
    forall b :: b in bonds && b.peerId != id && b.status.Bonded? ==> b.createdAt <= now
  }

  /** The newest of a store with a bond replaced is the new one exactly if no other bonded record is younger. */
  lemma ReplacedIsNewest(active: seq<Bond>, bond: Bond)
    requires Unique(active) && bond.status.Bonded?
    ensures Replaced(active, bond).Some?
    ensures var bonds := Replaced(active, bond).value;
            && bonds != [] && bonds[|bonds| - 1] == bond
            && (Verdict.IsNewest(bonds, |bonds| - 1) <==> NoneYounger(active, bond.peerId, bond.createdAt))
  {
    ReplacedKeeps(active, bond);
    var bonds := Replaced(active, bond).value;
    var last := |bonds| - 1;
    assert bonds[last] == bond;
    forall j | 0 <= j < last ensures bonds[j] in active && bonds[j].peerId != bond.peerId {
      assert bonds[j] in bonds && bonds[j].peerId != bonds[last].peerId;
    }
    if Verdict.IsNewest(bonds, last) {
      forall b | b in active && b.peerId != bond.peerId && b.status.Bonded? ensures b.createdAt <= bond.createdAt {
        assert b in bonds;
        var j :| 0 <= j < |bonds| && bonds[j] == b;
      }
    }
  }

  /**
   After a recorded attempt of the terminal command the login module asks the phone just
   paired exactly if no other bonded record was made later than the attempt's clock says.
   */
  lemma RecordedIsAsked(d: Dir, a: Attempt, naming: Naming)
    requires Trustworthy(d, naming) && AttemptSteps(d, a, TerminalBackend.Completed, naming).1.Recorded?
    ensures var e := ApplyAll(d, AttemptSteps(d, a, TerminalBackend.Completed, naming).0);
            && BondsFile in e && e[BondsFile].Store? && e[BondsFile].bonds != []
            && var bonds := e[BondsFile].bonds; var last := |bonds| - 1;
               && bonds[last] == Bond(naming(a.pubkey), a.pubkey, a.name, a.now, Bonded)
               && (Verdict.IsNewest(bonds, last) <==>
                     NoneYounger(Load(d, BondsFile, naming).bonds, naming(a.pubkey), a.now))
  {
    RecordedRun(d, a, naming);
    ReplacedIsNewest(Load(d, BondsFile, naming).bonds, NewBond(a, naming));
  }

  /** The same of a peer the daemon promotes. */
  lemma PromotedIsAsked(d: Dir, stage: Request, naming: Naming)
    requires WellStaged(stage, naming) && Trustworthy(d, naming) && stage.bond.status.Bonded?
    requires Marked(d, stage) && PromotePlan(d, stage.peerId, naming).ok
    ensures var e := ApplyAll(d, PromotePlan(d, stage.peerId, naming).steps);
            && BondsFile in e && e[BondsFile].Store? && e[BondsFile].bonds != []
            && var bonds := e[BondsFile].bonds; var last := |bonds| - 1;
               && bonds[last] == stage.bond
               && (Verdict.IsNewest(bonds, last) <==>
                     NoneYounger(Load(d, BondsFile, naming).bonds, stage.peerId, stage.bond.createdAt))
  {
    var e := ApplyAll(d, PromotePlan(d, stage.peerId, naming).steps);
    var active := Load(d, BondsFile, naming).bonds;
    assert StagedBond(d, stage.peerId, naming) == Some(stage.bond);
    PromotedTrust(d, stage.peerId, naming);
    ReplacedIsNewest(active, stage.bond);
    var store := Store(Replaced(active, stage.bond).value);
    assert ActiveTrust(e)[BondsFile] == store by {
      var trust := ApplyAll(d, KeyPlan(d, stage.peerId).steps)[BondsFile := store];
      assert ActiveTrust(e) == ActiveTrust(trust) && BondsFile in ActiveTrust(trust);
    }
  }
}
