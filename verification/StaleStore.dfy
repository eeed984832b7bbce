/**
 The terminal command saves the store it loaded before the coordination. What the daemon
 serves in between is kept or undone by that save.
 */
module StaleStore {
  import opened Bytes
  import opened BondDirectory
  import opened TerminalPairing

  /** The records of the other peers, in order. */
  function Others(bonds: seq<Bond>, id: string): seq<Bond> {
    if bonds == [] then []
    else (if bonds[0].peerId == id then [] else [bonds[0]]) + Others(bonds[1..], id)
  }

  lemma {:induction false} OthersAppend(a: seq<Bond>, b: seq<Bond>, id: string)
    ensures Others(a + b, id) == Others(a, id) + Others(b, id)
    decreases |a|
  {
    if a == [] {
      assert a + b == b;
    } else {
      assert (a + b)[1..] == a[1..] + b;
      OthersAppend(a[1..], b, id);
    }
  }

  lemma {:induction false} NoneAbsent(bonds: seq<Bond>, id: string)
    requires !Has(bonds, id)
    ensures Others(bonds, id) == bonds
  {
    if bonds != [] {
      assert forall i :: 0 <= i < |bonds| - 1 ==> bonds[1..][i] == bonds[i + 1];
      NoneAbsent(bonds[1..], id);
    }
  }

  lemma {:induction false} OthersKept(bonds: seq<Bond>, id: string, b: Bond)
    ensures b in Others(bonds, id) <==> b in bonds && b.peerId != id
  {
    if bonds != [] { OthersKept(bonds[1..], id, b); }
  }

  /** Changing or dropping the peer's own record leaves the others. */
  lemma OthersAround(bonds: seq<Bond>, id: string, n: nat, own: seq<Bond>)
    requires n < |bonds| && bonds[n].peerId == id && forall k :: 0 <= k < |own| ==> own[k].peerId == id
    requires |own| <= 1
    ensures Others(bonds[..n] + own + bonds[n + 1..], id) == Others(bonds, id)
  {
    assert bonds == bonds[..n] + [bonds[n]] + bonds[n + 1..];
    assert Others([bonds[n]], id) == [] && Others(own, id) == [];
    OthersAppend(bonds[..n] + [bonds[n]], bonds[n + 1..], id);
    OthersAppend(bonds[..n], [bonds[n]], id);
    OthersAppend(bonds[..n] + own, bonds[n + 1..], id);
    OthersAppend(bonds[..n], own, id);
  }

  /** A proper store with a bond replaced is the other peers' records and the bond. */
  lemma ReplacedIsOthers(bonds: seq<Bond>, bond: Bond)
    requires Unique(bonds)
    ensures Replaced(bonds, bond) == Some(Others(bonds, bond.peerId) + [bond])
  {
    var id := bond.peerId;
    if Has(bonds, id) {
      var n := IndexOf(bonds, id);
      OthersAround(bonds, id, n, []);
      assert bonds[..n] + [] + bonds[n + 1..] == Without(bonds, id);
      NoneAbsent(Without(bonds, id), id);
    } else {
      NoneAbsent(bonds, id);
    }
  }

  /**
   The save of the store loaded earlier writes what a save of the store on disk would write
   exactly if the other peers' records are as they were loaded.
   */
  lemma StaleSaveCarriesExactly(loaded: seq<Bond>, current: seq<Bond>, bond: Bond)
    requires Unique(loaded) && Unique(current)
    ensures Replaced(loaded, bond) == Replaced(current, bond) <==>
            Others(loaded, bond.peerId) == Others(current, bond.peerId)
  {
    ReplacedIsOthers(loaded, bond);
    ReplacedIsOthers(current, bond);
    var a, b := Others(loaded, bond.peerId), Others(current, bond.peerId);
    assert (a + [bond])[..|a|] == a && (b + [bond])[..|b|] == b;
  }

  // ---------------------------------------------------------------------------------------
  // Requests served in between
  // ---------------------------------------------------------------------------------------

  predicate SameStore(d: Dir, e: Dir) {
    (BondsFile in d <==> BondsFile in e) && (BondsFile in d ==> d[BondsFile] == e[BondsFile])
  }

  /** A step that leaves the active store alone. */
  predicate Spares(s: FileStep) {
    match s
    case Write(p, _) => p != BondsFile
    case Save(p, _) => p != BondsFile
    case Rename(p, q) => p != BondsFile && q != BondsFile
    case Unlink(p) => p != BondsFile
  }

  lemma {:induction false} CrashSpares(d: Dir, steps: seq<FileStep>, d': Dir)
    requires (forall i :: 0 <= i < |steps| ==> Spares(steps[i])) && Crash(d, steps, d')
    ensures SameStore(d, d')
    decreases |steps|
  {
    if d' != d {
      assert Spares(steps[0]);
      if Crash(Apply(d, steps[0]), steps[1..], d') { CrashSpares(Apply(d, steps[0]), steps[1..], d'); }
    }
  }

  /** A promotion, finished or crashed, leaves the active store or the one it saves. */
  lemma PromotionLeaves(d: Dir, id: string, naming: Naming, d': Dir)
    requires Crash(d, PromotePlan(d, id, naming).steps, d')
    ensures || SameStore(d, d')
            || (PromotePlan(d, id, naming).ok && BondsFile in d' &&
                d'[BondsFile] == Store(Replaced(Load(d, BondsFile, naming).bonds,
                                                StagedBond(d, id, naming).value).value))
  {
    var plan := PromotePlan(d, id, naming);
    var keys := KeyPlan(d, id).steps;
    if plan.ok {
      var save := Save(BondsFile, Store(Replaced(Load(d, BondsFile, naming).bonds,
                                                 StagedBond(d, id, naming).value).value));
      CrashAppend(d, keys, [save] + DiscardSteps(id), d');
      if Crash(d, keys, d') {
        CrashSpares(d, keys, d');
      } else {
        var d1 := ApplyAll(d, keys);
        CrashAtEnd(d, keys);
        CrashSpares(d, keys, d1);
        CrashOfSave(d1, save, DiscardSteps(id), d');
        if d' != d1 { CrashSpares(Apply(d1, save), DiscardSteps(id), d'); }
      }
    } else {
      CrashSpares(d, plan.steps, d');
    }
  }

  lemma RevocationLeaves(d: Dir, id: string, naming: Naming, d': Dir)
    requires Crash(d, RevokePlan(d, id, naming).steps, d')
    ensures || SameStore(d, d')
            || (RevokePlan(d, id, naming).ok && BondsFile in d' &&
                d'[BondsFile] == Store(RevokedStore(Load(d, BondsFile, naming).bonds, id,
                                                    "phone: device dissociated")))
  {
    var plan := RevokePlan(d, id, naming);
    if plan.ok {
      assert plan.steps == [plan.steps[0]] + [plan.steps[1]];
      CrashOfSave(d, plan.steps[0], [plan.steps[1]], d');
      if d' != d { CrashSpares(Apply(d, plan.steps[0]), [plan.steps[1]], d'); }
    }
  }

  /** The store a trustworthy directory stands for. */
  function Active(d: Dir): seq<Bond> {
    if BondsFile in d && d[BondsFile].Store? then d[BondsFile].bonds else []
  }

  /** A request that changes no other peer's record, at any point a crash can fall. */
  lemma OwnRequestKeepsOthers(d: Dir, r: Request, naming: Naming, d': Dir, id: string)
    requires Trustworthy(d, naming) && Crash(d, StepsOf(d, r, naming), d')
    requires r.Promote? || r.Revoke? ==> r.peerId == id
    ensures Others(Active(d'), id) == Others(Active(d), id)
  {
    if r.Promote? {
      PromotionLeaves(d, id, naming, d');
      if !SameStore(d, d') { OwnPromotion(Active(d), StagedBond(d, id, naming).value); }
    } else if r.Revoke? {
      RevocationLeaves(d, id, naming, d');
      if !SameStore(d, d') { OwnRevocation(Active(d), id, "phone: device dissociated"); }
    } else {
      StagingIsolation(d, r, naming, d');
      assert BondsFile in d <==> BondsFile in ActiveTrust(d);
      assert BondsFile in d' <==> BondsFile in ActiveTrust(d');
      assert BondsFile in d ==> d[BondsFile] == ActiveTrust(d)[BondsFile];
    }
  }

  lemma OwnPromotion(active: seq<Bond>, bond: Bond)
    requires Unique(active)
    ensures Replaced(active, bond).Some?
    ensures Others(Replaced(active, bond).value, bond.peerId) == Others(active, bond.peerId)
  {
    var id := bond.peerId;
    ReplacedIsOthers(active, bond);
    OthersAppend(Others(active, id), [bond], id);
    assert !Has(Others(active, id), id) by {
      if i: nat :| i < |Others(active, id)| && Others(active, id)[i].peerId == id {
        OthersKept(active, id, Others(active, id)[i]);
      }
    }
    NoneAbsent(Others(active, id), id);
    assert Others([bond], id) == [];
  }

  lemma OwnRevocation(active: seq<Bond>, id: string, reason: string)
    requires Has(active, id)
    ensures Others(RevokedStore(active, id, reason), id) == Others(active, id)
  {
    var n := IndexOf(active, id);
    var own := RevokedStore(active, id, reason)[n];
    OthersAround(active, id, n, [own]);
    assert RevokedStore(active, id, reason) == active[..n] + [own] + active[n + 1..];
  }

  /** What is served while the command waits: requests in any order, each finished or crashed anywhere. */
  ghost predicate Meanwhile(dirs: seq<Dir>, requests: seq<Request>, naming: Naming) {
    && |dirs| == |requests| + 1
    && forall i :: 0 <= i < |requests| ==> Crash(dirs[i], StepsOf(dirs[i], requests[i], naming), dirs[i + 1])
  }

  lemma {:induction false} MeanwhileKeepsOthers(dirs: seq<Dir>, requests: seq<Request>, naming: Naming, id: string,
                                                n: nat)
    requires Meanwhile(dirs, requests, naming) && Trustworthy(dirs[0], naming) && n < |dirs|
    requires forall k :: 0 <= k < |requests| && (requests[k].Promote? || requests[k].Revoke?) ==>
                           requests[k].peerId == id
    ensures Trustworthy(dirs[n], naming) && Others(Active(dirs[n]), id) == Others(Active(dirs[0]), id)
  {
    if n > 0 {
      MeanwhileKeepsOthers(dirs, requests, naming, id, n - 1);
      OwnRequestKeepsOthers(dirs[n - 1], requests[n - 1], naming, dirs[n], id);
      RequestKeepsTrust(dirs[n - 1], requests[n - 1], naming, dirs[n]);
    }
  }

  /**
   Whatever is served between the load and the save: if nothing of it promotes or revokes
   another peer, the save writes what a save of the store on disk would write.
   */
  lemma UndisturbedSaveCarries(d: Dir, a: Attempt, naming: Naming, dirs: seq<Dir>, requests: seq<Request>)
    requires Trustworthy(d, naming)
    requires Meanwhile(dirs, requests, naming) && dirs[0] == Staging(d, a, NewBond(a, naming))
    requires forall k :: 0 <= k < |requests| && (requests[k].Promote? || requests[k].Revoke?) ==>
                           requests[k].peerId == naming(a.pubkey)
    ensures Replaced(Active(d), NewBond(a, naming)) == Replaced(Active(dirs[|requests|]), NewBond(a, naming))
  {
    var bond := NewBond(a, naming);
    StagingKeepsActive(d, a, bond, naming);
    MeanwhileKeepsOthers(dirs, requests, naming, bond.peerId, |requests|);
    StaleSaveCarriesExactly(Active(d), Active(dirs[|requests|]), bond);
  }

  lemma StagingKeepsActive(d: Dir, a: Attempt, bond: Bond, naming: Naming)
    requires Trustworthy(d, naming)
    ensures Trustworthy(Staging(d, a, bond), naming) && Active(Staging(d, a, bond)) == Active(d)
  {
    assert ActiveTrust(Staging(d, a, bond)) == ActiveTrust(d);
    TrustIsActiveTrust(d, Staging(d, a, bond), naming);
  }

  // ---------------------------------------------------------------------------------------
  // Trust after the save
  // ---------------------------------------------------------------------------------------

  /**
   After the save and the key the directory is trustworthy exactly if every other peer that
   was bonded when the store was loaded still has its key.
   */
  lemma StaleSaveTrustExactly(loaded: seq<Bond>, m: Dir, bond: Bond, key: bytes, naming: Naming)
    requires Unique(loaded) && Named(loaded, naming) && bond.peerId == naming(bond.pubkey)
    requires Trustworthy(m, naming) && |key| == BOND_KEY_BYTES
    ensures Replaced(loaded, bond).Some?
    ensures Trustworthy(Recording(m, Replaced(loaded, bond).value, bond.peerId, key), naming) <==>
            forall b :: b in loaded && b.peerId != bond.peerId && b.status.Bonded? ==> ActiveKey(b.peerId) in m
  {
    ReplacedKeeps(loaded, bond);
    NamedAfterReplacing(loaded, bond, naming);
    var bonds := Replaced(loaded, bond).value;
    var e := Recording(m, bonds, bond.peerId, key);
    assert KeysComplete(e);
    assert Trustworthy(e, naming) <==> BondedHaveKeys(e, bonds);
    if BondedHaveKeys(e, bonds) {
      forall b | b in loaded && b.peerId != bond.peerId && b.status.Bonded? ensures ActiveKey(b.peerId) in m {
        assert b in bonds;
        var i :| 0 <= i < |bonds| && bonds[i] == b;
        assert ActiveKey(bonds[i].peerId) in e;
      }
    } else {
      var i :| 0 <= i < |bonds| && bonds[i].status.Bonded? && ActiveKey(bonds[i].peerId) !in e;
      assert bonds[i] in bonds && bonds[i] != bond;
    }
  }

  /**
   A revocation of another bonded peer, served in between, is undone: its record is bonded
   again in the saved store, and its key is gone.
   */
  lemma RevocationIsUndone(d: Dir, a: Attempt, other: Bond, naming: Naming)
    requires Trustworthy(d, naming) && |a.key| == BOND_KEY_BYTES
    requires other in Active(d) && other.status.Bonded? && other.peerId != naming(a.pubkey)
    ensures var bond := NewBond(a, naming);
            var s := Staging(d, a, bond);
            var m := ApplyAll(s, RevokePlan(s, other.peerId, naming).steps);
            && RevokePlan(s, other.peerId, naming).ok && Trustworthy(m, naming)
            && other !in Active(m)
            && Replaced(Active(d), bond).Some?
            && other in Replaced(Active(d), bond).value
            && !Trustworthy(Recording(m, Replaced(Active(d), bond).value, bond.peerId, a.key), naming)
  {
    var bond := NewBond(a, naming);
    var s := Staging(d, a, bond);
    StagingKeepsActive(d, a, bond, naming);
    var plan := RevokePlan(s, other.peerId, naming);
    var i :| 0 <= i < |Active(d)| && Active(d)[i] == other;
    assert Has(Active(d), other.peerId);
    var m := ApplyAll(s, plan.steps);
    CrashAtEnd(s, plan.steps);
    RevokeKeepsTrust(s, other.peerId, naming, m);
    Unrolled(s, plan.steps[0], plan.steps[1], plan.steps[1]);
    assert plan.steps == [plan.steps[0], plan.steps[1]];
    assert ActiveKey(other.peerId) !in m;
    ReplacedKeeps(Active(d), bond);
    StaleSaveTrustExactly(Active(d), m, bond, a.key, naming);
  }
}
