/** The recovery operations as they run: one file step after another, on one directory. */
module PairRecovery {
  import opened Bytes
  import opened Journal
  import opened BondDirectory

  lemma Snoc(d: Dir, steps: seq<FileStep>, s: FileStep)
    ensures ApplyAll(d, steps + [s]) == Apply(ApplyAll(d, steps), s)
  {
    ApplyAllAppend(d, steps, [s]);
    assert ApplyAll(ApplyAll(d, steps), [s]) == Apply(ApplyAll(d, steps), s);
  }

  lemma One(d: Dir, s: FileStep)
    ensures ApplyAll(d, [s]) == Apply(d, s)
  {}

  function RecordPlan(d: Dir, bond: Bond, naming: Naming): Plan {
    match Load(d, BondsFile, naming)
    case LoadFailed(_) => Plan([], false)
    case Loaded(active) =>
      match Replaced(active, bond)
      case None => Plan([], false)
      case Some(bonds) => Plan([Save(BondsFile, Store(bonds))], true)
  }

  /** Promotion is: place the key, record the bond, discard the staging. */
  lemma PromoteComposes(d: Dir, peerId: string, naming: Naming)
    requires StagedBond(d, peerId, naming).Some? && KeyPlan(d, peerId).ok
    ensures var keys := KeyPlan(d, peerId).steps;
            var d1 := ApplyAll(d, keys);
            var record := RecordPlan(d1, StagedBond(d, peerId, naming).value, naming);
            var all := keys + (record.steps + DiscardSteps(peerId));
            && PromotePlan(d, peerId, naming) == (if record.ok then Plan(all, true) else Plan(keys, false))
            && ApplyAll(d, all) == ApplyAll(ApplyAll(d1, record.steps), DiscardSteps(peerId))
            && (!record.ok ==> record.steps == [])
            && (forall before: seq<FileStep> :: before + all == ((before + keys) + record.steps) + DiscardSteps(peerId))
  {
    var keys := KeyPlan(d, peerId).steps;
    var d1 := ApplyAll(d, keys);
    KeysInPlace(d, peerId, naming);
    var record := RecordPlan(d1, StagedBond(d, peerId, naming).value, naming);
    ApplyAllAppend(d, keys, record.steps + DiscardSteps(peerId));
    ApplyAllAppend(d1, record.steps, DiscardSteps(peerId));
  }

  class Directory {
    const naming: Naming
    var files: Dir
    /** Every file step taken so far: the points between which a crash may fall. */
    ghost var trace: seq<FileStep>

    constructor (naming: Naming, files: Dir)
      ensures this.naming == naming && this.files == files && trace == []
    {
      this.naming, this.files, this.trace := naming, files, [];
    }

    /** The steps of one operation, from where it began. */
    twostate predicate Performed(steps: seq<FileStep>)
      reads this
    {
      trace == old(trace) + steps && files == ApplyAll(old(files), steps)
    }

    method Take(step: FileStep)
      modifies this
      ensures trace == old(trace) + [step] && files == Apply(old(files), step)
    {
      match step {
        case Write(p, f) => files := files[p := f];
        case Save(p, f) => files := files[p := f];
        case Rename(p, q) =>
          if p in files {
            var f := files[p];
            files := files - {p};
            files := files[q := f];
          }
        case Unlink(p) => files := files - {p};
      }
      trace := trace + [step];
    }

    method LoadStore(p: Path) returns (r: Loaded)
      ensures r == Load(files, p, naming)
    {
      if p !in files { return Loaded([]); }
      if !files[p].Store? { return LoadFailed(Unreadable); }
      var bonds := files[p].bonds;
      for i := 0 to |bonds|
        invariant forall k :: 0 <= k < i ==> bonds[k].peerId == naming(bonds[k].pubkey)
      {
        if bonds[i].peerId != naming(bonds[i].pubkey) { return LoadFailed(PeerIdMismatch); }
      }
      r := Loaded(bonds);
    }

    method WriteJournal(record: JournalRecord)
      modifies this
      ensures Performed([JournalStep(record)])
    {
      Take(JournalStep(record));
      Snoc(old(files), [], JournalStep(record));
    }

    method StageBond(transaction: TransactionId, peerId: string, address: string, bond: Bond, key: bytes)
      modifies this
      ensures Performed(StageSteps(transaction, peerId, address, bond, key))
    {
      ghost var steps := StageSteps(transaction, peerId, address, bond, key);
      Take(Save(PendingStore, Store([bond])));
      Take(Write(PendingKeyTmp(peerId), Raw(key)));
      Take(Rename(PendingKeyTmp(peerId), PendingKey(peerId)));
      Unrolled(old(files), steps[0], steps[1], steps[2]);
      ghost var staged := files;
      WriteJournal(JournalRecord(transaction, peerId, address, Staged));
      One(staged, steps[3]);
      Snoc(old(files), [steps[0], steps[1], steps[2]], steps[3]);
      assert steps == [steps[0], steps[1], steps[2]] + [steps[3]];
    }

    method MarkCommitPending() returns (ok: bool)
      modifies this
      ensures ok == MarkPlan(old(files)).ok && Performed(MarkPlan(old(files)).steps)
    {
      if JournalFile !in files || !files[JournalFile].Note? { return false; }
      match ReadJournal(files[JournalFile].text) {
        case None => return false;
        case Some(record) =>
          WriteJournal(record.(state := Decided));
          return true;
      }
    }

    method DiscardStaging(peerId: string)
      modifies this
      ensures Performed(DiscardSteps(peerId))
    {
      ghost var steps := DiscardSteps(peerId);
      Take(Unlink(JournalFile));
      Take(Unlink(PendingStore));
      Take(Unlink(PendingKey(peerId)));
      Unrolled(old(files), steps[0], steps[1], steps[2]);
    }

    method DiscardEverything()
      modifies this
      ensures Performed(DiscardAllSteps(old(files), naming))
    {
      var pending := LoadStore(PendingStore);
      ghost var keys: seq<FileStep> := [];
      if pending.Loaded? {
        var bonds := pending.bonds;
        keys := UnlinkKeys(bonds);
        for i := 0 to |bonds|
          invariant trace == old(trace) + UnlinkKeys(bonds[..i])
          invariant files == ApplyAll(old(files), UnlinkKeys(bonds[..i]))
        {
          Take(Unlink(PendingKey(bonds[i].peerId)));
          Snoc(old(files), UnlinkKeys(bonds[..i]), Unlink(PendingKey(bonds[i].peerId)));
          UnlinkKeysSnoc(bonds[..i], bonds[i]);
          assert bonds[..i] + [bonds[i]] == bonds[..i + 1];
        }
        assert bonds[..|bonds|] == bonds;
      }
      ghost var d := files;
      Take(Unlink(JournalFile));
      Take(Unlink(PendingStore));
      Unrolled(d, Unlink(JournalFile), Unlink(PendingStore), Unlink(PendingStore));
      ApplyAllAppend(old(files), keys, [Unlink(JournalFile), Unlink(PendingStore)]);
    }

    method PlaceKey(peerId: string) returns (ok: bool)
      modifies this
      ensures ok == KeyPlan(old(files), peerId).ok && Performed(KeyPlan(old(files), peerId).steps)
    {
      if PendingKey(peerId) in files {
        if !files[PendingKey(peerId)].Raw? { return false; }
        var key := files[PendingKey(peerId)].octets;
        if |key| != BOND_KEY_BYTES { return false; }
        ghost var steps := KeySteps(peerId, key);
        Take(Write(ActiveKeyTmp(peerId), Raw(key)));
        Take(Rename(ActiveKeyTmp(peerId), ActiveKey(peerId)));
        Unrolled(old(files), steps[0], steps[1], steps[1]);
        return true;
      }
      ok := ActiveKey(peerId) in files;
    }

    /** Replace the peer's record in the active store. */
    method RecordBond(bond: Bond) returns (ok: bool)
      modifies this
      ensures ok == RecordPlan(old(files), bond, naming).ok
      ensures Performed(RecordPlan(old(files), bond, naming).steps)
    {
      var loaded := LoadStore(BondsFile);
      if loaded.LoadFailed? { return false; }
      var active := new BondStore(loaded.bonds);
      var replaced := active.Replace(bond);
      if !replaced { return false; }
      Take(Save(BondsFile, Store(active.bonds)));
      Snoc(old(files), [], Save(BondsFile, Store(active.bonds)));
      ok := true;
    }

    method PromoteBond(peerId: string) returns (ok: bool)
      modifies this
      ensures ok == PromotePlan(old(files), peerId, naming).ok
      ensures Performed(PromotePlan(old(files), peerId, naming).steps)
    {
      var staged := LoadStore(PendingStore);
      if staged.LoadFailed? { return false; }
      var n := IndexOf(staged.bonds, peerId);
      if n == |staged.bonds| { return false; }
      var bond := staged.bonds[n];
      var placed := PlaceKey(peerId);
      if !placed { return false; }
      PromoteComposes(old(files), peerId, naming);
      var recorded := RecordBond(bond);
      if !recorded { return false; }
      DiscardStaging(peerId);
      ok := true;
    }

    method RevokeBond(peerId: string) returns (ok: bool)
      modifies this
      ensures ok == RevokePlan(old(files), peerId, naming).ok
      ensures Performed(RevokePlan(old(files), peerId, naming).steps)
    {
      var loaded := LoadStore(BondsFile);
      if loaded.LoadFailed? { return false; }
      var store := new BondStore(loaded.bonds);
      var refused := store.MarkRevoked(peerId, "phone: device dissociated");
      if refused.Some? { return false; }
      Take(Save(BondsFile, Store(store.bonds)));
      Take(Unlink(ActiveKey(peerId)));
      Unrolled(old(files), Save(BondsFile, Store(store.bonds)), Unlink(ActiveKey(peerId)), Unlink(ActiveKey(peerId)));
      ok := true;
    }

    /** One request of the pairing engine, served to completion. */
    method Serve(request: Request) returns (ok: bool)
      modifies this
      ensures ok == Succeeds(old(files), request, naming)
      ensures Performed(StepsOf(old(files), request, naming))
    {
      match request {
        case Stage(transaction, peerId, address, bond, key) =>
          StageBond(transaction, peerId, address, bond, key);
          ok := true;
        case MarkCommit => ok := MarkCommitPending();
        case Promote(peerId) => ok := PromoteBond(peerId);
        case Discard(peerId) => DiscardStaging(peerId); ok := true;
        case DiscardAll => DiscardEverything(); ok := true;
        case Revoke(peerId) => ok := RevokeBond(peerId);
      }
    }

    /** The consumer loop: requests in order, one reply each. */
    method Consume(requests: seq<Request>) returns (replies: seq<bool>)
      modifies this
      ensures files == Served(old(files), requests, naming)
      ensures replies == Replies(old(files), requests, naming)
    {
      replies := [];
      for i := 0 to |requests|
        invariant files == Served(old(files), requests[..i], naming)
        invariant replies == Replies(old(files), requests[..i], naming)
      {
        var ok := Serve(requests[i]);
        replies := replies + [ok];
        ServedSnoc(old(files), requests[..i], requests[i], naming);
        assert requests[..i] + [requests[i]] == requests[..i + 1];
      }
      assert requests[..|requests|] == requests;
    }
  }

  function Succeeds(d: Dir, r: Request, naming: Naming): bool {
    match r
    case MarkCommit => MarkPlan(d).ok
    case Promote(peerId) => PromotePlan(d, peerId, naming).ok
    case Revoke(peerId) => RevokePlan(d, peerId, naming).ok
    case _ => true
  }

  function Served(d: Dir, requests: seq<Request>, naming: Naming): Dir
    decreases |requests|
  {
    if requests == [] then d else Served(ApplyAll(d, StepsOf(d, requests[0], naming)), requests[1..], naming)
  }

  function Replies(d: Dir, requests: seq<Request>, naming: Naming): seq<bool>
    decreases |requests|
  {
    if requests == [] then []
    else
      var next := ApplyAll(d, StepsOf(d, requests[0], naming));
      [Succeeds(d, requests[0], naming)] + Replies(next, requests[1..], naming)
  }

  lemma {:induction false} ServedSnoc(d: Dir, requests: seq<Request>, r: Request, naming: Naming)
    ensures var e := Served(d, requests, naming);
            && Served(d, requests + [r], naming) == ApplyAll(e, StepsOf(e, r, naming))
            && Replies(d, requests + [r], naming) == Replies(d, requests, naming) + [Succeeds(e, r, naming)]
    decreases |requests|
  {
    if requests == [] {
      assert requests + [r] == [r];
    } else {
      assert (requests + [r])[1..] == requests[1..] + [r];
      ServedSnoc(ApplyAll(d, StepsOf(d, requests[0], naming)), requests[1..], r, naming);
    }
  }

  lemma ServedTwo(d: Dir, first: Request, second: Request, naming: Naming)
    ensures var t := ApplyAll(d, StepsOf(d, first, naming));
            && Served(d, [first, second], naming) == ApplyAll(t, StepsOf(t, second, naming))
            && Replies(d, [first, second], naming) == [Succeeds(d, first, naming), Succeeds(t, second, naming)]
  {
    ServedSnoc(d, [first], second, naming);
    ServedSnoc(d, [], first, naming);
    assert [first] + [second] == [first, second] && [] + [first] == [first];
  }

  lemma {:induction false} UnlinkKeysSnoc(bonds: seq<Bond>, b: Bond)
    ensures UnlinkKeys(bonds + [b]) == UnlinkKeys(bonds) + [Unlink(PendingKey(b.peerId))]
  {
    if bonds == [] {
      assert bonds + [b] == [b];
    } else {
      assert (bonds + [b])[1..] == bonds[1..] + [b];
      UnlinkKeysSnoc(bonds[1..], b);
    }
  }

  /** Served requests keep the directory trustworthy, whatever they ask for and in whatever order. */
  lemma {:induction false} ServedIsTrustworthy(d: Dir, requests: seq<Request>, naming: Naming)
    requires Trustworthy(d, naming)
    ensures Trustworthy(Served(d, requests, naming), naming)
    decreases |requests|
  {
    if requests != [] {
      var steps := StepsOf(d, requests[0], naming);
      CrashAtEnd(d, steps);
      RequestKeepsTrust(d, requests[0], naming, ApplyAll(d, steps));
      ServedIsTrustworthy(ApplyAll(d, steps), requests[1..], naming);
    }
  }
}
