/**
 The bond directory: active trust, staging area and recovery journal as files, each operation
 as a list of atomic file steps, and crashes between or inside any two of them.
 */
module BondDirectory {
  import opened Bytes
  import opened Journal

  const BOND_KEY_BYTES := 32

  datatype BondStatus = Bonded | Revoked(reason: string)

  datatype Bond = Bond(peerId: string, pubkey: bytes, name: string, createdAt: int, status: BondStatus)

  /** How a peer identifier follows from a public key (BLAKE3, truncated, in hexadecimal). */
  type Naming = bytes -> string

  // ---------------------------------------------------------------------------------------
  // Bond stores
  // ---------------------------------------------------------------------------------------

  predicate Has(bonds: seq<Bond>, peerId: string) {
    exists i :: 0 <= i < |bonds| && bonds[i].peerId == peerId
  }

  /** Position of the first bond of the peer, or the length of the store. */
  function IndexOf(bonds: seq<Bond>, peerId: string): (n: nat)
    ensures n <= |bonds|
    ensures n < |bonds| ==> bonds[n].peerId == peerId
    ensures forall i :: 0 <= i < n ==> bonds[i].peerId != peerId
  {
    if bonds == [] || bonds[0].peerId == peerId then 0 else 1 + IndexOf(bonds[1..], peerId)
  }

  function Without(bonds: seq<Bond>, peerId: string): seq<Bond>
    requires Has(bonds, peerId)
  {
    var n := IndexOf(bonds, peerId);
    bonds[..n] + bonds[n + 1..]
  }

  /** The store after the peer's bond, if any, gave way to a new one at the end. */
  function Replaced(bonds: seq<Bond>, bond: Bond): Option<seq<Bond>> {
    var kept := if Has(bonds, bond.peerId) then Without(bonds, bond.peerId) else bonds;
    if Has(kept, bond.peerId) then None else Some(kept + [bond])
  }

  function RevokedStore(bonds: seq<Bond>, peerId: string, reason: string): seq<Bond>
    requires Has(bonds, peerId)
  {
    var n := IndexOf(bonds, peerId);
    if bonds[n].status.Revoked? then bonds else bonds[n := bonds[n].(status := Revoked(reason))]
  }

  predicate Unique(bonds: seq<Bond>) {
    forall i, j :: 0 <= i < j < |bonds| ==> bonds[i].peerId != bonds[j].peerId
  }

  predicate Named(bonds: seq<Bond>, naming: Naming) {
    forall i :: 0 <= i < |bonds| ==> bonds[i].peerId == naming(bonds[i].pubkey)
  }

  datatype BondError = AlreadyBonded | UnknownPeer | Unreadable | PeerIdMismatch

  class BondStore {
    var bonds: seq<Bond>

    constructor (bonds: seq<Bond>)
      ensures this.bonds == bonds
    {
      this.bonds := bonds;
    }

    method FindIndex(peerId: string) returns (n: nat)
      ensures n == IndexOf(bonds, peerId) && (n < |bonds| <==> Has(bonds, peerId))
    {
      n := 0;
      while n < |bonds| && bonds[n].peerId != peerId
        invariant n <= |bonds| && forall i :: 0 <= i < n ==> bonds[i].peerId != peerId
      {
        n := n + 1;
      }
    }

    method Add(bond: Bond) returns (r: Option<BondError>)
      modifies this
      ensures r == if Has(old(bonds), bond.peerId) then Some(AlreadyBonded) else None
      ensures bonds == if r.Some? then old(bonds) else old(bonds) + [bond]
    {
      var n := FindIndex(bond.peerId);
      if n < |bonds| { return Some(AlreadyBonded); }
      bonds := bonds + [bond];
      r := None;
    }

    method Remove(peerId: string) returns (r: Option<BondError>)
      modifies this
      ensures r == if Has(old(bonds), peerId) then None else Some(UnknownPeer)
      ensures bonds == if r.None? then Without(old(bonds), peerId) else old(bonds)
    {
      var n := FindIndex(peerId);
      if n == |bonds| { return Some(UnknownPeer); }
      bonds := bonds[..n] + bonds[n + 1..];
      r := None;
    }

    /** Drop the peer's record, if there is one, and add the new one. */
    method Replace(bond: Bond) returns (ok: bool)
      modifies this
      ensures ok == Replaced(old(bonds), bond).Some?
      ensures ok ==> bonds == Replaced(old(bonds), bond).value
    {
      var present := FindIndex(bond.peerId);
      if present < |bonds| {
        var _ := Remove(bond.peerId);
      }
      var refused := Add(bond);
      ok := refused.None?;
    }

    method MarkRevoked(peerId: string, reason: string) returns (r: Option<BondError>)
      modifies this
      ensures r == if Has(old(bonds), peerId) then None else Some(UnknownPeer)
      ensures bonds == if r.None? then RevokedStore(old(bonds), peerId, reason) else old(bonds)
    {
      var n := FindIndex(peerId);
      if n == |bonds| { return Some(UnknownPeer); }
      if !bonds[n].status.Revoked? {
        bonds := bonds[n := bonds[n].(status := Revoked(reason))];
      }
      r := None;
    }
  }

  // ---------------------------------------------------------------------------------------
  // Files
  // ---------------------------------------------------------------------------------------

  datatype Path =
    | BondsFile | JournalFile | PendingStore
    | ActiveKey(peerId: string) | ActiveKeyTmp(peerId: string)
    | PendingKey(peerId: string) | PendingKeyTmp(peerId: string)

  function Render(p: Path): string {
    match p
    case BondsFile => "bonds.toml"
    case JournalFile => "pairing-v2.journal"
    case PendingStore => "pairing-v2.pending"
    case ActiveKey(id) => "keys/" + id + ".bin"
    case ActiveKeyTmp(id) => "keys/" + id + ".bin.tmp"
    case PendingKey(id) => "keys/.pending-" + id + ".bin"
    case PendingKeyTmp(id) => "keys/.pending-" + id + ".bin.tmp"
  }

  /** Peer identifiers are rendered digests: non-empty lower-case hexadecimal. */
  predicate IsPeerId(id: string) {
    id != "" && forall k :: 0 <= k < |id| ==> id[k] in HEX_CHARS
  }

  predicate Proper(p: Path) {
    p.ActiveKey? || p.ActiveKeyTmp? || p.PendingKey? || p.PendingKeyTmp? ==> IsPeerId(p.peerId)
  }

  predicate IsKeyPath(p: Path) { !p.BondsFile? && !p.JournalFile? && !p.PendingStore? }

  lemma Cancel(prefix: string, a: string, b: string, suffix: string)
    requires prefix + a + suffix == prefix + b + suffix
    ensures a == b
  {
    assert |a| == |b|;
    assert (prefix + a + suffix)[|prefix|..|prefix| + |a|] == a;
    assert (prefix + b + suffix)[|prefix|..|prefix| + |b|] == b;
  }

  lemma KeyNameMarks(p: Path)
    requires Proper(p) && IsKeyPath(p)
    ensures |Render(p)| > 5 && Render(p)[0] == 'k'
    ensures (Render(p)[5] == '.') == (p.PendingKey? || p.PendingKeyTmp?)
    ensures (Render(p)[|Render(p)| - 1] == 'p') == (p.ActiveKeyTmp? || p.PendingKeyTmp?)
  {}

  /** Distinct paths have distinct names, so the files of the model are the files on disk. */
  lemma PathsNeverCollide(p: Path, q: Path)
    requires Proper(p) && Proper(q) && Render(p) == Render(q)
    ensures p == q
  {
    assert Render(BondsFile)[0] == 'b' && Render(JournalFile)[0] == 'p' && Render(PendingStore)[0] == 'p';
    assert Render(JournalFile)[11] == 'j' && Render(PendingStore)[11] == 'p';
    if IsKeyPath(p) { KeyNameMarks(p); }
    if IsKeyPath(q) { KeyNameMarks(q); }
    if IsKeyPath(p) && IsKeyPath(q) {
      match p
      case ActiveKey(id) => Cancel("keys/", id, q.peerId, ".bin");
      case ActiveKeyTmp(id) => Cancel("keys/", id, q.peerId, ".bin.tmp");
      case PendingKey(id) => Cancel("keys/.pending-", id, q.peerId, ".bin");
      case PendingKeyTmp(id) => Cancel("keys/.pending-", id, q.peerId, ".bin.tmp");
    }
  }

  datatype File = Raw(octets: bytes) | Store(bonds: seq<Bond>) | Note(text: string)

  type Dir = map<Path, File>

  datatype FileStep =
    | Write(path: Path, file: File)   // plain write, may be torn
    | Save(path: Path, file: File)    // temporary file and rename, atomic
    | Rename(from: Path, to: Path)
    | Unlink(path: Path)

  function Apply(d: Dir, s: FileStep): Dir {
    match s
    case Write(p, f) => d[p := f]
    case Save(p, f) => d[p := f]
    case Rename(p, q) => if p in d then (d - {p})[q := d[p]] else d
    case Unlink(p) => d - {p}
  }

  function ApplyAll(d: Dir, steps: seq<FileStep>): Dir
    decreases |steps|
  {
    if steps == [] then d else ApplyAll(Apply(d, steps[0]), steps[1..])
  }

  /** `f` is what a write of `whole` may leave when it is cut short. */
  predicate Torn(f: File, whole: File) {
    match (f, whole)
    case (Raw(part), Raw(all)) => part <= all
    case (Note(part), Note(all)) => part <= all
    case _ => f == whole
  }

  /** `d'` is a directory some crash of the operation can leave behind. */
  ghost predicate Crash(d: Dir, steps: seq<FileStep>, d': Dir)
    decreases |steps|
  {
    || d' == d
    || (steps != [] &&
        (|| Crash(Apply(d, steps[0]), steps[1..], d')
         || (steps[0].Write? && exists f :: Torn(f, steps[0].file) && d' == d[steps[0].path := f])))
  }

  lemma {:induction false} ApplyAllAppend(d: Dir, a: seq<FileStep>, b: seq<FileStep>)
    ensures ApplyAll(d, a + b) == ApplyAll(ApplyAll(d, a), b)
    decreases |a|
  {
    if a == [] {
      assert a + b == b;
    } else {
      assert (a + b)[1..] == a[1..] + b;
      ApplyAllAppend(Apply(d, a[0]), a[1..], b);
    }
  }

  lemma Unrolled(d: Dir, a: FileStep, b: FileStep, c: FileStep)
    ensures ApplyAll(d, [a, b, c]) == Apply(Apply(Apply(d, a), b), c)
    ensures ApplyAll(d, [a, b]) == Apply(Apply(d, a), b)
  {
    assert [a, b, c] == [a] + [b, c] && [b, c] == [b] + [c] && [a, b] == [a] + [b];
    ApplyAllAppend(d, [a], [b, c]);
    ApplyAllAppend(Apply(d, a), [b], [c]);
    ApplyAllAppend(d, [a], [b]);
    assert forall e, s :: ApplyAll(e, [s]) == Apply(e, s);
  }

  lemma {:induction false} CrashAppend(d: Dir, a: seq<FileStep>, b: seq<FileStep>, d': Dir)
    requires Crash(d, a + b, d')
    ensures Crash(d, a, d') || Crash(ApplyAll(d, a), b, d')
    decreases |a|
  {
    if a == [] {
      assert a + b == b;
    } else {
      assert (a + b)[1..] == a[1..] + b && (a + b)[0] == a[0];
      if Crash(Apply(d, a[0]), a[1..] + b, d') {
        CrashAppend(Apply(d, a[0]), a[1..], b, d');
      }
    }
  }

  lemma {:induction false} CrashAtEnd(d: Dir, steps: seq<FileStep>)
    ensures Crash(d, steps, ApplyAll(d, steps))
    decreases |steps|
  {
    if steps != [] { CrashAtEnd(Apply(d, steps[0]), steps[1..]); }
  }

  datatype Loaded = Loaded(bonds: seq<Bond>) | LoadFailed(error: BondError)

  /** A missing store is empty; an unreadable or misnamed one is refused. */
  function Load(d: Dir, p: Path, naming: Naming): Loaded {
    if p !in d then Loaded([])
    else if !d[p].Store? then LoadFailed(Unreadable)
    else if Named(d[p].bonds, naming) then Loaded(d[p].bonds)
    else LoadFailed(PeerIdMismatch)
  }

  // ---------------------------------------------------------------------------------------
  // Operations as file steps
  // ---------------------------------------------------------------------------------------

  datatype Plan = Plan(steps: seq<FileStep>, ok: bool)

  function JournalStep(r: JournalRecord): FileStep {
    Write(JournalFile, Note(JournalText(r)))
  }

  function StageSteps(transaction: TransactionId, peerId: string, address: string, bond: Bond, key: bytes)
    : seq<FileStep>
  {
    [Save(PendingStore, Store([bond])),
     Write(PendingKeyTmp(peerId), Raw(key)),
     Rename(PendingKeyTmp(peerId), PendingKey(peerId)),
     JournalStep(JournalRecord(transaction, peerId, address, Staged))]
  }

  function MarkPlan(d: Dir): Plan {
    if JournalFile !in d || !d[JournalFile].Note? then Plan([], false)
    else match ReadJournal(d[JournalFile].text)
      case None => Plan([], false)
      case Some(r) => Plan([JournalStep(r.(state := Decided))], true)
  }

  function DiscardSteps(peerId: string): seq<FileStep> {
    [Unlink(JournalFile), Unlink(PendingStore), Unlink(PendingKey(peerId))]
  }

  function UnlinkKeys(bonds: seq<Bond>): seq<FileStep> {
    if bonds == [] then [] else [Unlink(PendingKey(bonds[0].peerId))] + UnlinkKeys(bonds[1..])
  }

  function DiscardAllSteps(d: Dir, naming: Naming): seq<FileStep> {
    (match Load(d, PendingStore, naming) case Loaded(bonds) => UnlinkKeys(bonds) case LoadFailed(_) => []) +
    [Unlink(JournalFile), Unlink(PendingStore)]
  }

  function KeySteps(peerId: string, key: bytes): seq<FileStep> {
    [Write(ActiveKeyTmp(peerId), Raw(key)), Rename(ActiveKeyTmp(peerId), ActiveKey(peerId))]
  }

  /** The staged bond of the peer, if the pending store can be read and holds one. */
  function StagedBond(d: Dir, peerId: string, naming: Naming): Option<Bond> {
    match Load(d, PendingStore, naming)
    case LoadFailed(_) => None
    case Loaded(bonds) =>
      var n := IndexOf(bonds, peerId);
      if n == |bonds| then None else Some(bonds[n])
  }

  /** Steps that put the peer's key in place; none when only an earlier key is there. */
  function KeyPlan(d: Dir, peerId: string): Plan {
    if PendingKey(peerId) in d then
      if d[PendingKey(peerId)].Raw? && |d[PendingKey(peerId)].octets| == BOND_KEY_BYTES
      then Plan(KeySteps(peerId, d[PendingKey(peerId)].octets), true) else Plan([], false)
    else Plan([], ActiveKey(peerId) in d)
  }

  function PromotePlan(d: Dir, peerId: string, naming: Naming): Plan {
    match StagedBond(d, peerId, naming)
    case None => Plan([], false)
    case Some(bond) =>
      var keys := KeyPlan(d, peerId);
      if !keys.ok then keys
      else match Load(d, BondsFile, naming)
        case LoadFailed(_) => Plan(keys.steps, false)
        case Loaded(active) =>
          match Replaced(active, bond)
          case None => Plan(keys.steps, false)
          case Some(bonds) => Plan(keys.steps + ([Save(BondsFile, Store(bonds))] + DiscardSteps(peerId)), true)
  }

  function RevokePlan(d: Dir, peerId: string, naming: Naming): Plan {
    match Load(d, BondsFile, naming)
    case LoadFailed(_) => Plan([], false)
    case Loaded(bonds) =>
      if !Has(bonds, peerId) then Plan([], false)
      else Plan([Save(BondsFile, Store(RevokedStore(bonds, peerId, "phone: device dissociated"))),
                 Unlink(ActiveKey(peerId))], true)
  }

  // ---------------------------------------------------------------------------------------
  // Active trust
  // ---------------------------------------------------------------------------------------

  predicate IsActive(p: Path) { p.BondsFile? || p.ActiveKey? }

  /** The files that grant trust: the active store and the active keys. */
  function ActiveTrust(d: Dir): Dir {
    map p | p in d && IsActive(p) :: d[p]
  }

  predicate Quiet(s: FileStep) {
    match s
    case Write(p, _) => !IsActive(p)
    case Save(p, _) => !IsActive(p)
    case Rename(p, q) => !IsActive(p) && !IsActive(q)
    case Unlink(p) => !IsActive(p)
  }

  predicate AllQuiet(steps: seq<FileStep>) {
    forall i :: 0 <= i < |steps| ==> Quiet(steps[i])
  }

  lemma QuietStep(d: Dir, s: FileStep)
    requires Quiet(s)
    ensures ActiveTrust(Apply(d, s)) == ActiveTrust(d)
  {}

  /** Steps that only touch the staging area cannot change trust, however they are cut short. */
  lemma {:induction false} QuietCrash(d: Dir, steps: seq<FileStep>, d': Dir)
    requires AllQuiet(steps) && Crash(d, steps, d')
    ensures ActiveTrust(d') == ActiveTrust(d)
    decreases |steps|
  {
    if d' != d {
      assert Quiet(steps[0]);
      if Crash(Apply(d, steps[0]), steps[1..], d') {
        QuietStep(d, steps[0]);
        QuietCrash(Apply(d, steps[0]), steps[1..], d');
      }
    }
  }

  lemma {:induction false} UnlinkKeysQuiet(bonds: seq<Bond>)
    ensures AllQuiet(UnlinkKeys(bonds))
  {
    if bonds != [] {
      UnlinkKeysQuiet(bonds[1..]);
      assert forall i :: 0 < i < |UnlinkKeys(bonds)| ==> UnlinkKeys(bonds)[i] == UnlinkKeys(bonds[1..])[i - 1];
    }
  }

  datatype Request =
    | Stage(transaction: TransactionId, peerId: string, address: string, bond: Bond, key: bytes)
    | MarkCommit
    | Promote(peerId: string)
    | Discard(peerId: string)
    | DiscardAll
    | Revoke(peerId: string)

  function StepsOf(d: Dir, r: Request, naming: Naming): seq<FileStep> {
    match r
    case Stage(transaction, peerId, address, bond, key) => StageSteps(transaction, peerId, address, bond, key)
    case MarkCommit => MarkPlan(d).steps
    case Promote(peerId) => PromotePlan(d, peerId, naming).steps
    case Discard(peerId) => DiscardSteps(peerId)
    case DiscardAll => DiscardAllSteps(d, naming)
    case Revoke(peerId) => RevokePlan(d, peerId, naming).steps
  }

  /** Staging isolation: everything but promotion and revocation leaves trust byte-identical. */
  lemma StagingIsolation(d: Dir, r: Request, naming: Naming, d': Dir)
    requires !r.Promote? && !r.Revoke? && Crash(d, StepsOf(d, r, naming), d')
    ensures ActiveTrust(d') == ActiveTrust(d)
  {
    if r.DiscardAll? {
      match Load(d, PendingStore, naming)
      case Loaded(bonds) => UnlinkKeysQuiet(bonds);
      case LoadFailed(_) =>
    }
    QuietCrash(d, StepsOf(d, r, naming), d');
  }

  /**
   What the daemon relies on: the active store is readable with one record per peer, every
   bonded record has its key, and every active key is complete.
   */
  ghost predicate Trustworthy(d: Dir, naming: Naming) {
    && (BondsFile in d ==> d[BondsFile].Store? && Unique(d[BondsFile].bonds) && Named(d[BondsFile].bonds, naming))
    && (BondsFile in d ==> BondedHaveKeys(d, d[BondsFile].bonds))
    && KeysComplete(d)
  }

  ghost predicate BondedHaveKeys(d: Dir, bonds: seq<Bond>) {
    forall i :: 0 <= i < |bonds| && bonds[i].status.Bonded? ==> ActiveKey(bonds[i].peerId) in d
  }

  ghost predicate KeysComplete(d: Dir) {
    forall id :: ActiveKey(id) in d ==> d[ActiveKey(id)].Raw? && |d[ActiveKey(id)].octets| == BOND_KEY_BYTES
  }

  lemma TrustIsActiveTrust(d: Dir, d': Dir, naming: Naming)
    requires ActiveTrust(d') == ActiveTrust(d) && Trustworthy(d, naming)
    ensures Trustworthy(d', naming)
  {
    assert forall p :: IsActive(p) ==> (p in d <==> p in ActiveTrust(d)) && (p in d' <==> p in ActiveTrust(d'));
    assert forall p :: IsActive(p) && p in d ==> d[p] == ActiveTrust(d)[p];
    assert forall p :: IsActive(p) && p in d' ==> d'[p] == ActiveTrust(d')[p];
  }

  /** Replacing a bond in a proper store gives a proper store: the new bond last, the other peers kept. */
  lemma ReplacedKeeps(active: seq<Bond>, bond: Bond)
    requires Unique(active)
    ensures Replaced(active, bond).Some?
    ensures var bonds := Replaced(active, bond).value;
            && Unique(bonds)
            && (forall b :: b in bonds <==> b == bond || (b in active && b.peerId != bond.peerId))
  {}

  /** Putting a complete key in place keeps trust, before, during and after. */
  lemma KeyStepsKeepTrust(d: Dir, peerId: string, key: bytes, naming: Naming, d': Dir)
    requires Trustworthy(d, naming) && |key| == BOND_KEY_BYTES
    requires Crash(d, KeySteps(peerId, key), d')
    ensures Trustworthy(d', naming)
  {
    var steps := KeySteps(peerId, key);
    var d1 := Apply(d, steps[0]);
    QuietCrash(d, [steps[0]], d1) by { assert Crash(d1, [], d1); }
    TrustIsActiveTrust(d, d1, naming);
    var d2 := Apply(d1, steps[1]);
    assert d2[ActiveKey(peerId)] == Raw(key);
    assert Trustworthy(d2, naming);
    assert steps == [steps[0]] + [steps[1]];
    CrashAppend(d, [steps[0]], [steps[1]], d');
    if Crash(d, [steps[0]], d') {
      QuietCrash(d, [steps[0]], d');
      TrustIsActiveTrust(d, d', naming);
    } else {
      assert ApplyAll(d, [steps[0]]) == d1;
      assert d' == d1 || Crash(d2, [], d');
    }
  }

  lemma CrashOfSave(d: Dir, s: FileStep, rest: seq<FileStep>, d': Dir)
    requires s.Save? && Crash(d, [s] + rest, d')
    ensures d' == d || Crash(Apply(d, s), rest, d')
  {}

  lemma PromoteKeepsTrust(d: Dir, peerId: string, naming: Naming, d': Dir)
    requires Trustworthy(d, naming) && Crash(d, PromotePlan(d, peerId, naming).steps, d')
    ensures Trustworthy(d', naming)
  {
    var keys := KeyPlan(d, peerId).steps;
    var plan := PromotePlan(d, peerId, naming);
    if plan.steps == [] { return; }
    var bond := StagedBond(d, peerId, naming).value;
    var key := if keys == [] then [] else d[PendingKey(peerId)].octets;
    if !plan.ok {
      KeyStepsKeepTrust(d, peerId, key, naming, d');
      return;
    }
    var active := Load(d, BondsFile, naming).bonds;
    var bonds := Replaced(active, bond).value;
    CrashAppend(d, keys, [Save(BondsFile, Store(bonds))] + DiscardSteps(peerId), d');
    var d1 := ApplyAll(d, keys);
    if keys != [] {
      CrashAtEnd(d, keys);
      KeyStepsKeepTrust(d, peerId, key, naming, d1);
      if Crash(d, keys, d') { KeyStepsKeepTrust(d, peerId, key, naming, d'); return; }
    }
    PromotableStore(d, peerId, naming);
    RecordKeepsTrust(d1, bonds, peerId, naming, d');
  }

  /** The store promotion is about to save may be saved: the key of its new bond is in place. */
  lemma PromotableStore(d: Dir, peerId: string, naming: Naming)
    requires Trustworthy(d, naming) && PromotePlan(d, peerId, naming).ok
    ensures var bonds := Replaced(Load(d, BondsFile, naming).bonds, StagedBond(d, peerId, naming).value).value;
            Unique(bonds) && Named(bonds, naming) && BondedHaveKeys(ApplyAll(d, KeyPlan(d, peerId).steps), bonds)
  {
    var active, bond := Load(d, BondsFile, naming).bonds, StagedBond(d, peerId, naming).value;
    ReplacedKeeps(active, bond);
    NamedAfterReplacing(active, bond, naming);
    KeysInPlace(d, peerId, naming);
    KeysAfterReplacing(d, ApplyAll(d, KeyPlan(d, peerId).steps), active, bond);
  }

  lemma NamedAfterReplacing(active: seq<Bond>, bond: Bond, naming: Naming)
    requires Unique(active) && Named(active, naming) && bond.peerId == naming(bond.pubkey)
    requires Replaced(active, bond).Some?
    ensures Named(Replaced(active, bond).value, naming)
  {}

  lemma KeysAfterReplacing(d: Dir, d': Dir, active: seq<Bond>, bond: Bond)
    requires Unique(active) && Replaced(active, bond).Some? && BondedHaveKeys(d, active)
    requires ActiveKey(bond.peerId) in d' && forall id :: ActiveKey(id) in d ==> ActiveKey(id) in d'
    ensures BondedHaveKeys(d', Replaced(active, bond).value)
  {}

  lemma RecordKeepsTrust(d: Dir, bonds: seq<Bond>, peerId: string, naming: Naming, d': Dir)
    requires Trustworthy(d, naming) && Unique(bonds) && Named(bonds, naming) && BondedHaveKeys(d, bonds)
    requires Crash(d, [Save(BondsFile, Store(bonds))] + DiscardSteps(peerId), d')
    ensures Trustworthy(d', naming)
  {
    var save := Save(BondsFile, Store(bonds));
    CrashOfSave(d, save, DiscardSteps(peerId), d');
    if d' != d {
      QuietCrash(Apply(d, save), DiscardSteps(peerId), d');
      TrustIsActiveTrust(Apply(d, save), d', naming);
    }
  }

  /** After the key steps the peer has its key and no other active file changed. */
  lemma KeysInPlace(d: Dir, peerId: string, naming: Naming)
    requires KeyPlan(d, peerId).ok
    ensures var d1 := ApplyAll(d, KeyPlan(d, peerId).steps);
            && ActiveKey(peerId) in d1
            && (PendingKey(peerId) in d ==> d1[ActiveKey(peerId)] == d[PendingKey(peerId)])
            && (forall p :: p != ActiveKey(peerId) && p != ActiveKeyTmp(peerId) ==>
                              (p in d1 <==> p in d) && (p in d ==> d1[p] == d[p]))
  {
    var steps := KeyPlan(d, peerId).steps;
    if steps != [] { Unrolled(d, steps[0], steps[1], steps[1]); }
  }

  lemma RevokeKeepsTrust(d: Dir, peerId: string, naming: Naming, d': Dir)
    requires Trustworthy(d, naming) && Crash(d, RevokePlan(d, peerId, naming).steps, d')
    ensures Trustworthy(d', naming)
  {
    var plan := RevokePlan(d, peerId, naming);
    if plan.steps == [] { return; }
    var active := Load(d, BondsFile, naming).bonds;
    var bonds := RevokedStore(active, peerId, "phone: device dissociated");
    var save := Save(BondsFile, Store(bonds));
    assert plan.steps == [save] + [Unlink(ActiveKey(peerId))];
    CrashOfSave(d, save, [Unlink(ActiveKey(peerId))], d');
    var d1 := Apply(d, save);
    if d' != d && d' != d1 {
      assert d' == Apply(d1, Unlink(ActiveKey(peerId)));
      assert forall i :: 0 <= i < |bonds| && bonds[i].peerId == peerId ==> bonds[i].status.Revoked?;
    }
  }

  /**
   What a revocation amounts to, in a trustworthy directory: it is granted exactly if the peer
   has a record; that record is then revoked, by the phone unless it was revoked before, and is
   otherwise as it was, like every other; and the peer's key, and no other file, is gone.
   */
  lemma RevokedExactly(d: Dir, peerId: string, naming: Naming)
    requires Trustworthy(d, naming) && BondsFile in d
    ensures var plan := RevokePlan(d, peerId, naming); var e := ApplyAll(d, plan.steps);
            && (plan.ok <==> exists i :: 0 <= i < |d[BondsFile].bonds| && d[BondsFile].bonds[i].peerId == peerId)
            && (!plan.ok ==> e == d)
            && (plan.ok ==>
                  && BondsFile in e && e[BondsFile].Store? && |e[BondsFile].bonds| == |d[BondsFile].bonds|
                  && (forall i :: 0 <= i < |d[BondsFile].bonds| ==>
                        RevokedOf(d[BondsFile].bonds[i], peerId, e[BondsFile].bonds[i]))
                  && forall p :: p != BondsFile ==>
                       (p in e <==> p in d && p != ActiveKey(peerId)) && (p in e ==> e[p] == d[p]))
  {
    var plan := RevokePlan(d, peerId, naming);
    if plan.ok {
      assert plan.steps == [plan.steps[0], plan.steps[1]];
      Unrolled(d, plan.steps[0], plan.steps[1], plan.steps[1]);
    }
  }

  /** The record after a revocation of a peer. */
  predicate RevokedOf(was: Bond, peerId: string, now: Bond) {
    && now == was.(status := now.status)
    && now.status == if was.peerId == peerId && was.status.Bonded? then Revoked("phone: device dissociated")
                     else was.status
  }

  /** Every request, crashed at any point, keeps the directory trustworthy. */
  lemma RequestKeepsTrust(d: Dir, r: Request, naming: Naming, d': Dir)
    requires Trustworthy(d, naming) && Crash(d, StepsOf(d, r, naming), d')
    ensures Trustworthy(d', naming)
  {
    match r
    case Promote(peerId) => PromoteKeepsTrust(d, peerId, naming, d');
    case Revoke(peerId) => RevokeKeepsTrust(d, peerId, naming, d');
    case _ =>
      StagingIsolation(d, r, naming, d');
      TrustIsActiveTrust(d, d', naming);
  }

  /** A life of the directory: requests in any order, each finished or crashed anywhere. */
  ghost predicate Life(dirs: seq<Dir>, requests: seq<Request>, naming: Naming) {
    && |dirs| == |requests| + 1
    && dirs[0] == map[]
    && forall i :: 0 <= i < |requests| ==> Crash(dirs[i], StepsOf(dirs[i], requests[i], naming), dirs[i + 1])
  }

  /** In every life every bonded record keeps its complete 32-byte key. */
  lemma {:induction false} LifeIsTrustworthy(dirs: seq<Dir>, requests: seq<Request>, naming: Naming, i: nat)
    requires Life(dirs, requests, naming) && i < |dirs|
    ensures Trustworthy(dirs[i], naming)
  {
    if i > 0 {
      LifeIsTrustworthy(dirs, requests, naming, i - 1);
      RequestKeepsTrust(dirs[i - 1], requests[i - 1], naming, dirs[i]);
    }
  }

  // ---------------------------------------------------------------------------------------
  // Promotion survives crashes
  // ---------------------------------------------------------------------------------------

  /** Two directories promotion cannot tell apart. */
  predicate SamePromotion(d: Dir, e: Dir, peerId: string) {
    && (PendingStore in d <==> PendingStore in e) && (PendingStore in d ==> d[PendingStore] == e[PendingStore])
    && (PendingKey(peerId) in d <==> PendingKey(peerId) in e)
    && (PendingKey(peerId) in d ==> d[PendingKey(peerId)] == e[PendingKey(peerId)])
    && (PendingKey(peerId) !in d ==> (ActiveKey(peerId) in d <==> ActiveKey(peerId) in e))
    && (BondsFile in d <==> BondsFile in e) && (BondsFile in d ==> d[BondsFile] == e[BondsFile])
  }

  /** A crash during the key steps leaves everything promotion reads, and the journal. */
  lemma CrashedKeyStepsRerun(d: Dir, peerId: string, key: bytes, d': Dir)
    requires PendingKey(peerId) in d && Crash(d, KeySteps(peerId, key), d')
    ensures SamePromotion(d, d', peerId) && (JournalFile in d <==> JournalFile in d')
    ensures forall p :: IsActive(p) && p != ActiveKey(peerId) ==> (p in d' <==> p in d) && (p in d ==> d'[p] == d[p])
  {
    var steps := KeySteps(peerId, key);
    var d1 := Apply(d, steps[0]);
    assert steps[1..] == [steps[1]];
    assert [steps[1]][1..] == [];
    if Crash(d1, steps[1..], d') {
      assert d' == d1 || Crash(Apply(d1, steps[1]), [], d');
    }
  }

  lemma SamePromotionSamePlan(d: Dir, e: Dir, peerId: string, naming: Naming)
    requires SamePromotion(d, e, peerId)
    ensures PromotePlan(e, peerId, naming) == PromotePlan(d, peerId, naming)
    ensures StagedBond(e, peerId, naming) == StagedBond(d, peerId, naming)
    ensures Load(e, BondsFile, naming) == Load(d, BondsFile, naming)
  {}

  /** What a successful promotion leaves: the new store, the staged key, and the other keys as they were. */
  lemma PromotedTrust(d: Dir, peerId: string, naming: Naming)
    requires PromotePlan(d, peerId, naming).ok
    ensures var final := ApplyAll(d, PromotePlan(d, peerId, naming).steps);
            var bonds := Replaced(Load(d, BondsFile, naming).bonds, StagedBond(d, peerId, naming).value).value;
            && ActiveTrust(final) == ActiveTrust(ApplyAll(d, KeyPlan(d, peerId).steps)[BondsFile := Store(bonds)])
            && PendingStore !in final && JournalFile !in final && PendingKey(peerId) !in final
  {
    var keys := KeyPlan(d, peerId).steps;
    var bonds := Replaced(Load(d, BondsFile, naming).bonds, StagedBond(d, peerId, naming).value).value;
    var save := Save(BondsFile, Store(bonds));
    var rest := DiscardSteps(peerId);
    ApplyAllAppend(d, keys, [save] + rest);
    ApplyAllAppend(ApplyAll(d, keys), [save], rest);
    var d2 := Apply(ApplyAll(d, keys), save);
    CrashAtEnd(d2, rest);
    QuietCrash(d2, rest, ApplyAll(d2, rest));
    assert ApplyAll(ApplyAll(d, keys), [save]) == d2;
    Unrolled(d2, rest[0], rest[1], rest[2]);
  }

  /** Trust after promotion depends only on what promotion reads and on the other keys. */
  lemma RerunReachesSameTrust(d: Dir, e: Dir, peerId: string, naming: Naming)
    requires PromotePlan(d, peerId, naming).ok && SamePromotion(d, e, peerId)
    requires PendingKey(peerId) in d
    requires forall p :: IsActive(p) && p != ActiveKey(peerId) ==> (p in e <==> p in d) && (p in d ==> e[p] == d[p])
    ensures PromotePlan(e, peerId, naming).ok
    ensures ActiveTrust(ApplyAll(e, PromotePlan(e, peerId, naming).steps)) ==
            ActiveTrust(ApplyAll(d, PromotePlan(d, peerId, naming).steps))
  {
    SamePromotionSamePlan(d, e, peerId, naming);
    PromotedTrust(d, peerId, naming);
    PromotedTrust(e, peerId, naming);
    KeysInPlace(d, peerId, naming);
    KeysInPlace(e, peerId, naming);
    var d1, e1 := ApplyAll(d, KeyPlan(d, peerId).steps), ApplyAll(e, KeyPlan(e, peerId).steps);
    var bonds := Replaced(Load(d, BondsFile, naming).bonds, StagedBond(d, peerId, naming).value).value;
    assert forall p :: IsActive(p) ==> (p in d1 <==> p in e1) && (p in d1 ==> d1[p] == e1[p]);
    SameActiveFiles(d1, e1, Store(bonds));
  }

  lemma SameActiveFiles(d: Dir, e: Dir, store: File)
    requires forall p :: IsActive(p) ==> (p in d <==> p in e) && (p in d ==> d[p] == e[p])
    ensures ActiveTrust(d[BondsFile := store]) == ActiveTrust(e[BondsFile := store])
  {}

  /**
   Crash-safe promotion. Whatever a crash of a promotion that would have succeeded leaves
   behind, either promoting again succeeds and reaches the same trust, or the trust is
   already final; and the journal is gone only when it is.
   */
  lemma PromotionSurvivesCrashes(d: Dir, peerId: string, naming: Naming, d': Dir)
    requires PromotePlan(d, peerId, naming).ok
    requires Crash(d, PromotePlan(d, peerId, naming).steps, d')
    ensures var final := ApplyAll(d, PromotePlan(d, peerId, naming).steps);
            var again := PromotePlan(d', peerId, naming);
            && (ActiveTrust(d') == ActiveTrust(final) ||
                (again.ok && ActiveTrust(ApplyAll(d', again.steps)) == ActiveTrust(final)))
            && (JournalFile in d && JournalFile !in d' ==> ActiveTrust(d') == ActiveTrust(final))
  {
    var keys := KeyPlan(d, peerId).steps;
    var bonds := Replaced(Load(d, BondsFile, naming).bonds, StagedBond(d, peerId, naming).value).value;
    var save := Save(BondsFile, Store(bonds));
    var d1 := ApplyAll(d, keys);
    CrashAppend(d, keys, [save] + DiscardSteps(peerId), d');
    if Crash(d, keys, d') {
      CrashedKeysRecover(d, peerId, naming, d');
    } else {
      CrashAtEnd(d, keys);
      CrashedKeysRecover(d, peerId, naming, d1);
      CrashedRecord(d1, bonds, peerId, d');
      PromotedTrust(d, peerId, naming);
    }
  }

  /** Once the store is saved the trust is final, whatever happens to the staging. */
  lemma CrashedRecord(d: Dir, bonds: seq<Bond>, peerId: string, d': Dir)
    requires Crash(d, [Save(BondsFile, Store(bonds))] + DiscardSteps(peerId), d')
    ensures d' == d || ActiveTrust(d') == ActiveTrust(d[BondsFile := Store(bonds)])
  {
    var save := Save(BondsFile, Store(bonds));
    CrashOfSave(d, save, DiscardSteps(peerId), d');
    if d' != d { QuietCrash(Apply(d, save), DiscardSteps(peerId), d'); }
  }

  /** Whatever the key steps leave behind, promoting again reaches the same trust. */
  lemma CrashedKeysRecover(d: Dir, peerId: string, naming: Naming, d': Dir)
    requires PromotePlan(d, peerId, naming).ok && Crash(d, KeyPlan(d, peerId).steps, d')
    ensures var again := PromotePlan(d', peerId, naming);
            && again.ok && (JournalFile in d <==> JournalFile in d')
            && ActiveTrust(ApplyAll(d', again.steps)) == ActiveTrust(ApplyAll(d, PromotePlan(d, peerId, naming).steps))
  {
    if KeyPlan(d, peerId).steps != [] {
      CrashedKeyStepsRerun(d, peerId, d[PendingKey(peerId)].octets, d');
      RerunReachesSameTrust(d, d', peerId, naming);
    }
  }
}
