/** The per-peer memory of used nonces and the replay window it enforces. */
module ReplayWindow {
  import opened ChallengeFrame

  const CAPACITY := 64

  /** The last `CAPACITY` entries of a history. */
  function Window(history: seq<Nonce>): (w: seq<Nonce>)
    ensures |w| == if |history| <= CAPACITY then |history| else CAPACITY
  {
    if |history| <= CAPACITY then history else history[|history| - CAPACITY..]
  }

  /** Two acceptances of one nonce are more than `CAPACITY` acceptances apart. */
  predicate Apart(history: seq<Nonce>, i: nat, j: nat)
    requires i < j < |history|
  {
    history[i] == history[j] ==> j - i > CAPACITY
  }

  /** No nonce was accepted twice within `CAPACITY` acceptances. */
  ghost predicate Spaced(history: seq<Nonce>) {
    forall i: nat, j: nat :: i < j < |history| ==> Apart(history, i, j)
  }

  lemma WindowIsRecent(history: seq<Nonce>, nonce: Nonce) returns (i: nat)
    requires nonce in Window(history)
    ensures i < |history| <= i + CAPACITY && history[i] == nonce
  {
    var k :| 0 <= k < |Window(history)| && Window(history)[k] == nonce;
    i := |history| - |Window(history)| + k;
  }

  /** Refusing what is in the window is exactly what keeps a history spaced. */
  lemma SpacedExactly(history: seq<Nonce>, nonce: Nonce)
    requires Spaced(history)
    ensures Spaced(history + [nonce]) <==> nonce !in Window(history)
  {
    var longer, n := history + [nonce], |history|;
    if nonce in Window(history) {
      var i := WindowIsRecent(history, nonce);
      assert !Apart(longer, i, n);
    } else {
      forall i: nat | i < n <= i + CAPACITY ensures history[i] != nonce {}
      forall i: nat, j: nat | i < j < |longer| ensures Apart(longer, i, j) {
        if j < n { assert Apart(history, i, j); }
      }
    }
  }

  /** One of the last 64 entries is the nonce. */
  ghost predicate Recent(history: seq<Nonce>, nonce: Nonce) {
    exists i :: 0 <= i < |history| && |history| - i <= 64 && history[i] == nonce
  }

  /** Equal entries are at least 65 apart. */
  ghost predicate NeverSoon(history: seq<Nonce>) {
    forall i, j :: 0 <= i < j < |history| && history[i] == history[j] ==> j - i >= 65
  }

  /** The window in numbers. */
  lemma WindowExactly(history: seq<Nonce>, nonce: Nonce)
    ensures nonce in Window(history) <==> Recent(history, nonce)
    ensures Spaced(history) <==> NeverSoon(history)
  {
    if nonce in Window(history) { var _ := WindowIsRecent(history, nonce); }
    if i :| 0 <= i < |history| && |history| - i <= 64 && history[i] == nonce {
      assert Window(history)[i - (|history| - |Window(history)|)] == nonce;
    }
    if Spaced(history) {
      forall i, j | 0 <= i < j < |history| && history[i] == history[j] ensures j - i >= 65 {
        assert Apart(history, i, j);
      }
    }
  }

  /** A history after further nonces were offered to it, those in the window being refused. */
  function Admitted(history: seq<Nonce>, offers: seq<Nonce>): seq<Nonce>
    decreases |offers|
  {
    if offers == [] then history
    else Admitted(if offers[0] in Window(history) then history else history + [offers[0]], offers[1..])
  }

  /** Over every run of offers, equal accepted nonces are at least 65 acceptances apart. */
  lemma {:induction false} AdmittedIsSpaced(history: seq<Nonce>, offers: seq<Nonce>)
    requires Spaced(history)
    ensures Spaced(Admitted(history, offers)) && history <= Admitted(history, offers)
    ensures NeverSoon(Admitted(history, offers))
    decreases |offers|
  {
    if offers == [] {
      WindowExactly(history, seq(NONCE_LEN, _ => 0));
    } else {
      SpacedExactly(history, offers[0]);
      AdmittedIsSpaced(if offers[0] in Window(history) then history else history + [offers[0]], offers[1..]);
    }
  }

  class NonceCache {
    var nonces: seq<Nonce>
    /** Every nonce ever inserted. */
    ghost var history: seq<Nonce>
    /** The peer it was made for. */
    ghost const owner: string

    ghost predicate Valid()
      reads this
    {
      nonces == Window(history)
    }

    constructor (ghost owner: string)
      ensures Valid() && history == [] && this.owner == owner
    {
      nonces, history, this.owner := [], [], owner;
    }

    method Contains(nonce: Nonce) returns (found: bool)
      ensures found <==> nonce in nonces
    {
      for i := 0 to |nonces|
        invariant nonce !in nonces[..i]
      {
        if nonces[i] == nonce { return true; }
      }
      assert nonces[..|nonces|] == nonces;
      found := false;
    }

    method Insert(nonce: Nonce)
      requires Valid()
      modifies this
      ensures Valid() && history == old(history) + [nonce]
    {
      nonces := nonces + [nonce];
      if |nonces| > CAPACITY { nonces := nonces[1..]; }
      history := history + [nonce];
    }
  }
}
