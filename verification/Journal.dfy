/** The text of the recovery journal and its two readers. */
module Journal {
  import opened Bytes
  import opened PairTransaction

  datatype JournalState = Staged | Decided

  datatype JournalRecord =
    JournalRecord(transaction: TransactionId, peerId: string, peerAddress: string, state: JournalState)

  // ---------------------------------------------------------------------------------------
  // Hexadecimal
  // ---------------------------------------------------------------------------------------

  const HEX_CHARS: string := "0123456789abcdef"

  function Hex(b: bytes): (s: string)
    ensures |s| == 2 * |b|
  {
    seq(2 * |b|, k requires 0 <= k < 2 * |b| => HEX_CHARS[if k % 2 == 0 then b[k / 2] / 16 else b[k / 2] % 16])
  }

  method HexLowercase(b: bytes) returns (out: string)
    ensures out == Hex(b)
  {
    out := "";
    for i := 0 to |b|
      invariant out == Hex(b[..i])
    {
      out := out + [HEX_CHARS[b[i] / 16]];
      out := out + [HEX_CHARS[b[i] % 16]];
    }
    assert b[..|b|] == b;
  }

  function DigitValue(c: char): Option<nat> {
    if '0' <= c <= '9' then Some((c - '0') as nat)
    else if 'a' <= c <= 'f' then Some(10 + (c - 'a') as nat)
    else if 'A' <= c <= 'F' then Some(10 + (c - 'A') as nat)
    else None
  }

  /** Two characters read as an unsigned base-16 number; a leading plus sign is allowed. */
  function OctetValue(c: char, d: char): (v: Option<byte>) {
    if c == '+' then
      match DigitValue(d) case Some(low) => Some(low) case None => None
    else
      match (DigitValue(c), DigitValue(d))
      case (Some(high), Some(low)) => Some(16 * high + low)
      case _ => None
  }

  predicate IsHexId(text: string) {
    |text| == 32 && forall i :: 0 <= i < 16 ==> OctetValue(text[2 * i], text[2 * i + 1]).Some?
  }

  function HexId(text: string): Option<TransactionId> {
    if !IsHexId(text) then None
    else Some(seq(16, i requires 0 <= i < 16 && IsHexId(text) => OctetValue(text[2 * i], text[2 * i + 1]).value))
  }

  method ReadHexId(text: string) returns (r: Option<TransactionId>)
    ensures r == HexId(text)
  {
    if |text| != 32 { return None; }
    var id := new byte[16];
    for i := 0 to 16
      invariant forall k :: 0 <= k < i ==> OctetValue(text[2 * k], text[2 * k + 1]) == Some(id[k])
    {
      match OctetValue(text[2 * i], text[2 * i + 1]) {
        case None => return None;
        case Some(v) => id[i] := v;
      }
    }
    assert id[..] == HexId(text).value;
    r := Some(id[..]);
  }

  /** The character stands for `n` in either case. */
  predicate IsDigit(c: char, n: nat) {
    n < 16 && (c == "0123456789abcdef"[n] || c == "0123456789ABCDEF"[n])
  }

  lemma DigitsExactly(c: char, n: nat)
    ensures DigitValue(c) == Some(n) <==> IsDigit(c, n)
  {}

  /** Exactly what is read as an identifier: sixteen pairs of digits, a plus sign allowed for a high zero. */
  lemma HexReadExactly(text: string, id: TransactionId)
    ensures HexId(text) == Some(id) <==>
            |text| == 32 && forall i :: 0 <= i < 16 ==> IsPair(text[2 * i], text[2 * i + 1], id[i])
  {
    if |text| == 32 {
      forall i | 0 <= i < 16
        ensures OctetValue(text[2 * i], text[2 * i + 1]) == Some(id[i]) <==>
                IsPair(text[2 * i], text[2 * i + 1], id[i])
      {
        PairsExactly(text[2 * i], text[2 * i + 1], id[i]);
      }
      if forall i :: 0 <= i < 16 ==> IsPair(text[2 * i], text[2 * i + 1], id[i]) { HexIdIs(text, id); }
    }
  }

  predicate IsPair(c: char, d: char, v: byte) {
    DigitValue(d) == Some(v % 16) && (DigitValue(c) == Some(v / 16) || (c == '+' && v < 16))
  }

  lemma PairsExactly(c: char, d: char, v: byte)
    ensures OctetValue(c, d) == Some(v) <==> IsPair(c, d, v)
  {
    match (DigitValue(c), DigitValue(d))
    case (Some(high), Some(low)) => assert (16 * high + low) / 16 == high && (16 * high + low) % 16 == low;
    case _ =>
  }

  lemma DigitRoundTrip(n: nat)
    requires n < 16
    ensures DigitValue(HEX_CHARS[n]) == Some(n) && HEX_CHARS[n] != '+'
    ensures HEX_CHARS[n] != '\n' && HEX_CHARS[n] != '\r'
  {}

  lemma OctetRoundTrip(b: byte)
    ensures OctetValue(HEX_CHARS[b / 16], HEX_CHARS[b % 16]) == Some(b)
  {
    DigitRoundTrip(b / 16);
    DigitRoundTrip(b % 16);
  }

  lemma HexAt(b: bytes, i: nat)
    requires i < |b|
    ensures OctetValue(Hex(b)[2 * i], Hex(b)[2 * i + 1]) == Some(b[i])
  {
    assert Hex(b)[2 * i] == HEX_CHARS[b[i] / 16];
    assert Hex(b)[2 * i + 1] == HEX_CHARS[b[i] % 16];
    OctetRoundTrip(b[i]);
  }

  lemma HexRoundTrip(id: TransactionId)
    ensures HexId(Hex(id)) == Some(id)
  {
    var text := Hex(id);
    forall i | 0 <= i < 16 ensures OctetValue(text[2 * i], text[2 * i + 1]) == Some(id[i]) {
      HexAt(id, i);
    }
    HexIdIs(text, id);
  }

  lemma HexIdIs(text: string, id: TransactionId)
    requires |text| == 32 && forall i :: 0 <= i < 16 ==> OctetValue(text[2 * i], text[2 * i + 1]) == Some(id[i])
    ensures HexId(text) == Some(id)
  {
    assert IsHexId(text);
    var v := HexId(text).value;
    assert forall i :: 0 <= i < 16 ==> v[i] == id[i];
    assert v == id;
  }

  // ---------------------------------------------------------------------------------------
  // Lines
  // ---------------------------------------------------------------------------------------

  /** Position of the first newline, or the length of the text. */
  function LineEnd(text: string): (n: nat)
    ensures n <= |text| && '\n' !in text[..n]
    ensures n < |text| ==> text[n] == '\n'
  {
    if text == "" || text[0] == '\n' then 0 else 1 + LineEnd(text[1..])
  }

  function StripCr(line: string): string {
    if line != "" && line[|line| - 1] == '\r' then line[..|line| - 1] else line
  }

  /** Lines end at a newline, which is dropped together with one carriage return before it. */
  function Lines(text: string): seq<string>
    decreases |text|
  {
    var n := LineEnd(text);
    if text == "" then []
    else if n == |text| then [text]
    else [StripCr(text[..n])] + Lines(text[n + 1..])
  }

  lemma {:induction false} LineEndIs(text: string, n: nat)
    requires n <= |text| && (forall k :: 0 <= k < n ==> text[k] != '\n') && (n < |text| ==> text[n] == '\n')
    ensures LineEnd(text) == n
  {}

  lemma LinesCons(line: string, rest: string)
    requires '\n' !in line
    ensures Lines(line + "\n" + rest) == [StripCr(line)] + Lines(rest)
  {
    var text := line + "\n" + rest;
    LineEndIs(text, |line|);
    assert text[..|line|] == line && text[|line| + 1..] == rest;
  }

  /** Value of the first line that is `name`, an equals sign and the value. */
  function FieldOf(lines: seq<string>, name: string): Option<string> {
    if lines == [] then None
    else if name + "=" <= lines[0] then Some(lines[0][|name| + 1..])
    else FieldOf(lines[1..], name)
  }

  function Field(text: string, name: string): Option<string> {
    FieldOf(Lines(text), name)
  }

  // ---------------------------------------------------------------------------------------
  // The record
  // ---------------------------------------------------------------------------------------

  function StateText(s: JournalState): string {
    if s.Staged? then "pre_commit" else "commit_pending"
  }

  /** One `name=value` line in front of the rest of a text. */
  function Line(name: string, value: string, rest: string): string {
    name + "=" + value + "\n" + rest
  }

  function JournalText(r: JournalRecord): string {
    Line("version", "2", Line("transaction_id", Hex(r.transaction), AfterId(r)))
  }

  function AfterId(r: JournalRecord): string {
    Line("peer_id", r.peerId, AfterPeer(r))
  }

  function AfterPeer(r: JournalRecord): string {
    Line("peer_address", r.peerAddress, AfterAddress(r))
  }

  function AfterAddress(r: JournalRecord): string {
    Line("state", StateText(r.state), "")
  }

  lemma Grouped(a: string, b: string, c: string, d: string, e: string)
    ensures a + (b + (c + (d + e))) == a + b + c + d + e
  {}

  /** The journal in full, line by line. */
  lemma JournalInFull(r: JournalRecord)
    ensures JournalText(r) == "version=2\n" + ("transaction_id=" + Hex(r.transaction) + "\n") +
                              ("peer_id=" + r.peerId + "\n") + ("peer_address=" + r.peerAddress + "\n") +
                              ("state=" + (if r.state.Staged? then "pre_commit" else "commit_pending") + "\n")
  {
    var id, peer := "transaction_id=" + Hex(r.transaction) + "\n", "peer_id=" + r.peerId + "\n";
    var address, state := "peer_address=" + r.peerAddress + "\n", "state=" + StateText(r.state) + "\n";
    LineInFull("state", StateText(r.state), "");
    LineInFull("peer_address", r.peerAddress, AfterAddress(r));
    LineInFull("peer_id", r.peerId, AfterPeer(r));
    LineInFull("transaction_id", Hex(r.transaction), AfterId(r));
    Grouped("version=2\n", id, peer, address, state);
  }

  lemma LineInFull(name: string, value: string, rest: string)
    ensures Line(name, value, rest) == (name + "=" + value + "\n") + rest
  {}

  /** The core library's reader: a missing state means staged. */
  function ReadJournal(text: string): Option<JournalRecord> {
    match Field(text, "transaction_id")
    case None => None
    case Some(idText) =>
      match (HexId(idText), Field(text, "state"), Field(text, "peer_id"), Field(text, "peer_address"))
      case (Some(id), state, Some(peerId), Some(address)) =>
        if state == None || state == Some("pre_commit") then Some(JournalRecord(id, peerId, address, Staged))
        else if state == Some("commit_pending") then Some(JournalRecord(id, peerId, address, Decided))
        else None
      case _ => None
  }

  datatype Recovered = Recovered(transaction: TransactionId, peerId: string, peerAddress: string, status: StatusState)

  /** The reconciler's reader: a missing state means a commit may have been decided. */
  function ReconcilerReads(text: string): Option<Recovered> {
    match Field(text, "transaction_id")
    case None => None
    case Some(idText) =>
      match (HexId(idText), Field(text, "peer_id"), Field(text, "peer_address"))
      case (Some(id), Some(peerId), Some(address)) =>
        var state := Field(text, "state");
        if state == Some("pre_commit") then Some(Recovered(id, peerId, address, PreCommit))
        else if state == None || state == Some("commit_pending") then
          Some(Recovered(id, peerId, address, StatusState.CommitPending))
        else if state == Some("aborted") then Some(Recovered(id, peerId, address, StatusState.Aborted))
        else None
      case _ => None
  }

  function StatusOfState(s: JournalState): StatusState {
    if s.Staged? then PreCommit else StatusState.CommitPending
  }

  predicate ReadersAgree(text: string) {
    match (ReadJournal(text), ReconcilerReads(text))
    case (None, None) => true
    case (Some(r), Some(q)) => q == Recovered(r.transaction, r.peerId, r.peerAddress, StatusOfState(r.state))
    case _ => false
  }

  predicate HasIdentity(text: string) {
    && Field(text, "transaction_id").Some? && HexId(Field(text, "transaction_id").value).Some?
    && Field(text, "peer_id").Some? && Field(text, "peer_address").Some?
  }

  /** On every text the readers agree, except where a complete identity meets no state or an aborted one. */
  lemma ReadersAgreeExactly(text: string)
    ensures ReadersAgree(text) <==>
            !(HasIdentity(text) && (Field(text, "state") == None || Field(text, "state") == Some("aborted")))
  {}

  /** A value that survives being written on a line of its own. */
  predicate Clean(value: string) {
    '\n' !in value && (value == "" || value[|value| - 1] != '\r')
  }

  lemma HexIsClean(b: bytes)
    ensures Clean(Hex(b))
  {}

  /** What a reader gets back for `value` written after a key. */
  function Surviving(value: string): string {
    StripCr(value[..LineEnd(value)])
  }

  lemma SurvivesExactly(value: string)
    ensures Surviving(value) == value <==> Clean(value)
    ensures '\n' !in value ==> Surviving(value) == StripCr(value)
  {}

  lemma StripCrAfterKey(key: string, value: string)
    requires key != "" && key[|key| - 1] != '\r'
    ensures StripCr(key + value) == key + StripCr(value)
  {}

  predicate IsName(name: string) {
    name != "" && '\n' !in name
  }

  lemma FirstLine(name: string, value: string, rest: string)
    requires IsName(name)
    ensures var lines := Lines(Line(name, value, rest)); lines != [] && lines[0] == name + "=" + Surviving(value)
  {
    var key := name + "=";
    var text := Line(name, value, rest);
    var n := LineEnd(value);
    assert forall k :: 0 <= k < n ==> value[k] == value[..n][k];
    LineEndIs(text, |key| + n);
    assert text[..|key| + n] == key + value[..n];
    StripCrAfterKey(key, value[..n]);
  }

  /** A field is found on its own line, and what it holds survives up to the first newline. */
  lemma ReadHere(name: string, value: string, rest: string)
    requires IsName(name)
    ensures FieldOf(Lines(Line(name, value, rest)), name) == Some(Surviving(value))
  {
    FirstLine(name, value, rest);
    var first := Lines(Line(name, value, rest))[0];
    assert first[|name| + 1..] == Surviving(value);
  }

  /** A field is not found on a newline-free line of another name, which differs at `k`. */
  lemma ReadOn(name: string, other: string, value: string, rest: string, k: nat)
    requires IsName(other) && '\n' !in value && k < |name| && k < |other| && name[k] != other[k]
    ensures FieldOf(Lines(Line(other, value, rest)), name) == FieldOf(Lines(rest), name)
  {
    LinesCons(other + "=" + value, rest);
    StripCrAfterKey(other + "=", value);
    var lines := Lines(Line(other, value, rest));
    assert lines[0][k] == other[k];
    assert (name + "=")[k] == name[k];
    assert lines[1..] == Lines(rest);
  }

  lemma ReadOnFromHead(r: JournalRecord, name: string)
    requires name != "" && (name[0] == 'p' || name[0] == 's')
    ensures Field(JournalText(r), name) == FieldOf(Lines(AfterId(r)), name)
  {
    HexIsClean(r.transaction);
    ReadOn(name, "version", "2", Line("transaction_id", Hex(r.transaction), AfterId(r)), 0);
    ReadOn(name, "transaction_id", Hex(r.transaction), AfterId(r), 0);
  }

  lemma IdField(r: JournalRecord)
    ensures Field(JournalText(r), "transaction_id") == Some(Hex(r.transaction))
  {
    HexIsClean(r.transaction);
    SurvivesExactly(Hex(r.transaction));
    ReadOn("transaction_id", "version", "2", Line("transaction_id", Hex(r.transaction), AfterId(r)), 0);
    ReadHere("transaction_id", Hex(r.transaction), AfterId(r));
  }

  lemma PeerIdField(r: JournalRecord)
    ensures Field(JournalText(r), "peer_id") == Some(Surviving(r.peerId))
  {
    ReadOnFromHead(r, "peer_id");
    ReadHere("peer_id", r.peerId, AfterPeer(r));
  }

  /** With a newline-free peer identifier the address is read from its own line. */
  lemma AddressField(r: JournalRecord)
    requires '\n' !in r.peerId
    ensures Field(JournalText(r), "peer_address") == Some(Surviving(r.peerAddress))
  {
    ReadOnFromHead(r, "peer_address");
    ReadOn("peer_address", "peer_id", r.peerId, AfterPeer(r), 5);
    ReadHere("peer_address", r.peerAddress, AfterAddress(r));
  }

  lemma StateTextIsClean(s: JournalState)
    ensures Clean(StateText(s))
  {}

  /** With newline-free values so is the state. */
  lemma StateField(r: JournalRecord)
    requires '\n' !in r.peerId && '\n' !in r.peerAddress
    ensures Field(JournalText(r), "state") == Some(StateText(r.state))
  {
    ReadOnFromHead(r, "state");
    ReadOn("state", "peer_id", r.peerId, AfterPeer(r), 0);
    ReadOn("state", "peer_address", r.peerAddress, AfterAddress(r), 0);
    StateTextIsClean(r.state);
    SurvivesExactly(StateText(r.state));
    ReadHere("state", StateText(r.state), "");
  }

  /** A record comes back from its text exactly when both free-form values are clean. */
  lemma JournalRoundTrip(r: JournalRecord)
    ensures ReadJournal(JournalText(r)) == Some(r) <==> Clean(r.peerId) && Clean(r.peerAddress)
  {
    IdField(r);
    PeerIdField(r);
    HexRoundTrip(r.transaction);
    SurvivesExactly(r.peerId);
    SurvivesExactly(r.peerAddress);
    if '\n' !in r.peerId {
      AddressField(r);
      if '\n' !in r.peerAddress { StateField(r); }
    }
  }

  /** Both readers agree on every complete journal with newline-free values. */
  lemma ReadersAgreeOnWritten(r: JournalRecord)
    requires '\n' !in r.peerId && '\n' !in r.peerAddress
    ensures ReadersAgree(JournalText(r)) && ReconcilerReads(JournalText(r)).Some?
    ensures ReconcilerReads(JournalText(r)).value.status == StatusOfState(r.state)
  {
    IdField(r);
    PeerIdField(r);
    AddressField(r);
    StateField(r);
    HexRoundTrip(r.transaction);
  }

  // ---------------------------------------------------------------------------------------
  // Torn writes
  // ---------------------------------------------------------------------------------------

  lemma OneLine(line: string)
    requires '\n' !in line
    ensures Lines(line) == if line == "" then [] else [line]
  {}

  /** A cut inside a line keeps a prefix of that line; a cut after it cuts the rest. */
  lemma Cut(name: string, value: string, rest: string, n: nat)
    requires n <= |Line(name, value, rest)|
    ensures var m := |name| + |value| + 2;
            Line(name, value, rest)[..n] ==
            (if n < m then (name + "=" + value)[..n] else Line(name, value, rest[..n - m]))
  {}

  /** The value of `name` in a text cut off inside its own line. */
  lemma ReadTornHere(name: string, value: string, n: nat)
    requires IsName(name) && '\n' !in value && n <= |name| + 1 + |value|
    ensures FieldOf(Lines((name + "=" + value)[..n]), name) ==
            (if n <= |name| then None else Some(value[..n - |name| - 1]))
  {
    var torn := (name + "=" + value)[..n];
    OneLine(torn);
    if n > |name| {
      assert torn == name + "=" + value[..n - |name| - 1];
    }
  }

  /** A text cut off inside a line of another name does not hold `name`. */
  lemma ReadTornOn(name: string, other: string, value: string, k: nat, n: nat)
    requires IsName(other) && '\n' !in value && k < |name| && k < |other| && name[k] != other[k]
    requires n <= |other| + 1 + |value|
    ensures FieldOf(Lines((other + "=" + value)[..n]), name) == None
  {}

  /** Reading `name` from a cut text that starts with a line of another name. */
  lemma ReadCut(name: string, other: string, value: string, rest: string, k: nat, n: nat)
    requires IsName(other) && '\n' !in value && k < |name| && k < |other| && name[k] != other[k]
    requires n <= |Line(other, value, rest)|
    ensures var m := |other| + |value| + 2;
            FieldOf(Lines(Line(other, value, rest)[..n]), name) ==
            (if n < m then None else FieldOf(Lines(rest[..n - m]), name))
  {
    var m := |other| + |value| + 2;
    Cut(other, value, rest, n);
    if n < m { ReadTornOn(name, other, value, k, n); } else { ReadOn(name, other, value, rest[..n - m], k); }
  }

  /** Nothing was read, or a prefix of `value`. */
  predicate AtMost(found: Option<string>, value: string) {
    found == None || found.value <= value
  }

  /** What a cut text holds for a value that starts at `at`: nothing, then a prefix, then all but a carriage return. */
  ghost predicate TornValue(found: Option<string>, value: string, at: nat, n: nat) {
    && (found == None <==> n < at) && AtMost(found, value)
    && (n > at + |value| ==> found == Some(StripCr(value)))
  }

  /** Reading `name` from a cut text that starts with its own line. */
  lemma ReadCutHere(name: string, value: string, rest: string, n: nat)
    requires IsName(name) && '\n' !in value && n <= |Line(name, value, rest)|
    ensures TornValue(FieldOf(Lines(Line(name, value, rest)[..n]), name), value, |name| + 1, n)
  {
    Cut(name, value, rest, n);
    if n < |name| + |value| + 2 {
      ReadTornHere(name, value, n);
    } else {
      ReadWhole(name, value, rest[..n - |name| - |value| - 2]);
    }
  }

  lemma ReadWhole(name: string, value: string, rest: string)
    requires IsName(name) && '\n' !in value
    ensures FieldOf(Lines(Line(name, value, rest)), name) == Some(StripCr(value))
  {
    SurvivesExactly(value);
    ReadHere(name, value, rest);
  }

  /** The same behind a line of another name. */
  lemma ReadCutOn(name: string, value: string, at: nat, other: string, skipped: string, rest: string, k: nat, n: nat)
    requires IsName(other) && '\n' !in skipped && k < |name| && k < |other| && name[k] != other[k]
    requires n <= |Line(other, skipped, rest)|
    requires var m := |other| + |skipped| + 2;
             n >= m ==> TornValue(FieldOf(Lines(rest[..n - m]), name), value, at, n - m)
    ensures TornValue(FieldOf(Lines(Line(other, skipped, rest)[..n]), name), value, at + |other| + |skipped| + 2, n)
  {
    ReadCut(name, other, skipped, rest, k, n);
  }

  type Row = (string, string)

  /** A text of one `name=value` line per row. */
  function Rows(rows: seq<Row>): string {
    if rows == [] then "" else Line(rows[0].0, rows[0].1, Rows(rows[1..]))
  }

  /** Where the value of row `i` starts. */
  function ValueAt(rows: seq<Row>, i: nat): nat
    requires i < |rows|
  {
    if i == 0 then |rows[0].0| + 1 else |rows[0].0| + |rows[0].1| + 2 + ValueAt(rows[1..], i - 1)
  }

  predicate Apart(name: string, other: string) {
    exists k :: 0 <= k < |name| && k < |other| && name[k] != other[k]
  }

  /** Newline-free rows, the one at `i` under a name that no earlier row's name begins or extends. */
  ghost predicate Readable(rows: seq<Row>, i: nat) {
    && i < |rows| && (forall j :: 0 <= j < |rows| ==> IsName(rows[j].0) && '\n' !in rows[j].1)
    && (forall j :: 0 <= j < i ==> Apart(rows[i].0, rows[j].0))
  }

  lemma ReadableTail(rows: seq<Row>, i: nat)
    requires Readable(rows, i) && i > 0
    ensures Readable(rows[1..], i - 1)
  {}

  /** Every row of a text cut anywhere. */
  lemma {:induction false} TornRow(rows: seq<Row>, i: nat, n: nat)
    requires Readable(rows, i) && n <= |Rows(rows)|
    ensures TornValue(FieldOf(Lines(Rows(rows)[..n]), rows[i].0), rows[i].1, ValueAt(rows, i), n)
    decreases i
  {
    var (name, value) := rows[0];
    var rest := Rows(rows[1..]);
    if i == 0 {
      ReadCutHere(name, value, rest, n);
    } else {
      var k :| 0 <= k < |rows[i].0| && k < |name| && rows[i].0[k] != name[k];
      ReadableTail(rows, i);
      if n >= |name| + |value| + 2 { TornRow(rows[1..], i - 1, n - |name| - |value| - 2); }
      ReadCutOn(rows[i].0, rows[i].1, ValueAt(rows[1..], i - 1), name, value, rest, k, n);
    }
  }

  function JournalRows(r: JournalRecord): seq<Row> {
    [("version", "2"), ("transaction_id", Hex(r.transaction)), ("peer_id", r.peerId),
     ("peer_address", r.peerAddress), ("state", StateText(r.state))]
  }

  lemma JournalIsRows(r: JournalRecord)
    ensures JournalText(r) == Rows(JournalRows(r))
  {
    var rows := JournalRows(r);
    assert rows[4..][1..] == [];
    assert Rows(rows[4..]) == AfterAddress(r);
    assert rows[3..][1..] == rows[4..];
    assert Rows(rows[3..]) == AfterPeer(r);
    assert rows[2..][1..] == rows[3..];
    assert Rows(rows[2..]) == AfterId(r);
    assert rows[1..][1..] == rows[2..];
  }

  lemma JournalIsReadable(r: JournalRecord, i: nat)
    requires 1 <= i < 5 && '\n' !in r.peerId && '\n' !in r.peerAddress
    ensures Readable(JournalRows(r), i)
  {
    HexIsClean(r.transaction);
    StateTextIsClean(r.state);
    assert "transaction_id"[0] != "version"[0];
    assert "peer_id"[0] != "version"[0] && "peer_id"[0] != "transaction_id"[0];
    assert "peer_address"[0] != "version"[0] && "peer_address"[0] != "transaction_id"[0];
    assert "peer_address"[5] != "peer_id"[5];
    assert "state"[0] != "version"[0] && "state"[0] != "transaction_id"[0] && "state"[0] != "peer_id"[0];
    assert "state"[0] != "peer_address"[0];
  }

  /** Where the state's value starts in the text of a record, and where the address's does. */
  function StateAt(r: JournalRecord): nat { ValueAt(JournalRows(r), 4) }

  function AddressAt(r: JournalRecord): nat { ValueAt(JournalRows(r), 3) }

  /** The state field of any prefix of a journal with newline-free values. */
  lemma TornState(r: JournalRecord, n: nat)
    requires '\n' !in r.peerId && '\n' !in r.peerAddress && n <= |JournalText(r)|
    ensures var found := Field(JournalText(r)[..n], "state");
            (found == None <==> n < StateAt(r)) && AtMost(found, StateText(r.state))
  {
    JournalIsRows(r);
    JournalIsReadable(r, 4);
    TornRow(JournalRows(r), 4, n);
  }

  /** The address field of any prefix of a journal with newline-free values. */
  lemma TornAddress(r: JournalRecord, n: nat)
    requires '\n' !in r.peerId && '\n' !in r.peerAddress && n <= |JournalText(r)|
    ensures var found := Field(JournalText(r)[..n], "peer_address");
            (found == None <==> n < AddressAt(r)) && AtMost(found, r.peerAddress)
  {
    JournalIsRows(r);
    JournalIsReadable(r, 3);
    TornRow(JournalRows(r), 3, n);
  }

  /** A cut behind the start of the address leaves both identifiers whole. */
  lemma TornIdentity(r: JournalRecord, n: nat)
    requires '\n' !in r.peerId && '\n' !in r.peerAddress && AddressAt(r) <= n <= |JournalText(r)|
    ensures var text := JournalText(r)[..n];
            && Field(text, "transaction_id") == Some(Hex(r.transaction))
            && HexId(Hex(r.transaction)) == Some(r.transaction)
            && Field(text, "peer_id") == Some(StripCr(r.peerId))
  {
    JournalIsRows(r);
    JournalIsReadable(r, 1);
    JournalIsReadable(r, 2);
    LaterRow(JournalRows(r), 1, 3);
    LaterRow(JournalRows(r), 2, 3);
    TornRow(JournalRows(r), 1, n);
    TornRow(JournalRows(r), 2, n);
    HexRoundTrip(r.transaction);
    HexIsClean(r.transaction);
  }

  /** A later row's value starts behind an earlier row's line. */
  lemma {:induction false} LaterRow(rows: seq<Row>, i: nat, j: nat)
    requires i < j < |rows| && rows[j].0 != ""
    ensures ValueAt(rows, i) + |rows[i].1| + 1 < ValueAt(rows, j) <= |Rows(rows)|
    decreases j
  {
    if i > 0 {
      LaterRow(rows[1..], i - 1, j - 1);
    } else if j > 1 {
      LaterRow(rows[1..], 0, j - 1);
    }
  }

  /**
   A journal cut anywhere: the readers disagree exactly when the cut falls after the start of
   the address's value and before the start of the state's. There the core library sees a
   staged pairing and the reconciler one whose commit may have been decided.
   */
  lemma TornReadersAgreeExactly(r: JournalRecord, n: nat)
    requires '\n' !in r.peerId && '\n' !in r.peerAddress && n <= |JournalText(r)|
    ensures var text := JournalText(r)[..n];
            && (ReadersAgree(text) <==> !(AddressAt(r) <= n < StateAt(r)))
            && (AddressAt(r) <= n < StateAt(r) ==>
                  && ReadJournal(text).Some? && ReadJournal(text).value.state == Staged
                  && ReconcilerReads(text).Some? && ReconcilerReads(text).value.status == StatusState.CommitPending)
  {
    var text := JournalText(r)[..n];
    TornAddress(r, n);
    TornState(r, n);
    if n >= AddressAt(r) { TornIdentity(r, n); }
    var state := Field(text, "state");
    assert state.Some? && state.value != "" ==> state.value[0] != 'a';
    ReadersAgreeExactly(text);
  }

  /** A recorded decision whose journal is cut right before the state line divides the readers. */
  lemma CutDecisionDividesReaders(r: JournalRecord)
    requires r.state.Decided? && '\n' !in r.peerId && '\n' !in r.peerAddress
    ensures AddressAt(r) + |r.peerAddress| + 1 <= |JournalText(r)|
    ensures var text := JournalText(r)[..AddressAt(r) + |r.peerAddress| + 1];
            && ReadJournal(text).Some? && ReadJournal(text).value.state == Staged
            && ReconcilerReads(text).Some? && ReconcilerReads(text).value.status == StatusState.CommitPending
  {
    JournalIsRows(r);
    LaterRow(JournalRows(r), 3, 4);
    TornReadersAgreeExactly(r, AddressAt(r) + |r.peerAddress| + 1);
  }

  /**
   A commit decision is never misread: any torn write of its journal is refused or read by the
   reconciler as commit pending, never as staged or aborted.
   */
  lemma TornDecisionIsSafe(r: JournalRecord, n: nat)
    requires r.state.Decided? && '\n' !in r.peerId && '\n' !in r.peerAddress && n <= |JournalText(r)|
    ensures var q := ReconcilerReads(JournalText(r)[..n]);
            q == None || q.value.status == StatusState.CommitPending
  {
    TornState(r, n);
    var state := Field(JournalText(r)[..n], "state");
    assert state.Some? && state.value != "" ==> state.value[0] == 'c';
  }

  /** A torn write of a staged journal is never read as aborted. */
  lemma TornStagingIsNeverAborted(r: JournalRecord, n: nat)
    requires r.state.Staged? && '\n' !in r.peerId && '\n' !in r.peerAddress && n <= |JournalText(r)|
    ensures var q := ReconcilerReads(JournalText(r)[..n]);
            q == None || q.value.status == PreCommit || q.value.status == StatusState.CommitPending
  {
    TornState(r, n);
    var state := Field(JournalText(r)[..n], "state");
    assert state.Some? && state.value != "" ==> state.value[0] == 'p';
  }
}
