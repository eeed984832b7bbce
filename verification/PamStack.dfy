/** Wiring the login module into a PAM service file, and taking it out again. */
module PamStack {
  import opened Bytes
  import opened PamText

  const SYAUTH_SO: string := "pam_syauth.so"
  const U2F_SO: string := "pam_u2f.so"
  const SEPARATOR: string := "    "
  datatype Options = Options(control: string, so: string, args: string, fallback: bool)

  /** An `auth` directive up to the space before its arguments. */
  function Directive(control: string, so: string): string {
    "auth" + SEPARATOR + control + SEPARATOR + so + " "
  }

  /** What follows `auth` in a directive. */
  function Fields(control: string, so: string): string { SEPARATOR + control + SEPARATOR + so + " " }

  predicate NamedAt(fields: string, word: char -> bool, b: nat, c: nat, d: nat) {
    && 0 < b < c < d && d + |SYAUTH_SO| < |fields|
    && AllSpace(fields, 0, b) && NoSpace(fields, b, c) && AllSpace(fields, c, d)
    && At(fields, d, SYAUTH_SO) && !word(fields[d + |SYAUTH_SO|])
  }

  /** The fields are one word and then the module, up to a word boundary. */
  predicate NamesModule(control: string, so: string, word: char -> bool) {
    var fields := Fields(control, so);
    exists b, c, d ::
      0 <= b <= |fields| && 0 <= c <= |fields| && 0 <= d <= |fields| && NamedAt(fields, word, b, c, d)
  }

  /** The fallback: four fields, four spaces apart but for the last. */
  const U2F_FALLBACK_LINE: string := Directive("sufficient", U2F_SO) + "cue"

  function BuildLine(o: Options): string { Directive(o.control, o.so) + o.args }

  /** The two lines an install may add, in full. */
  lemma LinesInFull(o: Options)
    ensures BuildLine(o) == "auth    " + o.control + "    " + o.so + " " + o.args
    ensures U2F_FALLBACK_LINE == "auth    sufficient    pam_u2f.so cue"
    ensures SYAUTH_SO == "pam_syauth.so"
  {}

  predicate WordAt(control: string, x: nat, y: nat) {
    x < y <= |control| && AllSpace(control, 0, x) && NoSpace(control, x, y) && AllSpace(control, y, |control|)
  }

  /** The control is one word, with white space around it or not. */
  predicate OneWord(control: string) {
    exists x, y :: 0 <= x <= |control| && 0 <= y <= |control| && WordAt(control, x, y)
  }

  function WithFallback(body: string, enabled: bool, word: char -> bool): string {
    if !enabled || Recognised(body, U2F_SO, word) then body
    else
      var (p, found) := AfterMention(body, 0, SYAUTH_SO);
      if found then Inserted(body, p, U2F_FALLBACK_LINE + "\n") else body
  }

  function WithDirective(original: string, o: Options): string {
    Inserted(original, InsertPoint(original), BuildLine(o) + "\n")
  }

  datatype InstallResult = AlreadyInstalled | Installed | InstallServiceNotFound | BackupExists
  datatype UninstallResult = NotInstalled | Restored | UninstallServiceNotFound | BackupMissing

  class ServiceFiles {
    const word: char -> bool
    var service: Option<string>
    var backup: Option<string>

    constructor (word: char -> bool, service: Option<string>)
      ensures this.word == word && this.service == service && backup == None
    {
      this.word, this.service, backup := word, service, None;
    }

    ghost predicate Wired()
      requires service.Some?
      reads this
    {
      Recognised(service.value, SYAUTH_SO, word)
    }

    method MaybeInsertFallback(body: string, enabled: bool) returns (out: string)
      ensures out == WithFallback(body, enabled, word)
    {
      if !enabled || Recognised(body, U2F_SO, word) { return body; }
      out := InsertBelow(body, SYAUTH_SO, U2F_FALLBACK_LINE);
    }

    /** Back up and rewrite the service file, unless it already has everything asked for. */
    method Install(o: Options) returns (r: InstallResult)
      modifies this
      ensures service.Some? == old(service.Some?)
      ensures r.InstallServiceNotFound? <==> old(service).None?
      ensures !r.Installed? ==> service == old(service) && backup == old(backup)
      ensures r.AlreadyInstalled? <==>
                old(service).Some? && old(Wired()) && (o.fallback ==> Recognised(old(service).value, U2F_SO, word))
      ensures r.BackupExists? <==> old(service).Some? && !old(Wired()) && old(backup).Some?
      ensures r.Installed? ==>
                if old(Wired())
                then backup == old(backup) && service == Some(WithFallback(old(service).value, o.fallback, word))
                else backup == old(service) &&
                     service == Some(WithFallback(WithDirective(old(service).value, o), o.fallback, word))
    {
      if service.None? { return InstallServiceNotFound; }
      var original := service.value;
      var present := Recognised(original, SYAUTH_SO, word);
      if present && !(o.fallback && !Recognised(original, U2F_SO, word)) { return AlreadyInstalled; }
      var body := original;
      if !present {
        if backup.Some? { return BackupExists; }
        backup := Some(original);
        body := InsertLine(original, BuildLine(o));
      }
      var contents := MaybeInsertFallback(body, o.fallback);
      service := Some(contents);
      r := Installed;
    }

    /** Restore the service file from its backup and remove the backup. */
    method Uninstall() returns (r: UninstallResult)
      modifies this
      ensures r.UninstallServiceNotFound? <==> old(service).None?
      ensures r.NotInstalled? <==> old(service).Some? && !old(Wired())
      ensures r.BackupMissing? <==> old(service).Some? && old(Wired()) && old(backup).None?
      ensures if r.Restored? then service == old(backup) && backup == None
              else service == old(service) && backup == old(backup)
    {
      if service.None? { return UninstallServiceNotFound; }
      if !Recognised(service.value, SYAUTH_SO, word) { return NotInstalled; }
      if backup.None? { return BackupMissing; }
      service := backup;
      backup := None;
      r := Restored;
    }

    /**
     Any number of installs with any flags, of which the first writes one word and then the
     module, followed by one uninstall, give back the original file and leave no backup.
     */
    method InstallsThenUninstall(runs: seq<Options>) returns (r: UninstallResult)
      requires service.Some? && !Wired() && backup == None
      requires runs != [] && '\n' !in runs[0].control && '\n' !in runs[0].so
      requires NamesModule(runs[0].control, runs[0].so, word)
      modifies this
      ensures r.Restored? && service == old(service) && backup == None
    {
      var control, so := runs[0].control, runs[0].so;
      ghost var d := Directive(control, so);
      var first := Install(runs[0]);
      InstallCarries(old(service).value, runs[0], word);
      for k := 1 to |runs|
        invariant service.Some? && backup == old(service) && Carries(service.value, d)
      {
        CarriedNamesModule(service.value, control, so, word);
        FallbackKeeps(service.value, runs[k].fallback, word, d);
        var _ := Install(runs[k]);
      }
      CarriedNamesModule(service.value, control, so, word);
      r := Uninstall();
    }
  }

  // ---------------------------------------------------------------------------------------
  // Directives survive insertions at line ends
  // ---------------------------------------------------------------------------------------

  predicate HasLine(text: string, q: nat, d: string) {
    LineStart(text, q) && At(text, q, d)
  }

  /** Some line of the text begins with `d`. */
  ghost predicate Carries(text: string, d: string) {
    exists q: nat :: HasLine(text, q, d)
  }

  predicate LineEdge(text: string, p: nat) {
    p <= |text| && (p == 0 || p == |text| || text[p - 1] == '\n')
  }

  lemma InsertedChars(text: string, p: nat, addition: string)
    requires p <= |text|
    ensures var t := Inserted(text, p, addition); var n := |addition|;
            && |t| == |text| + n
            && (forall k :: 0 <= k < p ==> t[k] == text[k])
            && (forall k :: 0 <= k < n ==> t[p + k] == addition[k])
            && (forall k :: p <= k < |text| ==> t[k + n] == text[k])
  {}

  lemma LineKept(text: string, p: nat, addition: string, q: nat, d: string)
    requires LineEdge(text, p) && HasLine(text, q, d) && d != "" && '\n' !in d
    requires addition != "" && addition[|addition| - 1] == '\n'
    ensures HasLine(Inserted(text, p, addition), if p <= q then q + |addition| else q, d)
  {
    InsertedChars(text, p, addition);
    NoNewlineInside(text, q, d);
    if p <= q { ShiftedAt(text, p, addition, q, d); } else { UnshiftedAt(text, p, addition, q, d); }
  }

  lemma ShiftedAt(text: string, p: nat, addition: string, q: nat, d: string)
    requires p <= q && At(text, q, d)
    ensures At(Inserted(text, p, addition), q + |addition|, d)
  {}

  lemma UnshiftedAt(text: string, p: nat, addition: string, q: nat, d: string)
    requires q + |d| <= p <= |text| && At(text, q, d)
    ensures At(Inserted(text, p, addition), q, d)
  {}

  lemma NoNewlineInside(text: string, q: nat, d: string)
    requires At(text, q, d) && '\n' !in d
    ensures forall x :: q <= x < q + |d| ==> text[x] != '\n'
  {
    forall x | q <= x < q + |d| ensures text[x] != '\n' {
      assert text[q + (x - q)] == d[x - q];
    }
  }

  lemma DirectiveHasNoNewline(control: string, so: string)
    requires '\n' !in control && '\n' !in so
    ensures '\n' !in Directive(control, so) && Directive(control, so) != ""
  {}

  /** Where the parts of a directive lie. */
  predicate Layout(d: string, control: string, so: string) {
    var n := |control|;
    && |d| == 13 + n + |so| && At(d, 0, "auth") && AllSpace(d, 4, 8) && At(d, 8, control)
    && AllSpace(d, 8 + n, 12 + n) && At(d, 12 + n, so) && d[12 + n + |so|] == ' '
  }

  lemma DirectiveLayout(control: string, so: string)
    ensures Layout(Directive(control, so), control, so)
  {}

  /** A directive with a control of one word, on a line of its own, is a match. */
  lemma LayoutMatches(text: string, q: nat, d: string, control: string, so: string, word: char -> bool, x: nat, y: nat)
    requires HasLine(text, q, d) && Layout(d, control, so) && WordAt(control, x, y) && !word(' ')
    ensures MatchAt(text, so, word, q, q, q + 8 + x, q + 8 + y, q + 12 + |control|)
  {
    var n := |control|;
    Aligned(text, q, d, 0, "auth");
    Aligned(text, q, d, 8, control);
    Aligned(text, q, d, 12 + n, so);
    SpacesAligned(text, q, d, 4, 8);
    SpacesAligned(text, q, d, 8 + n, 12 + n);
    SpacesAligned(text, q + 8, control, 0, x);
    SpacesAligned(text, q + 8, control, y, n);
    WordAligned(text, q + 8, control, x, y);
    assert text[q + (12 + n + |so|)] == d[12 + n + |so|];
  }

  lemma CarriedIsRecognised(text: string, control: string, so: string, word: char -> bool)
    requires Carries(text, Directive(control, so)) && OneWord(control) && !word(' ')
    ensures Recognised(text, so, word)
  {
    var q: nat :| HasLine(text, q, Directive(control, so));
    var x: nat, y: nat :| WordAt(control, x, y);
    DirectiveLayout(control, so);
    LayoutMatches(text, q, Directive(control, so), control, so, word, x, y);
  }

  lemma DirectiveFields(control: string, so: string)
    ensures At(Directive(control, so), 0, "auth") && At(Directive(control, so), 4, Fields(control, so))
    ensures |Directive(control, so)| == 4 + |Fields(control, so)|
  {
    assert Directive(control, so) == "auth" + Fields(control, so);
  }

  /** Fields that name the module, after an `auth` at a line start, are a match. */
  lemma FieldsMatch(text: string, q: nat, f: string, word: char -> bool, b: nat, c: nat, d: nat)
    requires LineStart(text, q) && At(text, q, "auth") && At(text, q + 4, f) && NamedAt(f, word, b, c, d)
    ensures MatchAt(text, SYAUTH_SO, word, q, q, q + 4 + b, q + 4 + c, q + 4 + d)
  {
    Aligned(text, q + 4, f, d, SYAUTH_SO);
    SpacesAligned(text, q + 4, f, 0, b);
    SpacesAligned(text, q + 4, f, c, d);
    WordAligned(text, q + 4, f, b, c);
    assert text[(q + 4) + (d + |SYAUTH_SO|)] == f[d + |SYAUTH_SO|];
  }

  lemma CarriedNamesModule(text: string, control: string, so: string, word: char -> bool)
    requires Carries(text, Directive(control, so)) && NamesModule(control, so, word)
    ensures Recognised(text, SYAUTH_SO, word)
  {
    var q: nat :| HasLine(text, q, Directive(control, so));
    var f := Fields(control, so);
    var b: nat, c: nat, d: nat :| NamedAt(f, word, b, c, d);
    DirectiveFields(control, so);
    Aligned(text, q, Directive(control, so), 0, "auth");
    Aligned(text, q, Directive(control, so), 4, f);
    FieldsMatch(text, q, f, word, b, c, d);
  }

  lemma SpacesAligned(text: string, q: nat, d: string, from: nat, to: nat)
    requires At(text, q, d) && to <= |d| && AllSpace(d, from, to)
    ensures AllSpace(text, q + from, q + to)
  {
    forall x | q + from <= x < q + to ensures Space(text[x]) {
      assert text[q + (x - q)] == d[x - q];
    }
  }

  lemma WordAligned(text: string, q: nat, control: string, from: nat, to: nat)
    requires At(text, q, control) && to <= |control| && NoSpace(control, from, to)
    ensures NoSpace(text, q + from, q + to)
  {
    forall x | q + from <= x < q + to ensures !Space(text[x]) {
      assert text[q + (x - q)] == control[x - q];
    }
  }

  lemma Aligned(text: string, q: nat, d: string, k: nat, part: string)
    requires At(text, q, d) && At(d, k, part)
    ensures At(text, q + k, part)
  {}

  // ---------------------------------------------------------------------------------------
  // Where lines are inserted
  // ---------------------------------------------------------------------------------------

  lemma {:induction false} FirstAuthIsFirst(text: string, q: nat, i: nat)
    requires LineStart(text, q) && q <= i && LineStart(text, i) && i < |text|
    ensures var p := FirstAuth(text, q);
            (p < |text| ==> LineStart(text, p)) && (i < p ==> !AuthLine(text, i))
    decreases |text| - q
  {
    if q < |text| && !AuthLine(text, q) {
      var n := NextLine(text, q);
      if i > q {
        assert i >= n;
        FirstAuthIsFirst(text, n, i);
      } else if n < |text| {
        FirstAuthIsFirst(text, n, n);
      }
    }
  }

  lemma {:induction false} FirstAuthFound(text: string, q: nat, i: nat)
    requires LineStart(text, q) && q <= i < |text| && LineStart(text, i) && AuthLine(text, i)
    ensures FirstAuth(text, q) <= i && AuthLine(text, FirstAuth(text, q))
    decreases |text| - q
  {
    if !AuthLine(text, q) {
      assert i >= NextLine(text, q);
      FirstAuthFound(text, NextLine(text, q), i);
    }
  }

  /**
   Where a new directive goes, exactly: in a text with an `auth` directive at the start of
   the first one, in a text without any at the top.
   */
  lemma InsertPointExactly(text: string, i: nat)
    requires i < |text| && LineStart(text, i) && AuthLine(text, i)
    ensures var p := InsertPoint(text); p <= i && LineStart(text, p) && AuthLine(text, p)
  {
    FirstAuthFound(text, 0, i);
    InsertPointIsLineStart(text);
  }

  lemma InsertPointAtTop(text: string)
    requires forall i: nat :: i < |text| && LineStart(text, i) ==> !AuthLine(text, i)
    ensures InsertPoint(text) == 0
  {
    if text != "" { FirstAuthIsFirst(text, 0, 0); }
    if FirstAuth(text, 0) < |text| { FirstAuthIsAuth(text, 0); }
  }

  lemma {:induction false} FirstAuthIsAuth(text: string, q: nat)
    requires q <= |text| && FirstAuth(text, q) < |text|
    ensures AuthLine(text, FirstAuth(text, q))
    decreases |text| - q
  {
    if !AuthLine(text, q) { FirstAuthIsAuth(text, NextLine(text, q)); }
  }

  lemma InsertPointIsLineStart(text: string)
    ensures LineStart(text, InsertPoint(text))
  {
    if text != "" { FirstAuthIsFirst(text, 0, 0); }
  }

  /** The line below the first mention of `s` begins after a line end, if a mention is followed by one. */
  lemma {:induction false} MentionIsFound(text: string, q: nat, s: string, d: nat, e: nat)
    requires q <= |text| && s != "" && '\n' !in s
    requires q <= d && At(text, d, s) && d + |s| <= e < |text| && text[e] == '\n'
    ensures AfterMention(text, q, s).1 && LineStart(text, AfterMention(text, q, s).0)
    decreases |text| - q
  {
    var n := NextLine(text, q);
    if Mentions(text, q, n, s) {
      if n == |text| { assert e == n - 1; }
    } else {
      NoNewlineInside(text, d, s);
      assert d >= n;
      MentionIsFound(text, n, s, d, e);
    }
  }

  lemma {:induction false} AfterMentionIsEdge(text: string, q: nat, s: string)
    requires q <= |text|
    ensures LineEdge(text, AfterMention(text, q, s).0) || AfterMention(text, q, s).0 == q
    decreases |text| - q
  {
    if q < |text| && !Mentions(text, q, NextLine(text, q), s) {
      AfterMentionIsEdge(text, NextLine(text, q), s);
    }
  }

  /** The fallback line never breaks a line that is there. */
  lemma FallbackKeeps(text: string, enabled: bool, word: char -> bool, d: string)
    requires Carries(text, d) && d != "" && '\n' !in d
    ensures Carries(WithFallback(text, enabled, word), d)
  {
    var q: nat :| HasLine(text, q, d);
    var (p, found) := AfterMention(text, 0, SYAUTH_SO);
    if enabled && !Recognised(text, U2F_SO, word) && found {
      AfterMentionIsEdge(text, 0, SYAUTH_SO);
      LineKept(text, p, U2F_FALLBACK_LINE + "\n", q, d);
    }
  }

  lemma PlacedLine(original: string, o: Options)
    ensures var p := InsertPoint(original); var text := WithDirective(original, o); var d := Directive(o.control, o.so);
            HasLine(text, p, d) && |text| > p + |d| + |o.args| && text[p + |d| + |o.args|] == '\n'
  {
    InsertPointIsLineStart(original);
  }

  lemma InstallCarries(original: string, o: Options, word: char -> bool)
    requires '\n' !in o.control && '\n' !in o.so
    ensures var d := Directive(o.control, o.so);
            Carries(WithFallback(WithDirective(original, o), o.fallback, word), d) && d != "" && '\n' !in d
  {
    PlacedLine(original, o);
    DirectiveHasNoNewline(o.control, o.so);
    FallbackKeeps(WithDirective(original, o), o.fallback, word, Directive(o.control, o.so));
  }

  lemma FallbackLineIsDirective()
    ensures At(U2F_FALLBACK_LINE + "\n", 0, Directive("sufficient", U2F_SO)) && OneWord("sufficient")
  {
    assert WordAt("sufficient", 0, 10);
  }

  lemma LinePlaced(text: string, p: nat, addition: string, d: string)
    requires LineStart(text, p) && At(addition, 0, d)
    ensures HasLine(Inserted(text, p, addition), p, d)
  {}

  /** The line below the new directive's first mention begins after a line end. */
  lemma FallbackPoint(original: string, o: Options, m: nat)
    requires At(Directive(o.control, o.so), m, SYAUTH_SO)
    ensures var (p, found) := AfterMention(WithDirective(original, o), 0, SYAUTH_SO);
            found && LineStart(WithDirective(original, o), p)
  {
    var d, p := Directive(o.control, o.so), InsertPoint(original);
    PlacedLine(original, o);
    Aligned(WithDirective(original, o), p, d, m, SYAUTH_SO);
    MentionIsFound(WithDirective(original, o), 0, SYAUTH_SO, p + m, p + |d| + |o.args|);
  }

  lemma NamedMentions(line: string, f: string, word: char -> bool, b: nat, c: nat, d: nat)
    requires At(line, 4, f) && NamedAt(f, word, b, c, d)
    ensures At(line, 4 + d, SYAUTH_SO)
  {
    Aligned(line, 4, f, d, SYAUTH_SO);
  }

  lemma NamedIsMentioned(control: string, so: string, word: char -> bool) returns (m: nat)
    requires NamesModule(control, so, word)
    ensures At(Directive(control, so), m, SYAUTH_SO)
  {
    var line, f := Directive(control, so), Fields(control, so);
    DirectiveFields(control, so);
    var b: nat, c: nat, d: nat :| NamedAt(f, word, b, c, d);
    NamedMentions(line, f, word, b, c, d);
    m := 4 + d;
  }

  /** After an install that named the module and asked for the fallback, the fallback is recognised. */
  lemma FallbackTakes(original: string, o: Options, word: char -> bool)
    requires NamesModule(o.control, o.so, word) && !word(' ')
    ensures Recognised(WithFallback(WithDirective(original, o), true, word), U2F_SO, word)
  {
    var text := WithDirective(original, o);
    if !Recognised(text, U2F_SO, word) {
      var m := NamedIsMentioned(o.control, o.so, word);
      FallbackPoint(original, o, m);
      FallbackLineIsDirective();
      LinePlaced(text, AfterMention(text, 0, SYAUTH_SO).0, U2F_FALLBACK_LINE + "\n", Directive("sufficient", U2F_SO));
      CarriedIsRecognised(WithFallback(text, true, word), "sufficient", U2F_SO, word);
    }
  }

  // ---------------------------------------------------------------------------------------
  // Which directives are recognised
  // ---------------------------------------------------------------------------------------

  /** The bracketed control that the options suggest is not one word. */
  lemma BracketedControlIsNotOneWord()
    ensures !OneWord("[success=done auth_err=die default=ignore]")
  {
    var control := "[success=done auth_err=die default=ignore]";
    assert !Space(control[0]) && Space(control[13]) && !Space(control[|control| - 1]);
  }

  /** A new directive as it lies in the file: on a line of its own, no `auth` directive above it. */
  ghost predicate Placed(text: string, p: nat, control: string, so: string) {
    && HasLine(text, p, Directive(control, so)) && '\n' !in control && '\n' !in so
    && forall i: nat :: i < p && LineStart(text, i) ==> !AuthLine(text, i)
  }

  /** Every mention of the module is in the directive. */
  ghost predicate MentionedOnlyIn(text: string, p: nat, line: string) {
    forall d: nat :: At(text, d, SYAUTH_SO) ==> p <= d && d + |SYAUTH_SO| < p + |line|
  }

  lemma {:induction false} LastLineStart(text: string, i: nat, a: nat) returns (l: nat)
    requires LineStart(text, i) && i <= a < |text|
    ensures i <= l <= a && LineStart(text, l) && forall k :: l <= k < a ==> text[k] != '\n'
    decreases a - i
  {
    if k :| i <= k < a && text[k] == '\n' {
      l := LastLineStart(text, k + 1, a);
    } else {
      l := i;
    }
  }

  /** The `auth` of a match stands on a line that is an `auth` directive. */
  lemma MatchedAuthLine(text: string, i: nat, a: nat) returns (l: nat)
    requires LineStart(text, i) && i <= a && a + 4 < |text|
    requires AllSpace(text, i, a) && At(text, a, "auth") && Space(text[a + 4])
    ensures i <= l <= a && LineStart(text, l) && AuthLine(text, l)
  {
    l := LastLineStart(text, i, a);
    var n := NextLine(text, l);
    assert text[a] == "auth"[0] && text[a + 1] == "auth"[1] && text[a + 2] == "auth"[2] && text[a + 3] == "auth"[3];
    assert a + 4 < n;
  }

  /** A match that uses a mention in the directive begins with the directive. */
  lemma MatchIsDirective(text: string, p: nat, control: string, so: string, word: char -> bool,
                         i: nat, a: nat, b: nat, c: nat, d: nat)
    requires Placed(text, p, control, so) && MatchAt(text, SYAUTH_SO, word, i, a, b, c, d)
    requires p <= d < p + |Directive(control, so)|
    ensures a == p
  {
    var line := Directive(control, so);
    assert text[p + 0] == line[0] == 'a';
    DirectiveHasNoNewline(control, so);
    NoNewlineInside(text, p, line);
    var l := MatchedAuthLine(text, i, a);
    assert l == p;
  }

  lemma MatchNames(text: string, p: nat, control: string, so: string, word: char -> bool,
                   i: nat, a: nat, b: nat, c: nat, d: nat)
    requires Placed(text, p, control, so) && MatchAt(text, SYAUTH_SO, word, i, a, b, c, d)
    requires p <= d && d + |SYAUTH_SO| < p + |Directive(control, so)|
    ensures b >= p + 4 && NamedAt(Fields(control, so), word, b - (p + 4), c - (p + 4), d - (p + 4))
  {
    MatchIsDirective(text, p, control, so, word, i, a, b, c, d);
    var line, f, e := Directive(control, so), Fields(control, so), p + 4;
    DirectiveFields(control, so);
    Aligned(text, p, line, 4, f);
    assert forall k :: 0 <= k < |f| ==> f[k] == text[e + k];
    forall k | 0 <= k < |SYAUTH_SO| ensures f[d - e + k] == SYAUTH_SO[k] { assert text[d + k] == SYAUTH_SO[k]; }
  }

  /**
   Where the new directive holds the file's only mentions of the module, the module is
   recognised exactly when the directive is one word and then the module.
   */
  lemma RecognisedExactly(text: string, p: nat, control: string, so: string, word: char -> bool)
    requires Placed(text, p, control, so) && MentionedOnlyIn(text, p, Directive(control, so))
    ensures Recognised(text, SYAUTH_SO, word) <==> NamesModule(control, so, word)
  {
    if i: nat, a: nat, b: nat, c: nat, d: nat :| MatchAt(text, SYAUTH_SO, word, i, a, b, c, d) {
      assert At(text, d, SYAUTH_SO);
      MatchNames(text, p, control, so, word, i, a, b, c, d);
    }
    if NamesModule(control, so, word) { CarriedNamesModule(text, control, so, word); }
  }

  // ---------------------------------------------------------------------------------------
  // The inserted directive is placed
  // ---------------------------------------------------------------------------------------

  predicate SameUpTo(s: string, t: string, p: nat) {
    p <= |s| && p <= |t| && forall k :: 0 <= k < p ==> s[k] == t[k]
  }

  lemma AuthLineLocal(s: string, t: string, p: nat, q: nat)
    requires SameUpTo(s, t, p) && q < p && s[p - 1] == '\n'
    ensures AuthLine(s, q) == AuthLine(t, q)
  {
    var a := SkipSpaces(s, q, NextLine(s, q));
    assert a + 4 < NextLine(s, q) ==> (At(s, a, "auth") <==> At(t, a, "auth"));
  }

  lemma InstallIsPlaced(original: string, o: Options)
    requires '\n' !in o.control && '\n' !in o.so
    ensures Placed(WithDirective(original, o), InsertPoint(original), o.control, o.so)
  {
    PlacedLine(original, o);
    NoAuthAbove(original, BuildLine(o) + "\n");
  }

  lemma NoAuthAbove(original: string, addition: string)
    ensures var p := InsertPoint(original); var text := Inserted(original, p, addition);
            forall i: nat :: i < p && LineStart(text, i) ==> !AuthLine(text, i)
  {
    var p := InsertPoint(original);
    var text := Inserted(original, p, addition);
    InsertPointIsLineStart(original);
    InsertedChars(original, p, addition);
    forall i: nat | i < p && LineStart(text, i) ensures !AuthLine(text, i) {
      FirstAuthIsFirst(original, 0, i);
      AuthLineLocal(original, text, p, i);
    }
  }
}
