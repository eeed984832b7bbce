/** What the fallback line does to a service file, exactly, and which installs can be repeated and undone. */
module PamFallback {
  import opened Bytes
  import opened PamText
  import opened PamStack

  const ADDITION: string := U2F_FALLBACK_LINE + "\n"

  /** Where the fallback line goes: right below the first line that mentions the module. */
  function FallbackAt(text: string): (p: nat)
    ensures p <= |text|
  {
    AfterMention(text, 0, SYAUTH_SO).0
  }

  /** Some match ends before the text does. */
  predicate RecognisedInside(text: string, so: string, word: char -> bool) {
    exists i, a, b, c, d ::
      0 <= i <= |text| && 0 <= a <= |text| && 0 <= b <= |text| && 0 <= c <= |text| && 0 <= d <= |text| &&
      MatchAt(text, so, word, i, a, b, c, d) && d + |so| < |text|
  }

  /**
   The module stays recognised: below a finished line, if the text above or the text below is
   recognised by itself; after an unfinished one, if some match ends before the text does.
   */
  predicate StaysWired(text: string, word: char -> bool) {
    var p := FallbackAt(text);
    if LineStart(text, p) then Recognised(text[..p], SYAUTH_SO, word) || Recognised(text[p..], SYAUTH_SO, word)
    else RecognisedInside(text, SYAUTH_SO, word)
  }

  // ---------------------------------------------------------------------------------------
  // The added line
  // ---------------------------------------------------------------------------------------

  /** The shape of the added line: three words apart, a fourth, a newline. */
  predicate Shape(s: string) {
    && |s| == 37 && s[36] == '\n' && (forall k :: 0 <= k < 36 ==> s[k] != '\n')
    && NoSpace(s, 0, 4) && AllSpace(s, 4, 8) && NoSpace(s, 8, 18) && AllSpace(s, 18, 22)
    && !Space(s[22]) && Space(s[32])
  }

  /** The end of a text that `so` began is never completed by `s`. */
  predicate NoOverlap(so: string, s: string) {
    forall k :: 0 < k < |so| ==> |so| - k <= |s| && so[k..] != s[..|so| - k]
  }

  predicate PlainName(so: string) { so != "" && '\n' !in so && NoSpace(so, 0, |so|) }

  lemma DirectiveShape(d: string, control: string, so: string, tail: string)
    requires Layout(d, control, so) && |control| == 10 && |so| == 10 && '\n' !in d
    requires PlainName(control) && PlainName(so) && |tail| == 4 && tail[3] == '\n' && '\n' !in tail[..3]
    ensures Shape(d + tail)
  {
    var s := d + tail;
    assert s[..33] == d && forall k :: 33 <= k < 37 ==> s[k] == tail[k - 33];
    assert tail[0] in tail[..3] && tail[1] in tail[..3] && tail[2] in tail[..3];
    WordAligned(d, 0, "auth", 0, 4);
    WordAligned(d, 8, control, 0, 10);
    WordAligned(d, 22, so, 0, 10);
  }

  lemma AdditionShape()
    ensures Shape(ADDITION) && ADDITION[0] == 'a' && ADDITION[8] == 's'
  {
    var d := Directive("sufficient", U2F_SO);
    DirectiveLayout("sufficient", U2F_SO);
    DirectiveHasNoNewline("sufficient", U2F_SO);
    assert ADDITION == d + "cue\n";
    DirectiveShape(d, "sufficient", U2F_SO, "cue\n");
    assert d[0 + 0] == "auth"[0] && d[8 + 0] == "sufficient"[0];
  }

  lemma SyauthName()
    ensures PlainName(SYAUTH_SO) && |SYAUTH_SO| == 13 && SYAUTH_SO[0] == 'p'
  {}

  lemma SyauthDoesNotOverlap()
    ensures NoOverlap(SYAUTH_SO, ADDITION)
  {
    var so, s := SYAUTH_SO, "auth    ";
    assert ADDITION[..8] == s by { assert ADDITION == s + ADDITION[8..]; }
    forall k | 0 < k < 13 ensures so[k..] != ADDITION[..13 - k] {
      var j := if k == 1 then 1 else if k == 6 then 4 else 0;
      assert so[k + j] != s[j];
      assert so[k..][j] == so[k + j] && ADDITION[..13 - k][j] == s[j];
    }
  }

  lemma U2fDoesNotOverlap()
    ensures NoOverlap(U2F_SO, ADDITION)
  {
    var so, s := U2F_SO, "auth    ";
    assert ADDITION[..8] == s by { assert ADDITION == s + ADDITION[8..]; }
    forall k | 0 < k < 10 ensures so[k..] != ADDITION[..10 - k] {
      var j := if k == 1 then 1 else 0;
      assert so[k + j] != s[j];
      assert so[k..][j] == so[k + j] && ADDITION[..10 - k][j] == s[j];
    }
  }

  /** A name with no white space in it is too long for the added line, or begins a word of it. */
  lemma NameInLine(s: string, k: nat, so: string)
    requires Shape(s) && PlainName(so) && At(s, k, so)
    ensures |so| <= 10 && (|so| == 10 ==> k == 8 || k == 22)
  {
    WordAligned(s, k, so, 0, |so|);
    assert Space(s[4]) && Space(s[7]) && Space(s[18]) && Space(s[21]) && Space(s[36]);
  }

  lemma NameIsThird(s: string, k: nat, so: string)
    requires Shape(s) && PlainName(so) && |so| == 10 && At(s, k, so) && so[0] != s[8]
    ensures k == 22
  {
    NameInLine(s, k, so);
    assert s[k + 0] == so[0];
  }

  /** A name in the text with the added line is in the text, before or after the line, or in the line. */
  lemma NamesStayApart(text: string, p: nat, s: string, so: string, d: nat)
    requires LineStart(text, p) && Shape(s) && PlainName(so) && At(Inserted(text, p, s), d, so)
    ensures || (d + |so| <= p && At(text, d, so)) || (d >= p + 37 && At(text, d - 37, so))
            || (p <= d && d + |so| <= p + 37 && At(s, d - p, so))
  {
    var t := Inserted(text, p, s);
    InsertedChars(text, p, s);
    NoNewlineInside(t, d, so);
    assert p > 0 ==> t[p - 1] == '\n';
    assert t[p + 36] == '\n';
    if d + |so| <= p {
      assert At(text, d, so);
    } else if d >= p + 37 {
      forall k | 0 <= k < |so| ensures text[d - 37 + k] == so[k] { assert t[(d - 37 + k) + 37] == t[d + k] == so[k]; }
    } else {
      forall k | 0 <= k < |so| ensures s[d - p + k] == so[k] { assert t[p + (d - p + k)] == t[d + k] == so[k]; }
    }
  }

  /** After an unfinished line no name begins in the text and ends in the added line. */
  lemma NoNameAcross(text: string, s: string, so: string, d: nat)
    requires NoOverlap(so, s) && At(text + s, d, so)
    ensures d + |so| <= |text| || (d >= |text| && At(s, d - |text|, so))
  {
    if d >= |text| {
      forall j | 0 <= j < |so| ensures s[d - |text| + j] == so[j] { assert (text + s)[d + j] == so[j]; }
    } else if d + |so| > |text| {
      Across(text, s, so, d);
    }
  }

  lemma Across(text: string, s: string, so: string, d: nat)
    requires At(text + s, d, so) && d < |text| < d + |so|
    ensures var k := |text| - d; |so| - k <= |s| && so[k..] == s[..|so| - k]
  {
    var t := text + s;
    forall j | |text| - d <= j < |so| ensures so[j] == s[j - (|text| - d)] { assert t[d + j] == so[j]; }
  }

  // ---------------------------------------------------------------------------------------
  // Matches
  // ---------------------------------------------------------------------------------------

  /** Of the words a match runs over there are only two: `auth` and the control. */
  lemma MatchHasTwoWords(text: string, so: string, word: char -> bool, i: nat, a: nat, b: nat, c: nat, d: nat)
    requires MatchAt(text, so, word, i, a, b, c, d)
    ensures NoSpace(text, a, a + 4)
    ensures forall x :: i <= x < d && !Space(text[x]) ==> a <= x < a + 4 || b <= x < c
  {
    forall x | a <= x < a + 4 ensures !Space(text[x]) { assert text[a + (x - a)] == "auth"[x - a]; }
  }

  /** A match is a match wherever its characters stand on a line start with the same boundary. */
  lemma MatchMoves(s: string, t: string, k: int, so: string, word: char -> bool, i: nat, a: nat, b: nat, c: nat, d: nat)
    requires MatchAt(s, so, word, i, a, b, c, d) && 0 <= i + k && d + |so| + k <= |t|
    requires s[i..d + |so|] == t[i + k..d + |so| + k] && LineStart(t, i + k)
    requires d + |so| + k == |t| || !word(t[d + |so| + k])
    ensures MatchAt(t, so, word, i + k, a + k, b + k, c + k, d + k)
  {
    assert forall x :: i + k <= x < d + |so| + k ==> t[x] == t[i + k..d + |so| + k][x - (i + k)] == s[x - k];
    forall x | 0 <= x < |so| ensures t[(d + k) + x] == so[x] { assert s[d + x] == so[x]; }
    forall x | 0 <= x < 4 ensures t[(a + k) + x] == "auth"[x] { assert s[a + x] == "auth"[x]; }
  }

  lemma MatchAbove(text: string, p: nat, s: string, so: string, word: char -> bool,
                   i: nat, a: nat, b: nat, c: nat, d: nat)
    requires LineStart(text, p) && PlainName(so) && MatchAt(text[..p], so, word, i, a, b, c, d)
    ensures MatchAt(Inserted(text, p, s), so, word, i, a, b, c, d)
  {
    var head, t := text[..p], Inserted(text, p, s);
    NoNewlineInside(head, d, so);
    assert head[p - 1] == '\n';
    assert t[..p] == head;
    assert head[i..d + |so|] == t[i..d + |so|];
    MatchMoves(head, t, 0, so, word, i, a, b, c, d);
  }

  lemma MatchBelow(text: string, p: nat, s: string, so: string, word: char -> bool,
                   i: nat, a: nat, b: nat, c: nat, d: nat)
    requires LineStart(text, p) && Shape(s) && MatchAt(text[p..], so, word, i, a, b, c, d)
    ensures var k := p + 37; MatchAt(Inserted(text, p, s), so, word, i + k, a + k, b + k, c + k, d + k)
  {
    var tail, t, k := text[p..], Inserted(text, p, s), p + 37;
    assert t[k..] == tail && t[k - 1] == s[36];
    MatchMoves(tail, t, k, so, word, i, a, b, c, d);
  }

  /** A match that does not lie above the added line begins below it. */
  lemma MatchBeginsBelow(text: string, p: nat, s: string, so: string, word: char -> bool,
                         i: nat, a: nat, b: nat, c: nat, d: nat)
    requires LineStart(text, p) && Shape(s) && d >= p + 37
    requires MatchAt(Inserted(text, p, s), so, word, i, a, b, c, d)
    ensures i >= p + 37
  {
    var t := Inserted(text, p, s);
    InsertedChars(text, p, s);
    MatchHasTwoWords(t, so, word, i, a, b, c, d);
    assert t[p + 0] == s[0] && t[p + 4] == s[4] && t[p + 8] == s[8] && t[p + 18] == s[18] && t[p + 22] == s[22];
    assert forall x :: p <= x < p + 36 ==> t[x] == s[x - p];
  }

  lemma MatchWasAbove(text: string, p: nat, s: string, so: string, word: char -> bool,
                      i: nat, a: nat, b: nat, c: nat, d: nat)
    requires p <= |text| && d + |so| <= p && MatchAt(Inserted(text, p, s), so, word, i, a, b, c, d)
    ensures MatchAt(text[..p], so, word, i, a, b, c, d)
  {
    var t := Inserted(text, p, s);
    assert t[..p] == text[..p];
    assert t[i..d + |so|] == text[..p][i..d + |so|];
    MatchMoves(t, text[..p], 0, so, word, i, a, b, c, d);
  }

  lemma SuffixMatch(t: string, k: nat, so: string, word: char -> bool, i: nat, a: nat, b: nat, c: nat, d: nat)
    requires k <= i && MatchAt(t, so, word, i, a, b, c, d)
    ensures MatchAt(t[k..], so, word, i - k, a - k, b - k, c - k, d - k)
  {
    assert t[i..d + |so|] == t[k..][i - k..d + |so| - k];
    MatchMoves(t, t[k..], 0 - k, so, word, i, a, b, c, d);
  }

  lemma MatchWasBelow(text: string, p: nat, s: string, so: string, word: char -> bool,
                      i: nat, a: nat, b: nat, c: nat, d: nat)
    requires LineStart(text, p) && Shape(s) && d >= p + 37 && MatchAt(Inserted(text, p, s), so, word, i, a, b, c, d)
    ensures i >= p + 37 && var k := p + 37; MatchAt(text[p..], so, word, i - k, a - k, b - k, c - k, d - k)
  {
    var t := Inserted(text, p, s);
    MatchBeginsBelow(text, p, s, so, word, i, a, b, c, d);
    SuffixMatch(t, p + 37, so, word, i, a, b, c, d);
    assert t[p + 37..] == text[p..];
  }

  /** A long name matched in the text with the added line is above it or below it. */
  lemma MatchedAside(text: string, p: nat, s: string, so: string, word: char -> bool,
                     i: nat, a: nat, b: nat, c: nat, d: nat)
    requires LineStart(text, p) && Shape(s) && PlainName(so) && |so| > 10
    requires MatchAt(Inserted(text, p, s), so, word, i, a, b, c, d)
    ensures d + |so| <= p || d >= p + 37
  {
    NamesStayApart(text, p, s, so, d);
    if p <= d && At(s, d - p, so) { NameInLine(s, d - p, so); }
  }

  /** Glued to an unfinished line, the added line spares exactly the matches that end before it. */
  lemma GluedMatch(text: string, s: string, so: string, word: char -> bool, i: nat, a: nat, b: nat, c: nat, d: nat)
    requires Shape(s) && word(s[0]) && PlainName(so) && |so| > 10 && NoOverlap(so, s)
    ensures MatchAt(text + s, so, word, i, a, b, c, d) <==> MatchAt(text, so, word, i, a, b, c, d) && d + |so| < |text|
  {
    var t := text + s;
    assert t[..|text|] == text && t[|text|] == s[0];
    if MatchAt(t, so, word, i, a, b, c, d) {
      NoNameAcross(text, s, so, d);
      if d >= |text| && At(s, d - |text|, so) { NameInLine(s, d - |text|, so); }
      assert t[i..d + |so|] == text[i..d + |so|];
      MatchMoves(t, text, 0, so, word, i, a, b, c, d);
    }
    if MatchAt(text, so, word, i, a, b, c, d) && d + |so| < |text| {
      assert t[i..d + |so|] == text[i..d + |so|];
      MatchMoves(text, t, 0, so, word, i, a, b, c, d);
    }
  }

  // ---------------------------------------------------------------------------------------
  // Mentions
  // ---------------------------------------------------------------------------------------

  lemma {:induction false} MentionExists(text: string, q: nat, so: string, d: nat)
    requires q <= d && At(text, d, so) && PlainName(so)
    ensures AfterMention(text, q, so).1
    decreases |text| - q
  {
    var n := NextLine(text, q);
    if !Mentions(text, q, n, so) {
      NoNewlineInside(text, d, so);
      assert d >= n;
      MentionExists(text, n, so, d);
    }
  }

  /** A line that mentions the module ends where the fallback goes. */
  lemma {:induction false} MentionAbove(text: string, q: nat, so: string) returns (d: nat)
    requires q <= |text| && AfterMention(text, q, so).1
    ensures var p := AfterMention(text, q, so).0;
            && q <= d && At(text, d, so) && d + |so| <= p && (p < |text| ==> LineStart(text, p))
            && forall k :: d <= k < p - 1 ==> text[k] != '\n'
    decreases |text| - q
  {
    var n := NextLine(text, q);
    if Mentions(text, q, n, so) {
      d :| q <= d <= n && d + |so| <= n && At(text, d, so);
    } else {
      d := MentionAbove(text, n, so);
    }
  }

  /** A wired file has a mention above the place of the fallback, which is a line start or the end. */
  lemma WiredIsMentioned(text: string, so: string, word: char -> bool) returns (m: nat)
    requires PlainName(so) && Recognised(text, so, word)
    ensures var (p, found) := AfterMention(text, 0, so);
            && found && At(text, m, so) && m + |so| <= p && (!LineStart(text, p) ==> p == |text|)
            && forall k :: m <= k < p - 1 ==> text[k] != '\n'
  {
    var d := MatchMentions(text, so, word);
    MentionExists(text, 0, so, d);
    m := MentionAbove(text, 0, so);
  }

  lemma MatchMentions(text: string, so: string, word: char -> bool) returns (d: nat)
    requires Recognised(text, so, word)
    ensures d >= 7 && At(text, d, so)
  {
    var i: nat, a: nat, b: nat, c: nat, e: nat :| MatchAt(text, so, word, i, a, b, c, e);
    MatchMentionsAt(text, so, word, i, a, b, c, e);
    d := e;
  }

  lemma MatchMentionsAt(text: string, so: string, word: char -> bool, i: nat, a: nat, b: nat, c: nat, d: nat)
    requires MatchAt(text, so, word, i, a, b, c, d)
    ensures d >= 7 && At(text, d, so)
  {}

  /** The file after the fallback was added to a wired one without it. */
  lemma AfterFallback(text: string, word: char -> bool) returns (m: nat)
    requires Recognised(text, SYAUTH_SO, word) && !Recognised(text, U2F_SO, word)
    ensures var p := FallbackAt(text); var t := WithFallback(text, true, word);
            && t == Inserted(text, p, ADDITION) && (!LineStart(text, p) ==> t == text + ADDITION)
            && (!LineStart(text, p) ==> At(text, m, SYAUTH_SO) && forall k :: m <= k < |text| ==> text[k] != '\n')
  {
    SyauthName();
    m := WiredIsMentioned(text, SYAUTH_SO, word);
    var p := FallbackAt(text);
    if !LineStart(text, p) { assert text[..p] == text && text[p..] == ""; }
  }

  // ---------------------------------------------------------------------------------------
  // When the file stays wired
  // ---------------------------------------------------------------------------------------

  lemma SplitExactly(text: string, p: nat, s: string, so: string, word: char -> bool)
    requires LineStart(text, p) && Shape(s) && PlainName(so) && |so| > 10
    ensures Recognised(Inserted(text, p, s), so, word) <==>
            Recognised(text[..p], so, word) || Recognised(text[p..], so, word)
  {
    var t := Inserted(text, p, s);
    if i: nat, a: nat, b: nat, c: nat, d: nat :| MatchAt(t, so, word, i, a, b, c, d) {
      MatchedAside(text, p, s, so, word, i, a, b, c, d);
      if d + |so| <= p {
        MatchWasAbove(text, p, s, so, word, i, a, b, c, d);
      } else {
        MatchWasBelow(text, p, s, so, word, i, a, b, c, d);
      }
    }
    if i: nat, a: nat, b: nat, c: nat, d: nat :| MatchAt(text[..p], so, word, i, a, b, c, d) {
      MatchAbove(text, p, s, so, word, i, a, b, c, d);
    }
    if i: nat, a: nat, b: nat, c: nat, d: nat :| MatchAt(text[p..], so, word, i, a, b, c, d) {
      MatchBelow(text, p, s, so, word, i, a, b, c, d);
    }
  }

  lemma GluedExactly(text: string, s: string, so: string, word: char -> bool)
    requires Shape(s) && word(s[0]) && PlainName(so) && |so| > 10 && NoOverlap(so, s)
    ensures Recognised(text + s, so, word) <==> RecognisedInside(text, so, word)
  {
    forall i: nat, a: nat, b: nat, c: nat, d: nat
      ensures MatchAt(text + s, so, word, i, a, b, c, d) <==>
              MatchAt(text, so, word, i, a, b, c, d) && d + |so| < |text|
    {
      GluedMatch(text, s, so, word, i, a, b, c, d);
    }
  }

  /** Adding the fallback keeps a wired file wired exactly under the stated condition on the file. */
  lemma StaysWiredExactly(text: string, word: char -> bool)
    requires word('a') && Recognised(text, SYAUTH_SO, word) && !Recognised(text, U2F_SO, word)
    ensures Recognised(WithFallback(text, true, word), SYAUTH_SO, word) <==> StaysWired(text, word)
  {
    var p := FallbackAt(text);
    var _ := AfterFallback(text, word);
    AdditionShape();
    SyauthName();
    if LineStart(text, p) {
      SplitExactly(text, p, ADDITION, SYAUTH_SO, word);
    } else {
      SyauthDoesNotOverlap();
      GluedExactly(text, ADDITION, SYAUTH_SO, word);
    }
  }

  // ---------------------------------------------------------------------------------------
  // When the fallback is recognised
  // ---------------------------------------------------------------------------------------

  /** A match that ends in the added line begins with it. */
  lemma LineMatch(t: string, e: nat, so: string, word: char -> bool, i: nat, a: nat, b: nat, c: nat, d: nat)
    requires MatchAt(t, so, word, i, a, b, c, d) && d == e + 22
    requires NoSpace(t, e, e + 4) && AllSpace(t, e + 4, e + 8)
    requires NoSpace(t, e + 8, e + 18) && AllSpace(t, e + 18, e + 22)
    ensures a == e
  {
    MatchHasTwoWords(t, so, word, i, a, b, c, d);
    assert !Space(t[c - 1]) && Space(t[b - 1]) && !Space(t[b]) && !Space(t[a + 3]);
    assert !Space(t[e + 17]) && !Space(t[e + 8]) && Space(t[e + 7]) && !Space(t[e + 3]);
    assert c == e + 18;
    assert b == e + 8;
  }

  /** A match of a short name in the glued text lies in the text, or the text ends in a blank line. */
  lemma GluedLineMatch(text: string, s: string, so: string, word: char -> bool, i: nat, a: nat, b: nat, c: nat, d: nat)
    requires Shape(s) && PlainName(so) && |so| == 10 && NoOverlap(so, s) && so[0] != s[8]
    requires MatchAt(text + s, so, word, i, a, b, c, d)
    ensures d + 10 <= |text| || (i <= |text| && LineStart(text, i) && AllSpace(text, i, |text|))
  {
    var t := text + s;
    NoNameAcross(text, s, so, d);
    if d + 10 > |text| {
      NameIsThird(s, d - |text|, so);
      assert forall x :: |text| <= x < |text| + 37 ==> t[x] == s[x - |text|];
      LineMatch(t, |text|, so, word, i, a, b, c, d);
      assert t[..|text|] == text;
      assert forall x :: i <= x < |text| ==> text[x] == t[x];
    }
  }

  /** So after an unfinished line that is not blank, the glued text has no match the text did not have. */
  lemma OldMatch(text: string, s: string, so: string, word: char -> bool, m: nat,
                 i: nat, a: nat, b: nat, c: nat, d: nat)
    requires Shape(s) && PlainName(so) && |so| == 10 && NoOverlap(so, s) && so[0] != s[8]
    requires m < |text| && !Space(text[m]) && forall k :: m <= k < |text| ==> text[k] != '\n'
    requires MatchAt(text + s, so, word, i, a, b, c, d)
    ensures MatchAt(text, so, word, i, a, b, c, d)
  {
    var t := text + s;
    GluedLineMatch(text, s, so, word, i, a, b, c, d);
    assert d + 10 <= |text|;
    assert t[..|text|] == text;
    assert t[i..d + |so|] == text[i..d + |so|];
    MatchMoves(t, text, 0, so, word, i, a, b, c, d);
  }

  lemma NoNewMatch(text: string, s: string, so: string, word: char -> bool, m: nat)
    requires Shape(s) && PlainName(so) && |so| == 10 && NoOverlap(so, s) && so[0] != s[8]
    requires m < |text| && !Space(text[m]) && forall k :: m <= k < |text| ==> text[k] != '\n'
    ensures Recognised(text + s, so, word) ==> Recognised(text, so, word)
  {
    if i: nat, a: nat, b: nat, c: nat, d: nat :| MatchAt(text + s, so, word, i, a, b, c, d) {
      OldMatch(text, s, so, word, m, i, a, b, c, d);
    }
  }

  /** On a wired file without it, the fallback is recognised afterwards exactly if it went below a finished line. */
  lemma FallbackTakesExactly(text: string, word: char -> bool)
    requires !word(' ') && Recognised(text, SYAUTH_SO, word) && !Recognised(text, U2F_SO, word)
    ensures Recognised(WithFallback(text, true, word), U2F_SO, word) <==> LineStart(text, FallbackAt(text))
  {
    var p := FallbackAt(text);
    var m := AfterFallback(text, word);
    if LineStart(text, p) { FallbackBelowLine(text, p, word); } else { GluedFallbackIsLost(text, word, m); }
  }

  lemma FallbackBelowLine(text: string, p: nat, word: char -> bool)
    requires LineStart(text, p) && !word(' ')
    ensures Recognised(Inserted(text, p, ADDITION), U2F_SO, word)
  {
    FallbackLineIsDirective();
    LinePlaced(text, p, ADDITION, Directive("sufficient", U2F_SO));
    CarriedIsRecognised(Inserted(text, p, ADDITION), "sufficient", U2F_SO, word);
  }

  lemma GluedFallbackIsLost(text: string, word: char -> bool, m: nat)
    requires At(text, m, SYAUTH_SO) && forall k :: m <= k < |text| ==> text[k] != '\n'
    ensures Recognised(text + ADDITION, U2F_SO, word) ==> Recognised(text, U2F_SO, word)
  {
    AdditionShape();
    SyauthName();
    assert text[m + 0] == SYAUTH_SO[0];
    U2fDoesNotOverlap();
    NoNewMatch(text, ADDITION, U2F_SO, word, m);
  }

  // ---------------------------------------------------------------------------------------
  // Files on which it goes wrong
  // ---------------------------------------------------------------------------------------

  lemma FirstLineMentions(text: string, n: nat, so: string, d: nat)
    requires 0 < n <= |text| && (n == |text| || text[n - 1] == '\n') && forall k :: 0 <= k < n - 1 ==> text[k] != '\n'
    requires At(text, d, so) && d + |so| <= n
    ensures AfterMention(text, 0, so) == (n, true)
  {
    assert Mentions(text, 0, n, so);
  }

  /** Any wired file whose only mention of the module is its very end is no longer wired afterwards. */
  lemma EndingModuleIsLost(text: string, word: char -> bool)
    requires word('a') && Recognised(text, SYAUTH_SO, word) && !Recognised(text, U2F_SO, word)
    requires forall d: nat :: At(text, d, SYAUTH_SO) ==> d + |SYAUTH_SO| == |text|
    ensures !LineStart(text, FallbackAt(text)) && !StaysWired(text, word)
    ensures !Recognised(WithFallback(text, true, word), SYAUTH_SO, word)
  {
    SyauthName();
    var m := WiredIsMentioned(text, SYAUTH_SO, word);
    NoNewlineInside(text, m, SYAUTH_SO);
    assert text[|text| - 1] != '\n';
    forall i: nat, a: nat, b: nat, c: nat, d: nat
      ensures MatchAt(text, SYAUTH_SO, word, i, a, b, c, d) ==> d + |SYAUTH_SO| == |text|
    {
      if MatchAt(text, SYAUTH_SO, word, i, a, b, c, d) { MatchMentionsAt(text, SYAUTH_SO, word, i, a, b, c, d); }
    }
    StaysWiredExactly(text, word);
  }

  /** `auth`, a control, the module and what follows, one white space character apart. */
  function PlainDirective(control: string, gap: char, so: string, rest: string): string {
    "auth " + control + [gap] + so + rest
  }

  lemma PlainLayout(control: string, gap: char, so: string, rest: string)
    requires PlainName(control) && PlainName(so) && Space(gap)
    ensures var text := PlainDirective(control, gap, so, rest); var n := |control|;
            && |text| == 6 + n + |so| + |rest| && At(text, 0, "auth") && Space(text[4]) && At(text, 5, control)
            && NoSpace(text, 5, 5 + n) && text[5 + n] == gap
            && At(text, 6 + n, so) && NoSpace(text, 6 + n, 6 + n + |so|)
            && text[6 + n + |so|..] == rest && (forall k :: 0 <= k < 5 + n ==> text[k] != '\n')
            && (forall k :: 6 + n <= k < 6 + n + |so| ==> text[k] != '\n')
  {
    var text, n := PlainDirective(control, gap, so, rest), |control|;
    assert text[5..5 + n] == control && text[6 + n..6 + n + |so|] == so;
    assert forall k :: 5 <= k < 5 + n ==> text[k] == control[k - 5];
    assert forall k :: 6 + n <= k < 6 + n + |so| ==> text[k] == so[k - (6 + n)];
  }

  lemma PlainIsMatched(control: string, gap: char, so: string, rest: string, word: char -> bool)
    requires PlainName(control) && PlainName(so) && Space(gap) && (rest == "" || !word(rest[0]))
    ensures var n := |control|; MatchAt(PlainDirective(control, gap, so, rest), so, word, 0, 0, 5, 5 + n, 6 + n)
  {
    PlainLayout(control, gap, so, rest);
    var text, e := PlainDirective(control, gap, so, rest), 6 + |control| + |so|;
    assert rest != "" ==> text[e] == text[e..][0];
  }

  /** A long name stands in a plain directive only in its control or its module. */
  lemma PlainMentions(control: string, so: string, name: string, d: nat)
    requires PlainName(control) && PlainName(so) && PlainName(name) && |name| >= 10
    requires At(PlainDirective(control, ' ', so, ""), d, name)
    ensures var n := |control|;
            (d >= 5 && At(control, d - 5, name)) || (d >= 6 + n && At(so, d - (6 + n), name))
  {
    var text, n := PlainDirective(control, ' ', so, ""), |control|;
    PlainLayout(control, ' ', so, "");
    WordAligned(text, d, name, 0, |name|);
    assert d >= 5 && (d + |name| <= 5 + n || d >= 6 + n);
    if d < 6 + n {
      forall k | 0 <= k < |name| ensures control[d - 5 + k] == name[k] {
        assert text[d + k] == name[k] && text[5 + (d - 5 + k)] == control[d - 5 + k];
      }
    } else {
      forall k | 0 <= k < |name| ensures so[d - (6 + n) + k] == name[k] {
        assert text[d + k] == name[k] && text[(6 + n) + (d - (6 + n) + k)] == so[d - (6 + n) + k];
      }
    }
  }

  lemma PlainMentionsOnce(control: string, so: string, other: string)
    requires PlainName(control) && PlainName(so) && PlainName(other) && |so| >= 10 && |other| >= 10
    requires !Contains(control, so) && !Contains(control, other) && !Contains(so, other)
    ensures var text := PlainDirective(control, ' ', so, "");
            !Contains(text, other) && forall d: nat :: At(text, d, so) ==> d + |so| == |text|
  {
    var text := PlainDirective(control, ' ', so, "");
    if d: nat :| At(text, d, other) { PlainMentions(control, so, other, d); }
    forall d: nat | At(text, d, so) ensures d + |so| == |text| { PlainMentions(control, so, so, d); }
  }

  lemma SyauthIsNotU2f(k: nat)
    ensures !At(SYAUTH_SO, k, U2F_SO)
  {
    if k <= 3 { assert SYAUTH_SO[k + (if k == 0 then 4 else 0)] != U2F_SO[if k == 0 then 4 else 0]; }
  }

  /** Such a file, `auth required pam_syauth.so` among them: the fallback is glued to the module's name. */
  lemma UnfinishedLineIsBroken(control: string, word: char -> bool)
    requires word('a') && PlainName(control) && !Contains(control, SYAUTH_SO) && !Contains(control, U2F_SO)
    ensures var text := PlainDirective(control, ' ', SYAUTH_SO, "");
            && Recognised(text, SYAUTH_SO, word)
            && WithFallback(text, true, word) == text + ADDITION
            && !Recognised(WithFallback(text, true, word), SYAUTH_SO, word)
  {
    var text := PlainDirective(control, ' ', SYAUTH_SO, "");
    SyauthName();
    if k: nat :| At(SYAUTH_SO, k, U2F_SO) { SyauthIsNotU2f(k); }
    PlainIsMatched(control, ' ', SYAUTH_SO, "", word);
    PlainMentionsOnce(control, SYAUTH_SO, U2F_SO);
    EndingModuleIsLost(text, word);
    var _ := AfterFallback(text, word);
  }

  /** With arguments after it the module stays recognised, but the fallback does not come to be. */
  lemma UnfinishedLineRepeats(control: string, args: string, word: char -> bool)
    requires !word(' ') && PlainName(control) && '\n' !in args
    ensures var text := PlainDirective(control, ' ', SYAUTH_SO, " " + args);
            Recognised(text, SYAUTH_SO, word) && StaysWired(text, word) && !LineStart(text, FallbackAt(text))
  {
    var n, rest := |control|, " " + args;
    var text := PlainDirective(control, ' ', SYAUTH_SO, rest);
    SyauthName();
    PlainLayout(control, ' ', SYAUTH_SO, rest);
    PlainIsMatched(control, ' ', SYAUTH_SO, rest, word);
    assert forall k :: 19 + n <= k < |text| ==> text[k] == text[19 + n..][k - (19 + n)];
    assert text[|text| - 1] != '\n';
    FirstLineMentions(text, |text|, SYAUTH_SO, 6 + n);
  }

  /** A directive whose control is the module's own name, with the module on the next line, is cut in two. */
  lemma DirectiveIsCut(word: char -> bool)
    requires !word('\n')
    ensures var text := PlainDirective(SYAUTH_SO, '\n', SYAUTH_SO, "\n");
            Recognised(text, SYAUTH_SO, word) && LineStart(text, FallbackAt(text)) && !StaysWired(text, word)
  {
    var text := PlainDirective(SYAUTH_SO, '\n', SYAUTH_SO, "\n");
    SyauthName();
    PlainIsMatched(SYAUTH_SO, '\n', SYAUTH_SO, "\n", word);
    CutDirective(SYAUTH_SO);
  }

  lemma CutDirective(so: string)
    requires PlainName(so) && |so| == 13
    ensures var text := PlainDirective(so, '\n', so, "\n");
            && |text| == 33 && AfterMention(text, 0, so) == (19, true) && LineStart(text, 19)
            && (forall d: nat :: d >= 7 ==> !At(text[..19], d, so) && !At(text[19..], d, so))
  {
    var text := PlainDirective(so, '\n', so, "\n");
    PlainLayout(so, '\n', so, "\n");
    FirstLineMentions(text, 19, so, 5);
    forall d: nat | d >= 7 ensures !At(text[..19], d, so) {}
  }

  // ---------------------------------------------------------------------------------------
  // Repeating and undoing an install
  // ---------------------------------------------------------------------------------------

  /** A second install with the same flags finds everything in place. */
  predicate Settles(text: string, wired: bool, o: Options, word: char -> bool) {
    wired && o.fallback && !Recognised(text, U2F_SO, word) ==>
      LineStart(text, FallbackAt(text)) && StaysWired(text, word)
  }

  /**
   Installing twice with the same flags. The second install is a no-op exactly if the file
   settles: always, but for a wired one that gets the fallback below an unfinished line or
   into the middle of its only directive. A backup in the way of a first install stops both.
   */
  method InstallTwice(files: ServiceFiles, o: Options) returns (first: InstallResult, again: InstallResult)
    requires files.service.Some? && !files.word(' ') && files.word('a')
    requires !files.Wired() ==>
               '\n' !in o.control && '\n' !in o.so && NamesModule(o.control, o.so, files.word)
    modifies files
    ensures var text := old(files.service).value; var wired := old(files.Wired());
            if !wired && old(files.backup).Some?
            then first.BackupExists? && again.BackupExists? && files.service == old(files.service)
            else && (again.AlreadyInstalled? <==> Settles(text, wired, o, files.word))
                 && (again.AlreadyInstalled? ==> files.service == Some(
                       WithFallback(if wired then text else WithDirective(text, o), o.fallback, files.word)))
  {
    var text, word := files.service.value, files.word;
    first := files.Install(o);
    if first.Installed? {
      if Recognised(text, SYAUTH_SO, word) {
        StaysWiredExactly(text, word);
        FallbackTakesExactly(text, word);
      } else {
        InstallCarries(text, o, word);
        CarriedNamesModule(files.service.value, o.control, o.so, word);
        if o.fallback { FallbackTakes(text, o, word); }
      }
    }
    again := files.Install(o);
  }

  /** The new directive holds every mention of the module if the file and the arguments have none. */
  lemma MentionsInDirective(original: string, o: Options)
    requires !Contains(original, SYAUTH_SO) && !Contains(o.args, SYAUTH_SO)
    ensures MentionedOnlyIn(WithDirective(original, o), InsertPoint(original), Directive(o.control, o.so))
  {
    var line := Directive(o.control, o.so);
    SyauthName();
    InsertPointIsLineStart(original);
    forall d: nat | At(WithDirective(original, o), d, SYAUTH_SO)
      ensures InsertPoint(original) <= d && d + |SYAUTH_SO| < InsertPoint(original) + |line|
    {
      MentionPlaced(original, InsertPoint(original), line, o.args, SYAUTH_SO, d);
    }
  }

  /** A name in a text with a line added is in the text, in the line's arguments or before them. */
  lemma MentionPlaced(text: string, p: nat, line: string, args: string, so: string, d: nat)
    requires LineStart(text, p) && PlainName(so) && line != "" && line[|line| - 1] == ' '
    requires At(Inserted(text, p, line + args + "\n"), d, so)
    ensures Contains(text, so) || Contains(args, so) || (p <= d && d + |so| < p + |line|)
  {
    var s := line + args + "\n";
    NamesSplit(text, p, s, so, d);
    if p <= d && At(s, d - p, so) {
      InLine(line, args, so, d - p);
    }
  }

  /** An added line that ends in a newline parts the names of a text. */
  lemma NamesSplit(text: string, p: nat, s: string, so: string, d: nat)
    requires LineStart(text, p) && PlainName(so) && s != "" && s[|s| - 1] == '\n' && At(Inserted(text, p, s), d, so)
    ensures Contains(text, so) || (p <= d && At(s, d - p, so))
  {
    var t, n := Inserted(text, p, s), |s|;
    InsertedChars(text, p, s);
    NoNewlineInside(t, d, so);
    assert p > 0 ==> t[p - 1] == '\n';
    assert t[p + (n - 1)] == '\n';
    if d + |so| <= p {
      assert At(text, d, so);
    } else if d >= p + n {
      forall k | 0 <= k < |so| ensures text[d - n + k] == so[k] { assert t[(d - n + k) + n] == t[d + k] == so[k]; }
      assert At(text, d - n, so);
    } else {
      forall k | 0 <= k < |so| ensures s[d - p + k] == so[k] { assert t[p + (d - p + k)] == t[d + k] == so[k]; }
    }
  }

  lemma InLine(line: string, args: string, so: string, d: nat)
    requires line != "" && line[|line| - 1] == ' ' && PlainName(so) && At(line + args + "\n", d, so)
    ensures Contains(args, so) || d + |so| < |line|
  {
    var s, n := line + args + "\n", |line|;
    NoNewlineInside(s, d, so);
    WordAligned(s, d, so, 0, |so|);
    assert s[n - 1] == ' ' && s[|s| - 1] == '\n';
    if d + |so| >= n {
      assert d >= n && d + |so| <= n + |args|;
      forall k | 0 <= k < |so| ensures args[d - n + k] == so[k] { assert s[d + k] == so[k]; }
      assert At(args, d - n, so);
    }
  }

  /** The fallback below a directive with every mention of the module leaves it so. */
  lemma FallbackKeepsPlaced(original: string, o: Options, word: char -> bool)
    requires '\n' !in o.control && '\n' !in o.so
    requires !Contains(original, SYAUTH_SO) && !Contains(o.args, SYAUTH_SO)
    ensures var t := WithFallback(WithDirective(original, o), o.fallback, word);
            && Placed(t, InsertPoint(original), o.control, o.so)
            && MentionedOnlyIn(t, InsertPoint(original), Directive(o.control, o.so))
  {
    var text, p, line := WithDirective(original, o), InsertPoint(original), Directive(o.control, o.so);
    InstallIsPlaced(original, o);
    MentionsInDirective(original, o);
    var (f, found) := AfterMention(text, 0, SYAUTH_SO);
    if o.fallback && !Recognised(text, U2F_SO, word) && found {
      SyauthName();
      FallbackBelow(original, o);
      AdditionShape();
      BelowDirective(text, p, f, ADDITION, line);
      KeptAbove(text, p, f, ADDITION, line);
    }
  }

  lemma FallbackBelow(original: string, o: Options)
    requires '\n' !in o.control && '\n' !in o.so
    requires var text := WithDirective(original, o);
             && MentionedOnlyIn(text, InsertPoint(original), Directive(o.control, o.so))
             && AfterMention(text, 0, SYAUTH_SO).1
    ensures var text := WithDirective(original, o); var f := FallbackAt(text);
            LineStart(text, f) && InsertPoint(original) + |Directive(o.control, o.so)| <= f
  {
    var text, p, line := WithDirective(original, o), InsertPoint(original), Directive(o.control, o.so);
    PlacedLine(original, o);
    SyauthName();
    var m := MentionAbove(text, 0, SYAUTH_SO);
    MentionIsFound(text, 0, SYAUTH_SO, m, p + |line| + |o.args|);
    DirectiveHasNoNewline(o.control, o.so);
    NoNewlineInside(text, p, line);
  }

  lemma BelowDirective(text: string, p: nat, f: nat, s: string, line: string)
    requires LineStart(text, f) && Shape(s) && p + |line| <= f && MentionedOnlyIn(text, p, line)
    ensures MentionedOnlyIn(Inserted(text, f, s), p, line)
  {
    SyauthName();
    forall d: nat | At(Inserted(text, f, s), d, SYAUTH_SO) ensures p <= d && d + |SYAUTH_SO| < p + |line| {
      NamesStayApart(text, f, s, SYAUTH_SO, d);
      if f <= d && At(s, d - f, SYAUTH_SO) { NameInLine(s, d - f, SYAUTH_SO); }
    }
  }

  /** What stands above an insertion at a line start is as it was. */
  lemma KeptAbove(text: string, p: nat, f: nat, s: string, d: string)
    requires LineStart(text, f) && HasLine(text, p, d) && p + |d| <= f
    requires forall i: nat :: i < p && LineStart(text, i) ==> !AuthLine(text, i)
    ensures var t := Inserted(text, f, s);
            HasLine(t, p, d) && forall i: nat :: i < p && LineStart(t, i) ==> !AuthLine(t, i)
  {
    var t := Inserted(text, f, s);
    InsertedChars(text, f, s);
    UnshiftedAt(text, f, s, p, d);
    forall i: nat | i < p && LineStart(t, i) ensures !AuthLine(t, i) {
      AuthLineLocal(text, t, p, i);
    }
  }

  /**
   What the control and the module decide. On a file without the module, an install followed
   by an uninstall restores it exactly when the directive is one word and then the module;
   with any other control or module name the rewritten file and the backup both stay, and
   installing again is refused.
   */
  method InstallIsUndoneExactly(files: ServiceFiles, o: Options) returns (again: InstallResult, r: UninstallResult)
    requires files.service.Some? && files.backup == None && !files.word(' ')
    requires '\n' !in o.control && '\n' !in o.so
    requires !Contains(files.service.value, SYAUTH_SO) && !Contains(o.args, SYAUTH_SO)
    modifies files
    ensures if NamesModule(o.control, o.so, files.word)
            then again.AlreadyInstalled? && r.Restored? && files.service == old(files.service) && files.backup == None
            else && again.BackupExists? && r.NotInstalled? && files.backup == old(files.service)
                 && files.service ==
                    Some(WithFallback(WithDirective(old(files.service).value, o), o.fallback, files.word))
  {
    var original, word := files.service.value, files.word;
    UnmentionedIsUnwired(original, word);
    FallbackKeepsPlaced(original, o, word);
    RecognisedExactly(WithFallback(WithDirective(original, o), o.fallback, word), InsertPoint(original),
                      o.control, o.so, word);
    if o.fallback && NamesModule(o.control, o.so, word) { FallbackTakes(original, o, word); }
    again := files.Install(o);
    again := files.Install(o);
    r := files.Uninstall();
  }

  lemma UnmentionedIsUnwired(text: string, word: char -> bool)
    requires !Contains(text, SYAUTH_SO)
    ensures !Recognised(text, SYAUTH_SO, word)
  {
    if Recognised(text, SYAUTH_SO, word) { var _ := MatchMentions(text, SYAUTH_SO, word); }
  }

  // ---------------------------------------------------------------------------------------
  // Which controls and which module names
  // ---------------------------------------------------------------------------------------

  lemma FieldsLayout(control: string, so: string)
    ensures FieldsOf(Fields(control, so), control, so)
  {}

  /** A text is taken apart into white space, a word, white space and the rest in one way. */
  lemma OneParse(f: string, x: nat, y: nat, e: nat, b: nat, c: nat, d: nat)
    requires x < y < e < |f| && AllSpace(f, 0, x) && NoSpace(f, x, y) && AllSpace(f, y, e) && !Space(f[e])
    requires b < c < d < |f| && AllSpace(f, 0, b) && NoSpace(f, b, c) && AllSpace(f, c, d) && !Space(f[d])
    ensures b == x && c == y && d == e
  {
    assert !Space(f[b]) && !Space(f[x]) && Space(f[c]) && Space(f[y]);
  }

  /** With a control of one word, the module's name decides: it is the module's, up to a word boundary. */
  lemma ModuleNameDecides(control: string, so: string, word: char -> bool)
    requires OneWord(control) && PlainName(so) && !word(' ')
    ensures NamesModule(control, so, word) <==>
            At(so, 0, SYAUTH_SO) && (|so| == |SYAUTH_SO| || !word(so[|SYAUTH_SO|]))
  {
    var f, n := Fields(control, so), |control|;
    var x: nat, y: nat :| WordAt(control, x, y);
    FieldsLayout(control, so);
    if b: nat, c: nat, d: nat :| NamedAt(f, word, b, c, d) {
      NameInFields(f, control, so, word, x, y, b, c, d);
    }
    if At(so, 0, SYAUTH_SO) && (|so| == |SYAUTH_SO| || !word(so[|SYAUTH_SO|])) {
      NameNames(f, control, so, word, x, y);
    }
  }

  predicate FieldsOf(f: string, control: string, so: string) {
    var n := |control|;
    && |f| == 9 + n + |so| && AllSpace(f, 0, 4) && At(f, 4, control) && AllSpace(f, 4 + n, 8 + n)
    && At(f, 8 + n, so) && f[8 + n + |so|] == ' '
  }

  lemma NameInFields(f: string, control: string, so: string, word: char -> bool, x: nat, y: nat,
                     b: nat, c: nat, d: nat)
    requires FieldsOf(f, control, so) && WordAt(control, x, y) && PlainName(so) && NamedAt(f, word, b, c, d)
    ensures At(so, 0, SYAUTH_SO) && (|so| == |SYAUTH_SO| || !word(so[|SYAUTH_SO|]))
  {
    var e := 8 + |control|;
    WordInFields(f, control, x, y);
    SyauthName();
    assert f[e + 0] == so[0] && f[d + 0] == SYAUTH_SO[0];
    OneParse(f, 4 + x, 4 + y, e, b, c, d);
    forall k | 0 <= k < |SYAUTH_SO| ensures so[k] == SYAUTH_SO[k] { assert f[e + k] == SYAUTH_SO[k]; }
    assert |so| > |SYAUTH_SO| ==> f[e + |SYAUTH_SO|] == so[|SYAUTH_SO|];
  }

  lemma NameNames(f: string, control: string, so: string, word: char -> bool, x: nat, y: nat)
    requires FieldsOf(f, control, so) && WordAt(control, x, y) && !word(' ')
    requires At(so, 0, SYAUTH_SO) && (|so| == |SYAUTH_SO| || !word(so[|SYAUTH_SO|]))
    ensures NamedAt(f, word, 4 + x, 4 + y, 8 + |control|)
  {
    var e := 8 + |control|;
    WordInFields(f, control, x, y);
    Aligned(f, e, so, 0, SYAUTH_SO);
    assert |so| > |SYAUTH_SO| ==> f[e + |SYAUTH_SO|] == so[|SYAUTH_SO|];
  }

  lemma WordInFields(f: string, control: string, x: nat, y: nat)
    requires WordAt(control, x, y) && |f| >= 8 + |control| && AllSpace(f, 0, 4) && At(f, 4, control)
    requires AllSpace(f, 4 + |control|, 8 + |control|)
    ensures AllSpace(f, 0, 4 + x) && NoSpace(f, 4 + x, 4 + y) && AllSpace(f, 4 + y, 8 + |control|)
  {
    SpacesAligned(f, 4, control, 0, x);
    WordAligned(f, 4, control, x, y);
    SpacesAligned(f, 4, control, y, |control|);
  }

  /** With the module's own name, the control decides: it is one word. */
  lemma ControlDecides(control: string, word: char -> bool)
    requires !Contains(control, SYAUTH_SO) && !word(' ')
    ensures NamesModule(control, SYAUTH_SO, word) <==> OneWord(control)
  {
    var f := Fields(control, SYAUTH_SO);
    FieldsLayout(control, SYAUTH_SO);
    if b: nat, c: nat, d: nat :| NamedAt(f, word, b, c, d) { WordBeforeModule(f, control, word, b, c, d); }
    if OneWord(control) {
      SyauthName();
      ModuleNameDecides(control, SYAUTH_SO, word);
    }
  }

  lemma WordBeforeModule(f: string, control: string, word: char -> bool, b: nat, c: nat, d: nat)
    requires FieldsOf(f, control, SYAUTH_SO) && NamedAt(f, word, b, c, d) && !Contains(control, SYAUTH_SO)
    ensures b >= 4 && c >= 4 && WordAt(control, b - 4, c - 4)
  {
    ModuleComesLast(f, control, d);
    assert forall k :: 0 <= k < |control| ==> f[4 + k] == control[k];
    assert !Space(f[b]) && !Space(f[c - 1]);
  }

  lemma ModuleComesLast(f: string, control: string, d: nat)
    requires FieldsOf(f, control, SYAUTH_SO) && At(f, d, SYAUTH_SO)
    ensures d == 8 + |control| || (d >= 4 && At(control, d - 4, SYAUTH_SO))
  {
    var n := |control|;
    SyauthName();
    WordAligned(f, d, SYAUTH_SO, 0, |SYAUTH_SO|);
    assert !Space(f[d]) && !Space(f[d + 12]) && Space(f[4 + n]);
    assert d >= 4 && (d + 13 <= 4 + n || d == 8 + n);
    if d + 13 <= 4 + n {
      forall k | 0 <= k < 13 ensures control[d - 4 + k] == SYAUTH_SO[k] {
        assert f[d + k] == SYAUTH_SO[k] && f[4 + (d - 4 + k)] == control[d - 4 + k];
      }
    }
  }

  /** A module given by an absolute path is installed but not recognised, whatever the one-word control. */
  lemma AbsolutePathIsNotRecognised(control: string, path: string, word: char -> bool)
    requires OneWord(control) && PlainName(path) && path[0] == '/' && !word(' ')
    ensures !NamesModule(control, path, word)
  {
    ModuleNameDecides(control, path, word);
    assert path[0] != SYAUTH_SO[0];
  }
}
