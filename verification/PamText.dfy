/** PAM service files as text: lines, directives, recognition and insertion. */
module PamText {
  /** The Unicode white space characters. */
  predicate Space(c: char) {
    var n := c as int;
    || 9 <= n <= 13 || n == 32 || n == 0x85 || n == 0xA0 || n == 0x1680 || 0x2000 <= n <= 0x200A
    || n == 0x2028 || n == 0x2029 || n == 0x202F || n == 0x205F || n == 0x3000
  }

  /** The white space characters, one by one. */
  lemma SpacesInFull(c: char)
    ensures Space(c) <==>
            c as int in {0x09, 0x0A, 0x0B, 0x0C, 0x0D, 0x20, 0x85, 0xA0, 0x1680, 0x2000, 0x2001, 0x2002, 0x2003, 0x2004,
                         0x2005, 0x2006, 0x2007, 0x2008, 0x2009, 0x200A, 0x2028, 0x2029, 0x202F, 0x205F, 0x3000}
  {}

  predicate AllSpace(text: string, from: nat, to: nat)
    requires to <= |text|
  {
    forall k :: from <= k < to ==> Space(text[k])
  }

  predicate NoSpace(text: string, from: nat, to: nat)
    requires to <= |text|
  {
    forall k :: from <= k < to ==> !Space(text[k])
  }

  predicate At(text: string, d: nat, s: string) {
    d + |s| <= |text| && forall k :: 0 <= k < |s| ==> text[d + k] == s[k]
  }

  ghost predicate Contains(text: string, s: string) { exists d: nat :: At(text, d, s) }

  predicate LineStart(text: string, i: nat) {
    i <= |text| && (i == 0 || text[i - 1] == '\n')
  }

  /** Where the line that begins at `q` ends, its newline included. */
  function NextLine(text: string, q: nat): (n: nat)
    requires q <= |text|
    ensures q <= n <= |text| && (q < |text| ==> q < n) && (n < |text| ==> n > q && text[n - 1] == '\n')
    ensures forall k :: q <= k < n - 1 ==> text[k] != '\n'
    decreases |text| - q
  {
    if q == |text| then q else if text[q] == '\n' then q + 1 else NextLine(text, q + 1)
  }

  /**
   One match of the recognition pattern: at a line start `i`, optional white space, `auth`
   at `a`, white space, one word from `b` to `c`, white space, the module `so` at `d`, and a word
   boundary. White space may run over line ends. `word` tells which characters continue a word.
   */
  predicate MatchAt(text: string, so: string, word: char -> bool, i: nat, a: nat, b: nat, c: nat, d: nat) {
    && LineStart(text, i) && i <= a && a + 4 < b < c < d && d + |so| <= |text|
    && AllSpace(text, i, a) && At(text, a, "auth") && AllSpace(text, a + 4, b)
    && NoSpace(text, b, c) && AllSpace(text, c, d) && At(text, d, so)
    && (d + |so| == |text| || !word(text[d + |so|]))
  }

  predicate Recognised(text: string, so: string, word: char -> bool) {
    exists i, a, b, c, d ::
      0 <= i <= |text| && 0 <= a <= |text| && 0 <= b <= |text| && 0 <= c <= |text| && 0 <= d <= |text| &&
      MatchAt(text, so, word, i, a, b, c, d)
  }

  function SkipSpaces(text: string, q: nat, n: nat): (a: nat)
    requires q <= n <= |text|
    ensures q <= a <= n && AllSpace(text, q, a) && (a < n ==> !Space(text[a]))
    decreases n - q
  {
    if q < n && Space(text[q]) then SkipSpaces(text, q + 1, n) else q
  }

  /** The line that begins at `q` is an `auth` directive. */
  predicate AuthLine(text: string, q: nat)
    requires q <= |text|
  {
    var n := NextLine(text, q);
    var a := SkipSpaces(text, q, n);
    a + 4 < n && At(text, a, "auth") && Space(text[a + 4])
  }

  /** A line is an `auth` directive exactly if it has the word, white space before it or not and white space after. */
  lemma AuthLineExactly(text: string, q: nat)
    requires q <= |text|
    ensures AuthLine(text, q) <==>
            exists a :: && q <= a && a + 4 < NextLine(text, q) && AllSpace(text, q, a)
                        && At(text, a, "auth") && Space(text[a + 4])
  {
    var n := NextLine(text, q);
    if a :| q <= a && a + 4 < n && AllSpace(text, q, a) && At(text, a, "auth") && Space(text[a + 4]) {
      assert text[a + 0] == "auth"[0];
      assert SkipSpaces(text, q, n) == a;
    }
  }

  /** The first `auth` directive from line `q` on, or the end of the text. */
  function FirstAuth(text: string, q: nat): (p: nat)
    requires q <= |text|
    ensures q <= p <= |text|
    decreases |text| - q
  {
    if q == |text| then q else if AuthLine(text, q) then q else FirstAuth(text, NextLine(text, q))
  }

  /** Where a new directive goes: before the first `auth` directive, or else at the top. */
  function InsertPoint(text: string): (p: nat)
    ensures p <= |text|
  {
    if FirstAuth(text, 0) == |text| then 0 else FirstAuth(text, 0)
  }

  function Inserted(text: string, p: nat, addition: string): string
    requires p <= |text|
  {
    text[..p] + addition + text[p..]
  }

  method InsertLine(original: string, newLine: string) returns (out: string)
    ensures out == Inserted(original, InsertPoint(original), newLine + "\n")
  {
    out := "";
    var inserted := false;
    var q := 0;
    ghost var target := FirstAuth(original, 0);
    while q < |original|
      invariant q <= |original|
      invariant !inserted ==> out == original[..q] && target == FirstAuth(original, q)
      invariant inserted ==> target < q && out == Partly(original, target, newLine + "\n", q)
    {
      var n := NextLine(original, q);
      if !inserted && AuthLine(original, q) {
        out := out + newLine + "\n";
        inserted := true;
        assert out == Partly(original, q, newLine + "\n", q);
      }
      PartlyGrows(original, target, newLine + "\n", q, n);
      out := out + original[q..n];
      q := n;
    }
    if !inserted {
      out := newLine + "\n" + original;
    }
  }

  /** The text up to `q` with the addition at `p`. */
  function Partly(text: string, p: nat, addition: string, q: nat): string
    requires p <= q <= |text|
  {
    text[..p] + addition + text[p..q]
  }

  lemma PartlyGrows(text: string, p: nat, addition: string, q: nat, n: nat)
    requires q <= n <= |text|
    ensures text[..q] + text[q..n] == text[..n]
    ensures p <= q ==> Partly(text, p, addition, q) + text[q..n] == Partly(text, p, addition, n)
    ensures p <= |text| ==> Partly(text, p, addition, |text|) == Inserted(text, p, addition)
  {}

  predicate Mentions(text: string, q: nat, n: nat, s: string)
    requires q <= n <= |text|
  {
    exists d :: q <= d <= n && d + |s| <= n && At(text, d, s)
  }

  /** The end of the first line, from `q` on, that mentions `s`; the end of the text if none does. */
  function AfterMention(text: string, q: nat, s: string): (p: (nat, bool))
    requires q <= |text|
    ensures q <= p.0 <= |text|
    decreases |text| - q
  {
    if q == |text| then (q, false)
    else if Mentions(text, q, NextLine(text, q), s) then (NextLine(text, q), true)
    else AfterMention(text, NextLine(text, q), s)
  }

  /** Insert a line directly below the first line that mentions `s`. */
  method InsertBelow(body: string, s: string, newLine: string) returns (out: string)
    ensures var (p, found) := AfterMention(body, 0, s);
            out == if found then Inserted(body, p, newLine + "\n") else body
  {
    out := "";
    var inserted := false;
    var q := 0;
    ghost var target := AfterMention(body, 0, s);
    while q < |body|
      invariant q <= |body|
      invariant !inserted ==> out == body[..q] && target == AfterMention(body, q, s)
      invariant inserted ==> target.1 && target.0 <= q &&
                             out == body[..target.0] + (newLine + "\n") + body[target.0..q]
    {
      var n := NextLine(body, q);
      out := out + body[q..n];
      if !inserted && Mentions(body, q, n, s) {
        out := out + newLine + "\n";
        inserted := true;
        assert out == body[..n] + (newLine + "\n") + body[n..n];
      }
      q := n;
    }
    assert body[..q] == body;
    if inserted { assert body[target.0..q] == body[target.0..]; }
  }
}
