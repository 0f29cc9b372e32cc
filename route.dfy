/** The POST handler of the SQL query endpoint and its read-only admission filter.

    The filter is a denylist of seven case-insensitive, unanchored regular
    expressions.  Each expression has one of three shapes, written out here as
    explicit predicates that follow the ECMAScript RegExp semantics (ECMA-262,
    section 22.2): a keyword, two keywords separated by `\s+`, and two keywords
    separated by `\s+.*\s+`.  For every shape there is a reference definition
    (a ghost predicate saying which strings are complete matches) and an
    executable matcher that tries each start position in turn, as
    `RegExp.prototype.test` does; the two are proved to agree. */
module QueryRoute {

  import opened Options

  // ---------------------------------------------------------------------------
  // Character classes of ECMAScript regular expressions
  // ---------------------------------------------------------------------------

  /** LineTerminator (ECMA-262 section 12.3): LF, CR, LINE SEPARATOR, PARAGRAPH SEPARATOR. */
  predicate IsLineTerminator(c: char) {
    c == '\n' || c == '\r' || c == '\U{2028}' || c == '\U{2029}'
  }

  /** Unicode general category Zs (space separators). */
  predicate IsSpaceSeparator(c: char) {
    c == ' ' || c == '\U{00A0}' || c == '\U{1680}' || ('\U{2000}' <= c <= '\U{200A}')
    || c == '\U{202F}' || c == '\U{205F}' || c == '\U{3000}'
  }

  /** WhiteSpace (ECMA-262 section 12.2): TAB, VT, FF, ZWNBSP and every Zs character. */
  predicate IsWhiteSpace(c: char) {
    c == '\t' || c == '\U{000B}' || c == '\U{000C}' || c == '\U{FEFF}' || IsSpaceSeparator(c)
  }

  /** The class escape `\s`: WhiteSpace or LineTerminator (ECMA-262 section 22.2.2.9). */
  predicate IsRegExpSpace(c: char) {
    IsWhiteSpace(c) || IsLineTerminator(c)
  }

  /** Canonicalize of a pattern with the `i` flag and without `u` (ECMA-262
      section 22.2.2.7.3), as far as it matters for ASCII letters: the
      upper-case mapping is applied, but a character of code 128 or more that
      would map into ASCII (such as U+0131 or U+017F) is left alone. So the
      characters that canonicalize to an ASCII capital are that capital and its
      ASCII lower-case partner, exactly as below. */
  function FoldAscii(c: char): (r: char)
    ensures 'a' <= c <= 'z' ==> 'A' <= r <= 'Z' && r as int == c as int - 32
    ensures !('a' <= c <= 'z') ==> r == c
  {
    if 'a' <= c <= 'z' then (c as int - 32) as char else c
  }

  /** The characters the `i` flag lets match each other: a character matches
      itself and an ASCII letter matches its partner of the other case, and
      no two other characters match. */
  lemma FoldAsciiMatches(c: char, d: char)
    ensures FoldAscii(c) == FoldAscii(d) <==>
      c == d || ('a' <= c <= 'z' && d as int == c as int - 32) || ('a' <= d <= 'z' && c as int == d as int - 32)
  {
  }

  /** Two characters that fold to the same character are both letters or the
      same character, so they agree on `\s` and on line terminators. */
  lemma FoldKeepsClasses(c: char, d: char)
    requires FoldAscii(c) == FoldAscii(d)
    ensures IsRegExpSpace(c) <==> IsRegExpSpace(d)
    ensures IsLineTerminator(c) <==> IsLineTerminator(d)
  {
  }

  // ---------------------------------------------------------------------------
  // The three pattern shapes and the denylist
  // ---------------------------------------------------------------------------

  datatype Pattern =
    | Keyword(word: string)                  // /WORD/i
    | Phrase(first: string, second: string)  // /FIRST\s+SECOND/i
    | Spread(first: string, second: string)  // /FIRST\s+.*\s+SECOND/i

  /** The `forbiddenCommands` array, in its order. */
  const ForbiddenCommands: seq<Pattern> := [
    Phrase("DROP", "TABLE"),
    Phrase("DROP", "DATABASE"),
    Phrase("DELETE", "FROM"),
    Spread("UPDATE", "SET"),
    Phrase("ALTER", "TABLE"),
    Keyword("TRUNCATE"),
    Phrase("INSERT", "INTO")
  ]

  // ---------------------------------------------------------------------------
  // Reference semantics: where in a string a match of a pattern lies
  // ---------------------------------------------------------------------------

  /** The keyword kw is spelled at position i of s, after case folding. */
  predicate WordAt(s: string, i: int, kw: string) {
    0 <= i && i + |kw| <= |s| && forall k :: 0 <= k < |kw| ==> FoldAscii(s[i + k]) == FoldAscii(kw[k])
  }

  /** s[i..j] consists of `\s` characters. */
  predicate SpaceBetween(s: string, i: int, j: int) {
    0 <= i <= j <= |s| && forall k :: i <= k < j ==> IsRegExpSpace(s[k])
  }

  /** s[i..j] holds no line terminator, so `.*` matches it. */
  predicate NoLineTerminatorBetween(s: string, i: int, j: int) {
    0 <= i <= j <= |s| && forall k :: i <= k < j ==> !IsLineTerminator(s[k])
  }

  /** s[i..e] is a complete match of `\s+second`. */
  predicate SpacedWordSpan(s: string, i: int, e: int, second: string) {
    i < e - |second| && SpaceBetween(s, i, e - |second|) && WordAt(s, e - |second|, second)
  }

  /** s[i..e] is a complete match of `.*\s+second`: characters other than line
      terminators up to some k, then a match of `\s+second`. */
  ghost predicate AnyThenSpacedWordSpan(s: string, i: int, e: int, second: string) {
    exists k :: NoLineTerminatorBetween(s, i, k) && SpacedWordSpan(s, k, e, second)
  }

  /** s[i..e] is a complete match of `\s+.*\s+second`: one or more `\s`
      characters up to some j, then a match of `.*\s+second`. */
  ghost predicate SpreadTailSpan(s: string, i: int, e: int, second: string) {
    exists j :: i < j && SpaceBetween(s, i, j) && AnyThenSpacedWordSpan(s, j, e, second)
  }

  /** s[i..e] is a complete match of p. */
  ghost predicate SpanMatches(p: Pattern, s: string, i: int, e: int) {
    match p
    case Keyword(kw) => WordAt(s, i, kw) && e == i + |kw|
    case Phrase(a, b) => WordAt(s, i, a) && SpacedWordSpan(s, i + |a|, e, b)
    case Spread(a, b) => WordAt(s, i, a) && SpreadTailSpan(s, i + |a|, e, b)
  }

  /** What `p.test(s)` decides for a pattern without the `g` or `y` flag: a
      complete match of p lies somewhere in s. */
  ghost predicate MatchesSomewhere(p: Pattern, s: string) {
    exists i, e :: SpanMatches(p, s, i, e)
  }

  /** The query is rejected: at least one forbidden pattern matches somewhere in it. */
  ghost predicate Rejected(q: string) {
    exists p :: p in ForbiddenCommands && MatchesSomewhere(p, q)
  }

  // ---------------------------------------------------------------------------
  // Executable matcher
  // ---------------------------------------------------------------------------

  /** A match of `\s+second` starts at position i. */
  predicate SpacedWordFrom(s: string, i: nat, second: string)
    decreases |s| - i
  {
    i < |s| && IsRegExpSpace(s[i]) && (WordAt(s, i + 1, second) || SpacedWordFrom(s, i + 1, second))
  }

  /** A match of `.*\s+second` starts at position i. */
  predicate AnyThenSpacedWordFrom(s: string, i: nat, second: string)
    decreases |s| - i
  {
    SpacedWordFrom(s, i, second)
    || (i < |s| && !IsLineTerminator(s[i]) && AnyThenSpacedWordFrom(s, i + 1, second))
  }

  /** A match of `\s+.*\s+second` starts at position i. */
  predicate SpreadTailFrom(s: string, i: nat, second: string)
    decreases |s| - i
  {
    i < |s| && IsRegExpSpace(s[i])
    && (AnyThenSpacedWordFrom(s, i + 1, second) || SpreadTailFrom(s, i + 1, second))
  }

  /** A match of p starts at position i. */
  predicate MatchesFrom(p: Pattern, s: string, i: nat) {
    match p
    case Keyword(kw) => WordAt(s, i, kw)
    case Phrase(a, b) => WordAt(s, i, a) && SpacedWordFrom(s, i + |a|, b)
    case Spread(a, b) => WordAt(s, i, a) && SpreadTailFrom(s, i + |a|, b)
  }

  /** Try every start position from i onwards, left to right. */
  predicate TestFrom(p: Pattern, s: string, i: nat)
    decreases |s| - i
  {
    MatchesFrom(p, s, i) || (i < |s| && TestFrom(p, s, i + 1))
  }

  /** `p.test(s)`. */
  predicate Test(p: Pattern, s: string) {
    TestFrom(p, s, 0)
  }

  /** `isReadOnly`: no forbidden pattern tests positive. */
  predicate IsReadOnly(q: string) {
    !exists i :: 0 <= i < |ForbiddenCommands| && Test(ForbiddenCommands[i], q)
  }

  // ---------------------------------------------------------------------------
  // The executable matcher agrees with the reference semantics
  // ---------------------------------------------------------------------------

  lemma {:induction false} SpacedWordFromCorrect(s: string, i: nat, b: string)
    ensures SpacedWordFrom(s, i, b) <==> exists e :: SpacedWordSpan(s, i, e, b)
    decreases |s| - i
  {
    if i < |s| {
      SpacedWordFromCorrect(s, i + 1, b);
      if SpacedWordFrom(s, i, b) {
        if WordAt(s, i + 1, b) {
          assert SpacedWordSpan(s, i, i + 1 + |b|, b);
        } else {
          var e :| SpacedWordSpan(s, i + 1, e, b);
          assert SpacedWordSpan(s, i, e, b);
        }
      }
      if exists e :: SpacedWordSpan(s, i, e, b) {
        var e :| SpacedWordSpan(s, i, e, b);
        assert IsRegExpSpace(s[i]);
        if i + 1 < e - |b| {
          assert SpacedWordSpan(s, i + 1, e, b);
        } else {
          assert WordAt(s, i + 1, b);
        }
      }
    }
  }

  lemma {:induction false} AnyThenSpacedWordFromCorrect(s: string, i: nat, b: string)
    ensures AnyThenSpacedWordFrom(s, i, b) <==> exists e :: AnyThenSpacedWordSpan(s, i, e, b)
    decreases |s| - i
  {
    SpacedWordFromCorrect(s, i, b);
    if i < |s| {
      AnyThenSpacedWordFromCorrect(s, i + 1, b);
    }
    if AnyThenSpacedWordFrom(s, i, b) {
      if SpacedWordFrom(s, i, b) {
        var e :| SpacedWordSpan(s, i, e, b);
        assert NoLineTerminatorBetween(s, i, i);
        assert AnyThenSpacedWordSpan(s, i, e, b);
      } else {
        var e :| AnyThenSpacedWordSpan(s, i + 1, e, b);
        var k :| NoLineTerminatorBetween(s, i + 1, k) && SpacedWordSpan(s, k, e, b);
        assert NoLineTerminatorBetween(s, i, k);
        assert AnyThenSpacedWordSpan(s, i, e, b);
      }
    }
    if exists e :: AnyThenSpacedWordSpan(s, i, e, b) {
      var e :| AnyThenSpacedWordSpan(s, i, e, b);
      var k :| NoLineTerminatorBetween(s, i, k) && SpacedWordSpan(s, k, e, b);
      if k > i {
        assert NoLineTerminatorBetween(s, i + 1, k);
        assert AnyThenSpacedWordSpan(s, i + 1, e, b);
      }
    }
  }

  lemma {:induction false} SpreadTailFromCorrect(s: string, i: nat, b: string)
    ensures SpreadTailFrom(s, i, b) <==> exists e :: SpreadTailSpan(s, i, e, b)
    decreases |s| - i
  {
    if i < |s| {
      AnyThenSpacedWordFromCorrect(s, i + 1, b);
      SpreadTailFromCorrect(s, i + 1, b);
      if SpreadTailFrom(s, i, b) {
        if AnyThenSpacedWordFrom(s, i + 1, b) {
          var e :| AnyThenSpacedWordSpan(s, i + 1, e, b);
          assert SpaceBetween(s, i, i + 1);
          assert SpreadTailSpan(s, i, e, b);
        } else {
          var e :| SpreadTailSpan(s, i + 1, e, b);
          var j :| i + 1 < j && SpaceBetween(s, i + 1, j) && AnyThenSpacedWordSpan(s, j, e, b);
          assert SpaceBetween(s, i, j);
          assert SpreadTailSpan(s, i, e, b);
        }
      }
      if exists e :: SpreadTailSpan(s, i, e, b) {
        var e :| SpreadTailSpan(s, i, e, b);
        var j :| i < j && SpaceBetween(s, i, j) && AnyThenSpacedWordSpan(s, j, e, b);
        assert IsRegExpSpace(s[i]);
        if j > i + 1 {
          assert SpaceBetween(s, i + 1, j);
          assert SpreadTailSpan(s, i + 1, e, b);
        }
      }
    }
  }

  lemma MatchesFromCorrect(p: Pattern, s: string, i: nat)
    ensures MatchesFrom(p, s, i) <==> exists e :: SpanMatches(p, s, i, e)
  {
    match p
    case Keyword(kw) =>
      if MatchesFrom(p, s, i) {
        assert SpanMatches(p, s, i, i + |kw|);
      }
    case Phrase(a, b) =>
      SpacedWordFromCorrect(s, i + |a|, b);
      if MatchesFrom(p, s, i) {
        var e :| SpacedWordSpan(s, i + |a|, e, b);
        assert SpanMatches(p, s, i, e);
      }
    case Spread(a, b) =>
      SpreadTailFromCorrect(s, i + |a|, b);
      if MatchesFrom(p, s, i) {
        var e :| SpreadTailSpan(s, i + |a|, e, b);
        assert SpanMatches(p, s, i, e);
      }
  }

  lemma {:induction false} TestFromCorrect(p: Pattern, s: string, i: nat)
    ensures TestFrom(p, s, i) <==> exists j, e :: i <= j && SpanMatches(p, s, j, e)
    decreases |s| - i
  {
    MatchesFromCorrect(p, s, i);
    if i < |s| {
      TestFromCorrect(p, s, i + 1);
    }
    if exists j, e :: i <= j && SpanMatches(p, s, j, e) {
      var j, e :| i <= j && SpanMatches(p, s, j, e);
      if j > i {
        assert i + 1 <= j && j <= |s| by { SpanMatchesInside(p, s, j, e); }
      }
    }
  }

  /** A span that matches lies inside the string. */
  lemma SpanMatchesInside(p: Pattern, s: string, i: int, e: int)
    requires SpanMatches(p, s, i, e)
    ensures 0 <= i <= e <= |s|
  {
    match p
    case Keyword(_) =>
    case Phrase(_, _) =>
    case Spread(a, b) =>
      var j :| i + |a| < j && SpaceBetween(s, i + |a|, j) && AnyThenSpacedWordSpan(s, j, e, b);
  }

  /** The executable `test` decides exactly the reference semantics. */
  lemma TestCorrect(p: Pattern, s: string)
    ensures Test(p, s) <==> MatchesSomewhere(p, s)
  {
    TestFromCorrect(p, s, 0);
    if MatchesSomewhere(p, s) {
      var j, e :| SpanMatches(p, s, j, e);
      SpanMatchesInside(p, s, j, e);
    }
  }

  /** `isReadOnly` holds exactly when no forbidden pattern matches anywhere. */
  lemma IsReadOnlyCorrect(q: string)
    ensures IsReadOnly(q) <==> !Rejected(q)
  {
    forall i | 0 <= i < |ForbiddenCommands| {
      TestCorrect(ForbiddenCommands[i], q);
    }
  }

  // ---------------------------------------------------------------------------
  // Rejection is monotone: a string that contains a rejected string is rejected
  // ---------------------------------------------------------------------------

  /** t holds s as a substring, starting at position d. */
  predicate ContainsAt(t: string, s: string, d: int) {
    0 <= d && d + |s| <= |t| && forall k :: 0 <= k < |s| ==> t[d + k] == s[k]
  }

  lemma ConcatContains(u: string, s: string, v: string)
    ensures ContainsAt(u + s + v, s, |u|)
  {
  }

  lemma SpanShift(p: Pattern, s: string, t: string, d: int, i: int, e: int)
    requires ContainsAt(t, s, d) && SpanMatches(p, s, i, e)
    ensures SpanMatches(p, t, i + d, e + d)
  {
    assert forall k :: 0 <= k < |s| ==> t[d + k] == s[k];
    match p
    case Keyword(kw) =>
      assert WordAt(t, i + d, kw) by {
        forall k | 0 <= k < |kw| ensures FoldAscii(t[i + d + k]) == FoldAscii(kw[k]) {
          assert t[d + (i + k)] == s[i + k];
        }
      }
    case Phrase(a, b) =>
      WordShift(s, t, d, i, a);
      SpacedWordShift(s, t, d, i + |a|, e, b);
    case Spread(a, b) =>
      WordShift(s, t, d, i, a);
      var j :| i + |a| < j && SpaceBetween(s, i + |a|, j) && AnyThenSpacedWordSpan(s, j, e, b);
      var k :| NoLineTerminatorBetween(s, j, k) && SpacedWordSpan(s, k, e, b);
      assert SpaceBetween(t, i + |a| + d, j + d) by {
        forall m | i + |a| + d <= m < j + d ensures IsRegExpSpace(t[m]) {
          assert t[d + (m - d)] == s[m - d];
        }
      }
      assert NoLineTerminatorBetween(t, j + d, k + d) by {
        forall m | j + d <= m < k + d ensures !IsLineTerminator(t[m]) {
          assert t[d + (m - d)] == s[m - d];
        }
      }
      SpacedWordShift(s, t, d, k, e, b);
      assert AnyThenSpacedWordSpan(t, j + d, e + d, b);
  }

  lemma WordShift(s: string, t: string, d: int, i: int, kw: string)
    requires ContainsAt(t, s, d) && WordAt(s, i, kw)
    ensures WordAt(t, i + d, kw)
  {
    forall k | 0 <= k < |kw| ensures FoldAscii(t[i + d + k]) == FoldAscii(kw[k]) {
      assert t[d + (i + k)] == s[i + k];
    }
  }

  lemma SpacedWordShift(s: string, t: string, d: int, i: int, e: int, b: string)
    requires ContainsAt(t, s, d) && SpacedWordSpan(s, i, e, b)
    ensures SpacedWordSpan(t, i + d, e + d, b)
  {
    WordShift(s, t, d, e - |b|, b);
    forall m | i + d <= m < e - |b| + d ensures IsRegExpSpace(t[m]) {
      assert t[d + (m - d)] == s[m - d];
    }
  }

  /** Rejection is monotone: if s is rejected, so is every string holding s as a substring. */
  lemma {:induction false} RejectedMonotone(s: string, t: string, d: int)
    requires Rejected(s) && ContainsAt(t, s, d)
    ensures Rejected(t)
  {
    var p :| p in ForbiddenCommands && MatchesSomewhere(p, s);
    var i, e :| SpanMatches(p, s, i, e);
    SpanShift(p, s, t, d, i, e);
  }

  /** In particular, whatever text surrounds a rejected query, the result is rejected. */
  lemma RejectedWhateverSurrounds(u: string, s: string, v: string)
    requires Rejected(s)
    ensures Rejected(u + s + v)
  {
    ConcatContains(u, s, v);
    RejectedMonotone(s, u + s + v, |u|);
  }

  // ---------------------------------------------------------------------------
  // The verdict ignores the case of ASCII letters
  // ---------------------------------------------------------------------------

  /** Swap an ASCII letter between upper and lower case; leave anything else. */
  function FlipCase(c: char): (r: char)
    ensures FoldAscii(r) == FoldAscii(c)
    ensures ('a' <= c <= 'z' || 'A' <= c <= 'Z') <==> r != c
  {
    if 'a' <= c <= 'z' then (c as int - 32) as char
    else if 'A' <= c <= 'Z' then (c as int + 32) as char
    else c
  }

  /** s with the case of the letters at the given positions flipped. */
  function FlipCaseAt(s: string, positions: set<int>): (t: string)
    ensures |t| == |s|
    ensures forall k :: 0 <= k < |s| ==> t[k] == if k in positions then FlipCase(s[k]) else s[k]
  {
    seq(|s|, k requires 0 <= k < |s| => if k in positions then FlipCase(s[k]) else s[k])
  }

  /** s and t are equal up to the case of ASCII letters. */
  predicate SameUpToCase(s: string, t: string) {
    |s| == |t| && forall k :: 0 <= k < |s| ==> FoldAscii(s[k]) == FoldAscii(t[k])
  }

  lemma SpanUpToCase(p: Pattern, s: string, t: string, i: int, e: int)
    requires SameUpToCase(s, t) && SpanMatches(p, s, i, e)
    ensures SpanMatches(p, t, i, e)
  {
    forall k | 0 <= k < |s| ensures IsRegExpSpace(s[k]) <==> IsRegExpSpace(t[k])
      ensures IsLineTerminator(s[k]) <==> IsLineTerminator(t[k])
    {
      FoldKeepsClasses(s[k], t[k]);
    }
    match p
    case Keyword(kw) =>
    case Phrase(a, b) =>
    case Spread(a, b) =>
      var j :| i + |a| < j && SpaceBetween(s, i + |a|, j) && AnyThenSpacedWordSpan(s, j, e, b);
      var k :| NoLineTerminatorBetween(s, j, k) && SpacedWordSpan(s, k, e, b);
      assert SpacedWordSpan(t, k, e, b);
      assert AnyThenSpacedWordSpan(t, j, e, b);
  }

  lemma {:induction false} RejectedUpToCase(s: string, t: string)
    requires SameUpToCase(s, t)
    ensures Rejected(s) <==> Rejected(t)
  {
    if Rejected(s) {
      var p :| p in ForbiddenCommands && MatchesSomewhere(p, s);
      var i, e :| SpanMatches(p, s, i, e);
      SpanUpToCase(p, s, t, i, e);
    }
    if Rejected(t) {
      var p :| p in ForbiddenCommands && MatchesSomewhere(p, t);
      var i, e :| SpanMatches(p, t, i, e);
      SpanUpToCase(p, t, s, i, e);
    }
  }

  /** Flipping the case of ASCII letters anywhere in a query leaves the filter's verdict unchanged. */
  lemma {:induction false} VerdictIgnoresCase(s: string, positions: set<int>)
    ensures IsReadOnly(FlipCaseAt(s, positions)) == IsReadOnly(s)
  {
    var t := FlipCaseAt(s, positions);
    RejectedUpToCase(s, t);
    IsReadOnlyCorrect(s);
    IsReadOnlyCorrect(t);
  }

  // ---------------------------------------------------------------------------
  // Examples
  // ---------------------------------------------------------------------------

  /** A match of a two-keyword pattern has a `\s` character right after its first keyword. */
  lemma PairHoldsSpace(p: Pattern, s: string, i: int, e: int)
    ensures (p.Phrase? || p.Spread?) && SpanMatches(p, s, i, e) ==>
      0 <= i + |p.first| < |s| && IsRegExpSpace(s[i + |p.first|])
  {
    if p.Spread? && SpanMatches(p, s, i, e) {
      var j :| i + |p.first| < j && SpaceBetween(s, i + |p.first|, j) && AnyThenSpacedWordSpan(s, j, e, p.second);
      SpanMatchesInside(p, s, i, e);
    }
  }

  /** A keyword spelled at i starts with the keyword's first letter. */
  lemma FirstLetter(s: string, i: int, kw: string)
    ensures WordAt(s, i, kw) && |kw| > 0 ==> i + |kw| <= |s| && FoldAscii(s[i]) == FoldAscii(kw[0])
  {
    if WordAt(s, i, kw) && |kw| > 0 {
      assert FoldAscii(s[i + 0]) == FoldAscii(kw[0]);
    }
  }

  /** A string without any `\s` character matches no two-keyword pattern:
      those need at least one `\s` between the keywords. */
  lemma SpacelessMatchesNoPair(p: Pattern, s: string)
    requires p.Phrase? || p.Spread?
    requires forall k :: 0 <= k < |s| ==> !IsRegExpSpace(s[k])
    ensures !MatchesSomewhere(p, s)
  {
    if MatchesSomewhere(p, s) {
      var i, e :| SpanMatches(p, s, i, e);
      PairHoldsSpace(p, s, i, e);
      assert false;
    }
  }

  /** The keywords are not delimited by word boundaries: "truncated" inside a
      string literal contains TRUNCATE, so the query is rejected. */
  lemma TruncatedLiteralRejected()
    ensures Rejected("SELECT * FROM t WHERE c = 'truncated'")
  {
    var w := "truncated";
    assert SpanMatches(Keyword("TRUNCATE"), w, 0, 8) by {
      assert w[0] == 't' && w[1] == 'r' && w[2] == 'u' && w[3] == 'n';
      assert w[4] == 'c' && w[5] == 'a' && w[6] == 't' && w[7] == 'e';
    }
    assert MatchesSomewhere(ForbiddenCommands[5], w);
    assert Rejected(w);
    RejectedWhateverSurrounds("SELECT * FROM t WHERE c = '", w, "'");
    assert "SELECT * FROM t WHERE c = '" + w + "'" == "SELECT * FROM t WHERE c = 'truncated'";
  }

  /** `DROP\s+TABLE` needs whitespace between the words: "DROPTABLE" is not
      matched by it, and in fact passes the whole filter. */
  lemma DropTableWithoutSpaceAdmitted()
    ensures !MatchesSomewhere(Phrase("DROP", "TABLE"), "DROPTABLE")
    ensures !Rejected("DROPTABLE")
  {
    var s := "DROPTABLE";
    forall k | 0 <= k < |s| ensures !IsRegExpSpace(s[k]) {
    }
    forall p | p in ForbiddenCommands ensures !MatchesSomewhere(p, s) {
      if p.Keyword? {
        assert p == Keyword("TRUNCATE");
        forall i, e ensures !SpanMatches(p, s, i, e) {
          FirstLetter(s, i, "TRUNCATE");
        }
      } else {
        SpacelessMatchesNoPair(p, s);
      }
    }
  }

  /** A benign statement followed by a mutating one is still caught, since the
      patterns look at the whole string and not only at its first statement. */
  lemma TrailingDropTableRejected()
    ensures Rejected("SELECT 1; drop\ttable users")
  {
    var w := "drop\ttable";
    assert SpanMatches(Phrase("DROP", "TABLE"), w, 0, 10) by {
      assert w[0] == 'd' && w[1] == 'r' && w[2] == 'o' && w[3] == 'p' && w[4] == '\t';
      assert w[5] == 't' && w[6] == 'a' && w[7] == 'b' && w[8] == 'l' && w[9] == 'e';
    }
    assert MatchesSomewhere(ForbiddenCommands[0], w);
    assert Rejected(w);
    RejectedWhateverSurrounds("SELECT 1; ", w, " users");
    assert "SELECT 1; " + w + " users" == "SELECT 1; drop\ttable users";
  }

  /** `.` does not match a line terminator: a line terminator inside a match
      of `first\s+.*\s+second` lies in one of the two `\s+` runs, so everything
      between it and one of the two keywords is `\s`. */
  lemma SpreadLineBreak(a: string, b: string, s: string, i: int, e: int, m: int)
    requires SpanMatches(Spread(a, b), s, i, e)
    requires i + |a| <= m < e - |b| && IsLineTerminator(s[m])
    ensures SpaceBetween(s, i + |a|, m) || SpaceBetween(s, m, e - |b|)
  {
    var j :| i + |a| < j && SpaceBetween(s, i + |a|, j) && AnyThenSpacedWordSpan(s, j, e, b);
    var k :| NoLineTerminatorBetween(s, j, k) && SpacedWordSpan(s, k, e, b);
    if m >= j {
      assert m >= k;
      assert SpaceBetween(s, m, e - |b|);
    }
  }

  /** So an UPDATE whose line break sits between two words other than the
      keywords passes the UPDATE rule ... */
  lemma MultiLineUpdateNotMatched()
    ensures !MatchesSomewhere(Spread("UPDATE", "SET"), "UPDATE t\nAS x SET")
  {
    var p, s := Spread("UPDATE", "SET"), "UPDATE t\nAS x SET";
    assert s[6] == ' ' && s[7] == 't' && s[8] == '\n' && s[9] == 'A';
    assert !SpacedWordFrom(s, 9, "SET");
    FirstLetter(s, 9, "SET");
    assert !SpacedWordFrom(s, 8, "SET");
    assert !AnyThenSpacedWordFrom(s, 8, "SET");
    assert !AnyThenSpacedWordFrom(s, 7, "SET");
    assert !SpreadTailFrom(s, 7, "SET");
    assert !MatchesFrom(p, s, 0);
    MatchesFromCorrect(p, s, 0);
    forall m, e ensures !SpanMatches(p, s, m, e) {
      FirstLetter(s, m, "UPDATE");
    }
  }

  /** ... while the same statement on one line is caught. */
  lemma SingleLineUpdateMatched()
    ensures MatchesSomewhere(Spread("UPDATE", "SET"), "UPDATE t AS x SET")
  {
    var t := "UPDATE t AS x SET";
    assert t[6] == ' ' && t[7] == 't' && t[8] == ' ' && t[9] == 'A' && t[10] == 'S';
    assert t[11] == ' ' && t[12] == 'x' && t[13] == ' ';
    assert WordAt(t, 14, "SET");
    assert SpacedWordSpan(t, 13, 17, "SET");
    assert NoLineTerminatorBetween(t, 7, 13);
    assert AnyThenSpacedWordSpan(t, 7, 17, "SET");
    assert SpaceBetween(t, 6, 7);
    assert SpanMatches(Spread("UPDATE", "SET"), t, 0, 17);
  }

  // ---------------------------------------------------------------------------
  // The POST handler
  // ---------------------------------------------------------------------------

  /** A JSON value as `request.json()` produces it. */
  datatype Json =
    | JNull
    | JBool(b: bool)
    | JNumber(n: real)
    | JString(str: string)
    | JArray(items: seq<Json>)
    | JObject(members: map<string, Json>)

  type Row = map<string, Json>

  /** The request body: `request.json()` either rejects with an error whose
      message is given, or yields a value. */
  datatype RequestBody = Unparsable(message: string) | Parsed(value: Json)

  /** What `executeRawQuery` resolves to: the rows, or an error with its message. */
  datatype ExecOutcome = Rows(rows: seq<Row>) | ExecFailure(message: string)

  datatype ResponseBody = ErrorBody(error: string) | DataBody(data: seq<Row>)

  datatype Response = Response(status: int, body: ResponseBody)

  /** The response, together with the query the executor was called with, if it was called. */
  datatype Handled = Handled(executed: Option<string>, response: Response)

  const InvalidQueryError := "Invalid query"
  const ForbiddenError := "Only SELECT queries are allowed"
  const ExecutionFallback := "Error executing query"
  const InternalFallback := "Internal server error"

  /** The TypeError that destructuring `{ query }` from `null` throws (V8's wording). */
  const NullBodyError := "Cannot destructure property 'query' of 'body' as it is null."

  /** `message || fallback` for a string message. */
  function OrElse(message: string, fallback: string): (r: string)
    ensures r == message || r == fallback
    ensures r != ""  <== fallback != ""
    ensures message != "" ==> r == message
  {
    if message != "" then message else fallback
  }

  /** `const { query } = body` for a body other than null: the member "query"
      of an object, and undefined (None) for anything else. */
  function QueryMember(v: Json): (r: Option<Json>)
    ensures r.Some? <==> v.JObject? && "query" in v.members
    ensures r.Some? ==> r.value == v.members["query"]
  {
    if v.JObject? && "query" in v.members then Some(v.members["query"]) else None
  }

  /** The body is an object whose member "query" is the non-empty string q,
      the one shape that passes `!query || typeof query !== 'string'`. */
  ghost predicate SubmitsQuery(body: RequestBody, q: string) {
    body.Parsed? && body.value.JObject? && "query" in body.value.members
    && body.value.members["query"] == JString(q) && q != ""
  }

  /** The handler `POST`, with the awaited `executeRawQuery` as the parameter `execute`. */
  function Post(body: RequestBody, execute: string -> ExecOutcome): (h: Handled)
    // No other status exists; in particular no 401, the session check being disabled.
    ensures h.response.status in {200, 400, 403, 500}
    // The executor runs exactly on an admissible query that no pattern rejects, with that query.
    ensures h.executed.Some? <==> exists q :: SubmitsQuery(body, q) && !Rejected(q)
    ensures h.executed.Some? ==> SubmitsQuery(body, h.executed.value) && !Rejected(h.executed.value)
    // 400: a parsed non-null body whose query is missing, empty or not a string.
    ensures h.response.status == 400 <==> body.Parsed? && body.value != JNull && !exists q :: SubmitsQuery(body, q)
    ensures h.response.status == 400 ==> h.response.body == ErrorBody(InvalidQueryError)
    // 403: an admissible query that some pattern rejects.
    ensures h.response.status == 403 <==> exists q :: SubmitsQuery(body, q) && Rejected(q)
    ensures h.response.status == 403 ==> h.response.body == ErrorBody(ForbiddenError)
    // The executor's outcome decides the rest.
    ensures h.executed.Some? && execute(h.executed.value).Rows? ==>
      h.response == Response(200, DataBody(execute(h.executed.value).rows))
    ensures h.executed.Some? && execute(h.executed.value).ExecFailure? ==>
      h.response == Response(500, ErrorBody(OrElse(execute(h.executed.value).message, ExecutionFallback)))
    // A body that does not parse, or parses to null, ends in the catch-all 500.
    ensures body.Unparsable? ==> h == Handled(None, Response(500, ErrorBody(OrElse(body.message, InternalFallback))))
    ensures body == Parsed(JNull) ==> h == Handled(None, Response(500, ErrorBody(NullBodyError)))
    ensures h.response.status == 200 ==> h.response.body.DataBody?
    ensures h.response.status != 200 ==> h.response.body.ErrorBody? && h.response.body.error != ""
  {
    match body
    case Unparsable(message) =>
      Handled(None, Response(500, ErrorBody(OrElse(message, InternalFallback))))
    case Parsed(v) =>
      if v.JNull? then
        Handled(None, Response(500, ErrorBody(NullBodyError)))
      else
        var query := QueryMember(v);
        if !(query.Some? && query.value.JString? && query.value.str != "") then
          Handled(None, Response(400, ErrorBody(InvalidQueryError)))
        else
          var q := query.value.str;
          assert SubmitsQuery(body, q);
          IsReadOnlyCorrect(q);
          if !IsReadOnly(q) then
            Handled(None, Response(403, ErrorBody(ForbiddenError)))
          else
            match execute(q)
            case ExecFailure(message) =>
              Handled(Some(q), Response(500, ErrorBody(OrElse(message, ExecutionFallback))))
            case Rows(rows) =>
              Handled(Some(q), Response(200, DataBody(rows)))
  }

  /** Whether the executor is consulted depends on the body alone: when it is
      not called, any other executor yields the same response. */
  lemma ExecutorOnlyWhenAdmitted(body: RequestBody, execute: string -> ExecOutcome, other: string -> ExecOutcome)
    ensures Post(body, execute).executed == Post(body, other).executed
    ensures Post(body, execute).executed.None? ==> Post(body, execute) == Post(body, other)
  {
  }

  /** Whatever the executor does, the filter's rejection of "DROP TABLE users"
      answers 403 and never reaches it. */
  lemma DropTableAnswers403(execute: string -> ExecOutcome)
    ensures Post(Parsed(JObject(map["query" := JString("DROP TABLE users")])), execute)
      == Handled(None, Response(403, ErrorBody(ForbiddenError)))
  {
    var w := "DROP TABLE";
    assert SpanMatches(Phrase("DROP", "TABLE"), w, 0, 10);
    assert MatchesSomewhere(ForbiddenCommands[0], w);
    RejectedWhateverSurrounds("", w, " users");
    assert "" + w + " users" == "DROP TABLE users";
  }

  /** A number in place of the query string answers 400 and never reaches the executor. */
  lemma NumberQueryAnswers400(execute: string -> ExecOutcome)
    ensures Post(Parsed(JObject(map["query" := JNumber(42.0)])), execute)
      == Handled(None, Response(400, ErrorBody(InvalidQueryError)))
  {
  }

  /** The keyword a pattern starts with. */
  function Head(p: Pattern): string {
    match p
    case Keyword(w) => w
    case Phrase(a, _) => a
    case Spread(a, _) => a
  }

  /** A query in which no character folds to the initial of a forbidden
      keyword (D, U, A, T or I) is admitted, whether it is SQL or not. */
  lemma NoForbiddenInitialAdmitted(s: string)
    requires forall k :: 0 <= k < |s| ==> FoldAscii(s[k]) !in {'D', 'U', 'A', 'T', 'I'}
    ensures !Rejected(s)
  {
    forall p | p in ForbiddenCommands ensures !MatchesSomewhere(p, s) {
      var h := Head(p);
      assert |h| > 0 && FoldAscii(h[0]) in {'D', 'U', 'A', 'T', 'I'};
      forall i, e ensures !SpanMatches(p, s, i, e) {
        FirstLetter(s, i, h);
      }
    }
  }

  /** Text that is not SQL at all reaches the executor unchanged: the filter
      only looks for the forbidden keywords. */
  lemma NonSqlReachesExecutor(execute: string -> ExecOutcome)
    ensures Post(Parsed(JObject(map["query" := JString("hello")])), execute).executed == Some("hello")
  {
    var q := "hello";
    forall k | 0 <= k < |q| ensures FoldAscii(q[k]) !in {'D', 'U', 'A', 'T', 'I'} {
    }
    NoForbiddenInitialAdmitted(q);
    assert SubmitsQuery(Parsed(JObject(map["query" := JString(q)])), q);
  }
}
