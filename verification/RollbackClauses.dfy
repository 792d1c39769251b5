/** OR ROLLBACK as SQLite reads it, and what neutralizing leaves of it
    (src/sqlite_conflict_resolution.py:124-138). */
module RollbackClauses {
  import opened Columns
  import opened SqlScanner
  import opened ConflictResolution

  const ROLLBACK_ONLY := ["ROLLBACK"]

  /** `neutralize_rollback_conflict_resolution`. */
  function NeutralizeRollback(sql: string): string {
    RemoveOr(RemoveOr(sql, InsertVerb, ROLLBACK_ONLY).0, UpdateVerb, ROLLBACK_ONLY).0
  }

  // ----- the clause in SQLite's tokens -----

  /** SQLite's names also take `$` and everything beyond ASCII. */
  predicate NameChar(c: char) { IsIdentifier(c) || c == '$' || c as int >= 128 }

  predicate CommentOpens(s: string, i: nat)
    requires i < |s|
  {
    (s[i] == '-' && Next(s, i) == Some('-')) || (s[i] == '/' && Next(s, i) == Some('*'))
  }

  /** A character between two tokens: a space, or part of a comment. */
  predicate GapAt(s: string, i: nat)
    requires i < |s|
  {
    var state := StateAt(s, i);
    state.mode.LineComment? || state.mode.BlockComment? || (state.mode.Code? && (state.skip || IsSpace(s[i]) || CommentOpens(s, i)))
  }

  predicate Gap(s: string, i: nat, j: nat)
    requires j <= |s|
  {
    forall k :: i <= k < j ==> GapAt(s, k)
  }

  /** The tokens OR, at `v`, and ROLLBACK, at `o`, after a gap from `from`. */
  predicate Tokens(s: string, from: nat, v: nat, o: nat) {
    && from <= v && v + 2 < o && o + 8 < |s|
    && Gap(s, from, v) && StateAt(s, v) == START && WordAt(s, v, "OR")
    && Gap(s, v + 2, o) && StateAt(s, o) == START && WordAt(s, o, "ROLLBACK") && !NameChar(s[o + 8])
  }

  ghost predicate Clause(s: string, verb: Verb) {
    WordAt(s, 0, Keyword(verb)) && exists v: nat, o: nat :: 6 < v && Tokens(s, 6, v, o)
  }

  /** A statement verb outside parentheses, quotes and comments that carries OR ROLLBACK. */
  ghost predicate ClauseAt(sql: string, k: nat, verb: Verb) {
    k < |sql| && TopLevel(sql, k) && Clause(sql[k..], verb)
  }

  /** Only spaces between its words, and a space behind it. */
  predicate Spaced(s: string, v: nat, o: nat)
    requires v <= o && o + 8 < |s|
  {
    && (forall k :: 6 <= k < v ==> IsSpace(s[k])) && (forall k :: v + 2 <= k < o ==> IsSpace(s[k])) && IsSpace(s[o + 8])
  }

  ghost predicate SpacedClause(s: string, verb: Verb) {
    WordAt(s, 0, Keyword(verb)) && exists v: nat, o: nat :: 6 < v && Tokens(s, 6, v, o) && Spaced(s, v, o)
  }

  /** A second OR ROLLBACK follows the first. */
  ghost predicate Repeated(s: string) {
    exists v: nat, o: nat :: 6 < v && Tokens(s, 6, v, o) && TokensFrom(s, o + 8)
  }

  ghost predicate TokensFrom(s: string, from: nat) {
    exists v: nat, o: nat :: Tokens(s, from, v, o)
  }

  /** Spelled with spaces alone, not repeated, and the only clause of its verb. */
  ghost predicate Removable(sql: string, k: nat, verb: Verb) {
    k <= |sql| && SpacedClause(sql[k..], verb) && !Repeated(sql[k..]) && forall k': nat :: ClauseAt(sql, k', verb) ==> k' == k
  }

  // ----- tokens and the automaton -----

  lemma LetterIsNoGap(s: string, i: nat, word: string)
    requires word != "" && 'A' <= word[0] <= 'Z' && WordAt(s, i, word) && StateAt(s, i) == START
    ensures i < |s| && !GapAt(s, i)
  {
    FirstLetter(s, i, word);
  }

  lemma TokensUnique(s: string, from: nat, v: nat, o: nat, v': nat, o': nat)
    requires Tokens(s, from, v, o) && Tokens(s, from, v', o')
    ensures v == v' && o == o'
  {
    hide GapAt, StateAt, WordAt;
    LetterIsNoGap(s, v, "OR");
    LetterIsNoGap(s, v', "OR");
    LetterIsNoGap(s, o, "ROLLBACK");
    LetterIsNoGap(s, o', "ROLLBACK");
  }

  /** No statement verb begins in a gap or at one of the two tokens. */
  lemma NoVerbInTokens(s: string, from: nat, v: nat, o: nat, d: nat)
    requires Tokens(s, from, v, o) && from <= d <= o + 8 && 0 < d
    requires StateAt(s, d) == START && !IsIdentifier(s[d - 1])
    ensures Upper(s[d]) != 'I' && Upper(s[d]) != 'U'
  {
    hide StateAt, WordAt;
    FirstLetter(s, v, "OR");
    FirstLetter(s, o, "ROLLBACK");
    if d < v || v + 2 <= d < o { assert GapAt(s, d); }
    if d == v + 1 { WordLetter(s, v, "OR", 0); }
    if o < d < o + 8 { WordLetter(s, o, "ROLLBACK", d - 1 - o); }
  }

  lemma NoVerbInVerb(s: string, verb: Verb, d: nat)
    requires WordAt(s, 0, Keyword(verb)) && 0 < d < 6
    ensures IsIdentifier(s[d - 1])
  {
    assert Upper(s[0 + (d - 1)]) == Keyword(verb)[d - 1];
  }

  lemma GapPrefix(s: string, u: string, m: nat, i: nat)
    requires m <= |s| && m <= |u| && s[..m] == u[..m] && i + 1 < m
    ensures GapAt(s, i) == GapAt(u, i) && StateAt(s, i) == StateAt(u, i)
  {
    hide StateAt;
    SamePoint(s, u, m, i);
    SamePoint(s, u, m, i + 1);
    assert s[..i] == s[..m][..i] && u[..i] == u[..m][..i];
    if i > 0 { SamePoint(s, u, m, i - 1); }
    PrefixLocality(s, u, i);
  }

  lemma TokensPrefix(s: string, u: string, from: nat, v: nat, o: nat)
    requires Tokens(s, from, v, o) && o + 9 <= |u| && s[..o + 9] == u[..o + 9]
    ensures Tokens(u, from, v, o) && (Spaced(s, v, o) <==> Spaced(u, v, o))
  {
    hide StateAt, GapAt, WordAt;
    var m := o + 9;
    forall i: nat | i + 1 < m { GapPrefix(s, u, m, i); }
    forall i: nat | i < m { SamePoint(s, u, m, i); }
    WordShift(s, u, m, v, "OR");
    WordShift(s, u, m, o, "ROLLBACK");
  }

  /** Position `i` of `a` and `j` of `b` are the same place in the tail both share. */
  predicate SamePlace(a: string, x: nat, b: string, y: nat, i: nat, j: nat) {
    x <= |a| && y <= |b| && a[x..] == b[y..] && StateAt(a, x) == StateAt(b, y) && x <= i && y <= j && i - x == j - y
  }

  lemma GapSuffix(a: string, x: nat, b: string, y: nat, i: nat, j: nat)
    requires SamePlace(a, x, b, y, i, j) && i < |a|
    ensures j < |b| && a[i] == b[j] && StateAt(a, i) == StateAt(b, j) && GapAt(a, i) == GapAt(b, j)
  {
    hide StateAt;
    var k := i - x;
    assert |a[x..]| == |b[y..]|;
    SuffixLocality(a, x, b, y, k);
    assert a[x + k] == a[x..][k] && b[y + k] == b[y..][k];
    if i + 1 < |a| { assert a[i + 1] == a[x..][k + 1] && b[j + 1] == b[y..][k + 1]; }
  }

  lemma WordSuffix(a: string, x: nat, b: string, y: nat, i: nat, j: nat, word: string)
    requires SamePlace(a, x, b, y, i, j)
    ensures WordAt(a, i, word) == WordAt(b, j, word)
  {
    hide StateAt;
    assert |a[x..]| == |b[y..]|;
    if i + |word| <= |a| {
      forall k | 0 <= k < |word| ensures Upper(a[i + k]) == word[k] <==> Upper(b[j + k]) == word[k] {
        assert a[i + k] == a[x..][i - x + k] && b[j + k] == b[y..][j - y + k];
      }
    }
  }

  lemma GapRunSuffix(a: string, x: nat, b: string, y: nat, i: nat, i': nat, j: nat, j': nat)
    requires SamePlace(a, x, b, y, i, i') && SamePlace(a, x, b, y, j, j') && j <= |a| && Gap(a, i, j)
    ensures j' <= |b| && Gap(b, i', j')
  {
    hide StateAt, GapAt;
    assert |a[x..]| == |b[y..]|;
    forall k' | i' <= k' < j' ensures GapAt(b, k') {
      var k := k' - y + x;
      GapSuffix(a, x, b, y, k, k');
      assert GapAt(a, k);
    }
  }

  lemma TokensSuffix(a: string, x: nat, b: string, y: nat, from: nat, v: nat, o: nat, from': nat, v': nat, o': nat)
    requires SamePlace(a, x, b, y, from, from') && SamePlace(a, x, b, y, v, v') && SamePlace(a, x, b, y, o, o')
    requires Tokens(a, from, v, o)
    ensures Tokens(b, from', v', o')
  {
    hide StateAt, GapAt, WordAt, Gap;
    GapRunSuffix(a, x, b, y, from, from', v, v');
    GapRunSuffix(a, x, b, y, v + 2, v' + 2, o, o');
    GapSuffix(a, x, b, y, v, v');
    GapSuffix(a, x, b, y, o, o');
    GapSuffix(a, x, b, y, o + 8, o' + 8);
    WordSuffix(a, x, b, y, v, v', "OR");
    WordSuffix(a, x, b, y, o, o', "ROLLBACK");
  }

  lemma TailState(sql: string, k: nat, j: nat)
    requires k <= |sql| && StateAt(sql, k) == START && k + j <= |sql|
    ensures StateAt(sql[k..], j) == StateAt(sql, k + j)
  {
    assert sql[k..][0..] == sql[k..];
    SuffixLocality(sql, k, sql[k..], 0, j);
  }

  // ----- the code's pattern is the clause with spaces alone -----

  lemma SpacesAreGap(s: string, i: nat, j: nat)
    requires i <= j <= |s| && StateAt(s, i) == START && forall k :: i <= k < j ==> IsSpace(s[k])
    ensures Gap(s, i, j) && StateAt(s, j) == START
  {
    hide StateAt;
    PlainKeepsState(s, i, j);
    forall k | i <= k < j ensures GapAt(s, k) { PlainKeepsState(s, i, k); }
  }

  lemma WordKeepsState(s: string, i: nat, word: string)
    requires WordAt(s, i, word) && Letters(word) && StateAt(s, i) == START
    ensures StateAt(s, i + |word|) == START
  {
    hide StateAt;
    forall k | i <= k < i + |word| ensures Plain(s[k]) { WordLetter(s, i, word, k - i); }
    PlainKeepsState(s, i, i + |word|);
  }

  /** The words of a text that matches the pattern. */
  lemma PatternTokens(s: string, verb: Verb) returns (v: nat, o: nat)
    requires HasClause(verb, ROLLBACK_ONLY)(s)
    ensures WordAt(s, 0, Keyword(verb)) && 6 < v && Tokens(s, 6, v, o) && Spaced(s, v, o)
    ensures OrClause(s, verb, ROLLBACK_ONLY) == Some(ConflictResolution.Clause("ROLLBACK", SkipSpaces(s, o + 8)))
  {
    hide StateAt;
    v := WordThenSpaces(s, 0, Keyword(verb)).value;
    o := WordThenSpaces(s, v, "OR").value;
    var clause := AlgorithmAt(s, o, ROLLBACK_ONLY).value;
    assert clause.algorithm == "ROLLBACK";
    assert StateAt(s, 0) == START by { StartState(s); }
    WordKeepsState(s, 0, Keyword(verb));
    SpacesAreGap(s, 6, v);
    WordKeepsState(s, v, "OR");
    SpacesAreGap(s, v + 2, o);
    SpaceIsNoIdentifier(s[o + 8]);
  }

  lemma StartState(s: string)
    ensures StateAt(s, 0) == START
  {
  }

  lemma SpacedIsPattern(s: string, verb: Verb)
    ensures SpacedClause(s, verb) <==> HasClause(verb, ROLLBACK_ONLY)(s)
  {
    hide StateAt, GapAt, OrClause, WordAt, Gap, Spaced;
    if HasClause(verb, ROLLBACK_ONLY)(s) {
      var v, o := PatternTokens(s, verb);
    }
    if SpacedClause(s, verb) {
      var v: nat, o: nat :| 6 < v && Tokens(s, 6, v, o) && Spaced(s, v, o);
      SpacedMatches(s, verb, v, o);
    }
  }

  lemma SpacedMatches(s: string, verb: Verb, v: nat, o: nat)
    requires WordAt(s, 0, Keyword(verb)) && 6 < v && v + 2 < o && o + 8 < |s| && WordAt(s, v, "OR") && WordAt(s, o, "ROLLBACK") && Spaced(s, v, o)
    ensures HasClause(verb, ROLLBACK_ONLY)(s)
  {
    FirstLetter(s, v, "OR");
    FirstLetter(s, o, "ROLLBACK");
    SkipIs(s, 6, v);
    SkipIs(s, v + 2, o);
    assert WordThenSpaces(s, o, "ROLLBACK").Some?;
  }

  // ----- removing one clause -----

  /** `n` is `sql` without the pattern found at `i`. */
  ghost predicate Removed(sql: string, i: nat, verb: Verb, end: nat, n: string) {
    && i < |sql| && TopLevel(sql, i) && OrClause(sql[i..], verb, ROLLBACK_ONLY) == Some(ConflictResolution.Clause("ROLLBACK", end))
    && n == WithoutClause(sql, i, end)
  }

  /** Before `i + 6` both texts are alike, and at `i` both have a statement verb. */
  ghost predicate AlikeBefore(a: string, b: string, i: nat) {
    && i + 6 <= |a| && i + 6 <= |b| && a[..i + 6] == b[..i + 6] && TopLevel(a, i) && TopLevel(b, i)
    && (Upper(a[i]) == 'I' || Upper(a[i]) == 'U')
  }

  ghost predicate AlikeAfter(sql: string, i: nat, end: nat, n: string) {
    && 7 <= end && i + end <= |sql| && i + 7 <= |n| && n[i + 7..] == sql[i + end..]
    && StateAt(n, i + 7) == START && StateAt(sql, i + end) == START
  }

  lemma RollbackLetters()
    ensures forall a :: a in ROLLBACK_ONLY ==> Letters(a)
  {
  }

  lemma RemovedFacts(sql: string, i: nat, verb: Verb, end: nat, n: string)
    requires Removed(sql, i, verb, end, n)
    ensures AlikeBefore(sql, n, i) && AlikeBefore(n, sql, i) && AlikeAfter(sql, i, end, n)
    ensures WordThenSpaces(n[i..], 0, Keyword(verb)) == Some(7)
  {
    hide StateAt, OrClause, WithoutClause, Plain, WordThenSpaces, WordStart;
    RollbackLetters();
    ClauseIsPlain(sql[i..], verb, ROLLBACK_ONLY);
    WithoutClauseParts(sql, i, verb, ROLLBACK_ONLY);
    RemovalKeepsEarlier(sql, n, i, verb, i);
    PlainTail(sql, i, end);
    VerbIsPlain(n[i..], verb);
    PlainTail(n, i, 7);
    VerbLetter(n[i..], verb);
    SamePoint(n, sql, i + 6, i);
  }

  /** Tokens that begin before `i` also end before it. */
  lemma EarlierTokens(a: string, b: string, i: nat, k: nat, from: nat, v: nat, o: nat)
    requires AlikeBefore(a, b, i) && k < i && StateAt(a, k) == START && from <= i - k && Tokens(a[k..], from, v, o)
    ensures o + 9 <= i - k && Tokens(b[k..], from, v, o) && (Spaced(a[k..], v, o) <==> Spaced(b[k..], v, o))
  {
    hide StateAt, Tokens, Spaced;
    var s := a[k..];
    TailState(a, k, i - k);
    Boundary(a, i);
    TokensInside(s, from, v, o);
    if i - k <= o + 8 {
      NoVerbInTokens(s, from, v, o, i - k);
    } else {
      SameWindow(a, b, i + 6, k, o + 9);
      TokensPrefix(s, b[k..], from, v, o);
    }
  }

  lemma TokensInside(s: string, from: nat, v: nat, o: nat)
    requires Tokens(s, from, v, o)
    ensures v <= o && o + 8 < |s|
  {
  }

  /** What holds of a clause before `i` holds in the other text. */
  lemma EarlierClause(a: string, b: string, i: nat, k: nat, verb: Verb)
    requires AlikeBefore(a, b, i) && k < i && TopLevel(a, k) && Clause(a[k..], verb)
    ensures TopLevel(b, k) && Clause(b[k..], verb)
    ensures SpacedClause(a[k..], verb) ==> SpacedClause(b[k..], verb)
    ensures Repeated(a[k..]) ==> Repeated(b[k..])
  {
    hide StateAt, GapAt, Gap, Spaced, WordAt, WordStart;
    var s := a[k..];
    PrefixWords(a, b, i + 6, k);
    VerbBefore(a, b, i, k, verb);
    var v: nat, o: nat :| 6 < v && Tokens(s, 6, v, o);
    EarlierTokens(a, b, i, k, 6, v, o);
    if SpacedClause(s, verb) {
      var v1: nat, o1: nat :| 6 < v1 && Tokens(s, 6, v1, o1) && Spaced(s, v1, o1);
      TokensUnique(s, 6, v, o, v1, o1);
    }
    if Repeated(s) {
      var v1: nat, o1: nat :| 6 < v1 && Tokens(s, 6, v1, o1) && TokensFrom(s, o1 + 8);
      TokensUnique(s, 6, v, o, v1, o1);
      var v2: nat, o2: nat :| Tokens(s, o1 + 8, v2, o2);
      EarlierTokens(a, b, i, k, o + 8, v2, o2);
      assert TokensFrom(b[k..], o + 8);
    }
  }

  lemma VerbBefore(a: string, b: string, i: nat, k: nat, verb: Verb)
    requires AlikeBefore(a, b, i) && k < i && WordAt(a[k..], 0, Keyword(verb))
    ensures 6 <= i - k && WordAt(b[k..], 0, Keyword(verb))
  {
    hide StateAt;
    Boundary(a, i);
    if i - k < 6 { NoVerbInVerb(a[k..], verb, i - k); }
    assert a[k..][..6] == a[..i + 6][k..][..6] && b[k..][..6] == b[..i + 6][k..][..6];
    WordAtPrefix(a[k..], b[k..], Keyword(verb));
  }

  /** The text from the removed place on: the verb, one space, and what stood behind the pattern. */
  ghost predicate CutTail(s: string, end: nat, u: string, v: nat, o: nat) {
    && Tokens(s, 6, v, o) && 6 < v && o + 8 < end <= |s| && (forall k :: o + 8 <= k < end ==> IsSpace(s[k])) && StateAt(s, o + 8) == START
    && 7 <= |u| && IsSpace(u[6]) && StateAt(u, 6) == START
    && StateAt(s, end) == START && StateAt(u, 7) == START && u[7..] == s[end..]
  }

  lemma CutTailHolds(sql: string, i: nat, verb: Verb, end: nat, n: string) returns (v: nat, o: nat)
    requires Removed(sql, i, verb, end, n)
    ensures CutTail(sql[i..], end, n[i..], v, o) && WordAt(n[i..], 0, Keyword(verb))
  {
    hide StateAt, GapAt, Gap, WordAt, OrClause, TopLevel, WithoutClause, WordThenSpaces;
    RemovedFacts(sql, i, verb, end, n);
    var s, u := sql[i..], n[i..];
    v, o := PatternTokens(s, verb);
    VerbStays(u, verb);
    TailStates(sql, i, end, n);
    AllKeywordLetters(verb);
    StartState(u);
    WordKeepsState(u, 0, Keyword(verb));
    WordKeepsState(s, o, "ROLLBACK");
  }

  lemma LeftIsRepeated(s: string, end: nat, u: string, v: nat, o: nat, v': nat, o': nat)
    requires CutTail(s, end, u, v, o) && 6 < v' && Tokens(u, 6, v', o')
    ensures Repeated(s)
  {
    hide StateAt, GapAt, Gap, WordAt;
    AfterSpace(u, 6, 7, v', o');
    TokensSuffix(u, 7, s, end, 7, v', o', end, v' - 7 + end, o' - 7 + end);
    BeforeSpaces(s, o + 8, end, v' - 7 + end, o' - 7 + end);
    assert TokensFrom(s, o + 8);
  }

  lemma RepeatedIsLeft(s: string, end: nat, u: string, v: nat, o: nat)
    requires CutTail(s, end, u, v, o) && Repeated(s)
    ensures exists v': nat, o': nat :: 6 < v' && Tokens(u, 6, v', o')
  {
    hide StateAt, GapAt, Gap, WordAt;
    var v1: nat, o1: nat :| 6 < v1 && Tokens(s, 6, v1, o1) && TokensFrom(s, o1 + 8);
    TokensUnique(s, 6, v, o, v1, o1);
    var v2: nat, o2: nat :| Tokens(s, o + 8, v2, o2);
    AfterSpace(s, o + 8, end, v2, o2);
    TokensSuffix(s, end, u, 7, end, v2, o2, 7, v2 - end + 7, o2 - end + 7);
    BeforeSpaces(u, 6, 7, v2 - end + 7, o2 - end + 7);
  }

  /** At the removed place a clause is left exactly when it was repeated. */
  lemma RemovedPlace(sql: string, i: nat, verb: Verb, end: nat, n: string, other: Verb)
    requires Removed(sql, i, verb, end, n)
    ensures i <= |n| && (Clause(n[i..], other) <==> other == verb && Repeated(sql[i..]))
  {
    hide Tokens, OrClause, TopLevel, WithoutClause, WordAt, TokensFrom, CutTail, Repeated;
    RemovedTop(sql, i, verb, end, n);
    var s, u := sql[i..], n[i..];
    var v, o := CutTailHolds(sql, i, verb, end, n);
    if Clause(u, other) {
      SameVerb(u, verb, other);
      var v': nat, o': nat :| 6 < v' && Tokens(u, 6, v', o');
      LeftIsRepeated(s, end, u, v, o, v', o');
    }
    if Repeated(s) { RepeatedIsLeft(s, end, u, v, o); }
  }

  /** Spaces in front of a gap may be left out, or added. */
  lemma AfterSpace(s: string, i: nat, j: nat, v: nat, o: nat)
    requires Tokens(s, i, v, o) && i <= j <= |s| && forall k :: i <= k < j ==> IsSpace(s[k])
    ensures j <= v && Tokens(s, j, v, o)
  {
    hide StateAt, GapAt, WordAt;
    FirstLetter(s, v, "OR");
  }

  lemma BeforeSpaces(s: string, i: nat, j: nat, v: nat, o: nat)
    requires Tokens(s, j, v, o) && i <= j <= |s| && StateAt(s, i) == START && forall k :: i <= k < j ==> IsSpace(s[k])
    ensures Tokens(s, i, v, o)
  {
    hide StateAt, GapAt, WordAt;
    SpacesAreGap(s, i, j);
  }

  lemma VerbStays(s: string, verb: Verb)
    requires WordThenSpaces(s, 0, Keyword(verb)) == Some(7)
    ensures WordAt(s, 0, Keyword(verb)) && 7 <= |s| && IsSpace(s[6])
  {
  }

  lemma SameVerb(s: string, verb: Verb, other: Verb)
    requires WordAt(s, 0, Keyword(verb)) && WordAt(s, 0, Keyword(other))
    ensures other == verb
  {
    FirstLetter(s, 0, Keyword(verb));
    FirstLetter(s, 0, Keyword(other));
  }

  /** The states at the end of the pattern and of the bare verb, seen from the verb. */
  lemma TailStates(sql: string, i: nat, end: nat, n: string)
    requires AlikeAfter(sql, i, end, n) && TopLevel(sql, i) && TopLevel(n, i)
    ensures StateAt(sql[i..], end) == START && StateAt(n[i..], 7) == START && n[i..][7..] == sql[i..][end..]
  {
    hide StateAt, WordStart;
    TailState(sql, i, end);
    TailState(n, i, 7);
    assert n[i..][7..] == n[i + 7..] && sql[i..][end..] == sql[i + end..];
  }

  lemma AllKeywordLetters(verb: Verb)
    ensures Letters(Keyword(verb)) && Letters("ROLLBACK") && Letters("OR")
  {
  }

  /** Position `k` of the rewritten text and `p` of the original one. */
  predicate Place(i: nat, end: nat, k: nat, p: nat) {
    if k < i then p == k else k >= i + 7 && p == k - 7 + end
  }

  /** Away from the removed place every clause stays what it was. */
  lemma ClausesMove(sql: string, i: nat, verb: Verb, end: nat, n: string, other: Verb, k: nat, p: nat)
    requires Removed(sql, i, verb, end, n) && Place(i, end, k, p)
    ensures ClauseAt(n, k, other) <==> ClauseAt(sql, p, other)
    ensures ClauseAt(n, k, other) ==>
      (SpacedClause(n[k..], other) <==> SpacedClause(sql[p..], other)) && (Repeated(n[k..]) <==> Repeated(sql[p..]))
  {
    hide TopLevel, Clause, SpacedClause, Repeated, OrClause, StateAt;
    RemovedFacts(sql, i, verb, end, n);
    if k < i {
      if ClauseAt(n, k, other) { EarlierClause(n, sql, i, k, other); }
      if ClauseAt(sql, p, other) { EarlierClause(sql, n, i, k, other); }
    } else {
      RollbackLetters();
      RemovalShifts(sql, i, verb, ROLLBACK_ONLY, k - i - 7);
      assert |n[i + 7..]| == |sql[i + end..]|;
      if k < |n| { assert n[k..] == n[i + 7..][k - i - 7..] && sql[p..] == sql[i + end..][k - i - 7..]; }
    }
  }

  /** No clause begins inside the removed pattern, or inside the bare verb left in its place. */
  lemma NothingInside(sql: string, i: nat, verb: Verb, end: nat, n: string, other: Verb, p: nat)
    requires Removed(sql, i, verb, end, n)
    ensures i < p < i + end ==> !ClauseAt(sql, p, other)
    ensures i < p < i + 7 ==> !ClauseAt(n, p, other)
  {
    hide StateAt, GapAt, OrClause, Spaced, TokensFrom;
    RollbackLetters();
    if i < p < i + 7 { RemovalShifts(sql, i, verb, ROLLBACK_ONLY, p); }
    if i < p < i + end && ClauseAt(sql, p, other) {
      assert sql[p] == sql[i..][p - i] == sql[p..][0] && sql[p - 1] == sql[i..][p - i - 1];
      FirstLetter(sql[p..], 0, Keyword(other));
      Boundary(sql, p);
      TailState(sql, i, p - i);
      VerbNotInPattern(sql[i..], verb, end, p - i);
    }
  }

  lemma VerbNotInPattern(s: string, verb: Verb, end: nat, d: nat)
    requires OrClause(s, verb, ROLLBACK_ONLY) == Some(ConflictResolution.Clause("ROLLBACK", end)) && 0 < d < end && d < |s|
    ensures StateAt(s, d) == START && !IsIdentifier(s[d - 1]) ==> Upper(s[d]) != 'I' && Upper(s[d]) != 'U'
  {
    hide StateAt, GapAt, OrClause, Tokens, WordAt;
    var v, o := PatternTokens(s, verb);
    if d < 6 { NoVerbInVerb(s, verb, d); }
    if StateAt(s, d) == START && !IsIdentifier(s[d - 1]) && 6 <= d <= o + 8 { NoVerbInTokens(s, 6, v, o, d); }
  }

  ghost predicate NoClause(sql: string, verb: Verb) { forall k: nat :: !ClauseAt(sql, k, verb) }

  ghost predicate AllRemovable(sql: string, verb: Verb) {
    forall k: nat :: ClauseAt(sql, k, verb) ==> Removable(sql, k, verb)
  }

  lemma RemovedForm(sql: string, verb: Verb)
    ensures var found := FirstWord(sql, HasClause(verb, ROLLBACK_ONLY), 0);
      if found.Some? then found.value < |sql| && exists end :: Removed(sql, found.value, verb, end, RemoveOr(sql, verb, ROLLBACK_ONLY).0)
      else RemoveOr(sql, verb, ROLLBACK_ONLY).0 == sql
  {
    hide TopLevel, OrClause, FirstWord;
    var found := FirstWord(sql, HasClause(verb, ROLLBACK_ONLY), 0);
    if found.Some? {
      var s := sql[found.value..];
      var v, o := PatternTokens(s, verb);
      assert Removed(sql, found.value, verb, OrClause(s, verb, ROLLBACK_ONLY).value.end, RemoveOr(sql, verb, ROLLBACK_ONLY).0);
    }
  }

  /** Removing the clause of one verb leaves none for it exactly when all of them were removable. */
  lemma RemoveSame(sql: string, verb: Verb)
    ensures NoClause(RemoveOr(sql, verb, ROLLBACK_ONLY).0, verb) <==> AllRemovable(sql, verb)
  {
    hide TopLevel, OrClause, FirstWord, Clause, SpacedClause, Repeated, RemoveOr, Removed;
    RemovedForm(sql, verb);
    var found, n := FirstWord(sql, HasClause(verb, ROLLBACK_ONLY), 0), RemoveOr(sql, verb, ROLLBACK_ONLY).0;
    if found.None? {
      forall k: nat | ClauseAt(sql, k, verb) ensures !Removable(sql, k, verb) { SpacedIsPattern(sql[k..], verb); }
    } else {
      var i := found.value;
      var end :| Removed(sql, i, verb, end, n);
      SpacedIsPattern(sql[i..], verb);
      SpacedIsClause(sql[i..], verb);
      RemovedPlace(sql, i, verb, end, n, verb);
      RemovedTop(sql, i, verb, end, n);
      assert ClauseAt(sql, i, verb);
      assert AllRemovable(sql, verb) ==> Removable(sql, i, verb);
      if AllRemovable(sql, verb) {
        forall k: nat ensures !ClauseAt(n, k, verb) {
          NothingInside(sql, i, verb, end, n, verb, k);
          if k < i || k >= i + 7 {
            var p := if k < i then k else k - 7 + end;
            ClausesMove(sql, i, verb, end, n, verb, k, p);
          }
        }
      }
      if NoClause(n, verb) {
        forall p: nat | ClauseAt(sql, p, verb) ensures p == i {
          NothingInside(sql, i, verb, end, n, verb, p);
          if p != i {
            var k := if p < i then p else p - end + 7;
            ClausesMove(sql, i, verb, end, n, verb, k, p);
          }
        }
        assert !ClauseAt(n, i, verb);
        assert Removable(sql, i, verb);
      }
    }
  }

  lemma SpacedIsClause(s: string, verb: Verb)
    ensures SpacedClause(s, verb) ==> Clause(s, verb)
  {
    hide Tokens, Spaced;
  }

  lemma RemovedTop(sql: string, i: nat, verb: Verb, end: nat, n: string)
    requires Removed(sql, i, verb, end, n)
    ensures 7 <= end && i < |sql| && TopLevel(sql, i) && i < |n| && TopLevel(n, i)
  {
    RemovedFacts(sql, i, verb, end, n);
  }

  /** The other verb's clauses are as removable as before. */
  lemma RemoveOther(sql: string, verb: Verb, other: Verb)
    requires other != verb
    ensures NoClause(RemoveOr(sql, verb, ROLLBACK_ONLY).0, other) <==> NoClause(sql, other)
    ensures AllRemovable(RemoveOr(sql, verb, ROLLBACK_ONLY).0, other) <==> AllRemovable(sql, other)
  {
    hide FirstWord, RemoveOr, Removed, Removable, ClauseAt;
    RemovedForm(sql, verb);
    var found, n := FirstWord(sql, HasClause(verb, ROLLBACK_ONLY), 0), RemoveOr(sql, verb, ROLLBACK_ONLY).0;
    if found.Some? {
      var i := found.value;
      var end :| Removed(sql, i, verb, end, n);
      forall k: nat | ClauseAt(n, k, other) ensures ClauseAt(sql, Origin(i, end, k), other) { OtherBack(sql, i, verb, end, n, other, k); }
      forall p: nat | ClauseAt(sql, p, other) ensures exists k: nat :: ClauseAt(n, k, other) && Origin(i, end, k) == p {
        OtherForth(sql, i, verb, end, n, other, p);
      }
      forall k: nat | ClauseAt(n, k, other) ensures Removable(n, k, other) <==> Removable(sql, Origin(i, end, k), other) {
        OtherRemovable(sql, i, verb, end, n, other, k);
      }
    }
  }

  function Origin(i: nat, end: nat, k: nat): nat {
    if k < i + 7 then k else k - 7 + end
  }

  lemma OtherBack(sql: string, i: nat, verb: Verb, end: nat, n: string, other: Verb, k: nat)
    requires Removed(sql, i, verb, end, n) && other != verb && ClauseAt(n, k, other)
    ensures ClauseAt(sql, Origin(i, end, k), other) && Place(i, end, k, Origin(i, end, k))
    ensures SpacedClause(n[k..], other) <==> SpacedClause(sql[Origin(i, end, k)..], other)
    ensures Repeated(n[k..]) <==> Repeated(sql[Origin(i, end, k)..])
  {
    hide Removed, Clause, SpacedClause, Repeated, TopLevel;
    NothingInside(sql, i, verb, end, n, other, k);
    RemovedPlace(sql, i, verb, end, n, other);
    ClausesMove(sql, i, verb, end, n, other, k, Origin(i, end, k));
  }

  lemma OtherForth(sql: string, i: nat, verb: Verb, end: nat, n: string, other: Verb, p: nat)
    requires Removed(sql, i, verb, end, n) && other != verb && ClauseAt(sql, p, other)
    ensures exists k: nat :: ClauseAt(n, k, other) && Origin(i, end, k) == p
  {
    hide Removed, SpacedClause, Repeated, TopLevel;
    NothingInside(sql, i, verb, end, n, other, p);
    VerbThere(sql, i, verb, end, n);
    if p == i { SameVerb(sql[i..], verb, other); }
    RemovedTop(sql, i, verb, end, n);
    var k := if p < i then p else p - end + 7;
    ClausesMove(sql, i, verb, end, n, other, k, p);
    assert Origin(i, end, k) == p;
  }

  lemma VerbThere(sql: string, i: nat, verb: Verb, end: nat, n: string)
    requires Removed(sql, i, verb, end, n)
    ensures WordAt(sql[i..], 0, Keyword(verb))
  {
    hide TopLevel, OrClause, Tokens, WordAt;
    var v, o := PatternTokens(sql[i..], verb);
  }

  lemma OtherRemovable(sql: string, i: nat, verb: Verb, end: nat, n: string, other: Verb, k: nat)
    requires Removed(sql, i, verb, end, n) && other != verb && ClauseAt(n, k, other)
    ensures ClauseAt(sql, Origin(i, end, k), other)
    ensures Removable(n, k, other) <==> Removable(sql, Origin(i, end, k), other)
  {
    hide Removed, SpacedClause, Repeated, TopLevel, Clause;
    OtherBack(sql, i, verb, end, n, other, k);
    var p := Origin(i, end, k);
    if forall k': nat :: ClauseAt(n, k', other) ==> k' == k {
      forall p': nat | ClauseAt(sql, p', other) ensures p' == p {
        OtherForth(sql, i, verb, end, n, other, p');
      }
    }
    if forall p': nat :: ClauseAt(sql, p', other) ==> p' == p {
      forall k': nat | ClauseAt(n, k', other) ensures k' == k {
        OtherBack(sql, i, verb, end, n, other, k');
      }
    }
  }

  /** No OR ROLLBACK for SQLite to obey. */
  ghost predicate NoClauses(sql: string) { NoClause(sql, InsertVerb) && NoClause(sql, UpdateVerb) }

  /** For every text: the neutralized text has no OR ROLLBACK, as SQLite reads it, exactly when each clause
      is spelled with spaces alone and a space behind it, is not repeated, and is the only one of its verb. */
  lemma NeutralizedExactly(sql: string)
    ensures NoClauses(NeutralizeRollback(sql)) <==> AllRemovable(sql, InsertVerb) && AllRemovable(sql, UpdateVerb)
  {
    hide RemoveOr, NoClause, AllRemovable;
    var one := RemoveOr(sql, InsertVerb, ROLLBACK_ONLY).0;
    RemoveSame(sql, InsertVerb);
    RemoveOther(sql, InsertVerb, UpdateVerb);
    RemoveSame(one, UpdateVerb);
    RemoveOther(one, UpdateVerb, InsertVerb);
  }

  // ----- texts the rewrite misses -----

  /** A text whose clause is not spelled with spaces keeps a clause. */
  lemma Missed(sql: string, verb: Verb, v: nat, o: nat)
    requires WordAt(sql, 0, Keyword(verb)) && 6 < v && Tokens(sql, 6, v, o) && !Spaced(sql, v, o)
    ensures ClauseAt(sql, 0, verb) && !NoClauses(NeutralizeRollback(sql))
  {
    hide StateAt, GapAt, Gap, WordAt, NeutralizeRollback;
    assert sql[0..] == sql;
    VerbTop(sql, verb);
    if SpacedClause(sql, verb) {
      var v1: nat, o1: nat :| 6 < v1 && Tokens(sql, 6, v1, o1) && Spaced(sql, v1, o1);
      TokensUnique(sql, 6, v, o, v1, o1);
    }
    assert ClauseAt(sql, 0, verb) && !Removable(sql, 0, verb);
    NeutralizedExactly(sql);
  }

  lemma VerbTop(sql: string, verb: Verb)
    requires WordAt(sql, 0, Keyword(verb))
    ensures sql != "" && TopLevel(sql, 0)
  {
    FirstLetter(sql, 0, Keyword(verb));
  }

  lemma EmptyComment(s: string, i: nat)
    requires i + 4 <= |s| && s[i] == '/' && s[i + 1] == '*' && s[i + 2] == '*' && s[i + 3] == '/' && StateAt(s, i) == START
    ensures Gap(s, i, i + 4) && StateAt(s, i + 4) == START
  {
    assert StateAt(s, i + 1) == ScanState(BlockComment, 0, true);
    assert StateAt(s, i + 2) == ScanState(BlockComment, 0, false);
    assert StateAt(s, i + 3) == ScanState(Code, 0, true);
    assert StateAt(s, i + 4) == START;
  }

  /** A comment in place of a space: SQLite obeys the clause, the pattern does not see it. */
  lemma CommentedClause()
    ensures var sql := "INSERT OR/**/ROLLBACK INTO t VALUES (1)";
      ClauseAt(sql, 0, InsertVerb) && !NoClauses(NeutralizeRollback(sql))
  {
    hide NeutralizeRollback, Tokens, NoClauses;
    var sql := "INSERT OR/**/ROLLBACK INTO t VALUES (1)";
    CommentedWords(sql);
    CommentedTokens(sql);
    assert !IsSpace(sql[9]);
    Missed(sql, InsertVerb, 7, 13);
  }

  lemma CommentedWords(sql: string)
    requires sql == "INSERT OR/**/ROLLBACK INTO t VALUES (1)"
    ensures WordAt(sql, 0, Keyword(InsertVerb)) && WordAt(sql, 7, "OR") && WordAt(sql, 13, "ROLLBACK")
  {
  }

  lemma CommentedTokens(sql: string)
    requires sql == "INSERT OR/**/ROLLBACK INTO t VALUES (1)"
    ensures Tokens(sql, 6, 7, 13)
  {
    hide StateAt, GapAt, WordAt;
    CommentedWords(sql);
    StartState(sql);
    AllKeywordLetters(InsertVerb);
    WordKeepsState(sql, 0, Keyword(InsertVerb));
    SpacesAreGap(sql, 6, 7);
    WordKeepsState(sql, 7, "OR");
    EmptyComment(sql, 9);
    assert sql[21] == ' ';
  }

  /** A quoted name right behind the algorithm. */
  lemma QuotedClause()
    ensures var sql := "UPDATE OR ROLLBACK\"t\" SET a=1";
      ClauseAt(sql, 0, UpdateVerb) && !NoClauses(NeutralizeRollback(sql))
  {
    hide NeutralizeRollback, StateAt, GapAt;
    var sql := "UPDATE OR ROLLBACK\"t\" SET a=1";
    StartState(sql);
    AllKeywordLetters(UpdateVerb);
    WordKeepsState(sql, 0, Keyword(UpdateVerb));
    SpacesAreGap(sql, 6, 7);
    WordKeepsState(sql, 7, "OR");
    SpacesAreGap(sql, 9, 10);
    assert sql[18] == '"';
    Missed(sql, UpdateVerb, 7, 10);
  }
}
