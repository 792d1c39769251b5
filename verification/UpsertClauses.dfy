/** ON CONFLICT as SQLite reads it, and what stripping the UPSERT leaves of it
    (src/sqlite_conflict_resolution.py:196-207). */
module UpsertClauses {
  import opened Columns
  import opened SqlScanner
  import opened ConflictResolution
  import opened RollbackClauses

  // ----- the clause in SQLite's tokens -----

  /** The tokens ON, at the start, and CONFLICT, at `o`, after a gap. */
  predicate UpsertTokens(s: string, o: nat) {
    && WordAt(s, 0, "ON") && 2 < o && o + 8 <= |s| && Gap(s, 2, o)
    && StateAt(s, o) == START && WordAt(s, o, "CONFLICT") && (o + 8 < |s| ==> !NameChar(s[o + 8]))
  }

  /** ON CONFLICT outside parentheses, quotes and comments. */
  ghost predicate UpsertAt(sql: string, k: nat) {
    k < |sql| && TopLevel(sql, k) && exists o: nat :: UpsertTokens(sql[k..], o)
  }

  ghost predicate NoUpserts(sql: string) {
    forall k: nat :: !UpsertAt(sql, k)
  }

  /** At `k` or before it stands one spelled with spaces alone. */
  ghost predicate SpacedBefore(sql: string, k: nat) {
    exists m: nat :: m <= k && OnConflictAt(sql, m)
  }

  function Stripped(sql: string): string {
    if StripUpsert(sql).Some? then StripUpsert(sql).value else sql
  }

  // ----- before the cut -----

  /** `n` is `sql` cut off at `x`, a word of its own that begins with O, and `p` is what is left of it. */
  ghost predicate CutText(sql: string, x: nat, p: string, n: string) {
    && x < |sql| && TopLevel(sql, x) && Upper(sql[x]) == 'O'
    && p == RStrip(sql[..x]) && |p| <= x && sql[..|p|] == p && (n == p || n == p + ";")
    && (forall i :: |p| <= i < x ==> IsSpace(sql[i]))
  }

  lemma CutTextHolds(sql: string, x: nat)
    requires FirstWord(sql, HasOnConflict(), 0) == Some(x) && StartsInsertLike(sql)
    ensures StripUpsert(sql).Some? && CutText(sql, x, RStrip(sql[..x]), StripUpsert(sql).value)
  {
    hide TopLevel, RStrip, StartsInsertLike, OnConflict, EndsWithSemicolon;
    var p := RStrip(sql[..x]);
    StrippedBoundary(sql, x);
    assert forall i :: |p| <= i < x ==> sql[i] == sql[..x][i];
    OnLetter(sql[x..]);
    assert sql[x..][0] == sql[x];
  }

  lemma OnLetter(s: string)
    requires OnConflict(s)
    ensures s != "" && Upper(s[0]) == 'O'
  {
    FirstLetter(s, 0, "ON");
  }

  /** No word that begins with O begins inside the clause. */
  lemma NoCutInside(s: string, o: nat, d: nat)
    requires UpsertTokens(s, o) && 0 < d < o + 8 && StateAt(s, d) == START && !IsIdentifier(s[d - 1]) && IsIdentifier(s[d])
    ensures Upper(s[d]) != 'O'
  {
    hide StateAt, WordAt;
    FirstLetter(s, o, "CONFLICT");
    if d == 1 { WordLetter(s, 0, "ON", 0); }
    if 2 <= d < o { NoLetterInGap(s, d); }
    if o < d < o + 8 { WordLetter(s, o, "CONFLICT", d - 1 - o); }
  }

  lemma NoLetterInGap(s: string, d: nat)
    requires d < |s| && GapAt(s, d) && StateAt(s, d) == START
    ensures !IsIdentifier(s[d])
  {
  }

  /** A clause that begins before the cut ends before it. */
  lemma EndsBeforeCut(sql: string, x: nat, p: string, n: string, k: nat, o: nat)
    requires CutText(sql, x, p, n) && k < x && StateAt(sql, k) == START && UpsertTokens(sql[k..], o)
    ensures k + o + 8 <= |p|
  {
    hide StateAt, Gap;
    var s := sql[k..];
    TailState(sql, k, x - k);
    Boundary(sql, x);
    assert s[x - k] == sql[x] && s[x - k - 1] == sql[x - 1];
    if x - k < o + 8 { NoCutInside(s, o, x - k); }
    WordLetter(s, o, "CONFLICT", 7);
    assert sql[k + o + 7] == s[o + 7];
    IdentifierIsNoSpace(sql, k + o + 7);
  }

  lemma IdentifierIsNoSpace(sql: string, i: nat)
    requires i < |sql|
    ensures IsIdentifier(sql[i]) ==> !IsSpace(sql[i])
  {
  }

  /** The two texts agree up to the end of the clause, and neither has a name character right behind it. */
  lemma UpsertPrefix(s: string, u: string, m: nat, o: nat)
    requires UpsertTokens(s, o) && o + 8 <= m <= |s| && m <= |u| && s[..m] == u[..m]
    requires o + 8 < |u| ==> !NameChar(u[o + 8])
    ensures UpsertTokens(u, o)
  {
    hide StateAt, GapAt, WordAt;
    forall i: nat | i + 1 < m { GapPrefix(s, u, m, i); }
    WordShift(s, u, m, 0, "ON");
    WordShift(s, u, m, o, "CONFLICT");
  }

  lemma Windows(a: string, b: string, m: nat, k: nat)
    requires k <= m <= |a| && m <= |b| && a[..m] == b[..m]
    ensures a[k..][..m - k] == b[k..][..m - k]
  {
    assert a[k..][..m - k] == a[..m][k..] && b[k..][..m - k] == b[..m][k..];
  }

  /** A clause before the cut stays. */
  lemma StaysBeforeCut(sql: string, x: nat, p: string, n: string, k: nat)
    requires CutText(sql, x, p, n) && UpsertAt(sql, k) && k < x
    ensures UpsertAt(n, k)
  {
    hide StateAt, UpsertTokens, RStrip;
    var o: nat :| UpsertTokens(sql[k..], o);
    EndsBeforeCut(sql, x, p, n, k, o);
    assert n[..|p|] == p;
    PrefixWords(n, sql, |p|, k);
    Windows(sql, n, |p|, k);
    TokensEnd(sql[k..], o);
    if k + o + 8 < |n| { BehindClause(n, sql, p, k + o + 8); }
    assert n[k..][..|p| - k] == sql[k..][..|p| - k];
    if o + 8 < |n[k..]| { assert n[k..][o + 8] == n[k + o + 8]; }
    if o + 8 < |sql[k..]| { assert sql[k..][o + 8] == sql[k + o + 8]; }
    UpsertPrefix(sql[k..], n[k..], |p| - k, o);
  }

  lemma TokensEnd(s: string, o: nat)
    requires UpsertTokens(s, o)
    ensures o + 8 <= |s| && (o + 8 < |s| ==> !NameChar(s[o + 8]))
  {
  }

  lemma BehindClause(n: string, sql: string, p: string, i: nat)
    requires |p| <= |n| && n[..|p|] == p && |p| <= |sql| && sql[..|p|] == p && (n == p || n == p + ";")
    requires i < |n|
    ensures if i < |p| then i < |sql| && n[i] == sql[i] else n[i] == ';'
  {
    if i < |p| { assert n[i] == p[i] == sql[i]; }
  }

  /** And nothing else stays: a clause of the cut text was one before the cut. */
  lemma WasBeforeCut(sql: string, x: nat, p: string, n: string, k: nat)
    requires CutText(sql, x, p, n) && UpsertAt(n, k)
    ensures k < x && UpsertAt(sql, k)
  {
    hide StateAt, UpsertTokens, RStrip;
    var o: nat :| UpsertTokens(n[k..], o);
    assert n[..|p|] == p;
    LastIsLetter(n[k..], o);
    assert n[k + o + 7] == n[k..][o + 7];
    BehindClause(n, sql, p, k + o + 7);
    assert k + o + 8 <= |p|;
    PrefixWords(n, sql, |p|, k);
    Windows(sql, n, |p|, k);
    TokensEnd(n[k..], o);
    NextBehind(sql, x, p, n, k + o + 8, n[k..][o + 7]);
    assert sql[k..][o + 8] == sql[k + o + 8];
    if o + 8 < |n[k..]| { assert n[k..][o + 8] == n[k + o + 8]; }
    UpsertPrefix(n[k..], sql[k..], |p| - k, o);
  }

  lemma LastIsLetter(s: string, o: nat)
    requires UpsertTokens(s, o)
    ensures o + 8 <= |s| && IsIdentifier(s[o + 7])
  {
    hide StateAt, Gap;
    WordLetter(s, o, "CONFLICT", 7);
  }

  /** What follows a word before the cut is the same there, or a space. */
  lemma NextBehind(sql: string, x: nat, p: string, n: string, i: nat, c: char)
    requires CutText(sql, x, p, n) && 0 < i <= |p| && c == n[i - 1] && IsIdentifier(c) && (i < |n| ==> !NameChar(n[i]))
    ensures i < |sql| && !NameChar(sql[i])
  {
    hide StateAt, RStrip;
    assert n[..|p|] == p && p[i - 1] == n[i - 1] == sql[i - 1];
    if i < |p| {
      BehindClause(n, sql, p, i);
    } else {
      Boundary(sql, x);
      assert i < x && IsSpace(sql[i]);
    }
  }

  // ----- the exact condition -----

  /** For every text: after stripping no top-level ON CONFLICT is left, as SQLite reads it, exactly when each one
      stands in a text that begins like an INSERT, at or behind one spelled with spaces alone. */
  lemma StrippedExactly(sql: string)
    ensures NoUpserts(Stripped(sql)) <==> forall k: nat :: UpsertAt(sql, k) ==> StartsInsertLike(sql) && SpacedBefore(sql, k)
  {
    hide UpsertAt, StartsInsertLike, OnConflictAt, FirstWord, CutText, RStrip;
    FirstOnConflict(sql);
    var first := FirstWord(sql, HasOnConflict(), 0);
    if StartsInsertLike(sql) && first.Some? {
      var x, n := first.value, Stripped(sql);
      CutTextHolds(sql, x);
      forall k: nat | UpsertAt(sql, k) && k < x ensures UpsertAt(n, k) { StaysBeforeCut(sql, x, RStrip(sql[..x]), n, k); }
      forall k: nat | UpsertAt(n, k) ensures k < x && UpsertAt(sql, k) { WasBeforeCut(sql, x, RStrip(sql[..x]), n, k); }
    }
  }

  // ----- a text the rewrite misses -----

  /** A comment in place of the space. */
  lemma CommentedUpsert()
    ensures var sql := "INSERT INTO t SELECT 1 ON/**/CONFLICT DO NOTHING";
      UpsertAt(sql, 23) && !NoUpserts(Stripped(sql))
  {
    hide Stripped, StateAt, GapAt, UpsertTokens, OnConflict;
    var sql := "INSERT INTO t SELECT 1 ON/**/CONFLICT DO NOTHING";
    assert sql[23..] == "ON/**/CONFLICT DO NOTHING";
    CommentedUpsertTokens(sql[23..]);
    CommentedUpsertPlace(sql);
    forall m: nat | m <= 23 ensures !OnConflictAt(sql, m) { NotSpacedYet(sql, m); }
    StrippedExactly(sql);
  }

  lemma CommentedUpsertTokens(s: string)
    requires s == "ON/**/CONFLICT DO NOTHING"
    ensures UpsertTokens(s, 6) && !OnConflict(s)
  {
    hide StateAt, GapAt, WordAt, OnConflict;
    CommentedUpsertChars(s);
    CommentedUpsertSlices(s);
    CommentedUpsertWords(s);
    NothingToSkip(s);
    StartState(s);
    WordKeepsState(s, 0, "ON");
    EmptyComment(s, 2);
  }

  lemma WordFromSlice(s: string, i: nat, word: string)
    requires i + |word| <= |s| && s[i..i + |word|] == word && Letters(word)
    ensures WordAt(s, i, word)
  {
    var part := s[i..i + |word|];
    assert forall k :: 0 <= k < |part| ==> part[k] == s[i + k];
  }

  lemma NothingToSkip(s: string)
    requires |s| > 2 && s[2] == '/'
    ensures !OnConflict(s)
  {
  }

  lemma CommentedUpsertChars(s: string)
    requires s == "ON/**/CONFLICT DO NOTHING"
    ensures |s| > 14 && s[14] == ' ' && s[2] == '/' && s[3] == '*' && s[4] == '*' && s[5] == '/'
  {
  }

  lemma CommentedUpsertSlices(s: string)
    requires s == "ON/**/CONFLICT DO NOTHING"
    ensures |s| > 14 && s[0..2] == "ON" && s[6..14] == "CONFLICT"
  {
  }

  lemma CommentedUpsertWords(s: string)
    requires |s| > 14 && s[0..2] == "ON" && s[6..14] == "CONFLICT"
    ensures WordAt(s, 0, "ON") && WordAt(s, 6, "CONFLICT")
  {
    hide WordAt;
    WordFromSlice(s, 0, "ON");
    WordFromSlice(s, 6, "CONFLICT");
  }

  const INSERT_HEAD := ['I', 'N', 'S', 'E', 'R', 'T', ' ', 'I', 'N', 'T', 'O', ' ', 't', ' ', 'S', 'E', 'L', 'E', 'C', 'T', ' ', '1', ' ']

  lemma HeadOf(sql: string)
    requires sql == "INSERT INTO t SELECT 1 ON/**/CONFLICT DO NOTHING"
    ensures |INSERT_HEAD| == 23 && sql[..23] == INSERT_HEAD && sql[23] == 'O'
  {
  }

  lemma PlainHead()
    ensures forall k :: 0 <= k < |INSERT_HEAD| ==> Plain(INSERT_HEAD[k])
  {
  }

  lemma HeadLetterO(k: nat)
    requires k < |INSERT_HEAD| && Upper(INSERT_HEAD[k]) == 'O'
    ensures k == 10 && IsIdentifier(INSERT_HEAD[9])
  {
  }

  lemma CommentedUpsertPlace(sql: string)
    requires sql == "INSERT INTO t SELECT 1 ON/**/CONFLICT DO NOTHING"
    ensures TopLevel(sql, 23)
  {
    hide StateAt;
    StartState(sql);
    HeadOf(sql);
    PlainHead();
    forall k | 0 <= k < 23 ensures Plain(sql[k]) { assert sql[k] == sql[..23][k]; }
    PlainKeepsState(sql, 0, 23);
    assert sql[22] == sql[..23][22];
  }

  lemma NotSpacedYet(sql: string, m: nat)
    requires sql == "INSERT INTO t SELECT 1 ON/**/CONFLICT DO NOTHING" && m <= 23
    requires !OnConflict(sql[23..])
    ensures !OnConflictAt(sql, m)
  {
    hide StateAt, OnConflict, INSERT_HEAD;
    HeadOf(sql);
    if OnConflictAt(sql, m) && m < 23 {
      assert sql[m..][0] == sql[m] == sql[..23][m];
      OnLetter(sql[m..]);
      HeadLetterO(m);
      LetterBefore(sql, m);
    }
  }

  lemma LetterBefore(sql: string, m: nat)
    requires sql == "INSERT INTO t SELECT 1 ON/**/CONFLICT DO NOTHING" && m == 10
    ensures !TopLevel(sql, m)
  {
    hide StateAt;
    HeadOf(sql);
    assert sql[9] == sql[..23][9];
  }
}
