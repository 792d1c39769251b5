/** Stripping and restoring SQLite conflict clauses in statement text
    (src/sqlite_conflict_resolution.py:83-299). */
module ConflictResolution {
  import opened Columns
  import opened SqlScanner

  datatype Verb = InsertVerb | UpdateVerb

  datatype Resolution = Resolution(verb: Verb, algorithm: string)

  const CONFLICT_ALGORITHMS := ["ROLLBACK", "ABORT", "FAIL", "IGNORE", "REPLACE"]

  function Keyword(verb: Verb): string { if verb.InsertVerb? then "INSERT" else "UPDATE" }

  // ----- patterns, matched at the start of a text -----

  /** The end of the run of spaces from `i`. */
  function SkipSpaces(s: string, i: nat): (r: nat)
    requires i <= |s|
    ensures i <= r <= |s|
    ensures forall k :: i <= k < r ==> IsSpace(s[k])
    ensures r < |s| ==> !IsSpace(s[r])
    decreases |s| - i
  {
    if i < |s| && IsSpace(s[i]) then SkipSpaces(s, i + 1) else i
  }

  predicate WordAt(s: string, i: nat, word: string) {
    i + |word| <= |s| && forall k :: 0 <= k < |word| ==> Upper(s[i + k]) == word[k]
  }

  /** A word and the spaces after it: where those end. */
  function WordThenSpaces(s: string, i: nat, word: string): (r: Option<nat>)
    requires i <= |s|
    ensures r.Some? ==> i + |word| < r.value <= |s|
  {
    if WordAt(s, i, word) && SkipSpaces(s, i + |word|) > i + |word| then Some(SkipSpaces(s, i + |word|)) else None
  }

  datatype Clause = Clause(algorithm: string, end: nat)

  function AlgorithmAt(s: string, i: nat, algorithms: seq<string>): (r: Option<Clause>)
    requires i <= |s|
    ensures r.Some? ==> r.value.algorithm in algorithms && WordThenSpaces(s, i, r.value.algorithm) == Some(r.value.end)
    ensures r.None? ==> forall a :: a in algorithms ==> WordThenSpaces(s, i, a).None?
  {
    if algorithms == [] then None
    else
      var end := WordThenSpaces(s, i, algorithms[0]);
      if end.Some? then Some(Clause(algorithms[0], end.value)) else AlgorithmAt(s, i, algorithms[1..])
  }

  /** `VERB OR ALGORITHM` with its spaces. */
  function OrClause(s: string, verb: Verb, algorithms: seq<string>): (r: Option<Clause>)
    ensures r.Some? ==> 6 < r.value.end <= |s|
  {
    var v := WordThenSpaces(s, 0, Keyword(verb));
    if v.None? then None
    else
      var o := WordThenSpaces(s, v.value, "OR");
      if o.None? then None else AlgorithmAt(s, o.value, algorithms)
  }

  function HasClause(verb: Verb, algorithms: seq<string>): string -> bool {
    s => OrClause(s, verb, algorithms).Some?
  }

  function HasVerb(verb: Verb): string -> bool {
    s => WordThenSpaces(s, 0, Keyword(verb)).Some?
  }

  /** The first top-level word from `i` whose text matches. */
  function FirstWord(sql: string, p: string -> bool, i: nat): (r: Option<nat>)
    requires i <= |sql|
    ensures r.Some? ==> i <= r.value < |sql| && TopLevel(sql, r.value) && p(sql[r.value..])
    ensures forall k: nat :: i <= k && (r.Some? ==> k < r.value) && TopLevel(sql, k) ==> !p(sql[k..])
    decreases |sql| - i
  {
    if i == |sql| then None
    else if TopLevel(sql, i) && p(sql[i..]) then Some(i)
    else FirstWord(sql, p, i + 1)
  }

  lemma FirstIs(sql: string, p: string -> bool, i: nat)
    requires TopLevel(sql, i) && p(sql[i..])
    requires forall k: nat :: k < i && TopLevel(sql, k) ==> !p(sql[k..])
    ensures FirstWord(sql, p, 0) == Some(i)
  {
    hide TopLevel;
  }

  lemma FirstIsNone(sql: string, p: string -> bool)
    requires forall k: nat :: k < |sql| && TopLevel(sql, k) ==> !p(sql[k..])
    ensures FirstWord(sql, p, 0).None?
  {
    hide TopLevel;
  }

  /** `_top_level_pattern_match`: the scanner's first word that matches. */
  method TopLevelPatternMatch(sql: string, p: string -> bool) returns (found: Option<nat>)
    ensures found == FirstWord(sql, p, 0)
  {
    hide TopLevel, FirstWord;
    var indexes := TopLevelKeywordIndexes(sql);
    assert forall m :: 0 <= m < |indexes| ==> indexes[m] in indexes;
    for n := 0 to |indexes|
      invariant forall m :: 0 <= m < n ==> !p(sql[indexes[m]..])
    {
      var index := indexes[n];
      assert index in indexes;
      if p(sql[index..]) {
        forall k: nat | k < index && TopLevel(sql, k) ensures !p(sql[k..]) {
          assert k in indexes;
        }
        FirstIs(sql, p, index);
        return Some(index);
      }
    }
    found := None;
    forall k: nat | k < |sql| && TopLevel(sql, k) ensures !p(sql[k..]) {
      assert k in indexes;
    }
    FirstIsNone(sql, p);
  }

  // ----- the rewrites -----

  /** `_remove_top_level_or_clause`. */
  function RemoveOr(sql: string, verb: Verb, algorithms: seq<string>): (string, Option<Resolution>) {
    match FirstWord(sql, HasClause(verb, algorithms), 0)
    case None => (sql, None)
    case Some(i) =>
      var clause := OrClause(sql[i..], verb, algorithms).value;
      (sql[..i] + sql[i..][..6] + " " + sql[i..][clause.end..], Some(Resolution(verb, clause.algorithm)))
  }

  /** `restore_update_conflict_resolution`. */
  function RestoreUpdate(sql: string, resolution: Option<Resolution>): (r: string)
    ensures resolution.None? || resolution.value.verb.InsertVerb? ==> r == sql
  {
    if resolution.None? || resolution.value.verb != UpdateVerb then sql
    else
      match FirstWord(sql, HasVerb(UpdateVerb), 0)
      case None => sql
      case Some(i) =>
        var end := WordThenSpaces(sql[i..], 0, "UPDATE").value;
        sql[..i] + sql[i..][..6] + " OR " + resolution.value.algorithm + " " + sql[i..][end..]
  }

  // ----- facts about matches -----

  /** The text of a match: words and spaces only. */
  lemma WordIsPlain(s: string, i: nat, word: string)
    requires i <= |s| && WordThenSpaces(s, i, word).Some?
    requires forall k :: 0 <= k < |word| ==> 'A' <= word[k] <= 'Z'
    ensures forall k :: i <= k < WordThenSpaces(s, i, word).value ==> Plain(s[k])
    ensures IsSpace(s[WordThenSpaces(s, i, word).value - 1])
  {
    forall k | i <= k < i + |word| ensures Plain(s[k]) {
      assert Upper(s[i + (k - i)]) == word[k - i];
    }
  }

  predicate Letters(word: string) { forall k :: 0 <= k < |word| ==> 'A' <= word[k] <= 'Z' }

  lemma WordLetter(s: string, i: nat, word: string, k: nat)
    requires WordAt(s, i, word) && k < |word| && Letters(word)
    ensures IsIdentifier(s[i + k])
  {
    assert Upper(s[i + k]) == word[k];
  }

  lemma ClauseIsPlain(s: string, verb: Verb, algorithms: seq<string>)
    requires OrClause(s, verb, algorithms).Some? && forall a :: a in algorithms ==> Letters(a)
    ensures var end := OrClause(s, verb, algorithms).value.end;
      7 <= end && IsSpace(s[end - 1]) && (end < |s| ==> !IsSpace(s[end])) && forall k :: 0 <= k < end ==> Plain(s[k])
  {
    hide Plain, SkipSpaces;
    var clause := OrClause(s, verb, algorithms).value;
    var v := WordThenSpaces(s, 0, Keyword(verb)).value;
    WordIsPlain(s, 0, Keyword(verb));
    WordIsPlain(s, v, "OR");
    WordIsPlain(s, WordThenSpaces(s, v, "OR").value, clause.algorithm);
  }

  /** The OR clause a verb carries makes the plain verb match too. */
  lemma ClauseHasVerb(s: string, verb: Verb, algorithms: seq<string>)
    requires HasClause(verb, algorithms)(s)
    ensures HasVerb(verb)(s)
  {
  }

  /** Matching one word and a space looks at those characters only. */
  lemma SameWord(a: string, b: string, i: nat, word: string)
    requires i + |word| < |a| && i + |word| < |b|
    requires forall k :: i <= k < i + |word| ==> a[k] == b[k]
    requires IsSpace(a[i + |word|]) == IsSpace(b[i + |word|])
    ensures WordThenSpaces(a, i, word).Some? <==> WordThenSpaces(b, i, word).Some?
  {
    hide IsSpace;
    assert WordAt(a, i, word) <==> WordAt(b, i, word);
    assert SkipSpaces(a, i + |word|) > i + |word| <==> IsSpace(a[i + |word|]);
    assert SkipSpaces(b, i + |word|) > i + |word| <==> IsSpace(b[i + |word|]);
  }

  /** A verb found before a common prefix ends is found in both texts. */
  lemma SameVerbBefore(a: string, b: string, n: nat, k: nat, verb: Verb)
    requires n <= |a| && n <= |b| && a[..n] == b[..n] && k + 6 < n
    ensures HasVerb(verb)(a[k..]) <==> HasVerb(verb)(b[k..])
  {
    hide SkipSpaces, WordThenSpaces;
    var x, y := a[k..], b[k..];
    forall m | 0 <= m < 7 ensures x[m] == y[m] {
      assert x[m] == a[..n][k + m] && y[m] == b[..n][k + m];
    }
    SameWord(x, y, 0, Keyword(verb));
  }

  /** A verb with exactly one space. */
  lemma OneSpace(s: string, i: nat, word: string)
    requires i <= |s| && WordAt(s, i, word) && i + |word| < |s| && IsSpace(s[i + |word|])
    requires i + |word| + 1 < |s| ==> !IsSpace(s[i + |word| + 1])
    ensures WordThenSpaces(s, i, word) == Some(i + |word| + 1)
  {
  }

  // ----- restore, then remove -----

  lemma OneAlgorithm(s: string, i: nat, a: string, b: string)
    requires a in CONFLICT_ALGORITHMS && b in CONFLICT_ALGORITHMS && WordAt(s, i, a) && WordAt(s, i, b)
    ensures a == b
  {
    assert Upper(s[i + 0]) == a[0] == b[0] && Upper(s[i + 1]) == a[1] == b[1];
  }

  /** A text that begins with an update verb, one space, and then the clause. */
  ghost predicate Restored(s: string, algorithm: string) {
    && algorithm in CONFLICT_ALGORITHMS && 11 + |algorithm| <= |s|
    && WordAt(s, 0, "UPDATE") && s[6..10] == " OR " && s[10..10 + |algorithm|] == algorithm && s[10 + |algorithm|] == ' '
    && (11 + |algorithm| < |s| ==> !IsSpace(s[11 + |algorithm|]))
  }

  lemma RestoredClause(s: string, algorithm: string)
    requires Restored(s, algorithm)
    ensures OrClause(s, UpdateVerb, CONFLICT_ALGORITHMS) == Some(Clause(algorithm, 11 + |algorithm|))
  {
    hide SkipSpaces;
    var gap := s[6..10];
    assert gap == [' ', 'O', 'R', ' '];
    assert s[6] == gap[0] && s[7] == gap[1] && s[8] == gap[2] && s[9] == gap[3];
    var part := s[10..10 + |algorithm|];
    assert forall k :: 0 <= k < |part| ==> part[k] == s[10 + k];
    AlgorithmLetters(algorithm);
    OneSpace(s, 0, "UPDATE");
    OneSpace(s, 7, "OR");
    OneSpace(s, 10, algorithm);
    var found := AlgorithmAt(s, 10, CONFLICT_ALGORITHMS);
    OneAlgorithm(s, 10, found.value.algorithm, algorithm);
  }

  lemma AlgorithmLetters(algorithm: string)
    requires algorithm in CONFLICT_ALGORITHMS
    ensures Letters(algorithm) && 4 <= |algorithm| <= 8
  {
  }

  /** The removed form of a text whose clause is at `i`. */
  function WithoutClause(sql: string, i: nat, end: nat): string
    requires i + 6 <= |sql| && i + end <= |sql|
  {
    sql[..i] + sql[i..][..6] + " " + sql[i..][end..]
  }

  /** And the restored form. */
  function WithClause(sql: string, i: nat, end: nat, algorithm: string): string
    requires i + 6 <= |sql| && i + end <= |sql|
  {
    sql[..i] + sql[i..][..6] + " OR " + algorithm + " " + sql[i..][end..]
  }

  lemma WithClauseText(n: string, i: nat, end: nat, algorithm: string)
    requires i + end <= |n| && 7 <= end
    ensures var r := WithClause(n, i, end, algorithm);
      && i + 11 + |algorithm| <= |r| && r[..i + 6] == n[..i + 6] && r[i..][..6] == n[i..][..6]
      && r[i..][6..10] == " OR " && r[i..][10..10 + |algorithm|] == algorithm && r[i..][10 + |algorithm|] == ' '
      && r[i..][11 + |algorithm|..] == n[i..][end..]
  {
    var r := WithClause(n, i, end, algorithm);
    var tail := n[i..][..6] + " OR " + algorithm + " " + n[i..][end..];
    assert r == n[..i] + tail && r[i..] == tail;
    assert n[..i + 6] == n[..i] + n[i..][..6];
    assert tail[6..10] == " OR " && tail[10..10 + |algorithm|] == algorithm;
    assert tail[11 + |algorithm|..] == n[i..][end..];
  }

  lemma WithClauseIsRestored(n: string, i: nat, end: nat, algorithm: string)
    requires i <= |n| && WordThenSpaces(n[i..], 0, "UPDATE") == Some(end) && algorithm in CONFLICT_ALGORITHMS
    ensures var r := WithClause(n, i, end, algorithm);
      && i + 6 <= |r| && r[..i + 6] == n[..i + 6] && Restored(r[i..], algorithm)
      && r[i..][..6] == n[i..][..6] && r[i..][11 + |algorithm|..] == n[i..][end..]
  {
    hide SkipSpaces, WithClause, WordAt;
    WithClauseText(n, i, end, algorithm);
    var s := WithClause(n, i, end, algorithm)[i..];
    WordAtPrefix(s, n[i..], "UPDATE");
    if 11 + |algorithm| < |s| { assert s[11 + |algorithm|] == s[11 + |algorithm|..][0] && n[i..][end] == n[i..][end..][0]; }
  }

  /** The first clause of the restored text is the restored one. */
  lemma RestoredIsFirst(n: string, i: nat, end: nat, algorithm: string)
    requires FirstWord(n, HasVerb(UpdateVerb), 0) == Some(i) && WordThenSpaces(n[i..], 0, "UPDATE") == Some(end)
    requires algorithm in CONFLICT_ALGORITHMS
    ensures FirstWord(WithClause(n, i, end, algorithm), HasClause(UpdateVerb, CONFLICT_ALGORITHMS), 0) == Some(i)
  {
    hide TopLevel, WordThenSpaces, OrClause, Restored, FirstWord;
    var r := WithClause(n, i, end, algorithm);
    WithClauseIsRestored(n, i, end, algorithm);
    RestoredClause(r[i..], algorithm);
    PrefixWords(r, n, i + 6, i);
    forall k: nat | k < i && TopLevel(r, k) ensures !HasClause(UpdateVerb, CONFLICT_ALGORITHMS)(r[k..]) {
      PrefixWords(r, n, i + 6, k);
      SameVerbBefore(r, n, i + 6, k, UpdateVerb);
      if HasClause(UpdateVerb, CONFLICT_ALGORITHMS)(r[k..]) { ClauseHasVerb(r[k..], UpdateVerb, CONFLICT_ALGORITHMS); }
    }
    FirstIs(r, HasClause(UpdateVerb, CONFLICT_ALGORITHMS), i);
  }

  /** Restoring a clause and removing it again gives back the text, with the gap after UPDATE made one space. */
  lemma RestoreThenRemove(n: string, i: nat, algorithm: string)
    requires FirstWord(n, HasVerb(UpdateVerb), 0) == Some(i) && algorithm in CONFLICT_ALGORITHMS
    ensures var resolution := Some(Resolution(UpdateVerb, algorithm));
      var end := WordThenSpaces(n[i..], 0, "UPDATE").value;
      && RemoveOr(RestoreUpdate(n, resolution), UpdateVerb, CONFLICT_ALGORITHMS) == (WithoutClause(n, i, end), resolution)
      && (WithoutClause(n, i, end) == n <==> end == 7 && n[i + 6] == ' ')
  {
    hide TopLevel, SkipSpaces, Restored, FirstWord, OrClause;
    var end := WordThenSpaces(n[i..], 0, "UPDATE").value;
    var r := WithClause(n, i, end, algorithm);
    RestoredIsFirst(n, i, end, algorithm);
    WithClauseIsRestored(n, i, end, algorithm);
    RestoredClause(r[i..], algorithm);
    assert r[..i] == r[..i + 6][..i] && n[..i] == n[..i + 6][..i];
    OneGap(n, i, end);
  }

  lemma OneGap(n: string, i: nat, end: nat)
    requires i + end <= |n| && 7 <= end
    ensures WithoutClause(n, i, end) == n <==> end == 7 && n[i + 6] == ' '
  {
    var w := WithoutClause(n, i, end);
    assert |w| == |n| - end + 7 && w[i + 6] == ' ';
    if end == 7 && n[i + 6] == ' ' {
      assert w == n;
    }
  }

  // ----- remove, then restore -----

  lemma WordAtPrefix(s: string, u: string, word: string)
    requires |word| <= |s| && |word| <= |u| && s[..|word|] == u[..|word|]
    ensures WordAt(s, 0, word) <==> WordAt(u, 0, word)
  {
    assert forall k :: 0 <= k < |word| ==> s[k] == s[..|word|][k] && u[k] == u[..|word|][k];
  }

  lemma WithoutClauseText(sql: string, i: nat, end: nat)
    requires i <= |sql| && 7 <= end && i + end <= |sql|
    ensures var n := WithoutClause(sql, i, end);
      && i + 7 <= |n| && n[..i + 6] == sql[..i + 6] && n[i + 6] == ' ' && n[i + 7..] == sql[i + end..]
      && n[i..][7..] == sql[i..][end..] && n[i..][..6] == sql[i..][..6] && n[i..][6] == ' '
  {
    var n := WithoutClause(sql, i, end);
    var tail := sql[i..][..6] + " " + sql[i..][end..];
    assert n == sql[..i] + tail && n[i..] == tail;
    assert tail[7..] == sql[i..][end..] && sql[i..][end..] == sql[i + end..];
    assert n[i + 7..] == tail[7..];
  }

  lemma WithoutClauseParts(sql: string, i: nat, verb: Verb, algorithms: seq<string>)
    requires i <= |sql| && OrClause(sql[i..], verb, algorithms).Some? && forall a :: a in algorithms ==> Letters(a)
    ensures var end := OrClause(sql[i..], verb, algorithms).value.end;
      var n := WithoutClause(sql, i, end);
      && 7 <= end && i + 7 <= |n| && n[..i + 6] == sql[..i + 6] && n[i + 6] == ' ' && n[i + 7..] == sql[i + end..]
      && n[i..][7..] == sql[i..][end..] && WordThenSpaces(n[i..], 0, Keyword(verb)) == Some(7)
  {
    hide SkipSpaces, WithoutClause, Plain, WordAt;
    ClauseIsPlain(sql[i..], verb, algorithms);
    var end := OrClause(sql[i..], verb, algorithms).value.end;
    var n := WithoutClause(sql, i, end);
    WithoutClauseText(sql, i, end);
    WordAtPrefix(n[i..], sql[i..], Keyword(verb));
    if 7 < |n[i..]| { assert n[i..][7] == n[i..][7..][0] && sql[i..][end] == sql[i..][end..][0]; }
    OneSpace(n[i..], 0, Keyword(verb));
  }

  lemma AllLetters()
    ensures forall a :: a in CONFLICT_ALGORITHMS ==> Letters(a)
  {
  }

  /** Removal does not move the first verb, as long as it is not behind the clause. */
  lemma RemovedVerbFirst(sql: string, i: nat, j: nat)
    requires FirstWord(sql, HasClause(UpdateVerb, CONFLICT_ALGORITHMS), 0) == Some(i)
    requires FirstWord(sql, HasVerb(UpdateVerb), 0) == Some(j)
    ensures j <= i
    ensures FirstWord(WithoutClause(sql, i, OrClause(sql[i..], UpdateVerb, CONFLICT_ALGORITHMS).value.end), HasVerb(UpdateVerb), 0) == Some(j)
  {
    hide TopLevel, WordThenSpaces, FirstWord, WithoutClause, OrClause, Letters;
    AllLetters();
    ClauseHasVerb(sql[i..], UpdateVerb, CONFLICT_ALGORITHMS);
    WithoutClauseParts(sql, i, UpdateVerb, CONFLICT_ALGORITHMS);
    var n := WithoutClause(sql, i, OrClause(sql[i..], UpdateVerb, CONFLICT_ALGORITHMS).value.end);
    PrefixWords(n, sql, i + 6, j);
    if j < i { SameVerbBefore(n, sql, i + 6, j, UpdateVerb); }
    forall k: nat | k < j && TopLevel(n, k) ensures !HasVerb(UpdateVerb)(n[k..]) {
      PrefixWords(n, sql, i + 6, k);
      SameVerbBefore(n, sql, i + 6, k, UpdateVerb);
    }
    FirstIs(n, HasVerb(UpdateVerb), j);
  }

  /** Enough of a clause for the pattern to match. */
  lemma ClausePrefix(s: string, algorithm: string)
    requires algorithm in CONFLICT_ALGORITHMS && 10 + |algorithm| < |s|
    requires WordAt(s, 0, "UPDATE") && s[6..10] == " OR " && s[10..10 + |algorithm|] == algorithm && IsSpace(s[10 + |algorithm|])
    ensures HasClause(UpdateVerb, CONFLICT_ALGORITHMS)(s)
  {
    hide SkipSpaces;
    AlgorithmLetters(algorithm);
    var gap := s[6..10];
    assert gap == [' ', 'O', 'R', ' '];
    assert s[6] == gap[0] && s[7] == gap[1] && s[8] == gap[2] && s[9] == gap[3];
    var part := s[10..10 + |algorithm|];
    assert forall k :: 0 <= k < |part| ==> part[k] == s[10 + k];
    OneSpace(s, 0, "UPDATE");
    OneSpace(s, 7, "OR");
    assert WordThenSpaces(s, 10, algorithm).Some? by {
      assert WordAt(s, 10, algorithm);
      assert SkipSpaces(s, 10 + |algorithm|) > 10 + |algorithm|;
    }
  }

  /** Inside a restored clause no word begins with U before the text after it. */
  lemma NoVerbInside(s: string, algorithm: string, m: nat)
    requires Restored(s, algorithm) && 0 < m < 5 + |algorithm|
    ensures !(Upper(s[m]) == 'U' && !IsIdentifier(s[m - 1]))
  {
    AlgorithmLetters(algorithm);
    var gap := s[6..10];
    assert gap == [' ', 'O', 'R', ' '];
    assert s[6] == gap[0] && s[7] == gap[1] && s[8] == gap[2] && s[9] == gap[3];
    var part := s[10..10 + |algorithm|];
    assert forall k :: 0 <= k < |part| ==> part[k] == s[10 + k];
    if m < 6 { assert Upper(s[0 + (m - 1)]) == "UPDATE"[m - 1]; }
    if m > 10 { assert s[m - 1] == part[m - 11]; }
    if m == 10 { assert s[m] == part[0]; }
  }

  /** An earlier UPDATE takes the restored clause, and the text is not the original one. */
  lemma MisplacedClause(sql: string, i: nat, j: nat)
    requires FirstWord(sql, HasClause(UpdateVerb, CONFLICT_ALGORITHMS), 0) == Some(i)
    requires FirstWord(sql, HasVerb(UpdateVerb), 0) == Some(j) && j < i
    ensures var clause := OrClause(sql[i..], UpdateVerb, CONFLICT_ALGORITHMS).value;
      RestoreUpdate(WithoutClause(sql, i, clause.end), Some(Resolution(UpdateVerb, clause.algorithm)))
        != WithClause(sql, i, clause.end, clause.algorithm)
  {
    hide TopLevel, WordThenSpaces, FirstWord, OrClause, Letters, Restored, WithClause, WithoutClause, WordAt;
    var clause := OrClause(sql[i..], UpdateVerb, CONFLICT_ALGORITHMS).value;
    var n := WithoutClause(sql, i, clause.end);
    AllLetters();
    ClauseAlgorithm(sql[i..]);
    WithoutClauseParts(sql, i, UpdateVerb, CONFLICT_ALGORITHMS);
    RemovedVerbFirst(sql, i, j);
    var e := WordThenSpaces(n[j..], 0, "UPDATE").value;
    WithClauseIsRestored(n, j, e, clause.algorithm);
    RestoreIs(n, j, e, clause.algorithm);
    WithClausePrefix(sql, i, clause.end, clause.algorithm);
    VerbAt(sql[i..]);
    AfterGap(sql, i);
    if WithClause(n, j, e, clause.algorithm) == WithClause(sql, i, clause.end, clause.algorithm) {
      MisplacedImpossible(sql, i, j, clause.algorithm, WithClause(sql, i, clause.end, clause.algorithm));
    }
  }

  /** A text whose clause is restored in the wrong place. No single SQLite statement that is logged has two UPDATEs
      outside parentheses, so this takes two statements in one text. */
  lemma EarlierUpdate()
    ensures var sql := "UPDATE t UPDATE OR FAIL u";
      && FirstWord(sql, HasClause(UpdateVerb, CONFLICT_ALGORITHMS), 0) == Some(9) && FirstWord(sql, HasVerb(UpdateVerb), 0) == Some(0)
      && var (n, resolution) := RemoveOr(sql, UpdateVerb, CONFLICT_ALGORITHMS);
         RestoreUpdate(n, resolution) != sql
  {
    hide OrClause, FirstWord, RestoreUpdate, WithClause, WithoutClause, HasVerb, TopLevel;
    var sql := "UPDATE t UPDATE OR FAIL u";
    EarlierWords(sql);
    FirstIs(sql, HasVerb(UpdateVerb), 0);
    FirstIs(sql, HasClause(UpdateVerb, CONFLICT_ALGORITHMS), 9);
    RemovedUpdateIs(sql, 9);
    MisplacedClause(sql, 9, 0);
    WithOwnClause(sql);
  }

  lemma WithOwnClause(sql: string)
    requires sql == "UPDATE t UPDATE OR FAIL u"
    ensures WithClause(sql, 9, 15, "FAIL") == sql
  {
    assert sql[..9] == "UPDATE t " && sql[9..] == "UPDATE OR FAIL u";
    assert sql[9..][..6] == "UPDATE" && sql[9..][15..] == "u";
  }

  lemma EarlierWords(sql: string)
    requires sql == "UPDATE t UPDATE OR FAIL u"
    ensures TopLevel(sql, 0) && HasVerb(UpdateVerb)(sql[0..])
    ensures TopLevel(sql, 9) && OrClause(sql[9..], UpdateVerb, CONFLICT_ALGORITHMS) == Some(Clause("FAIL", 15))
    ensures forall k: nat :: k < 9 && TopLevel(sql, k) ==> !HasClause(UpdateVerb, CONFLICT_ALGORITHMS)(sql[k..])
  {
    hide OrClause, StateAt, SkipSpaces, WordThenSpaces, HasClause;
    LaterClause(sql);
    FirstVerb(sql);
    PlainBefore(sql);
    forall k: nat | k < 9 && TopLevel(sql, k) ensures !HasClause(UpdateVerb, CONFLICT_ALGORITHMS)(sql[k..]) {
      if k == 0 { OneVerbNoClause(sql); } else { LetterT(sql, k); NoVerbNoClause(sql[k..]); }
    }
  }

  lemma LaterClause(sql: string)
    requires sql == "UPDATE t UPDATE OR FAIL u"
    ensures OrClause(sql[9..], UpdateVerb, CONFLICT_ALGORITHMS) == Some(Clause("FAIL", 15))
  {
    hide OrClause;
    var s := sql[9..];
    assert s == "UPDATE OR FAIL u";
    assert s[6..10] == " OR " && s[10..14] == "FAIL" && "FAIL" == CONFLICT_ALGORITHMS[2];
    RestoredClause(s, "FAIL");
  }

  lemma FirstVerb(sql: string)
    requires sql == "UPDATE t UPDATE OR FAIL u"
    ensures sql[0..] == sql && WordThenSpaces(sql, 0, "UPDATE") == Some(7) && HasVerb(UpdateVerb)(sql[0..]) && Upper(sql[7]) != 'O'
  {
    hide WordThenSpaces;
    assert sql[0..] == sql;
    OneSpace(sql, 0, "UPDATE");
  }

  lemma PlainBefore(sql: string)
    requires sql == "UPDATE t UPDATE OR FAIL u"
    ensures TopLevel(sql, 0) && TopLevel(sql, 9)
  {
    hide StateAt;
    StartIsStart(sql);
    PlainKeepsState(sql, 0, 9);
  }

  lemma LetterT(sql: string, k: nat)
    requires sql == "UPDATE t UPDATE OR FAIL u" && 0 < k < 9 && TopLevel(sql, k)
    ensures sql[k..] != "" && Upper(sql[k..][0]) != 'U'
  {
    hide StateAt;
    assert sql[k..][0] == sql[k];
  }

  lemma StartIsStart(sql: string)
    ensures StateAt(sql, 0) == START
  {
  }

  lemma OneVerbNoClause(s: string)
    requires WordThenSpaces(s, 0, "UPDATE") == Some(7) && 7 < |s| && Upper(s[7]) != 'O'
    ensures !HasClause(UpdateVerb, CONFLICT_ALGORITHMS)(s)
  {
    if WordAt(s, 7, "OR") { FirstLetter(s, 7, "OR"); }
  }

  lemma NoVerbNoClause(s: string)
    requires s != "" && Upper(s[0]) != 'U'
    ensures !HasClause(UpdateVerb, CONFLICT_ALGORITHMS)(s)
  {
    if WordAt(s, 0, "UPDATE") { FirstLetter(s, 0, "UPDATE"); }
  }

  lemma ClauseAlgorithm(s: string)
    requires OrClause(s, UpdateVerb, CONFLICT_ALGORITHMS).Some?
    ensures OrClause(s, UpdateVerb, CONFLICT_ALGORITHMS).value.algorithm in CONFLICT_ALGORITHMS
  {
  }

  lemma RestoreIs(n: string, j: nat, e: nat, algorithm: string)
    requires FirstWord(n, HasVerb(UpdateVerb), 0) == Some(j) && WordThenSpaces(n[j..], 0, "UPDATE") == Some(e)
    ensures RestoreUpdate(n, Some(Resolution(UpdateVerb, algorithm))) == WithClause(n, j, e, algorithm)
  {
    hide FirstWord, WordThenSpaces;
  }

  lemma WithClausePrefix(sql: string, i: nat, end: nat, algorithm: string)
    requires i + 6 <= |sql| && i + end <= |sql|
    ensures var c := WithClause(sql, i, end, algorithm); i + 6 <= |c| && c[..i + 6] == sql[..i + 6]
  {
  }

  lemma MisplacedImpossible(sql: string, i: nat, j: nat, algorithm: string, c: string)
    requires j < i && i + 6 <= |c| && i + 6 <= |sql| && c[..i + 6] == sql[..i + 6] && Restored(c[j..], algorithm)
    requires Upper(sql[i]) == 'U' && !IsIdentifier(sql[i - 1])
    ensures HasClause(UpdateVerb, CONFLICT_ALGORITHMS)(sql[j..])
  {
    hide Restored;
    SamePoint(c, sql, i + 6, i);
    SamePoint(c, sql, i + 6, i - 1);
    if i - j < 5 + |algorithm| {
      NoVerbInside(c[j..], algorithm, i - j);
    } else {
      SameWindow(c, sql, i + 6, j, 11 + |algorithm|);
      SameClausePrefix(c[j..], sql[j..], algorithm);
    }
  }

  lemma SamePoint(a: string, b: string, n: nat, k: nat)
    requires k < n <= |a| && n <= |b| && a[..n] == b[..n]
    ensures a[k] == b[k]
  {
    assert a[k] == a[..n][k] && b[k] == b[..n][k];
  }

  lemma SameWindow(a: string, b: string, n: nat, j: nat, m: nat)
    requires j + m <= n <= |a| && n <= |b| && a[..n] == b[..n]
    ensures a[j..][..m] == b[j..][..m]
  {
    assert a[j..][..m] == a[..n][j..j + m] && b[j..][..m] == b[..n][j..j + m];
  }

  lemma SameClausePrefix(s: string, u: string, algorithm: string)
    requires Restored(s, algorithm) && 11 + |algorithm| <= |u| && s[..11 + |algorithm|] == u[..11 + |algorithm|]
    ensures HasClause(UpdateVerb, CONFLICT_ALGORITHMS)(u)
  {
    hide WordAt, OrClause;
    var m := 11 + |algorithm|;
    assert s[..6] == s[..m][..6] && u[..6] == u[..m][..6];
    assert s[6..10] == s[..m][6..10] && u[6..10] == u[..m][6..10];
    assert s[10..10 + |algorithm|] == s[..m][10..10 + |algorithm|] && u[10..10 + |algorithm|] == u[..m][10..10 + |algorithm|];
    assert s[m - 1] == s[..m][m - 1] && u[m - 1] == u[..m][m - 1];
    WordAtPrefix(s, u, "UPDATE");
    ClausePrefix(u, algorithm);
  }

  lemma AfterGap(sql: string, i: nat)
    requires TopLevel(sql, i) && i > 0
    ensures !IsIdentifier(sql[i - 1])
  {
  }

  lemma VerbAt(s: string)
    requires HasClause(UpdateVerb, CONFLICT_ALGORITHMS)(s)
    ensures s != "" && Upper(s[0]) == 'U'
  {
    assert Upper(s[0 + 0]) == "UPDATE"[0];
  }

  /** Removing the clause and restoring it puts it back where it was exactly when no other top-level
      UPDATE precedes it; the restored text is then normalized to the same text and resolution. */
  lemma RemoveThenRestore(sql: string, i: nat)
    requires FirstWord(sql, HasClause(UpdateVerb, CONFLICT_ALGORITHMS), 0) == Some(i)
    ensures var (n, resolution) := RemoveOr(sql, UpdateVerb, CONFLICT_ALGORITHMS);
      var clause := OrClause(sql[i..], UpdateVerb, CONFLICT_ALGORITHMS).value;
      && (RestoreUpdate(n, resolution) == WithClause(sql, i, clause.end, clause.algorithm) <==> FirstWord(sql, HasVerb(UpdateVerb), 0) == Some(i))
      && (FirstWord(sql, HasVerb(UpdateVerb), 0) == Some(i) ==> RemoveOr(RestoreUpdate(n, resolution), UpdateVerb, CONFLICT_ALGORITHMS) == (n, resolution))
  {
    hide TopLevel, WordThenSpaces, FirstWord, OrClause, Letters, RestoreUpdate, WithClause;
    var clause := OrClause(sql[i..], UpdateVerb, CONFLICT_ALGORITHMS).value;
    var n := WithoutClause(sql, i, clause.end);
    AllLetters();
    ClauseAlgorithm(sql[i..]);
    ClauseHasVerb(sql[i..], UpdateVerb, CONFLICT_ALGORITHMS);
    WithoutClauseParts(sql, i, UpdateVerb, CONFLICT_ALGORITHMS);
    var j := FirstWord(sql, HasVerb(UpdateVerb), 0).value;
    if j < i {
      MisplacedClause(sql, i, j);
    } else {
      RemovedVerbFirst(sql, i, i);
      RestoreIs(n, i, 7, clause.algorithm);
      SameWithClause(sql, i, clause.end, n, clause.algorithm);
      RestoreThenRemove(n, i, clause.algorithm);
    }
  }

  lemma SameWithClause(sql: string, i: nat, end: nat, n: string, algorithm: string)
    requires i + 6 <= |sql| && i + end <= |sql| && i + 7 <= |n|
    requires n[..i + 6] == sql[..i + 6] && n[i..][7..] == sql[i..][end..]
    ensures WithClause(n, i, 7, algorithm) == WithClause(sql, i, end, algorithm)
  {
    assert n[..i] == n[..i + 6][..i] && sql[..i] == sql[..i + 6][..i];
    assert n[i..][..6] == n[..i + 6][i..] && sql[i..][..6] == sql[..i + 6][i..];
  }

  // ----- what removal does to the other words -----

  lemma PlainTail(sql: string, i: nat, len: nat)
    requires i + len <= |sql| && StateAt(sql, i) == START
    requires forall m :: 0 <= m < len ==> Plain(sql[i..][m])
    ensures StateAt(sql, i + len) == START
  {
    hide Plain, StateAt;
    assert forall k :: i <= k < i + len ==> sql[k] == sql[i..][k - i];
    PlainKeepsState(sql, i, i + len);
  }

  lemma RemovalKeepsEarlier(sql: string, n: string, i: nat, verb: Verb, k: nat)
    requires i + 6 <= |sql| && i + 7 <= |n| && n[..i + 6] == sql[..i + 6] && WordThenSpaces(n[i..], 0, Keyword(verb)) == Some(7)
    ensures k <= i ==> (TopLevel(n, k) <==> TopLevel(sql, k))
    ensures i < k < i + 7 ==> !TopLevel(n, k)
  {
    hide StateAt, WordThenSpaces;
    if k <= i { PrefixWords(n, sql, i + 6, k); }
    if i < k < i + 7 {
      VerbIsPlain(n[i..], verb);
      assert n[k - 1] == n[i..][k - 1 - i] && n[k] == n[i..][k - i];
    }
  }

  lemma RemovalShiftsLater(sql: string, n: string, i: nat, verb: Verb, end: nat, k: nat)
    requires TopLevel(sql, i) && TopLevel(n, i)
    requires 7 <= end && i + 7 <= |n| && i + end <= |sql| && n[i + 7..] == sql[i + end..]
    requires WordThenSpaces(n[i..], 0, Keyword(verb)) == Some(7)
    requires IsSpace(sql[i..][end - 1]) && forall m :: 0 <= m < end ==> Plain(sql[i..][m])
    ensures TopLevel(n, i + 7 + k) <==> TopLevel(sql, i + end + k)
  {
    hide StateAt, Plain, WordThenSpaces;
    PlainTail(sql, i, end);
    VerbIsPlain(n[i..], verb);
    PlainTail(n, i, 7);
    assert sql[i + end - 1] == sql[i..][end - 1] && n[i + 6] == n[i..][6];
    SpaceIsNoIdentifier(sql[i + end - 1]);
    SpaceIsNoIdentifier(n[i + 6]);
    SuffixWords(n, i + 7, sql, i + end, k);
  }

  /** Removing a clause keeps every top-level word before it, keeps its verb, and shifts the later ones. */
  lemma RemovalShifts(sql: string, i: nat, verb: Verb, algorithms: seq<string>, k: nat)
    requires i < |sql| && TopLevel(sql, i)
    requires OrClause(sql[i..], verb, algorithms).Some? && forall a :: a in algorithms ==> Letters(a)
    ensures var end := OrClause(sql[i..], verb, algorithms).value.end;
      var n := WithoutClause(sql, i, end);
      && (TopLevel(n, i + 7 + k) <==> TopLevel(sql, i + end + k))
      && (k <= i ==> (TopLevel(n, k) <==> TopLevel(sql, k)))
      && (i < k < i + 7 ==> !TopLevel(n, k))
  {
    hide OrClause, WithoutClause, TopLevel, Plain, WordThenSpaces, Letters, IsSpace;
    var end := OrClause(sql[i..], verb, algorithms).value.end;
    var n := WithoutClause(sql, i, end);
    WithoutClauseParts(sql, i, verb, algorithms);
    ClauseIsPlain(sql[i..], verb, algorithms);
    RemovalKeepsEarlier(sql, n, i, verb, i);
    RemovalKeepsEarlier(sql, n, i, verb, k);
    RemovalShiftsLater(sql, n, i, verb, end, k);
  }

  lemma SpaceIsNoIdentifier(c: char)
    requires IsSpace(c)
    ensures !IsIdentifier(c)
  {
  }

  /** A verb and its space: plain text, and no second word in it. */
  lemma VerbIsPlain(s: string, verb: Verb)
    requires WordThenSpaces(s, 0, Keyword(verb)) == Some(7)
    ensures forall m :: 0 <= m < 7 ==> Plain(s[m])
    ensures forall m :: 0 <= m < 6 ==> IsIdentifier(s[m])
    ensures IsSpace(s[6])
  {
    forall m | 0 <= m < 6 ensures IsIdentifier(s[m]) {
      assert Upper(s[0 + m]) == Keyword(verb)[m];
    }
  }

  lemma SkipIs(s: string, i: nat, r: nat)
    requires i <= r < |s| && !IsSpace(s[r]) && forall k :: i <= k < r ==> IsSpace(s[k])
    ensures SkipSpaces(s, i) == r
  {
  }

  lemma WordShift(s: string, u: string, n: nat, i: nat, word: string)
    requires n <= |s| && n <= |u| && s[..n] == u[..n] && i + |word| <= n
    ensures WordAt(s, i, word) <==> WordAt(u, i, word)
  {
    assert forall k :: 0 <= k < n ==> s[k] == s[..n][k] && u[k] == u[..n][k];
  }

  lemma Boundary(sql: string, i: nat)
    requires 0 < i < |sql| && TopLevel(sql, i)
    ensures !IsIdentifier(sql[i - 1])
  {
  }

  lemma VerbLetter(s: string, verb: Verb)
    requires WordThenSpaces(s, 0, Keyword(verb)).Some?
    ensures s != "" && Upper(s[0]) == (if verb.InsertVerb? then 'I' else 'U')
  {
    assert Upper(s[0 + 0]) == Keyword(verb)[0];
  }

  // ----- UPSERT -----

  /** The end of the run of identifier characters from `i`. */
  function WordEnd(s: string, i: nat): (r: nat)
    requires i <= |s|
    ensures i <= r <= |s|
    ensures forall k :: i <= k < r ==> IsIdentifier(s[k])
    ensures r < |s| ==> !IsIdentifier(s[r])
    decreases |s| - i
  {
    if i < |s| && IsIdentifier(s[i]) then WordEnd(s, i + 1) else i
  }

  /** `ON` as a whole word, with `CONFLICT` as the next one. */
  predicate OnConflict(s: string) {
    && WordAt(s, 0, "ON") && (|s| > 2 ==> !IsIdentifier(s[2]))
    && (var j := SkipSpaces(s, 2); WordEnd(s, j) == j + 8 && WordAt(s, j, "CONFLICT"))
  }

  /** The words ON and CONFLICT, in any case, with spaces between them and no identifier going on behind. */
  ghost predicate OnSpacesConflict(s: string, j: nat) {
    && 2 < j && WordAt(s, 0, "ON") && WordAt(s, j, "CONFLICT") && (forall k :: 2 <= k < j ==> IsSpace(s[k]))
    && (j + 8 < |s| ==> !IsIdentifier(s[j + 8]))
  }

  lemma OnConflictExactly(s: string)
    ensures OnConflict(s) <==> exists j: nat :: OnSpacesConflict(s, j)
  {
    hide IsSpace, IsIdentifier, Upper;
    if OnConflict(s) {
      var j := SkipSpaces(s, 2);
      WordLetter(s, j, "CONFLICT", 0);
      assert OnSpacesConflict(s, j);
    }
    if j: nat :| OnSpacesConflict(s, j) { OnThenConflict(s, j); }
  }

  lemma OnThenConflict(s: string, j: nat)
    requires OnSpacesConflict(s, j)
    ensures OnConflict(s)
  {
    hide IsSpace, IsIdentifier, Upper;
    forall k | j <= k < j + 8 ensures IsIdentifier(s[k]) { WordLetter(s, j, "CONFLICT", k - j); }
    if IsSpace(s[j]) { SpaceIsNoIdentifier(s[j]); }
    SpaceIsNoIdentifier(s[2]);
    SkipIs(s, 2, j);
    WordEndIs(s, j, j + 8);
  }

  function HasOnConflict(): string -> bool { s => OnConflict(s) }

  function RStrip(s: string): (r: string)
    ensures |r| <= |s| && r == s[..|r|]
    ensures forall k :: |r| <= k < |s| ==> IsSpace(s[k])
    ensures r != "" ==> !IsSpace(r[|r| - 1])
  {
    if s != "" && IsSpace(s[|s| - 1]) then RStrip(s[..|s| - 1]) else s
  }

  predicate StartsInsertLike(sql: string) {
    var start := SkipSpaces(sql, 0);
    WordAt(sql, start, "INSERT") || WordAt(sql, start, "WITH")
  }

  predicate EndsWithSemicolon(sql: string) {
    var r := RStrip(sql);
    r != "" && r[|r| - 1] == ';'
  }

  /** `strip_top_level_upsert`. */
  function StripUpsert(sql: string): Option<string> {
    if !StartsInsertLike(sql) then None
    else
      match FirstWord(sql, HasOnConflict(), 0)
      case None => None
      case Some(index) =>
        var stripped := RStrip(sql[..index]);
        Some(if EndsWithSemicolon(sql) then stripped + ";" else stripped)
  }

  lemma WordEndIs(s: string, i: nat, r: nat)
    requires i <= r <= |s| && (r < |s| ==> !IsIdentifier(s[r])) && forall k :: i <= k < r ==> IsIdentifier(s[k])
    ensures WordEnd(s, i) == r
  {
  }

  /** An ON CONFLICT inside a common prefix that ends at a word boundary stands in both texts. */
  lemma OnConflictPrefix(s: string, u: string, n: nat)
    requires OnConflict(s) && 0 < n <= |s| && n <= |u| && s[..n] == u[..n]
    requires (|s| == n || s[n..] == ";") && (n < |u| && IsIdentifier(s[n - 1]) ==> !IsIdentifier(u[n]))
    ensures OnConflict(u)
  {
    var j := SkipSpaces(s, 2);
    assert Upper(s[j + 0]) == "CONFLICT"[0] && Upper(s[j + 7]) == "CONFLICT"[7];
    assert forall k :: 0 <= k < n ==> s[k] == s[..n][k] && u[k] == u[..n][k];
    if |s| > n { assert s[n] == s[n..][0] == ';'; }
    assert j + 8 <= n;
    SkipIs(u, 2, j);
    WordEndIs(u, j, j + 8);
    WordShift(s, u, n, 0, "ON");
    WordShift(s, u, n, j, "CONFLICT");
  }

  lemma StrippedBoundary(sql: string, index: nat)
    requires index < |sql| && TopLevel(sql, index)
    ensures var p := RStrip(sql[..index]);
      |p| <= index && sql[..|p|] == p && (p != "" && IsIdentifier(p[|p| - 1]) ==> !IsIdentifier(sql[|p|]))
  {
    hide StateAt, RStrip;
    var p := RStrip(sql[..index]);
    assert p == sql[..index][..|p|] == sql[..|p|];
    if |p| < index {
      assert sql[|p|] == sql[..index][|p|];
      SpaceIsNoIdentifier(sql[|p|]);
    }
  }

  /** Stripping leaves no top-level ON CONFLICT behind, so stripping again finds nothing. */
  lemma StrippedLeavesNone(sql: string, n: string)
    requires StripUpsert(sql) == Some(n)
    ensures FirstWord(n, HasOnConflict(), 0).None?
    ensures StripUpsert(n).None?
  {
    hide TopLevel, OnConflict, RStrip;
    var index := FirstWord(sql, HasOnConflict(), 0).value;
    var p := RStrip(sql[..index]);
    StrippedBoundary(sql, index);
    forall k: nat | k < |n| && TopLevel(n, k) ensures !OnConflict(n[k..]) {
      if OnConflict(n[k..]) { StrippedNone(sql, index, n, k); }
    }
    FirstIsNone(n, HasOnConflict());
  }

  lemma StrippedNone(sql: string, index: nat, n: string, k: nat)
    requires index < |sql| && TopLevel(sql, index) && k < |n| && TopLevel(n, k) && OnConflict(n[k..])
    requires n == RStrip(sql[..index]) || n == RStrip(sql[..index]) + ";"
    ensures k < index && TopLevel(sql, k) && OnConflict(sql[k..])
  {
    hide StateAt, OnConflict, RStrip;
    var p := RStrip(sql[..index]);
    StrippedBoundary(sql, index);
    assert n[..|p|] == p;
    PrefixWords(n, sql, |p|, k);
    assert n[k..][..|p| - k] == n[..|p|][k..] && sql[k..][..|p| - k] == sql[..|p|][k..];
    if |n| > |p| { assert n[k..][|p| - k..] == ";"; }
    assert n[k..][|p| - k - 1] == n[..|p|][|p| - 1] == p[|p| - 1];
    OnConflictPrefix(n[k..], sql[k..], |p| - k);
  }

  // ----- the whole normalization -----

  datatype CompatibleSql = CompatibleSql(sql: string, resolution: Option<Resolution>, strippedUpsert: bool)

  function InsertOrResolution(sql: string): Option<Resolution> {
    RemoveOr(sql, InsertVerb, CONFLICT_ALGORITHMS).1
  }

  function ReplaceInto(s: string): Option<nat> {
    var r := WordThenSpaces(s, 0, "REPLACE");
    if r.None? then None else WordThenSpaces(s, r.value, "INTO")
  }

  function NormalizeReplace(sql: string): (string, Option<Resolution>) {
    match FirstWord(sql, s => ReplaceInto(s).Some?, 0)
    case None => (sql, None)
    case Some(i) => (sql[..i] + "INSERT OR REPLACE" + sql[i..][7..], Some(Resolution(InsertVerb, "REPLACE")))
  }

  function Unupserted(sql: string, resolution: Option<Resolution>): (r: CompatibleSql)
    ensures r.strippedUpsert <==> r.sql != sql
    ensures r.sql == sql || StripUpsert(sql) == Some(r.sql)
  {
    var without := StripUpsert(sql);
    if without.Some? && without.value != sql then CompatibleSql(without.value, resolution, true)
    else CompatibleSql(sql, resolution, false)
  }

  /** `normalize_sql_for_sqlglot`. */
  function Normalize(sql: string): CompatibleSql {
    var update := RemoveOr(sql, UpdateVerb, CONFLICT_ALGORITHMS);
    if update.1.Some? then Unupserted(update.0, update.1)
    else
      var insert := InsertOrResolution(sql);
      if insert.Some? then Unupserted(sql, insert)
      else
        var replaced := NormalizeReplace(sql);
        Unupserted(replaced.0, replaced.1)
  }

  // ----- what the stripping leaves -----

  /** The spaces in front end at `m`. */
  ghost predicate SpacesUpTo(s: string, m: nat) {
    m <= |s| && (forall k :: 0 <= k < m ==> IsSpace(s[k])) && (m < |s| ==> !IsSpace(s[m]))
  }

  /** Behind any spaces the text begins with INSERT or WITH. */
  ghost predicate BeginsLikeInsert(sql: string) {
    exists m: nat :: SpacesUpTo(sql, m) && (WordAt(sql, m, "INSERT") || WordAt(sql, m, "WITH"))
  }

  /** The last character that is no space is a semicolon. */
  ghost predicate ClosedBySemicolon(sql: string) {
    exists m: nat :: m < |sql| && sql[m] == ';' && forall k :: m < k < |sql| ==> IsSpace(sql[k])
  }

  /** The text up to `i` without the spaces before it, closed by a semicolon if the whole was. */
  ghost predicate CutOff(sql: string, i: nat, n: string) {
    && i <= |sql|
    && exists t: nat :: t <= i && (forall k :: t <= k < i ==> IsSpace(sql[k])) && (t > 0 ==> !IsSpace(sql[t - 1]))
         && n == if ClosedBySemicolon(sql) then sql[..t] + ";" else sql[..t]
  }

  /** An UPSERT is cut off at the first top-level ON CONFLICT of a text that begins like an INSERT; no other text changes. */
  lemma StripUpsertCases(sql: string, i: nat)
    ensures StripUpsert(sql).None? <==> !BeginsLikeInsert(sql) || Nowhere(sql, HasOnConflict())
    ensures BeginsLikeInsert(sql) && FirstAt(sql, HasOnConflict(), i) ==> StripUpsert(sql).Some? && CutOff(sql, i, StripUpsert(sql).value)
  {
    hide TopLevel, FirstWord, OnConflict, RStrip, IsSpace, Upper, StartsInsertLike, EndsWithSemicolon, BeginsLikeInsert, ClosedBySemicolon;
    FirstWordIs(sql, HasOnConflict());
    BeginsIs(sql);
    ClosedIs(sql);
    if i <= |sql| {
      var p := RStrip(sql[..i]);
      assert p == sql[..i][..|p|] == sql[..|p|];
      forall k | |p| <= k < i ensures IsSpace(sql[k]) { assert sql[k] == sql[..i][k]; }
    }
  }

  lemma BeginsIs(sql: string)
    ensures StartsInsertLike(sql) <==> BeginsLikeInsert(sql)
  {
    hide IsSpace, Upper, WordAt, SkipSpaces, SpacesUpTo;
    forall m: nat { SpacesUpToIs(sql, m); }
  }

  lemma SpacesUpToIs(s: string, m: nat)
    ensures SpacesUpTo(s, m) <==> m == SkipSpaces(s, 0)
  {
    if SpacesUpTo(s, m) { SkipTo(s, 0, m); }
  }

  lemma ClosedIs(sql: string)
    ensures EndsWithSemicolon(sql) <==> ClosedBySemicolon(sql)
  {
    hide Upper;
    var p := RStrip(sql);
    if m: nat :| m < |sql| && sql[m] == ';' && forall k :: m < k < |sql| ==> IsSpace(sql[k]) {
      SemicolonIsLast(sql, m);
    }
    if EndsWithSemicolon(sql) { assert sql[|p| - 1] == p[|p| - 1]; }
  }

  lemma SemicolonIsLast(sql: string, m: nat)
    requires m < |sql| && sql[m] == ';' && forall k :: m < k < |sql| ==> IsSpace(sql[k])
    ensures |RStrip(sql)| == m + 1 && RStrip(sql)[m] == ';'
  {
    var p := RStrip(sql);
    assert !IsSpace(sql[m]);
    assert |p| > m;
    assert p[|p| - 1] == sql[|p| - 1];
  }

  // ----- what the normalization makes of a clause -----

  /** A word, at least one space, and what follows them at `j`. */
  ghost predicate SpacedWord(s: string, i: nat, word: string, j: nat) {
    i + |word| < j <= |s| && WordAt(s, i, word) && (forall k :: i + |word| <= k < j ==> IsSpace(s[k])) && (j < |s| ==> !IsSpace(s[j]))
  }

  lemma SpacedWordIs(s: string, i: nat, word: string, j: nat)
    requires i <= |s|
    ensures SpacedWord(s, i, word, j) <==> WordThenSpaces(s, i, word) == Some(j)
  {
    if SpacedWord(s, i, word, j) { SkipTo(s, i + |word|, j); }
  }

  lemma SkipTo(s: string, i: nat, j: nat)
    requires i <= j <= |s| && (forall k :: i <= k < j ==> IsSpace(s[k])) && (j < |s| ==> !IsSpace(s[j]))
    ensures SkipSpaces(s, i) == j
  {
  }

  /** The text begins with the verb, OR, the algorithm and a space, in any case and with any spaces between them. */
  ghost predicate CarriesOr(s: string, verb: Verb, algorithm: string) {
    exists v: nat, o: nat, end: nat :: SpacedWord(s, 0, Keyword(verb), v) && SpacedWord(s, v, "OR", o) && SpacedWord(s, o, algorithm, end)
  }

  /** The text begins with REPLACE INTO. */
  ghost predicate ReplacesInto(s: string) {
    exists j: nat, end: nat :: SpacedWord(s, 0, "REPLACE", j) && SpacedWord(s, j, "INTO", end)
  }

  lemma OrClauseIs(s: string, verb: Verb, algorithm: string)
    requires algorithm in CONFLICT_ALGORITHMS
    ensures CarriesOr(s, verb, algorithm) <==>
      OrClause(s, verb, CONFLICT_ALGORITHMS).Some? && OrClause(s, verb, CONFLICT_ALGORITHMS).value.algorithm == algorithm
  {
    hide SpacedWord, SkipSpaces, WordThenSpaces, AlgorithmAt;
    var clause := OrClause(s, verb, CONFLICT_ALGORITHMS);
    if v: nat, o: nat, end: nat :| SpacedWord(s, 0, Keyword(verb), v) && SpacedWord(s, v, "OR", o) && SpacedWord(s, o, algorithm, end) {
      SpacedWordIs(s, 0, Keyword(verb), v);
      SpacedWordIs(s, v, "OR", o);
      SpacedWordIs(s, o, algorithm, end);
      SameAlgorithm(s, o, algorithm, clause.value.algorithm);
    }
    if clause.Some? && clause.value.algorithm == algorithm {
      var v := WordThenSpaces(s, 0, Keyword(verb)).value;
      var o := WordThenSpaces(s, v, "OR").value;
      SpacedWordIs(s, 0, Keyword(verb), v);
      SpacedWordIs(s, v, "OR", o);
      SpacedWordIs(s, o, algorithm, clause.value.end);
    }
  }

  lemma SameAlgorithm(s: string, i: nat, a: string, b: string)
    requires i <= |s| && a in CONFLICT_ALGORITHMS && b in CONFLICT_ALGORITHMS
    requires WordThenSpaces(s, i, a).Some? && WordThenSpaces(s, i, b).Some?
    ensures a == b
  {
    OneAlgorithm(s, i, a, b);
  }

  lemma ReplaceIntoIs(s: string)
    ensures ReplaceInto(s).Some? <==> ReplacesInto(s)
  {
    hide SpacedWord, SkipSpaces, WordThenSpaces;
    if j: nat, end: nat :| SpacedWord(s, 0, "REPLACE", j) && SpacedWord(s, j, "INTO", end) {
      SpacedWordIs(s, 0, "REPLACE", j);
      SpacedWordIs(s, j, "INTO", end);
    }
    if ReplaceInto(s).Some? {
      SpacedWordIs(s, 0, "REPLACE", WordThenSpaces(s, 0, "REPLACE").value);
      SpacedWordIs(s, WordThenSpaces(s, 0, "REPLACE").value, "INTO", ReplaceInto(s).value);
    }
  }

  /** The place of the first top-level word the pattern matches. */
  ghost predicate FirstAt(sql: string, p: string -> bool, i: nat) {
    i < |sql| && TopLevel(sql, i) && p(sql[i..]) && forall k: nat :: k < i && TopLevel(sql, k) ==> !p(sql[k..])
  }

  ghost predicate Nowhere(sql: string, p: string -> bool) {
    forall k: nat :: k < |sql| && TopLevel(sql, k) ==> !p(sql[k..])
  }

  lemma FirstWordIs(sql: string, p: string -> bool)
    ensures forall i: nat :: FirstAt(sql, p, i) <==> FirstWord(sql, p, 0) == Some(i)
    ensures Nowhere(sql, p) <==> FirstWord(sql, p, 0).None?
  {
    hide TopLevel, FirstWord;
  }

  /** `n` is the text with the REPLACE at `i` written INSERT OR REPLACE. */
  ghost predicate ReplaceSpelledOut(sql: string, i: nat, n: string) {
    i + 7 <= |sql| && |n| == |sql| + 10 && n[..i] == sql[..i] && n[i..i + 17] == "INSERT OR REPLACE" && n[i + 17..] == sql[i + 7..]
  }

  /** What the normalization finds, first of all: an UPDATE OR clause, which it removes; else an INSERT OR clause, which it
      leaves where it is; else a REPLACE INTO, which it writes as the INSERT OR REPLACE it stands for; else nothing. The
      resolution is that of the clause, and an UPSERT goes in every case. */
  lemma NormalizeCases(sql: string, i: nat, algorithm: string)
    requires algorithm in CONFLICT_ALGORITHMS
    ensures FirstAt(sql, HasClause(UpdateVerb, CONFLICT_ALGORITHMS), i) && CarriesOr(sql[i..], UpdateVerb, algorithm) ==>
      Normalize(sql).resolution == Some(Resolution(UpdateVerb, algorithm))
    ensures Nowhere(sql, HasClause(UpdateVerb, CONFLICT_ALGORITHMS)) ==>
      && (FirstAt(sql, HasClause(InsertVerb, CONFLICT_ALGORITHMS), i) && CarriesOr(sql[i..], InsertVerb, algorithm) ==>
            Normalize(sql) == Unupserted(sql, Some(Resolution(InsertVerb, algorithm))))
      && (Nowhere(sql, HasClause(InsertVerb, CONFLICT_ALGORITHMS)) && FirstAt(sql, s => ReplacesInto(s), i) ==>
            exists n :: ReplaceSpelledOut(sql, i, n) && CarriesOr(n[i..], InsertVerb, "REPLACE")
              && Normalize(sql) == Unupserted(n, Some(Resolution(InsertVerb, "REPLACE"))))
      && (Nowhere(sql, HasClause(InsertVerb, CONFLICT_ALGORITHMS)) && Nowhere(sql, s => ReplacesInto(s)) ==>
            Normalize(sql) == Unupserted(sql, None))
  {
    hide FirstAt, Nowhere, CarriesOr, ReplacesInto, ReplaceSpelledOut, Normalize, Unupserted;
    UpdateCase(sql, i, algorithm);
    InsertCase(sql, i, algorithm);
    if Nowhere(sql, HasClause(UpdateVerb, CONFLICT_ALGORITHMS)) && Nowhere(sql, HasClause(InsertVerb, CONFLICT_ALGORITHMS)) {
      ReplaceCase(sql, i);
    }
  }

  lemma UpdateCase(sql: string, i: nat, algorithm: string)
    requires algorithm in CONFLICT_ALGORITHMS
    ensures FirstAt(sql, HasClause(UpdateVerb, CONFLICT_ALGORITHMS), i) && CarriesOr(sql[i..], UpdateVerb, algorithm) ==>
      Normalize(sql).resolution == Some(Resolution(UpdateVerb, algorithm))
  {
    hide TopLevel, FirstWord, CarriesOr, OrClause, Unupserted;
    FirstWordIs(sql, HasClause(UpdateVerb, CONFLICT_ALGORITHMS));
    UnupsertedResolution(RemoveOr(sql, UpdateVerb, CONFLICT_ALGORITHMS));
    if i <= |sql| { OrClauseIs(sql[i..], UpdateVerb, algorithm); }
  }

  lemma InsertCase(sql: string, i: nat, algorithm: string)
    requires algorithm in CONFLICT_ALGORITHMS
    ensures Nowhere(sql, HasClause(UpdateVerb, CONFLICT_ALGORITHMS)) ==>
      FirstAt(sql, HasClause(InsertVerb, CONFLICT_ALGORITHMS), i) && CarriesOr(sql[i..], InsertVerb, algorithm) ==>
        Normalize(sql) == Unupserted(sql, Some(Resolution(InsertVerb, algorithm)))
  {
    hide TopLevel, FirstWord, CarriesOr, OrClause, Unupserted;
    FirstWordIs(sql, HasClause(UpdateVerb, CONFLICT_ALGORITHMS));
    FirstWordIs(sql, HasClause(InsertVerb, CONFLICT_ALGORITHMS));
    if i <= |sql| { OrClauseIs(sql[i..], InsertVerb, algorithm); }
  }

  lemma ReplaceCase(sql: string, i: nat)
    requires Nowhere(sql, HasClause(UpdateVerb, CONFLICT_ALGORITHMS)) && Nowhere(sql, HasClause(InsertVerb, CONFLICT_ALGORITHMS))
    ensures FirstAt(sql, s => ReplacesInto(s), i) ==>
      exists n :: ReplaceSpelledOut(sql, i, n) && CarriesOr(n[i..], InsertVerb, "REPLACE")
        && Normalize(sql) == Unupserted(n, Some(Resolution(InsertVerb, "REPLACE")))
    ensures Nowhere(sql, s => ReplacesInto(s)) ==> Normalize(sql) == Unupserted(sql, None)
  {
    hide TopLevel, FirstWord, CarriesOr, OrClause, ReplaceInto, ReplacesInto, Unupserted, ReplaceSpelledOut;
    FirstWordIs(sql, HasClause(UpdateVerb, CONFLICT_ALGORITHMS));
    FirstWordIs(sql, HasClause(InsertVerb, CONFLICT_ALGORITHMS));
    FirstWordIs(sql, s => ReplaceInto(s).Some?);
    forall s { ReplaceIntoIs(s); }
    if i <= |sql| && ReplacesInto(sql[i..]) { SpelledOut(sql, i); }
  }

  lemma UnupsertedResolution(removed: (string, Option<Resolution>))
    ensures Unupserted(removed.0, removed.1).resolution == removed.1
  {
  }

  lemma SpelledOut(sql: string, i: nat)
    requires i <= |sql| && ReplacesInto(sql[i..])
    ensures i + 7 <= |sql|
    ensures var n := sql[..i] + "INSERT OR REPLACE" + sql[i..][7..];
      ReplaceSpelledOut(sql, i, n) && CarriesOr(n[i..], InsertVerb, "REPLACE")
  {
    hide SkipSpaces, IsSpace, Upper, CarriesOr;
    var s := sql[i..];
    var j: nat, end: nat :| SpacedWord(s, 0, "REPLACE", j) && SpacedWord(s, j, "INTO", end);
    var word := "INSERT OR REPLACE";
    var n := sql[..i] + word + s[7..];
    assert n[i..] == word + s[7..] && s[7..] == sql[i + 7..];
    assert n[i..i + 17] == word && n[i + 17..] == s[7..];
    NextWord(s, j);
    SpelledCarries(s, n[i..], j);
  }

  lemma NextWord(s: string, j: nat)
    requires j <= |s| && WordAt(s, j, "INTO")
    ensures j < |s| && !IsSpace(s[j])
  {
    assert Upper(s[j + 0]) == "INTO"[0];
  }

  lemma SpelledCarries(s: string, u: string, j: nat)
    requires SpacedWord(s, 0, "REPLACE", j) && u == "INSERT OR REPLACE" + s[7..] && j < |s|
    ensures CarriesOr(u, InsertVerb, "REPLACE")
  {
    hide SkipSpaces;
    var word := "INSERT OR REPLACE";
    assert forall k :: 0 <= k < 17 ==> u[k] == word[k];
    assert forall k :: 17 <= k < |u| ==> u[k] == s[k - 10];
    SpelledWords(u);
    assert SpacedWord(u, 10, "REPLACE", j + 10);
  }

  lemma SpelledWords(u: string)
    requires |u| > 17 && forall k :: 0 <= k < 17 ==> u[k] == "INSERT OR REPLACE"[k]
    ensures SpacedWord(u, 0, "INSERT", 7) && SpacedWord(u, 7, "OR", 10) && WordAt(u, 10, "REPLACE")
  {
    var word := "INSERT OR REPLACE";
    assert word[..6] == "INSERT" && word[7..9] == "OR" && word[10..] == "REPLACE";
    assert forall k :: 0 <= k < 6 ==> u[k] == word[..6][k];
    assert forall k :: 0 <= k < 2 ==> u[7 + k] == word[7..9][k];
    assert forall k :: 0 <= k < 7 ==> u[10 + k] == word[10..][k];
  }

  /** An update resolution comes from a removed update clause. */
  lemma UpdateResolution(sql: string)
    requires Normalize(sql).resolution.Some? && Normalize(sql).resolution.value.verb == UpdateVerb
    ensures FirstWord(sql, HasClause(UpdateVerb, CONFLICT_ALGORITHMS), 0).Some?
    ensures var (n, resolution) := RemoveOr(sql, UpdateVerb, CONFLICT_ALGORITHMS); Normalize(sql) == Unupserted(n, resolution)
  {
    hide FirstWord, OrClause;
  }

  lemma RemovedUpdateIs(sql: string, i: nat)
    requires FirstWord(sql, HasClause(UpdateVerb, CONFLICT_ALGORITHMS), 0) == Some(i)
    ensures var clause := OrClause(sql[i..], UpdateVerb, CONFLICT_ALGORITHMS).value;
      RemoveOr(sql, UpdateVerb, CONFLICT_ALGORITHMS) == (WithoutClause(sql, i, clause.end), Some(Resolution(UpdateVerb, clause.algorithm)))
  {
    hide FirstWord, OrClause, TopLevel;
  }

  /** One statement through all the rewrites. */
  lemma UpdateOrFail()
    ensures var sql := "UPDATE OR FAIL t";
      var resolution := Some(Resolution(UpdateVerb, "FAIL"));
      && FirstWord(sql, HasClause(UpdateVerb, CONFLICT_ALGORITHMS), 0) == Some(0) && FirstWord("UPDATE t", HasVerb(UpdateVerb), 0) == Some(0)
      && Normalize(sql) == CompatibleSql("UPDATE t", resolution, false)
      && RestoreUpdate("UPDATE t", resolution) == sql
  {
    hide OrClause, FirstWord, WordThenSpaces, TopLevel, WithClause, WithoutClause, StripUpsert;
    var sql, plain := "UPDATE OR FAIL t", "UPDATE t";
    ClauseOfExample(sql);
    VerbOfExample(plain);
    assert sql[0..] == sql && plain[0..] == plain;
    ExampleTexts(sql, plain);
    RemovedUpdateIs(sql, 0);
    RestoreIs(plain, 0, 7, "FAIL");
    NotInsertLike(plain);
  }

  lemma ClauseOfExample(sql: string)
    requires sql == "UPDATE OR FAIL t"
    ensures OrClause(sql, UpdateVerb, CONFLICT_ALGORITHMS) == Some(Clause("FAIL", 15))
    ensures FirstWord(sql, HasClause(UpdateVerb, CONFLICT_ALGORITHMS), 0) == Some(0)
  {
    hide OrClause, FirstWord;
    assert sql[6..10] == " OR " && sql[10..14] == "FAIL" && "FAIL" == CONFLICT_ALGORITHMS[2];
    RestoredClause(sql, "FAIL");
    assert sql[0..] == sql;
    FirstIs(sql, HasClause(UpdateVerb, CONFLICT_ALGORITHMS), 0);
  }

  lemma VerbOfExample(plain: string)
    requires plain == "UPDATE t"
    ensures WordThenSpaces(plain, 0, "UPDATE") == Some(7) && FirstWord(plain, HasVerb(UpdateVerb), 0) == Some(0)
  {
    hide FirstWord, WordThenSpaces, SkipSpaces;
    assert plain[0..] == plain;
    OneSpace(plain, 0, "UPDATE");
    FirstIs(plain, HasVerb(UpdateVerb), 0);
  }

  lemma ExampleTexts(sql: string, plain: string)
    requires sql == "UPDATE OR FAIL t" && plain == "UPDATE t"
    ensures WithoutClause(sql, 0, 15) == plain && WithClause(plain, 0, 7, "FAIL") == sql
  {
    assert sql[0..] == sql && plain[0..] == plain;
  }

  lemma NotInsertLike(sql: string)
    requires sql != "" && Upper(sql[0]) == 'U'
    ensures StripUpsert(sql).None?
  {
    assert SkipSpaces(sql, 0) == 0;
    if WordAt(sql, 0, "INSERT") { FirstLetter(sql, 0, "INSERT"); }
    if WordAt(sql, 0, "WITH") { FirstLetter(sql, 0, "WITH"); }
  }

  lemma FirstLetter(s: string, i: nat, word: string)
    requires word != "" && WordAt(s, i, word)
    ensures Upper(s[i]) == word[0]
  {
    assert Upper(s[i + 0]) == word[0];
  }

  // ----- normalizing twice -----

  /** Where a top-level UPSERT is cut off. */
  function Cut(sql: string): Option<nat> {
    if StartsInsertLike(sql) then FirstWord(sql, HasOnConflict(), 0) else None
  }

  lemma StripIsCut(sql: string)
    ensures StripUpsert(sql).Some? <==> Cut(sql).Some?
    ensures StripUpsert(sql).Some? ==> |StripUpsert(sql).value| < |sql|
  {
    hide TopLevel, WordAt;
    if Cut(sql).Some? { OnLength(sql[Cut(sql).value..]); }
  }

  lemma OnLength(s: string)
    requires OnConflict(s)
    ensures |s| >= 2
  {
  }

  /** Exactly one space behind the verb at `j`. */
  predicate OneSpaceAfter(sql: string, j: nat)
    requires j + 6 < |sql|
  {
    WordThenSpaces(sql[j..], 0, "UPDATE") == Some(7) && sql[j + 6] == ' '
  }

  /** Where the spaces behind the verb at `j` end. */
  function VerbEnd(sql: string, j: nat): nat
    requires j <= |sql|
  {
    var end := WordThenSpaces(sql[j..], 0, "UPDATE");
    j + if end.Some? then end.value else 0
  }

  lemma VerbFollowed(n: string, j: nat)
    requires j <= |n| && HasVerb(UpdateVerb)(n[j..])
    ensures j + 7 <= VerbEnd(n, j) <= |n| && (VerbEnd(n, j) < |n| ==> !IsSpace(n[VerbEnd(n, j)]))
    ensures forall k :: j + 6 <= k < VerbEnd(n, j) ==> IsSpace(n[k])
  {
    var s := n[j..];
    assert forall k :: j + 6 <= k < VerbEnd(n, j) ==> n[k] == s[k - j];
  }

  /** A text with an update resolution, restored and normalized, is itself again. */
  predicate ComesBack(sql: string, algorithm: string) {
    var resolution := Some(Resolution(UpdateVerb, algorithm));
    Normalize(RestoreUpdate(sql, resolution)) == CompatibleSql(sql, resolution, false)
  }

  /** A text without an UPSERT comes back exactly when one space follows its first top-level UPDATE. */
  lemma ComesBackWithVerb(c: string, j: nat, algorithm: string)
    requires FirstWord(c, HasVerb(UpdateVerb), 0) == Some(j) && Cut(c).None? && algorithm in CONFLICT_ALGORITHMS
    ensures j + 6 < |c| && (ComesBack(c, algorithm) <==> OneSpaceAfter(c, j))
  {
    hide FirstWord, TopLevel, OrClause, StripUpsert, WithoutClause, RestoreUpdate, WordAt, SkipSpaces, Cut;
    RestoreThenRemove(c, j, algorithm);
    var end := WordThenSpaces(c[j..], 0, "UPDATE").value;
    StripIsCut(c);
    StripIsCut(WithoutClause(c, j, end));
    WithoutLength(c, j, end);
  }

  lemma WithoutLength(sql: string, i: nat, end: nat)
    requires i + end <= |sql| && 7 <= end
    ensures |WithoutClause(sql, i, end)| <= |sql|
  {
  }

  /** A text without a top-level UPDATE never comes back with an update resolution. */
  lemma ComesBackWithoutVerb(c: string, algorithm: string)
    requires FirstWord(c, HasVerb(UpdateVerb), 0).None?
    ensures !ComesBack(c, algorithm)
  {
    hide TopLevel, OrClause, StripUpsert, WordThenSpaces, FirstWord;
    forall k: nat | k < |c| && TopLevel(c, k) ensures !HasClause(UpdateVerb, CONFLICT_ALGORITHMS)(c[k..]) {
      if HasClause(UpdateVerb, CONFLICT_ALGORITHMS)(c[k..]) { ClauseHasVerb(c[k..], UpdateVerb, CONFLICT_ALGORITHMS); }
    }
    FirstIsNone(c, HasClause(UpdateVerb, CONFLICT_ALGORITHMS));
  }

  /** What is left when the UPSERT of `n` is cut off at `x`. */
  ghost predicate CutAt(n: string, x: nat, c: string) {
    && x < |n| && TopLevel(n, x) && (c == RStrip(n[..x]) || c == RStrip(n[..x]) + ";")
  }

  /** Behind the verb and its spaces the cut leaves the verb where it is. */
  lemma CutBehindVerb(n: string, x: nat, c: string, j: nat)
    requires CutAt(n, x, c) && FirstWord(n, HasVerb(UpdateVerb), 0) == Some(j) && x > VerbEnd(n, j)
    ensures FirstWord(c, HasVerb(UpdateVerb), 0) == Some(j)
    ensures j + 6 < |c| && j + 6 < |n| && (OneSpaceAfter(c, j) <==> OneSpaceAfter(n, j))
  {
    hide FirstWord, TopLevel, RStrip, VerbEnd, WordThenSpaces;
    var p := RStrip(n[..x]);
    StrippedBoundary(n, x);
    VerbFollowed(n, j);
    StripKeeps(n, x, VerbEnd(n, j));
    assert c[..|p|] == p;
    PrefixWords(c, n, |p|, j);
    SameVerbWindow(c, n, |p|, j);
    forall k: nat | k < j && TopLevel(c, k) ensures !HasVerb(UpdateVerb)(c[k..]) {
      PrefixWords(c, n, |p|, k);
      SameVerbBefore(c, n, |p|, k, UpdateVerb);
    }
    FirstIs(c, HasVerb(UpdateVerb), j);
  }

  lemma StripKeeps(n: string, x: nat, e: nat)
    requires e < x <= |n| && !IsSpace(n[e])
    ensures |RStrip(n[..x])| > e
  {
    assert n[..x][e] == n[e];
  }

  lemma SameVerbWindow(c: string, n: string, m: nat, j: nat)
    requires m <= |c| && m <= |n| && c[..m] == n[..m] && j <= |n| && HasVerb(UpdateVerb)(n[j..]) && VerbEnd(n, j) < m
    ensures WordThenSpaces(c[j..], 0, "UPDATE") == WordThenSpaces(n[j..], 0, "UPDATE") && c[j + 6] == n[j + 6]
  {
    hide WordAt;
    var e := VerbEnd(n, j);
    VerbFollowed(n, j);
    forall k: nat | k <= e ensures c[k] == n[k] { SamePoint(c, n, m, k); }
    SameWindow(c, n, m, j, 6);
    WordAtPrefix(c[j..], n[j..], "UPDATE");
    SkipIs(c[j..], 6, e - j);
    SkipIs(n[j..], 6, e - j);
  }

  /** Otherwise the cut takes the verb, or the space it needs. */
  lemma CutTakesVerb(n: string, x: nat, c: string, j: nat)
    requires CutAt(n, x, c) && FirstWord(n, HasVerb(UpdateVerb), 0) == Some(j) && x <= VerbEnd(n, j)
    ensures FirstWord(c, HasVerb(UpdateVerb), 0).None?
  {
    hide FirstWord, TopLevel, RStrip, StateAt, WordThenSpaces;
    var p := RStrip(n[..x]);
    StrippedBoundary(n, x);
    assert c[..|p|] == p;
    forall k: nat | k < |c| && TopLevel(c, k) ensures !HasVerb(UpdateVerb)(c[k..]) {
      if HasVerb(UpdateVerb)(c[k..]) {
        VerbInside(c, p, k);
        PrefixWords(c, n, |p|, k);
        SameVerbBefore(c, n, |p|, k, UpdateVerb);
        SpaceInside(n, x, j, k);
      }
    }
    FirstIsNone(c, HasVerb(UpdateVerb));
  }

  /** A verb in the stripped text has its space there. */
  lemma VerbInside(c: string, p: string, k: nat)
    requires (c == p || c == p + ";") && k <= |c| && HasVerb(UpdateVerb)(c[k..])
    ensures k + 6 < |p|
  {
    var s := c[k..];
    assert IsSpace(s[6]);
    if |c| > |p| { assert c[|p|] == ';'; }
    assert s[6] == c[k + 6];
  }

  /** The stripped text ends in no space, so it ends before the verb's spaces do. */
  lemma SpaceInside(n: string, x: nat, j: nat, k: nat)
    requires FirstWord(n, HasVerb(UpdateVerb), 0) == Some(j) && x < |n| && x <= VerbEnd(n, j)
    requires k < |n| && TopLevel(n, k) && HasVerb(UpdateVerb)(n[k..])
    ensures k + 6 >= |RStrip(n[..x])|
  {
    hide FirstWord, TopLevel, RStrip, WordThenSpaces, VerbEnd;
    assert k >= j;
    LastKept(n, x);
    VerbFollowed(n, j);
  }

  lemma LastKept(n: string, x: nat)
    requires x <= |n|
    ensures var p := RStrip(n[..x]); |p| <= x && (p != "" ==> !IsSpace(n[|p| - 1]))
  {
    hide RStrip, IsSpace;
    var p := RStrip(n[..x]);
    if p != "" { assert p[|p| - 1] == n[..x][..|p|][|p| - 1] == n[|p| - 1]; }
  }

  lemma StrippedIsCutAt(n: string)
    requires Cut(n).Some?
    ensures StripUpsert(n).Some? && CutAt(n, Cut(n).value, StripUpsert(n).value) && StripUpsert(n).value != n
    ensures Cut(StripUpsert(n).value).None?
  {
    hide FirstWord, TopLevel, RStrip, OnConflict;
    StripIsCut(n);
    StrippedLeavesNone(n, StripUpsert(n).value);
    StripIsCut(StripUpsert(n).value);
  }

  /** A text whose UPSERT is cut off at `x`. */
  lemma CutComesBack(n: string, j: nat, x: nat, c: string, algorithm: string)
    requires FirstWord(n, HasVerb(UpdateVerb), 0) == Some(j) && CutAt(n, x, c) && Cut(c).None? && algorithm in CONFLICT_ALGORITHMS
    ensures j + 6 < |n|
    ensures ComesBack(c, algorithm) <==> OneSpaceAfter(n, j) && x > VerbEnd(n, j)
  {
    hide FirstWord, TopLevel, RStrip, ComesBack, OneSpaceAfter, OnConflict, VerbEnd, WordThenSpaces, Cut, CutAt;
    VerbFollowed(n, j);
    if x > VerbEnd(n, j) {
      CutBehindVerb(n, x, c, j);
      ComesBackWithVerb(c, j, algorithm);
    } else {
      CutTakesVerb(n, x, c, j);
      ComesBackWithoutVerb(c, algorithm);
    }
  }

  lemma UpdateComesBack(n: string, j: nat, algorithm: string)
    requires FirstWord(n, HasVerb(UpdateVerb), 0) == Some(j) && algorithm in CONFLICT_ALGORITHMS
    ensures j + 6 < |n|
    ensures ComesBack(Unupserted(n, None).sql, algorithm) <==> OneSpaceAfter(n, j) && (Cut(n).Some? ==> Cut(n).value > VerbEnd(n, j))
  {
    hide FirstWord, ComesBack, OneSpaceAfter, VerbEnd, StripUpsert, Cut, CutAt;
    StripIsCut(n);
    if Cut(n).None? {
      ComesBackWithVerb(n, j, algorithm);
    } else {
      StrippedIsCutAt(n);
      CutComesBack(n, j, Cut(n).value, StripUpsert(n).value, algorithm);
    }
  }

  // ----- the cut before and after a removal -----

  /** An ON CONFLICT that begins before `i` also ends before it. */
  lemma EarlierOnConflict(a: string, b: string, i: nat, k: nat)
    requires i + 6 <= |a| && i + 6 <= |b| && a[..i + 6] == b[..i + 6] && k < i && OnConflict(a[k..])
    requires Upper(a[i]) == 'U' && !IsIdentifier(a[i - 1])
    ensures OnConflict(b[k..])
  {
    var s, d := a[k..], i - k;
    var j := SkipSpaces(s, 2);
    assert s[d] == a[i] && s[d - 1] == a[i - 1];
    OnConflictWord(s, d);
    assert j + 9 <= d;
    SameWindow(a, b, i + 6, k, j + 9);
    OnConflictWindow(s, b[k..], j);
  }

  /** No update verb begins inside ON CONFLICT. */
  lemma OnConflictWord(s: string, d: nat)
    requires OnConflict(s) && 0 < d < |s| && Upper(s[d]) == 'U' && !IsIdentifier(s[d - 1])
    ensures SkipSpaces(s, 2) + 9 <= d
  {
    var j := SkipSpaces(s, 2);
    assert Upper(s[0 + 0]) == "ON"[0] && Upper(s[0 + 1]) == "ON"[1] && Upper(s[j + 0]) == "CONFLICT"[0];
    assert forall k :: j <= k < j + 8 ==> IsIdentifier(s[k]);
  }

  lemma OnConflictWindow(s: string, u: string, j: nat)
    requires OnConflict(s) && j == SkipSpaces(s, 2) && j + 9 <= |s| && j + 9 <= |u| && s[..j + 9] == u[..j + 9]
    ensures OnConflict(u)
  {
    var n := j + 9;
    assert Upper(s[j + 0]) == "CONFLICT"[0];
    assert forall k :: 0 <= k < n ==> s[k] == s[..n][k] && u[k] == u[..n][k];
    SkipIs(u, 2, j);
    WordEndIs(u, j, j + 8);
    WordShift(s, u, n, 0, "ON");
    WordShift(s, u, n, j, "CONFLICT");
  }

  /** No ON begins inside an update clause. */
  lemma NoOnInClause(s: string, d: nat)
    requires OrClause(s, UpdateVerb, CONFLICT_ALGORITHMS).Some? && d < OrClause(s, UpdateVerb, CONFLICT_ALGORITHMS).value.end && d < |s|
    requires d > 0 ==> !IsIdentifier(s[d - 1])
    ensures !OnConflict(s[d..])
  {
    hide SkipSpaces, WordEnd, AlgorithmAt;
    var clause := OrClause(s, UpdateVerb, CONFLICT_ALGORITHMS).value;
    var v := WordThenSpaces(s, 0, "UPDATE").value;
    var o := WordThenSpaces(s, v, "OR").value;
    if OnConflict(s[d..]) {
      FirstLetter(s[d..], 0, "ON");
      assert Upper(s[d..][0 + 1]) == "ON"[1] && s[d..][0] == s[d] && s[d..][1] == s[d + 1];
      InsideWords(s, v, o, clause.algorithm, clause.end, d);
    }
  }

  lemma InsideWords(s: string, v: nat, o: nat, algorithm: string, end: nat, d: nat)
    requires WordThenSpaces(s, 0, "UPDATE") == Some(v) && WordThenSpaces(s, v, "OR") == Some(o)
    requires algorithm in CONFLICT_ALGORITHMS && WordThenSpaces(s, o, algorithm) == Some(end) && d < end && d + 1 < |s|
    requires d > 0 ==> !IsIdentifier(s[d - 1])
    ensures !(Upper(s[d]) == 'O' && Upper(s[d + 1]) == 'N')
  {
    hide SkipSpaces;
    AlgorithmLetters(algorithm);
    FirstLetter(s, 0, "UPDATE");
    FirstLetter(s, o, algorithm);
    assert Upper(s[v + 0]) == "OR"[0] && Upper(s[v + 1]) == "OR"[1];
    if 0 < d < 6 { WordLetter(s, 0, "UPDATE", d - 1); }
    if o < d < o + |algorithm| { WordLetter(s, o, algorithm, d - 1 - o); }
  }

  /** The text and its removed form, as far as ON CONFLICT is concerned. */
  lemma OnConflictMoves(sql: string, i: nat, end: nat, n: string, k: nat)
    requires i < |sql| && TopLevel(sql, i) && OrClause(sql[i..], UpdateVerb, CONFLICT_ALGORITHMS).Some?
    requires end == OrClause(sql[i..], UpdateVerb, CONFLICT_ALGORITHMS).value.end && n == WithoutClause(sql, i, end)
    ensures k <= i ==> (OnConflictAt(n, k) <==> OnConflictAt(sql, k)) && (k == i ==> !OnConflictAt(sql, k))
    ensures i < k < i + 7 ==> !OnConflictAt(n, k)
    ensures i < k < i + end ==> !OnConflictAt(sql, k)
    ensures k >= i + 7 ==> (OnConflictAt(n, k) <==> OnConflictAt(sql, k - 7 + end))
  {
    hide TopLevel, OrClause, WithoutClause, OnConflict, WordThenSpaces;
    AllLetters();
    WithoutClauseParts(sql, i, UpdateVerb, CONFLICT_ALGORITHMS);
    ClauseHasVerb(sql[i..], UpdateVerb, CONFLICT_ALGORITHMS);
    VerbLetter(sql[i..], UpdateVerb);
    SamePoint(sql, n, i + 6, i);
    assert sql[i..][0] == sql[i] && n[i] == sql[i];
    RemovalShifts(sql, i, UpdateVerb, CONFLICT_ALGORITHMS, k);
    RemovalShifts(sql, i, UpdateVerb, CONFLICT_ALGORITHMS, i);
    if k < i {
      Boundary(sql, i);
      Boundary(n, i);
      if OnConflictAt(sql, k) { EarlierOnConflict(sql, n, i, k); }
      if OnConflictAt(n, k) { EarlierOnConflict(n, sql, i, k); }
    } else if k == i {
      NotOn(sql, i);
      NotOn(n, i);
    }
    if i < k < i + end { NotInClause(sql, i, end, k); }
    if k >= i + 7 {
      RemovalShifts(sql, i, UpdateVerb, CONFLICT_ALGORITHMS, k - i - 7);
      assert |n[i + 7..]| == |sql[i + end..]|;
      if k < |n| { assert n[k..] == n[i + 7..][k - i - 7..] && sql[k - 7 + end..] == sql[i + end..][k - i - 7..]; }
    }
  }

  predicate OnConflictAt(sql: string, k: nat) { k < |sql| && TopLevel(sql, k) && OnConflict(sql[k..]) }

  lemma NotOn(sql: string, k: nat)
    requires k < |sql| && Upper(sql[k]) == 'U'
    ensures !OnConflictAt(sql, k)
  {
    if OnConflictAt(sql, k) { FirstLetter(sql[k..], 0, "ON"); }
  }

  lemma NotInClause(sql: string, i: nat, end: nat, k: nat)
    requires i < |sql| && OrClause(sql[i..], UpdateVerb, CONFLICT_ALGORITHMS).Some?
    requires end == OrClause(sql[i..], UpdateVerb, CONFLICT_ALGORITHMS).value.end && i < k < i + end
    ensures !OnConflictAt(sql, k)
  {
    hide OrClause, OnConflict, StateAt;
    if OnConflictAt(sql, k) {
      Boundary(sql, k);
      assert sql[i..][k - i - 1] == sql[k - 1] && sql[i..][k - i..] == sql[k..];
      NoOnInClause(sql[i..], k - i);
    }
  }

  lemma InsertLikeStays(sql: string, n: string, i: nat)
    requires i + 6 <= |sql| && i + 6 <= |n| && n[..i + 6] == sql[..i + 6] && Upper(sql[i]) == 'U'
    ensures StartsInsertLike(n) <==> StartsInsertLike(sql)
  {
    hide WordAt;
    var start := SkipSpaces(sql, 0);
    forall k: nat | k <= i ensures n[k] == sql[k] { SamePoint(n, sql, i + 6, k); }
    assert start <= i;
    SkipIs(n, 0, start);
    if start == i {
      if WordAt(sql, i, "INSERT") { FirstLetter(sql, i, "INSERT"); }
      if WordAt(sql, i, "WITH") { FirstLetter(sql, i, "WITH"); }
      if WordAt(n, i, "INSERT") { FirstLetter(n, i, "INSERT"); }
      if WordAt(n, i, "WITH") { FirstLetter(n, i, "WITH"); }
    } else {
      WordShift(n, sql, i + 6, start, "INSERT");
      WordShift(n, sql, i + 6, start, "WITH");
    }
  }

  /** The text before its clause, and the removed form, begin alike. */
  lemma BothInsertLike(sql: string, i: nat, end: nat, n: string)
    requires i < |sql| && TopLevel(sql, i) && OrClause(sql[i..], UpdateVerb, CONFLICT_ALGORITHMS).Some?
    requires end == OrClause(sql[i..], UpdateVerb, CONFLICT_ALGORITHMS).value.end && n == WithoutClause(sql, i, end)
    ensures StartsInsertLike(n) <==> StartsInsertLike(sql)
  {
    hide TopLevel, OrClause, WithoutClause, StartsInsertLike, WordThenSpaces;
    AllLetters();
    WithoutClauseParts(sql, i, UpdateVerb, CONFLICT_ALGORITHMS);
    ClauseHasVerb(sql[i..], UpdateVerb, CONFLICT_ALGORITHMS);
    VerbLetter(sql[i..], UpdateVerb);
    assert sql[i..][0] == sql[i];
    InsertLikeStays(sql, n, i);
  }

  /** The first ON CONFLICT of the removed form is the one of the text, shifted. */
  lemma FirstMoves(sql: string, i: nat, end: nat, n: string, x: nat)
    requires i < |sql| && TopLevel(sql, i) && OrClause(sql[i..], UpdateVerb, CONFLICT_ALGORITHMS).Some?
    requires end == OrClause(sql[i..], UpdateVerb, CONFLICT_ALGORITHMS).value.end && n == WithoutClause(sql, i, end)
    requires FirstWord(sql, HasOnConflict(), 0) == Some(x)
    ensures x < i || x >= i + end
    ensures FirstWord(n, HasOnConflict(), 0) == Some(if x < i then x else x - end + 7)
  {
    hide TopLevel, OrClause, WithoutClause, OnConflict, FirstWord, OnConflictAt, WordThenSpaces;
    FirstOnConflict(sql);
    FirstOnConflict(n);
    OnConflictMoves(sql, i, end, n, x);
    var y := if x < i then x else x - end + 7;
    OnConflictMoves(sql, i, end, n, y);
    forall k: nat | k < y ensures !OnConflictAt(n, k) {
      OnConflictMoves(sql, i, end, n, k);
      if k >= i + 7 { assert k - 7 + end < x; }
    }
  }

  /** The cut of the removed form is the cut of the text, shifted. */
  lemma CutMoves(sql: string, i: nat, end: nat, n: string)
    requires i < |sql| && TopLevel(sql, i) && OrClause(sql[i..], UpdateVerb, CONFLICT_ALGORITHMS).Some?
    requires end == OrClause(sql[i..], UpdateVerb, CONFLICT_ALGORITHMS).value.end && n == WithoutClause(sql, i, end)
    ensures Cut(sql).None? ==> Cut(n).None?
    ensures Cut(sql).Some? ==> Cut(sql).value < i || Cut(sql).value >= i + end
    ensures Cut(sql).Some? ==> Cut(n) == Some(if Cut(sql).value < i then Cut(sql).value else Cut(sql).value - end + 7)
  {
    hide TopLevel, OrClause, WithoutClause, OnConflict, FirstWord, StartsInsertLike, OnConflictAt, WordThenSpaces;
    BothInsertLike(sql, i, end, n);
    var x := FirstWord(sql, HasOnConflict(), 0);
    if x.Some? {
      FirstMoves(sql, i, end, n, x.value);
    } else {
      FirstOnConflict(sql);
      FirstOnConflict(n);
      forall k: nat ensures !OnConflictAt(n, k) { OnConflictMoves(sql, i, end, n, k); }
    }
  }

  lemma FirstOnConflict(sql: string)
    ensures var x := FirstWord(sql, HasOnConflict(), 0);
      && (x.Some? ==> OnConflictAt(sql, x.value) && forall k: nat :: k < x.value ==> !OnConflictAt(sql, k))
      && (x.None? ==> forall k: nat :: !OnConflictAt(sql, k))
    ensures forall y: nat :: OnConflictAt(sql, y) && (forall k: nat :: k < y ==> !OnConflictAt(sql, k)) ==> FirstWord(sql, HasOnConflict(), 0) == Some(y)
  {
    hide TopLevel, OnConflict;
    forall y: nat | OnConflictAt(sql, y) && forall k: nat :: k < y ==> !OnConflictAt(sql, k) ensures FirstWord(sql, HasOnConflict(), 0) == Some(y) {
      forall k: nat | k < y && TopLevel(sql, k) ensures k < |sql| && !HasOnConflict()(sql[k..]) { assert !OnConflictAt(sql, k); }
      FirstIs(sql, HasOnConflict(), y);
    }
  }

  /** For every text with an OR clause removed at `i`, its first top-level UPDATE at `j`: normalized, restored and
      normalized again it gives the same text and resolution exactly when one space follows that UPDATE, as it
      does where the clause was removed, and no UPSERT is cut off at or before the word behind it. */
  lemma NormalizeRoundTrip(sql: string, i: nat, j: nat)
    requires FirstWord(sql, HasClause(UpdateVerb, CONFLICT_ALGORITHMS), 0) == Some(i) && FirstWord(sql, HasVerb(UpdateVerb), 0) == Some(j)
    ensures j <= i && j + 6 < |sql|
    ensures var c := Normalize(sql);
      var behind := if j == i then i + OrClause(sql[i..], UpdateVerb, CONFLICT_ALGORITHMS).value.end else VerbEnd(sql, j);
      Normalize(RestoreUpdate(c.sql, c.resolution)) == CompatibleSql(c.sql, c.resolution, false) <==>
        (j == i || OneSpaceAfter(sql, j)) && (Cut(sql).Some? ==> Cut(sql).value > behind)
  {
    hide FirstWord, OrClause, TopLevel, WordThenSpaces, Letters, WithoutClause, StripUpsert, Cut, ComesBack, OneSpaceAfter, VerbEnd;
    AllLetters();
    var clause := OrClause(sql[i..], UpdateVerb, CONFLICT_ALGORITHMS).value;
    var n := WithoutClause(sql, i, clause.end);
    WithoutClauseParts(sql, i, UpdateVerb, CONFLICT_ALGORITHMS);
    ClauseAlgorithm(sql[i..]);
    RemovedUpdateIs(sql, i);
    RemovedVerbFirst(sql, i, j);
    CutMoves(sql, i, clause.end, n);
    UpdateComesBack(n, j, clause.algorithm);
    VerbFollowed(sql, j);
    if j == i { VerbOfRemoved(n, i); } else { VerbKept(sql, n, i, j); }
    UnupsertedText(n, Some(Resolution(UpdateVerb, clause.algorithm)));
    assert ComesBack(Unupserted(n, None).sql, clause.algorithm) <==>
      Normalize(RestoreUpdate(Normalize(sql).sql, Normalize(sql).resolution)) == CompatibleSql(Normalize(sql).sql, Normalize(sql).resolution, false)
    by { BackIs(sql, i, n, clause.algorithm); }
  }

  lemma BackIs(sql: string, i: nat, n: string, algorithm: string)
    requires RemoveOr(sql, UpdateVerb, CONFLICT_ALGORITHMS) == (n, Some(Resolution(UpdateVerb, algorithm)))
    ensures ComesBack(Unupserted(n, None).sql, algorithm) <==>
      Normalize(RestoreUpdate(Normalize(sql).sql, Normalize(sql).resolution)) == CompatibleSql(Normalize(sql).sql, Normalize(sql).resolution, false)
  {
    hide RemoveOr, RestoreUpdate, StripUpsert;
    UnupsertedText(n, Some(Resolution(UpdateVerb, algorithm)));
    assert Normalize(sql) == Unupserted(n, Some(Resolution(UpdateVerb, algorithm)));
  }

  lemma UnupsertedText(n: string, resolution: Option<Resolution>)
    ensures Unupserted(n, resolution).sql == Unupserted(n, None).sql && Unupserted(n, resolution).resolution == resolution
  {
  }

  lemma VerbOfRemoved(n: string, i: nat)
    requires i + 7 <= |n| && WordThenSpaces(n[i..], 0, "UPDATE") == Some(7) && n[i + 6] == ' '
    ensures OneSpaceAfter(n, i) && VerbEnd(n, i) == i + 7
  {
  }

  /** An earlier verb, with the spaces behind it, is the same in the removed form. */
  lemma VerbKept(sql: string, n: string, i: nat, j: nat)
    requires i + 6 <= |sql| && i + 7 <= |n| && n[..i + 6] == sql[..i + 6] && j < i && TopLevel(sql, i) && HasVerb(UpdateVerb)(sql[j..])
    ensures j + 6 < |n| && VerbEnd(n, j) == VerbEnd(sql, j) <= i
    ensures OneSpaceAfter(n, j) <==> OneSpaceAfter(sql, j)
  {
    hide TopLevel, WordThenSpaces;
    VerbFollowed(sql, j);
    VerbEndsBefore(sql, i, j);
    SameVerbWindow(n, sql, i + 6, j);
  }

  lemma VerbEndsBefore(sql: string, i: nat, j: nat)
    requires i < |sql| && j < i && TopLevel(sql, i) && HasVerb(UpdateVerb)(sql[j..])
    ensures VerbEnd(sql, j) <= i
  {
    VerbFollowed(sql, j);
    if i < j + 6 {
      assert sql[j..][i - 1 - j] == sql[i - 1];
      WordLetter(sql[j..], 0, "UPDATE", i - 1 - j);
      Boundary(sql, i);
    }
  }
}
