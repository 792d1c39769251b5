/** The top-level SQL scanner (src/sqlite_conflict_resolution.py:302-402). */
module SqlScanner {
  import opened Columns

  // ----- characters -----

  predicate IsAlpha(c: char) { 'a' <= c <= 'z' || 'A' <= c <= 'Z' }

  predicate IsIdentifier(c: char) { IsAlpha(c) || '0' <= c <= '9' || c == '_' }

  predicate IsSpace(c: char) { c == ' ' || c == '\t' || c == '\n' || c == '\r' || c == '\U{B}' || c == '\U{C}' }

  function Upper(c: char): char { if 'a' <= c <= 'z' then c - 32 as char else c }

  // ----- what the scanner means: one automaton state before each character -----

  datatype Mode = Code | LineComment | BlockComment | Quoted(mark: char) | Bracketed

  /** `skip` marks the second character of a two-character token. */
  datatype ScanState = ScanState(mode: Mode, depth: nat, skip: bool)

  const START := ScanState(Code, 0, false)

  function Next(sql: string, i: nat): Option<char> {
    if i + 1 < |sql| then Some(sql[i + 1]) else None
  }

  function Delta(s: ScanState, c: char, next: Option<char>): ScanState {
    if s.skip then s.(skip := false)
    else
      match s.mode
      case LineComment => if c == '\r' || c == '\n' then s.(mode := Code) else s
      case BlockComment => if c == '*' && next == Some('/') then ScanState(Code, s.depth, true) else s
      case Bracketed => if c == ']' then s.(mode := Code) else s
      case Quoted(mark) =>
        if c != mark then s
        else if next == Some(mark) then s.(skip := true)
        else s.(mode := Code)
      case Code =>
        if c == '-' && next == Some('-') then ScanState(LineComment, s.depth, true)
        else if c == '/' && next == Some('*') then ScanState(BlockComment, s.depth, true)
        else if c == '\'' || c == '"' || c == '`' then s.(mode := Quoted(c))
        else if c == '[' then s.(mode := Bracketed)
        else if c == '(' then s.(depth := s.depth + 1)
        else if c == ')' then s.(depth := if s.depth > 0 then s.depth - 1 else 0)
        else s
  }

  /** The state before character `i`. */
  function StateAt(sql: string, i: nat): ScanState
    requires i <= |sql|
  {
    if i == 0 then START else Delta(StateAt(sql, i - 1), sql[i - 1], Next(sql, i - 1))
  }

  predicate WordStart(sql: string, i: nat)
    requires i < |sql|
  {
    (IsAlpha(sql[i]) || sql[i] == '_') && (i == 0 || !IsIdentifier(sql[i - 1]))
  }

  /** A word that starts outside parentheses, quotes and comments. */
  predicate TopLevel(sql: string, i: nat) {
    i < |sql| && StateAt(sql, i) == START && WordStart(sql, i)
  }

  // ----- locality -----

  /** The state after a prefix depends on the prefix and one character of lookahead. */
  lemma {:induction false} PrefixLocality(a: string, b: string, i: nat)
    requires i <= |a| && i <= |b| && a[..i] == b[..i]
    requires i > 0 ==> Next(a, i - 1) == Next(b, i - 1)
    ensures StateAt(a, i) == StateAt(b, i)
  {
    hide Delta;
    if i > 0 {
      assert a[i - 1] == a[..i][i - 1] && b[i - 1] == b[..i][i - 1];
      assert a[..i - 1] == a[..i][..i - 1] && b[..i - 1] == b[..i][..i - 1];
      PrefixLocality(a, b, i - 1);
    }
  }

  /** Words that start inside a common prefix. */
  lemma PrefixWords(a: string, b: string, n: nat, i: nat)
    requires n <= |a| && n <= |b| && a[..n] == b[..n] && i < n
    ensures TopLevel(a, i) <==> TopLevel(b, i)
  {
    hide Delta;
    assert forall k :: 0 <= k < n ==> a[k] == a[..n][k] && b[k] == b[..n][k];
    assert a[..i] == a[..n][..i] && b[..i] == b[..n][..i];
    PrefixLocality(a, b, i);
  }

  /** Two texts with one tail: the state at the start of the tail fixes every later state. */
  lemma {:induction false} SuffixLocality(a: string, x: nat, b: string, y: nat, k: nat)
    requires x <= |a| && y <= |b| && a[x..] == b[y..] && StateAt(a, x) == StateAt(b, y)
    requires k <= |a| - x
    ensures y + k <= |b| && StateAt(a, x + k) == StateAt(b, y + k)
  {
    hide Delta;
    assert |a[x..]| == |b[y..]|;
    if k > 0 {
      SuffixLocality(a, x, b, y, k - 1);
      assert a[x + (k - 1)] == a[x..][k - 1] && b[y + (k - 1)] == b[y..][k - 1];
      if k < |a| - x {
        assert a[x + k] == a[x..][k] && b[y + k] == b[y..][k];
      }
    }
  }

  /** So the later words are the same up to a shift. */
  lemma SuffixWords(a: string, x: nat, b: string, y: nat, k: nat)
    requires x <= |a| && y <= |b| && a[x..] == b[y..] && StateAt(a, x) == StateAt(b, y)
    requires x > 0 && y > 0 && IsIdentifier(a[x - 1]) == IsIdentifier(b[y - 1])
    ensures TopLevel(a, x + k) <==> TopLevel(b, y + k)
  {
    hide Delta, IsIdentifier, IsAlpha;
    assert |a[x..]| == |b[y..]|;
    if k < |a| - x {
      SuffixLocality(a, x, b, y, k);
      assert a[x + k] == a[x..][k] && b[y + k] == b[y..][k];
      if k > 0 {
        assert a[x + (k - 1)] == a[x..][k - 1] && b[y + (k - 1)] == b[y..][k - 1];
      }
    }
  }

  /** Plain text leaves a top-level scan where it was. */
  predicate Plain(c: char) { IsIdentifier(c) || IsSpace(c) }

  lemma {:induction false} PlainKeepsState(sql: string, i: nat, j: nat)
    requires i <= j <= |sql| && StateAt(sql, i) == START
    requires forall k :: i <= k < j ==> Plain(sql[k])
    ensures StateAt(sql, j) == START
  {
    if i < j {
      PlainKeepsState(sql, i, j - 1);
      assert Plain(sql[j - 1]);
    }
  }

  // ----- the loop -----

  function ModeOf(quote: Option<char>, bracketQuote: bool, lineComment: bool, blockComment: bool): Mode {
    if lineComment then LineComment
    else if blockComment then BlockComment
    else if quote.Some? then (if bracketQuote then Bracketed else Quoted(quote.value))
    else Code
  }

  ghost predicate Exactly(sql: string, indexes: seq<nat>, end: nat) {
    && (forall i: nat :: i in indexes <==> i < end && TopLevel(sql, i))
    && (forall j, k :: 0 <= j < k < |indexes| ==> indexes[j] < indexes[k])
  }

  /** One character that starts no top-level word. */
  lemma NoWordHere(sql: string, indexes: seq<nat>, i: nat)
    requires Exactly(sql, indexes, i) && i < |sql|
    requires StateAt(sql, i) != START || !WordStart(sql, i)
    ensures Exactly(sql, indexes, i + 1)
  {
  }

  /** Two characters, the second of them skipped. */
  lemma NoWordInPair(sql: string, indexes: seq<nat>, i: nat)
    requires Exactly(sql, indexes, i) && i + 1 < |sql|
    requires (StateAt(sql, i) != START || !WordStart(sql, i)) && StateAt(sql, i + 1).skip
    ensures Exactly(sql, indexes, i + 2)
  {
    NoWordHere(sql, indexes, i);
    NoWordHere(sql, indexes, i + 1);
  }

  lemma WordHere(sql: string, indexes: seq<nat>, i: nat)
    requires Exactly(sql, indexes, i) && TopLevel(sql, i)
    ensures Exactly(sql, indexes + [i], i + 1)
  {
    assert forall j :: 0 <= j < |indexes| ==> indexes[j] in indexes;
  }

  /** `_top_level_keyword_indexes`: the loop yields exactly the top-level words, in order. */
  method TopLevelKeywordIndexes(sql: string) returns (indexes: seq<nat>)
    ensures Exactly(sql, indexes, |sql|)
  {
    hide Exactly, IsIdentifier;
    var depth, index := 0, 0;
    var quote: Option<char>, bracketQuote, lineComment, blockComment := None, false, false, false;
    indexes := [];
    NothingYet(sql);
    while index < |sql|
      invariant index <= |sql| && depth >= 0
      invariant StateAt(sql, index) == ScanState(ModeOf(quote, bracketQuote, lineComment, blockComment), depth, false)
      invariant bracketQuote ==> quote.Some?
      invariant quote.Some? ==> !lineComment && !blockComment
      invariant !(lineComment && blockComment)
      invariant Exactly(sql, indexes, index)
      decreases |sql| - index
    {
      var c := sql[index];
      var nextChar := Next(sql, index);
      if lineComment {
        NoWordHere(sql, indexes, index);
        if c == '\r' || c == '\n' { lineComment := false; }
        index := index + 1;
        continue;
      }
      if blockComment {
        if c == '*' && nextChar == Some('/') {
          NoWordInPair(sql, indexes, index);
          blockComment := false;
          index := index + 2;
          continue;
        }
        NoWordHere(sql, indexes, index);
        index := index + 1;
        continue;
      }
      if quote.Some? {
        if bracketQuote && c == ']' {
          NoWordHere(sql, indexes, index);
          quote := None;
          bracketQuote := false;
        } else if !bracketQuote && c == quote.value {
          if nextChar == quote {
            NoWordInPair(sql, indexes, index);
            index := index + 2;
            continue;
          }
          NoWordHere(sql, indexes, index);
          quote := None;
        } else {
          NoWordHere(sql, indexes, index);
        }
        index := index + 1;
        continue;
      }
      if c == '-' && nextChar == Some('-') {
        Punctuation(sql, index);
        NoWordInPair(sql, indexes, index);
        lineComment := true;
        index := index + 2;
        continue;
      }
      if c == '/' && nextChar == Some('*') {
        Punctuation(sql, index);
        NoWordInPair(sql, indexes, index);
        blockComment := true;
        index := index + 2;
        continue;
      }
      if c == '\'' || c == '"' || c == '`' {
        Punctuation(sql, index);
        NoWordHere(sql, indexes, index);
        quote := Some(c);
        index := index + 1;
        continue;
      }
      if c == '[' {
        Punctuation(sql, index);
        NoWordHere(sql, indexes, index);
        quote, bracketQuote := Some(c), true;
        index := index + 1;
        continue;
      }
      if c == '(' || c == ')' {
        Punctuation(sql, index);
        NoWordHere(sql, indexes, index);
        depth := if c == '(' then depth + 1 else if depth > 0 then depth - 1 else 0;
        index := index + 1;
        continue;
      }
      if depth == 0 && (IsAlpha(c) || c == '_') && (index == 0 || !IsIdentifier(sql[index - 1])) {
        WordHere(sql, indexes, index);
        indexes := indexes + [index];
        LetterIsIdentifier(c);
        IdentifierIsPlain(sql, index);
        index := index + 1;
        while index < |sql| && IsIdentifier(sql[index])
          invariant 0 < index <= |sql| && StateAt(sql, index) == START && IsIdentifier(sql[index - 1])
          invariant Exactly(sql, indexes, index)
        {
          NoWordHere(sql, indexes, index);
          IdentifierIsPlain(sql, index);
          index := index + 1;
        }
        continue;
      }
      NoWordHere(sql, indexes, index);
      index := index + 1;
    }
  }

  lemma NothingYet(sql: string)
    ensures Exactly(sql, [], 0)
  {
  }

  lemma LetterIsIdentifier(c: char)
    requires IsAlpha(c) || c == '_'
    ensures IsIdentifier(c)
  {
  }

  lemma IdentifierIsPlain(sql: string, i: nat)
    requires i < |sql| && StateAt(sql, i) == START && IsIdentifier(sql[i])
    ensures StateAt(sql, i + 1) == START
  {
  }

  lemma Punctuation(sql: string, i: nat)
    requires i < |sql| && !IsAlpha(sql[i]) && sql[i] != '_'
    ensures !WordStart(sql, i)
  {
  }
}
