/**
 * Glob name patterns: '*' stands for any run of characters and '?' for one character,
 * everything else for itself. A pattern collects several globs (clauses) and a name
 * matches when it matches one of them in full.
 */
module NamePattern {
  import opened Wrappers
  import opened JavaString

  /** One element of a compiled clause. */
  datatype GlobToken =
    | Literal(c: char)   // the character itself
    | AnyChar            // the regular expression '.'
    | AnyRun             // the regular expression '.*'

  type Clause = seq<GlobToken>

  /** The characters that '.' matches: everything but the line terminators. */
  predicate DotMatches(c: char)
  {
    !IsLineTerminator(c)
  }

  /** Whole-string match of a clause, as Matcher.matches does. */
  function GlobMatch(p: Clause, s: string): bool
    decreases |p| + |s|
  {
    if p == [] then s == []
    else match p[0]
      case Literal(c) => |s| > 0 && s[0] == c && GlobMatch(p[1..], s[1..])
      case AnyChar => |s| > 0 && DotMatches(s[0]) && GlobMatch(p[1..], s[1..])
      case AnyRun => GlobMatch(p[1..], s) || (|s| > 0 && DotMatches(s[0]) && GlobMatch(p, s[1..]))
  }

  /**
   * Without a '*' a clause matches names of its own length only, and a clause of literals
   * matches exactly the name it spells.
   */
  lemma {:induction false} StarFreeClauseLength(p: Clause, s: string)
    requires GlobMatch(p, s)
    requires forall i :: 0 <= i < |p| ==> !p[i].AnyRun?
    ensures |s| == |p|
    ensures (forall i :: 0 <= i < |p| ==> p[i].Literal?) ==> forall i :: 0 <= i < |p| ==> s[i] == p[i].c
    decreases |p|
  {
    if p != [] {
      StarFreeClauseLength(p[1..], s[1..]);
      assert forall i :: 1 <= i < |p| ==> p[i] == p[1..][i - 1];
    }
  }

  /** The alternation of all clauses: some clause matches the whole name. */
  function MatchesAny(clauses: seq<Clause>, s: string): (r: bool)
    ensures r <==> exists i :: 0 <= i < |clauses| && GlobMatch(clauses[i], s)
    decreases |clauses|
  {
    if clauses == [] then false
    else GlobMatch(clauses[0], s) || MatchesAny(clauses[1..], s)
  }

  /** The glob characters. */
  predicate IsMeta(c: char)
  {
    c == '*' || c == '?'
  }

  /** containsMetaChars: the name holds a '*' or a '?'. */
  predicate ContainsMetaChars(name: string)
  {
    exists i :: 0 <= i < |name| && IsMeta(name[i])
  }

  /** The token one pattern character stands for. */
  function Token(c: char): GlobToken
  {
    if c == '*' then AnyRun else if c == '?' then AnyChar else Literal(c)
  }

  /** A glob compiled with every non-glob character quoted. */
  function CompileClause(p: string): (r: Clause)
    ensures |r| == |p| && forall i :: 0 <= i < |p| ==> r[i] == Token(p[i])
  {
    seq(|p|, i requires 0 <= i < |p| => Token(p[i]))
  }

  /** Pattern.quote of a piece: each character stands for itself. */
  function Quote(piece: string): (r: Clause)
    ensures |r| == |piece| && forall i :: 0 <= i < |piece| ==> r[i] == Literal(piece[i])
  {
    seq(|piece|, i requires 0 <= i < |piece| => Literal(piece[i]))
  }

  /** The first glob character at or after index from, or -1. */
  function NextMeta(p: string, from: nat): (k: int)
    requires from <= |p|
    ensures k == -1 || from <= k < |p|
    ensures k >= 0 ==> IsMeta(p[k])
    ensures forall j :: from <= j < |p| && (k < 0 || j < k) ==> !IsMeta(p[j])
    decreases |p| - from
  {
    if from == |p| then -1
    else if IsMeta(p[from]) then from
    else NextMeta(p, from + 1)
  }

  // ---------------------------------------------------------------------------
  // The clause as the source builds it: the piece after the last glob character is
  // appended without quoting, so a '.' there matches any character.

  /** The unquoted tail as a regular expression: '.' is live, other characters are literal. */
  function Unquoted(piece: string): (r: Clause)
    ensures |r| == |piece|
    ensures forall i :: 0 <= i < |piece| ==> r[i] == (if piece[i] == '.' then AnyChar else Literal(piece[i]))
  {
    seq(|piece|, i requires 0 <= i < |piece| => if piece[i] == '.' then AnyChar else Literal(piece[i]))
  }

  /** The index of the last glob character, or -1. */
  function LastMeta(p: string): (k: int)
    ensures -1 <= k < |p|
    ensures k >= 0 ==> IsMeta(p[k])
    ensures forall j :: k < j < |p| ==> !IsMeta(p[j])
    decreases |p|
  {
    if |p| == 0 then -1
    else if IsMeta(p[|p| - 1]) then |p| - 1
    else LastMeta(p[..|p| - 1])
  }

  /** include as written: quoted pieces and globs, then the terminal piece unquoted. */
  function CompileClauseAsWritten(p: string): (r: Clause)
    ensures |r| == |p|
    ensures '.' !in p ==> r == CompileClause(p)
  {
    var k := LastMeta(p);
    if '.' in p then CompileClause(p[..k + 1]) + Unquoted(p[k + 1..])
    else
      QuotedSplit(p, k + 1);
      CompileClause(p[..k + 1]) + Unquoted(p[k + 1..])
  }

  /** Compiling p is compiling its first k characters, then the rest, where the rest holds neither glob nor '.'. */
  lemma QuotedSplit(p: string, k: nat)
    requires k <= |p| && '.' !in p
    requires forall j :: k <= j < |p| ==> !IsMeta(p[j])
    ensures CompileClause(p[..k]) + Unquoted(p[k..]) == CompileClause(p)
  {
    var r := CompileClause(p[..k]) + Unquoted(p[k..]);
    forall i | 0 <= i < |p|
      ensures r[i] == CompileClause(p)[i]
    {
      if i >= k {
        assert r[i] == Unquoted(p[k..])[i - k];
      }
    }
  }

  // ---------------------------------------------------------------------------
  // The default exclusions

  /** The names and globs that systematic processing skips. */
  const DefaultExcludeNames: seq<string> := DefaultGlobNames + DefaultLiteralNames

  /** The default exclusions that are globs. */
  const DefaultGlobNames: seq<string> := ["*~", "#*#", ".#*", "%*%", "._*"]

  /** The default exclusions that are exact names. */
  const DefaultLiteralNames: seq<string> := [
    "CVS", ".cvsignore", "SCCS", "vssver.scc", ".svn", ".DS_Store", ".git",
    ".gitattributes", ".gitignore", ".gitmodules", ".hg", ".hgignore", ".hgsub",
    ".hgsubstate", ".hgtags", ".bzr", ".bzrignore"
  ]

  /** The clauses of DEFAULT_EXCLUDES. */
  function DefaultExcludes(): (r: seq<Clause>)
    ensures |r| == |DefaultExcludeNames|
    ensures forall i :: 0 <= i < |r| ==> r[i] == CompileClause(DefaultExcludeNames[i])
  {
    seq(|DefaultExcludeNames|, i requires 0 <= i < |DefaultExcludeNames| => CompileClause(DefaultExcludeNames[i]))
  }

  /** The clauses of DEFAULT_EXCLUDES as the source compiles them. */
  function DefaultExcludesAsWritten(): (r: seq<Clause>)
    ensures |r| == |DefaultExcludeNames|
    ensures forall i :: 0 <= i < |r| ==> r[i] == CompileClauseAsWritten(DefaultExcludeNames[i])
  {
    seq(|DefaultExcludeNames|, i requires 0 <= i < |DefaultExcludeNames| => CompileClauseAsWritten(DefaultExcludeNames[i]))
  }

  /**
   * matches(name) on a pattern with the given clauses: false without clauses (before the
   * name is looked at), a NullPointerException for a null name otherwise.
   */
  function MatchesName(clauses: seq<Clause>, name: Option<string>): (r: Result<bool>)
    ensures clauses == [] ==> r == Ok(false)
    ensures clauses != [] && name.None? ==> r == Err(NullPointer)
    ensures clauses != [] && name.Some? ==> r == Ok(MatchesAny(clauses, name.value))
  {
    if clauses == [] then Ok(false)
    else if name.None? then Err(NullPointer)
    else Ok(MatchesAny(clauses, name.value))
  }

  // ---------------------------------------------------------------------------
  // The object

  class NamePattern {
    /** The compiled globs, one per include call. */
    var rawClauses: seq<Clause>
    /** Set by freeze; include is refused afterwards. */
    var frozen: bool
    /** The cached alternation, dropped by include. */
    var matchExpression: Option<seq<Clause>>

    ghost predicate Valid()
      reads this
    {
      matchExpression.Some? ==> matchExpression.value == rawClauses && rawClauses != []
    }

    constructor ()
      ensures Valid() && rawClauses == [] && !frozen && matchExpression.None?
    {
      rawClauses := [];
      frozen := false;
      matchExpression := None;
    }

    /** The varargs constructor: includes each pattern in turn. */
    constructor FromPatterns(patterns: seq<string>)
      ensures Valid() && !frozen
      ensures rawClauses == seq(|patterns|, i requires 0 <= i < |patterns| => CompileClause(patterns[i]))
    {
      rawClauses := [];
      frozen := false;
      matchExpression := None;
      new;
      var i := 0;
      while i < |patterns|
        invariant 0 <= i <= |patterns|
        invariant Valid() && !frozen
        invariant rawClauses == seq(i, j requires 0 <= j < i => CompileClause(patterns[j]))
      {
        var clause := CompileGlob(patterns[i]);
        rawClauses := rawClauses + [clause];
        matchExpression := None;
        i := i + 1;
      }
    }

    /** freeze: refuse further includes and compile now. */
    method Freeze()
      requires Valid()
      modifies this
      ensures Valid() && frozen && rawClauses == old(rawClauses)
      ensures rawClauses != [] ==> matchExpression == Some(rawClauses)
    {
      frozen := true;
      var _ := CompilePattern();
    }

    /** include: adds one compiled glob; IllegalStateException when frozen. */
    method Include(pattern: string) returns (r: Result<()>)
      requires Valid()
      modifies this
      ensures Valid() && frozen == old(frozen)
      ensures old(frozen) ==> r == Err(IllegalState) && rawClauses == old(rawClauses) && matchExpression == old(matchExpression)
      ensures !old(frozen) ==> r == Ok(()) && rawClauses == old(rawClauses) + [CompileClause(pattern)] && matchExpression.None?
    {
      if frozen {
        return Err(IllegalState);
      }
      var clause := CompileGlob(pattern);
      rawClauses := rawClauses + [clause];
      matchExpression := None;
      r := Ok(());
    }

    /** compilePattern: the cached alternation, built on first use; null without clauses. */
    method CompilePattern() returns (p: Option<seq<Clause>>)
      requires Valid()
      modifies this`matchExpression
      ensures Valid()
      ensures p == (if rawClauses == [] then None else Some(rawClauses))
      ensures matchExpression == (if rawClauses == [] then old(matchExpression) else Some(rawClauses))
    {
      if matchExpression.Some? {
        return matchExpression;
      }
      if rawClauses == [] {
        return None;
      }
      var alternation: seq<Clause> := [];
      var i := 0;
      while i < |rawClauses|
        invariant 0 <= i <= |rawClauses|
        invariant alternation == rawClauses[..i]
      {
        alternation := alternation + [rawClauses[i]];
        i := i + 1;
      }
      assert rawClauses[..i] == rawClauses;
      matchExpression := Some(alternation);
      p := matchExpression;
    }

    /** matches: whole-name match against the alternation of the clauses. */
    method Matches(name: Option<string>) returns (r: Result<bool>)
      requires Valid()
      modifies this`matchExpression
      ensures Valid()
      ensures r == MatchesName(rawClauses, name)
    {
      var pattern := CompilePattern();
      if pattern.None? {
        return Ok(false);
      }
      if name.None? {
        return Err(NullPointer);
      }
      r := Ok(MatchesAny(pattern.value, name.value));
    }
  }

  /** The DEFAULT_EXCLUDES object: every default name included, then frozen. */
  method NewDefaultExcludes() returns (np: NamePattern)
    ensures fresh(np) && np.Valid() && np.frozen
    ensures np.rawClauses == DefaultExcludes()
    ensures np.matchExpression == Some(DefaultExcludes())
  {
    np := new NamePattern.FromPatterns(DefaultExcludeNames);
    np.Freeze();
  }

  /** The loop of include: quoted pieces between glob characters, a token for each glob. */
  method CompileGlob(pattern: string) returns (expression: Clause)
    ensures expression == CompileClause(pattern)
  {
    expression := [];
    var index := 0;
    var k := NextMeta(pattern, 0);
    while k >= 0
      invariant 0 <= index <= |pattern|
      invariant k == NextMeta(pattern, index)
      invariant expression == CompileClause(pattern[..index])
      decreases |pattern| - index
    {
      QuotePiece(pattern, index, k);
      expression := expression + Quote(pattern[index..k]) + [if pattern[k] == '*' then AnyRun else AnyChar];
      index := k + 1;
      k := NextMeta(pattern, index);
    }
    QuotePiece(pattern, index, |pattern|);
    expression := expression + Quote(pattern[index..]);
    assert pattern[..|pattern|] == pattern;
  }

  /** A glob-free piece compiles to its quotation; the token after it extends the prefix. */
  lemma QuotePiece(p: string, from: nat, to: nat)
    requires from <= to <= |p|
    requires forall j :: from <= j < to ==> !IsMeta(p[j])
    ensures CompileClause(p[..from]) + Quote(p[from..to]) == CompileClause(p[..to])
    ensures to < |p| ==> CompileClause(p[..to]) + [Token(p[to])] == CompileClause(p[..to + 1])
  {
  }

  // ---------------------------------------------------------------------------
  // Properties of glob matching

  /** A '*' matches any run of non-terminator characters. */
  lemma {:induction false} AnyRunMatches(q: Clause, s: string)
    ensures GlobMatch([AnyRun] + q, s) <==>
      exists k :: 0 <= k <= |s| && (forall i :: 0 <= i < k ==> DotMatches(s[i])) && GlobMatch(q, s[k..])
    decreases |s|
  {
    var p := [AnyRun] + q;
    assert p[1..] == q;
    if GlobMatch(p, s) {
      if GlobMatch(q, s) {
        assert s[0..] == s;
      } else {
        AnyRunMatches(q, s[1..]);
        var k :| 0 <= k <= |s[1..]| && (forall i :: 0 <= i < k ==> DotMatches(s[1..][i])) && GlobMatch(q, s[1..][k..]);
        assert s[1..][k..] == s[k + 1..];
        assert forall i :: 0 <= i < k + 1 ==> DotMatches(s[i]) by {
          forall i | 0 <= i < k + 1 ensures DotMatches(s[i]) {
            if i > 0 { assert s[i] == s[1..][i - 1]; }
          }
        }
      }
    }
    if exists k :: 0 <= k <= |s| && (forall i :: 0 <= i < k ==> DotMatches(s[i])) && GlobMatch(q, s[k..]) {
      var k :| 0 <= k <= |s| && (forall i :: 0 <= i < k ==> DotMatches(s[i])) && GlobMatch(q, s[k..]);
      if k == 0 {
        assert s[0..] == s;
      } else {
        AnyRunMatches(q, s[1..]);
        assert s[1..][k - 1..] == s[k..];
        assert forall i :: 0 <= i < k - 1 ==> DotMatches(s[1..][i]);
      }
    }
  }

  /** A '?' matches exactly one non-terminator character. */
  lemma AnyCharMatches(q: Clause, s: string)
    ensures GlobMatch([AnyChar] + q, s) <==> |s| > 0 && DotMatches(s[0]) && GlobMatch(q, s[1..])
  {
    assert ([AnyChar] + q)[1..] == q;
  }

  /** A clause made only of literals matches exactly the string it spells. */
  lemma {:induction false} QuotedMatchesItself(piece: string, s: string)
    ensures GlobMatch(Quote(piece), s) <==> s == piece
    decreases |piece|
  {
    if |piece| > 0 {
      assert Quote(piece)[1..] == Quote(piece[1..]);
      QuotedMatchesItself(piece[1..], if |s| > 0 then s[1..] else s);
      if |s| > 0 && s[0] == piece[0] && s[1..] == piece[1..] {
        assert s == [s[0]] + s[1..];
        assert piece == [piece[0]] + piece[1..];
      }
    } else {
      assert Quote(piece) == [];
    }
  }

  /** A name without glob characters, compiled as a glob, matches that name and nothing else. */
  lemma LiteralClauseMatchesItself(p: string, s: string)
    requires !ContainsMetaChars(p)
    ensures GlobMatch(CompileClause(p), s) <==> s == p
  {
    assert CompileClause(p) == Quote(p);
    QuotedMatchesItself(p, s);
  }

  /** A pattern without clauses matches nothing (and does not look at the name). */
  lemma EmptyPatternMatchesNothing(name: Option<string>)
    ensures MatchesName([], name) == Ok(false)
  {
  }

  // ---------------------------------------------------------------------------
  // The default exclusions

  lemma {:induction false} RepeatedLiteralPrefix(p: Clause, s: string, n: nat)
    requires n <= |p| && n <= |s|
    requires forall i :: 0 <= i < n ==> p[i] == Literal(s[i])
    ensures GlobMatch(p, s) == GlobMatch(p[n..], s[n..])
    decreases n
  {
    if n > 0 {
      RepeatedLiteralPrefix(p[1..], s[1..], n - 1);
      assert p[1..][n - 1..] == p[n..];
      assert s[1..][n - 1..] == s[n..];
    }
  }

  /** No line terminator anywhere in t, so that '.*' can cover it. */
  predicate NoTerminator(t: string)
  {
    forall i :: 0 <= i < |t| ==> DotMatches(t[i])
  }

  /**
   * The names DEFAULT_EXCLUDES is meant to match, spelled out: editor backups ending in
   * '~', "#...#" and "%...%" autosaves, ".#..." locks, "._..." resource forks, and the
   * listed version-control names.
   */
  predicate ExcludedByDefault(s: string)
  {
    || s in DefaultLiteralNames
    || (|s| >= 1 && s[|s| - 1] == '~' && NoTerminator(s[..|s| - 1]))
    || (|s| >= 2 && s[0] == '#' && s[|s| - 1] == '#' && NoTerminator(s[1..|s| - 1]))
    || (|s| >= 2 && s[0] == '.' && s[1] == '#' && NoTerminator(s[2..]))
    || (|s| >= 2 && s[0] == '%' && s[|s| - 1] == '%' && NoTerminator(s[1..|s| - 1]))
    || (|s| >= 2 && s[0] == '.' && s[1] == '_' && NoTerminator(s[2..]))
  }

  lemma {:induction false} RunMatches(s: string)
    ensures GlobMatch([AnyRun], s) <==> NoTerminator(s)
    decreases |s|
  {
    assert [AnyRun][1..] == [];
    if |s| > 0 {
      RunMatches(s[1..]);
      assert NoTerminator(s) <==> DotMatches(s[0]) && NoTerminator(s[1..]) by {
        if DotMatches(s[0]) && NoTerminator(s[1..]) {
          forall i | 0 <= i < |s| ensures DotMatches(s[i]) {
            if i > 0 { assert s[i] == s[1..][i - 1]; }
          }
        }
      }
    }
  }

  lemma SingleLiteral(c: char, t: string)
    ensures GlobMatch([Literal(c)], t) <==> t == [c]
  {
    assert [Literal(c)][1..] == [];
    if |t| > 0 {
      assert GlobMatch([Literal(c)], t) == (t[0] == c && GlobMatch([], t[1..]));
      assert t == [t[0]] + t[1..];
    }
  }

  lemma RunThenLiteral(c: char, s: string)
    ensures GlobMatch([AnyRun, Literal(c)], s) <==> |s| >= 1 && s[|s| - 1] == c && NoTerminator(s[..|s| - 1])
  {
    var q := [Literal(c)];
    assert [AnyRun, Literal(c)] == [AnyRun] + q;
    AnyRunMatches(q, s);
    if GlobMatch([AnyRun, Literal(c)], s) {
      var k :| 0 <= k <= |s| && (forall i :: 0 <= i < k ==> DotMatches(s[i])) && GlobMatch(q, s[k..]);
      SingleLiteral(c, s[k..]);
      assert k == |s| - 1;
      assert NoTerminator(s[..k]) by {
        forall i | 0 <= i < k ensures DotMatches(s[..k][i]) { assert s[..k][i] == s[i]; }
      }
    }
    if |s| >= 1 && s[|s| - 1] == c && NoTerminator(s[..|s| - 1]) {
      var k := |s| - 1;
      assert forall i :: 0 <= i < k ==> DotMatches(s[i]) by {
        forall i | 0 <= i < k ensures DotMatches(s[i]) { assert s[..k][i] == s[i]; }
      }
      assert s[k..] == [c];
      SingleLiteral(c, s[k..]);
    }
  }

  lemma LiteralThen(c: char, q: Clause, s: string)
    ensures GlobMatch([Literal(c)] + q, s) <==> |s| >= 1 && s[0] == c && GlobMatch(q, s[1..])
  {
    assert ([Literal(c)] + q)[1..] == q;
  }

  /** The clause shape "c*c", as for "#*#" and "%*%". */
  lemma EnclosedRun(c: char, s: string)
    ensures GlobMatch([Literal(c), AnyRun, Literal(c)], s) <==>
      |s| >= 2 && s[0] == c && s[|s| - 1] == c && NoTerminator(s[1..|s| - 1])
  {
    assert [Literal(c), AnyRun, Literal(c)] == [Literal(c)] + [AnyRun, Literal(c)];
    LiteralThen(c, [AnyRun, Literal(c)], s);
    if |s| >= 1 {
      RunThenLiteral(c, s[1..]);
      if |s| >= 2 {
        assert s[1..][..|s[1..]| - 1] == s[1..|s| - 1];
      }
    }
  }

  /** The clause shape "ab*", as for ".#*" and "._*". */
  lemma TwoThenRun(a: char, b: char, s: string)
    ensures GlobMatch([Literal(a), Literal(b), AnyRun], s) <==>
      |s| >= 2 && s[0] == a && s[1] == b && NoTerminator(s[2..])
  {
    assert [Literal(a), Literal(b), AnyRun] == [Literal(a)] + ([Literal(b)] + [AnyRun]);
    LiteralThen(a, [Literal(b)] + [AnyRun], s);
    if |s| >= 1 {
      LiteralThen(b, [AnyRun], s[1..]);
      if |s| >= 2 {
        assert s[1..][1..] == s[2..];
        RunMatches(s[2..]);
      }
    }
  }

  lemma GlobClausesOfDefaults(s: string)
    ensures GlobMatch(DefaultExcludes()[0], s) <==> |s| >= 1 && s[|s| - 1] == '~' && NoTerminator(s[..|s| - 1])
    ensures GlobMatch(DefaultExcludes()[1], s) <==> |s| >= 2 && s[0] == '#' && s[|s| - 1] == '#' && NoTerminator(s[1..|s| - 1])
    ensures GlobMatch(DefaultExcludes()[2], s) <==> |s| >= 2 && s[0] == '.' && s[1] == '#' && NoTerminator(s[2..])
    ensures GlobMatch(DefaultExcludes()[3], s) <==> |s| >= 2 && s[0] == '%' && s[|s| - 1] == '%' && NoTerminator(s[1..|s| - 1])
    ensures GlobMatch(DefaultExcludes()[4], s) <==> |s| >= 2 && s[0] == '.' && s[1] == '_' && NoTerminator(s[2..])
  {
    GlobClauses();
    GlobClausesInWords(DefaultExcludes(), s);
  }

  /** Any pattern list starting with the five glob defaults' clauses matches as they promise. */
  lemma GlobClausesInWords(d: seq<Clause>, s: string)
    requires |d| >= 5
    requires d[0] == [AnyRun, Literal('~')]
    requires d[1] == [Literal('#'), AnyRun, Literal('#')]
    requires d[2] == [Literal('.'), Literal('#'), AnyRun]
    requires d[3] == [Literal('%'), AnyRun, Literal('%')]
    requires d[4] == [Literal('.'), Literal('_'), AnyRun]
    ensures GlobMatch(d[0], s) <==> |s| >= 1 && s[|s| - 1] == '~' && NoTerminator(s[..|s| - 1])
    ensures GlobMatch(d[1], s) <==> |s| >= 2 && s[0] == '#' && s[|s| - 1] == '#' && NoTerminator(s[1..|s| - 1])
    ensures GlobMatch(d[2], s) <==> |s| >= 2 && s[0] == '.' && s[1] == '#' && NoTerminator(s[2..])
    ensures GlobMatch(d[3], s) <==> |s| >= 2 && s[0] == '%' && s[|s| - 1] == '%' && NoTerminator(s[1..|s| - 1])
    ensures GlobMatch(d[4], s) <==> |s| >= 2 && s[0] == '.' && s[1] == '_' && NoTerminator(s[2..])
  {
    RunThenLiteral('~', s);
    EnclosedRun('#', s);
    TwoThenRun('.', '#', s);
    EnclosedRun('%', s);
    TwoThenRun('.', '_', s);
  }

  lemma GlobClauses()
    ensures DefaultExcludes()[0] == [AnyRun, Literal('~')]
    ensures DefaultExcludes()[1] == [Literal('#'), AnyRun, Literal('#')]
    ensures DefaultExcludes()[2] == [Literal('.'), Literal('#'), AnyRun]
    ensures DefaultExcludes()[3] == [Literal('%'), AnyRun, Literal('%')]
    ensures DefaultExcludes()[4] == [Literal('.'), Literal('_'), AnyRun]
  {
    assert DefaultExcludeNames[..5] == DefaultGlobNames;
  }

  lemma LiteralClausesOfDefaults(s: string)
    ensures forall i :: 5 <= i < |DefaultExcludes()| ==> (GlobMatch(DefaultExcludes()[i], s) <==> s == DefaultExcludeNames[i])
  {
    forall i | 5 <= i < |DefaultExcludes()| ensures GlobMatch(DefaultExcludes()[i], s) <==> s == DefaultExcludeNames[i] {
      LiteralNamesHaveNoMeta(i);
      LiteralClauseMatchesItself(DefaultExcludeNames[i], s);
    }
  }

  /** DEFAULT_EXCLUDES matches exactly the names ExcludedByDefault describes. */
  lemma DefaultExcludesMeaning(s: string)
    ensures MatchesAny(DefaultExcludes(), s) <==> ExcludedByDefault(s)
  {
    var d := DefaultExcludes();
    GlobClausesOfDefaults(s);
    LiteralClausesOfDefaults(s);
    if s in DefaultLiteralNames {
      var j :| 0 <= j < |DefaultLiteralNames| && DefaultLiteralNames[j] == s;
      assert GlobMatch(d[j + 5], s);
    }
    if MatchesAny(d, s) {
      var i :| 0 <= i < |d| && GlobMatch(d[i], s);
      if i >= 5 {
        assert DefaultLiteralNames[i - 5] == s;
      }
    }
  }

  lemma LiteralNamesHaveNoMeta(i: nat)
    requires 5 <= i < |DefaultExcludeNames|
    ensures !ContainsMetaChars(DefaultExcludeNames[i])
  {
    var n := DefaultLiteralNames[i - 5];
    assert DefaultExcludeNames[i] == n;
    if i < 12 {
      LiteralNamesStarFreeFront(i - 5);
    } else {
      LiteralNamesStarFreeBack(i - 5);
    }
    NoMetaWhenAbsent(n);
  }

  /** A name holding neither '*' nor '?' has no meta characters. */
  lemma NoMetaWhenAbsent(name: string)
    requires '*' !in name && '?' !in name
    ensures !ContainsMetaChars(name)
  {
  }

  /** The first seven exact default names hold no wildcard. */
  lemma LiteralNamesStarFreeFront(k: nat)
    requires k < 7
    ensures '*' !in DefaultLiteralNames[k] && '?' !in DefaultLiteralNames[k]
  {
  }

  /** The remaining exact default names hold no wildcard. */
  lemma LiteralNamesStarFreeBack(k: nat)
    requires 7 <= k < |DefaultLiteralNames|
    ensures '*' !in DefaultLiteralNames[k] && '?' !in DefaultLiteralNames[k]
  {
  }

  /** The negative examples of the default exclusions. */
  lemma DefaultExcludesRefuseRandomFile()
    ensures !MatchesAny(DefaultExcludes(), "randomfile.txt")
  {
    DefaultExcludesMeaning("randomfile.txt");
    assert "randomfile.txt" !in DefaultLiteralNames;
  }

  lemma DefaultExcludesRefuseLongerName()
    ensures !MatchesAny(DefaultExcludes(), ".DS_Storesomethingelse")
  {
    DefaultExcludesMeaning(".DS_Storesomethingelse");
    assert ".DS_Storesomethingelse" !in DefaultLiteralNames;
  }

  lemma DefaultExcludesRefuseHalfBackup()
    ensures !MatchesAny(DefaultExcludes(), "#notabackup")
  {
    DefaultExcludesMeaning("#notabackup");
    assert "#notabackup" !in DefaultLiteralNames;
  }

  /** Every exact default name is excluded. */
  lemma DefaultExcludesListedNames(s: string)
    requires s in DefaultLiteralNames
    ensures MatchesAny(DefaultExcludes(), s)
  {
    DefaultExcludesMeaning(s);
  }

  /** A glob-shaped sample, as in the positive tests. */
  lemma DefaultExcludesBackupFile()
    ensures MatchesAny(DefaultExcludes(), "somefile.txt~")
  {
    var s := "somefile.txt~";
    GlobClausesOfDefaults(s);
    var t := s[..|s| - 1];
    forall i | 0 <= i < |t| ensures DotMatches(t[i]) {
      assert t[i] in "somefile.txt";
    }
    assert GlobMatch(DefaultExcludes()[0], s);
  }

  /** The clause as the source compiles ".git" accepts the ordinary name "agit". */
  lemma AsWrittenGitClauseMatchesAgit()
    ensures CompileClauseAsWritten(".git") == [AnyChar, Literal('g'), Literal('i'), Literal('t')]
    ensures GlobMatch(CompileClauseAsWritten(".git"), "agit")
    ensures MatchesAny(DefaultExcludesAsWritten(), "agit")
  {
    GitClauseAsWritten();
    DotGitMatchesAgit();
    GitIsDefault();
    var d := DefaultExcludesAsWritten();
    assert d[11] == CompileClauseAsWritten(DefaultExcludeNames[11]);
    assert 0 <= 11 < |d| && GlobMatch(d[11], "agit");
  }

  /** The clause any character, then "git", accepts "agit". */
  lemma DotGitMatchesAgit()
    ensures GlobMatch([AnyChar, Literal('g'), Literal('i'), Literal('t')], "agit")
  {
    var c: Clause := [AnyChar, Literal('g'), Literal('i'), Literal('t')];
    assert c[1..] == [Literal('g'), Literal('i'), Literal('t')];
    assert "agit"[1..] == "git";
    assert GlobMatch(c[1..], "git") by {
      RepeatedLiteralPrefix(c[1..], "git", 3);
    }
  }

  /** ".git" is the twelfth default exclusion. */
  lemma GitIsDefault()
    ensures |DefaultExcludeNames| > 11 && DefaultExcludeNames[11] == ".git"
  {
    assert DefaultExcludeNames[11] == DefaultLiteralNames[6];
  }

  /** As written, ".git" has no glob, so all of it is the unquoted terminal piece. */
  lemma GitClauseAsWritten()
    ensures CompileClauseAsWritten(".git") == [AnyChar, Literal('g'), Literal('i'), Literal('t')]
  {
    assert LastMeta(".git") == -1;
    assert ".git"[..0] == [];
    assert ".git"[0..] == ".git";
  }

  /** The corrected ".git" clause refuses "agit". */
  lemma CorrectedGitClauseRefusesAgit()
    ensures !GlobMatch(CompileClause(".git"), "agit")
  {
    LiteralClauseMatchesItself(".git", "agit");
  }
}
