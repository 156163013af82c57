/**
 * PathPattern: a whole-path matcher. The pattern is split on '/' into components, each
 * of which is the deep star "**" (any number of path components), a glob (a component
 * with '*' or '?', compiled as a one-clause NamePattern) or a literal. Every path
 * component the matcher visits is first checked against an exclusion NamePattern.
 */
module PathPattern {
  import opened Wrappers
  import opened JavaString
  import opened NamePattern

  /** A compiled pattern component. */
  datatype MatchComp = DeepStar | NameGlob(clause: Clause) | LiteralComp(text: string)

  /** The exclusion set: the clauses of a NamePattern, or None for a null excludes. */
  type Excludes = Option<seq<Clause>>

  /** The components of a pattern or a path: one leading and one trailing slash ignored. */
  function Components(s: string): seq<string>
  {
    Split(TrimSlashes(s), '/')
  }

  /** What the constructor puts in place of one pattern component. */
  function CompileComponent(comp: string): (r: MatchComp)
    ensures r.DeepStar? <==> comp == "**"
    ensures r.NameGlob? <==> comp != "**" && ContainsMetaChars(comp)
    ensures r.LiteralComp? ==> r.text == comp && !ContainsMetaChars(comp)
    ensures r.NameGlob? ==> r.clause == CompileClause(comp)
  {
    if comp == "**" then DeepStar
    else if ContainsMetaChars(comp) then NameGlob(CompileClause(comp))
    else LiteralComp(comp)
  }

  /** The compiled components of a whole pattern string. */
  function CompiledPattern(pattern: string): (r: seq<MatchComp>)
    ensures |r| == |Components(pattern)|
    ensures forall i :: 0 <= i < |r| ==> r[i] == CompileComponent(Components(pattern)[i])
  {
    var cs := Components(pattern);
    seq(|cs|, i requires 0 <= i < |cs| => CompileComponent(cs[i]))
  }

  /** excludes != null && excludes.matches(name) */
  predicate Excluded(ex: Excludes, name: string)
  {
    ex.Some? && MatchesAny(ex.value, name)
  }

  /** Whether one non-deep-star component accepts one path component. */
  predicate CompMatches(c: MatchComp, s: string)
  {
    match c
    case DeepStar => true
    case NameGlob(clause) => GlobMatch(clause, s)
    case LiteralComp(text) => text == s
  }

  /**
   * matchesHelp(pathComponents, pi, mi): check the exclusion, then the component; a deep
   * star hands over to matchesDeepStar; otherwise both indexes advance and the match
   * succeeds only when both run off the end together.
   */
  function Help(m: seq<MatchComp>, ex: Excludes, p: seq<string>, pi: nat, mi: nat): (r: bool)
    requires pi < |p| && mi < |m|
    ensures r ==> !Excluded(ex, p[pi])
    ensures r && !m[mi].DeepStar? ==> CompMatches(m[mi], p[pi])
    ensures r && (forall k :: mi <= k < |m| ==> !m[k].DeepStar?) ==> |m| - mi == |p| - pi
    decreases |m| - mi, |p| - pi, 0
  {
    if Excluded(ex, p[pi]) then false
    else if m[mi].DeepStar? then DeepStarMatch(m, ex, p, pi, mi + 1)
    else if !CompMatches(m[mi], p[pi]) then false
    else if pi + 1 == |p| then mi + 1 == |m|
    else if mi + 1 == |m| then false
    else Help(m, ex, p, pi + 1, mi + 1)
  }

  /** matchesDeepStar: a deep star that ends the pattern matches at once. */
  function DeepStarMatch(m: seq<MatchComp>, ex: Excludes, p: seq<string>, pi: nat, mi: nat): (r: bool)
    requires pi < |p| && mi <= |m|
    ensures mi == |m| ==> r
    decreases |m| - mi, |p| - pi, 2
  {
    if mi == |m| then true else DeepStarLoop(m, ex, p, pi, mi)
  }

  /** The loop of matchesDeepStar: try the rest of the pattern at pi, pi + 1, ... */
  function DeepStarLoop(m: seq<MatchComp>, ex: Excludes, p: seq<string>, pi: nat, mi: nat): (r: bool)
    requires pi < |p| && mi < |m|
    decreases |m| - mi, |p| - pi, 1
  {
    if Help(m, ex, p, pi, mi) then true
    else if pi + 1 == |p| then false
    else DeepStarLoop(m, ex, p, pi + 1, mi)
  }

  /** A deep star followed by more pattern matches when that rest matches from some later component. */
  lemma {:induction false} DeepStarMatchMeaning(m: seq<MatchComp>, ex: Excludes, p: seq<string>, pi: nat, mi: nat)
    requires pi < |p| && mi < |m|
    ensures DeepStarMatch(m, ex, p, pi, mi) <==> exists j :: pi <= j < |p| && Help(m, ex, p, j, mi)
    decreases |p| - pi
  {
    if Help(m, ex, p, pi, mi) {
      assert pi <= pi < |p| && Help(m, ex, p, pi, mi);
    } else if pi + 1 < |p| {
      DeepStarMatchMeaning(m, ex, p, pi + 1, mi);
      if exists j :: pi <= j < |p| && Help(m, ex, p, j, mi) {
        var j :| pi <= j < |p| && Help(m, ex, p, j, mi);
        assert pi + 1 <= j;
      }
    }
  }

  /**
   * matches(path): an empty component array on either side makes the first array access
   * throw.
   */
  function MatchPath(m: seq<MatchComp>, ex: Excludes, path: string): (r: Result<bool>)
    ensures r.Err? <==> |m| == 0 || Components(path) == []
    ensures r == Ok(true) ==> !Excluded(ex, Components(path)[0])
  {
    var p := Components(path);
    if |m| == 0 || |p| == 0 then Err(IndexOutOfBounds) else Ok(Help(m, ex, p, 0, 0))
  }

  // ---------------------------------------------------------------------------
  // The object

  class PathPattern {
    /** The source text of the pattern. */
    const pattern: string
    /** The compiled components. */
    var matchComponents: seq<MatchComp>
    /** The exclusion set, DEFAULT_EXCLUDES unless replaced. */
    var excludes: Excludes

    constructor (pattern: string)
      ensures this.pattern == pattern
      ensures matchComponents == CompiledPattern(pattern)
      ensures excludes == Some(DefaultExcludes())
    {
      this.pattern := pattern;
      var cs := CompileComponents(Components(pattern));
      matchComponents := cs;
      excludes := Some(DefaultExcludes());
    }

    method SetExcludes(e: Excludes)
      modifies this
      ensures excludes == e
      ensures matchComponents == old(matchComponents)
    {
      excludes := e;
    }

    method Matches(path: string) returns (r: Result<bool>)
      ensures r == MatchPath(matchComponents, excludes, path)
      ensures r.Err? <==> matchComponents == [] || Components(path) == []
    {
      var p := Components(path);
      if |matchComponents| == 0 || |p| == 0 {
        return Err(IndexOutOfBounds);
      }
      var b := HelpLoop(matchComponents, excludes, p, 0, 0);
      return Ok(b);
    }
  }

  /** The constructor's loop over the split pattern. */
  method CompileComponents(comps: seq<string>) returns (r: seq<MatchComp>)
    ensures |r| == |comps|
    ensures forall i :: 0 <= i < |r| ==> r[i] == CompileComponent(comps[i])
  {
    r := [];
    var i := 0;
    while i < |comps|
      invariant 0 <= i <= |comps|
      invariant |r| == i
      invariant forall j :: 0 <= j < i ==> r[j] == CompileComponent(comps[j])
    {
      r := r + [CompileComponent(comps[i])];
      i := i + 1;
    }
  }

  /** matchesHelp as the source writes it: a for(;;) loop over both indexes. */
  method HelpLoop(m: seq<MatchComp>, ex: Excludes, p: seq<string>, pi0: nat, mi0: nat) returns (r: bool)
    requires pi0 < |p| && mi0 < |m|
    ensures r == Help(m, ex, p, pi0, mi0)
    decreases |m| - mi0, |p| - pi0, 0
  {
    var pi, mi := pi0, mi0;
    while true
      invariant pi0 <= pi < |p| && mi0 <= mi < |m|
      invariant pi - pi0 == mi - mi0
      invariant Help(m, ex, p, pi, mi) == Help(m, ex, p, pi0, mi0)
      decreases |p| - pi
    {
      if Excluded(ex, p[pi]) {
        return false;
      }
      if m[mi].DeepStar? {
        r := DeepStarMethod(m, ex, p, pi, mi + 1);
        return;
      }
      if !CompMatches(m[mi], p[pi]) {
        return false;
      }
      pi, mi := pi + 1, mi + 1;
      if pi == |p| {
        return mi == |m|;
      }
      if mi == |m| {
        return false;
      }
    }
  }

  /** matchesDeepStar as the source writes it. */
  method DeepStarMethod(m: seq<MatchComp>, ex: Excludes, p: seq<string>, pi0: nat, mi: nat) returns (r: bool)
    requires pi0 < |p| && mi <= |m|
    ensures r == DeepStarMatch(m, ex, p, pi0, mi)
    decreases |m| - mi, |p| - pi0, 2
  {
    if mi == |m| {
      return true;
    }
    var pi := pi0;
    while true
      invariant pi0 <= pi < |p|
      invariant DeepStarLoop(m, ex, p, pi, mi) == DeepStarLoop(m, ex, p, pi0, mi)
      decreases |p| - pi
    {
      var h := HelpLoop(m, ex, p, pi, mi);
      if h {
        return true;
      }
      pi := pi + 1;
      if pi == |p| {
        return false;
      }
    }
  }

  // ---------------------------------------------------------------------------
  // Properties

  /** No component of the pattern is a deep star. */
  predicate NoDeepStar(m: seq<MatchComp>)
  {
    forall i :: 0 <= i < |m| ==> !m[i].DeepStar?
  }

  /**
   * Without a deep star, the rest of the path matches the rest of the pattern iff both
   * have the same length, pairwise matching components, and no excluded component.
   */
  lemma {:induction false} HelpWithoutDeepStar(m: seq<MatchComp>, ex: Excludes, p: seq<string>, pi: nat, mi: nat)
    requires pi < |p| && mi < |m| && NoDeepStar(m)
    ensures Help(m, ex, p, pi, mi) <==>
      |p| - pi == |m| - mi &&
      forall k :: pi <= k < |p| ==> !Excluded(ex, p[k]) && CompMatches(m[mi + k - pi], p[k])
    decreases |p| - pi
  {
    if pi + 1 < |p| && mi + 1 < |m| {
      HelpWithoutDeepStar(m, ex, p, pi + 1, mi + 1);
    }
  }

  /** The same, for a whole path. */
  lemma MatchWithoutDeepStar(m: seq<MatchComp>, ex: Excludes, path: string)
    requires m != [] && Components(path) != [] && NoDeepStar(m)
    ensures var p := Components(path);
      MatchPath(m, ex, path) ==
      Ok(|p| == |m| && forall k :: 0 <= k < |p| ==> (!Excluded(ex, p[k]) && CompMatches(m[k], p[k])))
  {
    var p := Components(path);
    HelpFromStart(m, ex, p);
    assert MatchPath(m, ex, path) == Ok(Help(m, ex, p, 0, 0));
  }

  /** HelpWithoutDeepStar from the first components of both. */
  lemma HelpFromStart(m: seq<MatchComp>, ex: Excludes, p: seq<string>)
    requires 0 < |p| && 0 < |m| && NoDeepStar(m)
    ensures Help(m, ex, p, 0, 0) ==
      (|p| == |m| && forall k :: 0 <= k < |p| ==> (!Excluded(ex, p[k]) && CompMatches(m[k], p[k])))
  {
    HelpWithoutDeepStar(m, ex, p, 0, 0);
  }

  /** Some path component from pi on starts a match of the pattern from mi. */
  predicate MatchesFromSomeIndex(m: seq<MatchComp>, ex: Excludes, p: seq<string>, pi: nat, mi: nat)
    requires mi < |m|
  {
    exists j :: pi <= j < |p| && Help(m, ex, p, j, mi)
  }

  /** The loop of matchesDeepStar succeeds iff the rest matches from some later index. */
  lemma {:induction false} DeepStarLoopExists(m: seq<MatchComp>, ex: Excludes, p: seq<string>, pi: nat, mi: nat)
    requires pi < |p| && mi < |m|
    ensures DeepStarLoop(m, ex, p, pi, mi) <==> MatchesFromSomeIndex(m, ex, p, pi, mi)
    decreases |p| - pi
  {
    if Help(m, ex, p, pi, mi) {
      assert pi <= pi < |p| && Help(m, ex, p, pi, mi);
    } else if pi + 1 < |p| {
      DeepStarLoopExists(m, ex, p, pi + 1, mi);
      if MatchesFromSomeIndex(m, ex, p, pi, mi) {
        var j :| pi <= j < |p| && Help(m, ex, p, j, mi);
        assert j != pi;
        assert pi + 1 <= j < |p| && Help(m, ex, p, j, mi);
      }
    }
  }

  /**
   * An interior deep star at mi absorbs zero or more path components: the rest of the
   * pattern must match from the current component or from some later one.
   */
  lemma InteriorDeepStar(m: seq<MatchComp>, ex: Excludes, p: seq<string>, pi: nat, mi: nat)
    requires pi < |p| && mi + 1 < |m| && m[mi] == DeepStar
    ensures Help(m, ex, p, pi, mi) <==> !Excluded(ex, p[pi]) && MatchesFromSomeIndex(m, ex, p, pi, mi + 1)
  {
    DeepStarLoopExists(m, ex, p, pi, mi + 1);
  }

  /** A trailing deep star matches whatever remains, once the current component is allowed. */
  lemma TrailingDeepStar(m: seq<MatchComp>, ex: Excludes, p: seq<string>, pi: nat)
    requires pi < |p| && |m| >= 1 && m[|m| - 1] == DeepStar
    ensures Help(m, ex, p, pi, |m| - 1) == !Excluded(ex, p[pi])
  {
  }

  /**
   * An excluded component makes the match fail when every component is visited, which is
   * the case for a pattern without a deep star; one absorbed by a trailing deep star is
   * never looked at (see TrailingDeepStarSkipsExcludes).
   */
  lemma ExcludedComponentRejects(m: seq<MatchComp>, ex: Excludes, path: string, k: nat)
    requires m != [] && NoDeepStar(m)
    requires k < |Components(path)| && Excluded(ex, Components(path)[k])
    ensures MatchPath(m, ex, path) == Ok(false)
  {
    MatchWithoutDeepStar(m, ex, path);
  }

  /** Matching on a compiled pattern without "**" is component-wise. */
  lemma CompiledWithoutDeepStar(pattern: string, ex: Excludes, path: string)
    requires "**" !in Components(pattern)
    requires Components(pattern) != [] && Components(path) != []
    ensures var p := Components(path); var c := Components(pattern);
      MatchPath(CompiledPattern(pattern), ex, path) ==
      Ok(|p| == |c| &&
        forall k :: 0 <= k < |p| ==>
          (!Excluded(ex, p[k]) &&
           if ContainsMetaChars(c[k]) then GlobMatch(CompileClause(c[k]), p[k]) else c[k] == p[k]))
  {
    var m := CompiledPattern(pattern);
    var c := Components(pattern);
    assert NoDeepStar(m) by {
      forall i | 0 <= i < |m| ensures !m[i].DeepStar? {
        assert c[i] in c;
      }
    }
    MatchWithoutDeepStar(m, ex, path);
  }

  // ---------------------------------------------------------------------------
  // Examples

  /** "a/b" and "/a/b/" have the components ["a", "b"]. */
  lemma ComponentsOfTwo(a: string, b: string)
    requires a != "" && b != "" && '/' !in a && '/' !in b
    ensures Components("/" + a + "/" + b) == [a, b]
  {
    var s := "/" + a + "/" + b;
    assert TrimSlashes(s) == a + "/" + b by {
      assert s[1..] == a + "/" + b;
      assert s[|s| - 1] == b[|b| - 1];
    }
    assert JoinWith([a, b], '/') == a + "/" + b by {
      assert JoinWith([a, b][1..], '/') == b;
    }
    SplitOfJoin([a, b], '/');
  }

  /** "/" has the single empty component, as does "". */
  lemma ComponentsOfRoot()
    ensures Components("/") == [""]
    ensures Components("") == [""]
  {
    assert TrimSlashes("/") == "";
  }

  // "/**" matches "/" when the empty name is allowed.
  lemma DeepStarMatchesRoot(ex: Excludes)
    requires !Excluded(ex, "")
    ensures MatchPath([DeepStar], ex, "/") == Ok(true)
  {
    ComponentsOfRoot();
  }

  // "/**" matches every two-component path whose first component is allowed, as in
  // "/abc/123".
  lemma DeepStarMatchesTwo(ex: Excludes, a: string, b: string)
    requires a != "" && b != "" && '/' !in a && '/' !in b && !Excluded(ex, a)
    ensures MatchPath([DeepStar], ex, "/" + a + "/" + b) == Ok(true)
  {
    ComponentsOfTwo(a, b);
    assert Help([DeepStar], ex, [a, b], 0, 0);
  }

  // "/abc/**" does not match "/abc": there is nothing left for the deep star.
  lemma DeepStarNeedsAComponent(ex: Excludes)
    ensures MatchPath([LiteralComp("abc"), DeepStar], ex, "/abc") == Ok(false)
  {
    assert TrimSlashes("/abc") == "abc";
    assert '/' !in "abc";
  }

  /** The default excludes allow the name "a". */
  lemma DefaultExcludesAllowA()
    ensures !Excluded(Some(DefaultExcludes()), "a")
  {
    DefaultExcludesMeaning("a");
    assert "a" !in DefaultLiteralNames;
  }

  /** The default excludes refuse ".git". */
  lemma DefaultExcludesRefuseGit()
    ensures Excluded(Some(DefaultExcludes()), ".git")
  {
    assert DefaultLiteralNames[6] == ".git";
    DefaultExcludesListedNames(".git");
  }

  /** "/a/.git" has the components ["a", ".git"]. */
  lemma ComponentsOfAGit()
    ensures Components("/a/.git") == ["a", ".git"]
  {
    ComponentsOfTwo("a", ".git");
    assert "/a/.git" == "/" + "a" + "/" + ".git";
  }

  // The excludes are consulted only on components the matcher visits: with the default
  // excludes, "/**" matches "/a/.git" although ".git" is excluded.
  lemma TrailingDeepStarSkipsExcludes()
    ensures Excluded(Some(DefaultExcludes()), ".git")
    ensures MatchPath([DeepStar], Some(DefaultExcludes()), "/a/.git") == Ok(true)
  {
    DefaultExcludesRefuseGit();
    DefaultExcludesAllowA();
    ComponentsOfAGit();
    assert Help([DeepStar], Some(DefaultExcludes()), ["a", ".git"], 0, 0);
  }

  // "**/123/456.txt" against the components of "/789/456.txt" and "/abc/def/123/456.js":
  // no suffix of either path is "123", "456.txt", whatever the excludes.
  lemma DeepStarSuffixRejects(ex: Excludes)
    ensures !Help([DeepStar, LiteralComp("123"), LiteralComp("456.txt")], ex, ["789", "456.txt"], 0, 0)
    ensures !Help([DeepStar, LiteralComp("123"), LiteralComp("456.txt")], ex, ["abc", "def", "123", "456.js"], 0, 0)
  {
    var m := [DeepStar, LiteralComp("123"), LiteralComp("456.txt")];
    InteriorDeepStar(m, ex, ["789", "456.txt"], 0, 0);
    InteriorDeepStar(m, ex, ["abc", "def", "123", "456.js"], 0, 0);
  }

  // "**/123/456.txt" against the components of "/abc/def/123/456.txt": the deep star
  // absorbs "abc" and "def", once no component is excluded.
  lemma DeepStarSuffixAccepts(ex: Excludes)
    requires !Excluded(ex, "abc") && !Excluded(ex, "def") && !Excluded(ex, "123") && !Excluded(ex, "456.txt")
    ensures Help([DeepStar, LiteralComp("123"), LiteralComp("456.txt")], ex, ["abc", "def", "123", "456.txt"], 0, 0)
  {
    var m := [DeepStar, LiteralComp("123"), LiteralComp("456.txt")];
    var p := ["abc", "def", "123", "456.txt"];
    assert Help(m, ex, p, 2, 1);
    InteriorDeepStar(m, ex, p, 0, 0);
  }
}
