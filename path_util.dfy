/**
 * Slash-separated path manipulation: splitting, normalising "." and "..", joining,
 * and re-expressing a relative reference against another directory.
 */
module PathUtil {
  import opened Wrappers
  import opened JavaString

  /** The components of a path, ignoring one leading and one trailing slash. */
  function SplitPath(path: string): (r: seq<string>)
    ensures forall i :: 0 <= i < |r| ==> '/' !in r[i]
    ensures |r| > 0 ==> r[|r| - 1] != ""
    ensures TrimSlashes(path) == "" ==> r == []
  {
    var t := TrimSlashes(path);
    SplitHasNoSeparator(t, '/');
    if t == "" then [] else Split(t, '/')
  }

  /** A component that normalisation keeps as it is. */
  predicate IsNamed(c: string)
  {
    c != "" && c != "." && c != ".."
  }

  /** Every component is a plain name (no empty, "." or ".." component). */
  predicate Clean(cs: seq<string>)
  {
    forall i :: 0 <= i < |cs| ==> IsNamed(cs[i])
  }

  /**
   * The components that remain after processing cs on top of the stack acc:
   * empty and "." components are skipped, ".." pops (and fails on an empty stack),
   * anything else is pushed.
   */
  function NormalizeFrom(acc: seq<string>, cs: seq<string>): Option<seq<string>>
    decreases |cs|
  {
    if cs == [] then Some(acc)
    else if cs[0] == "" || cs[0] == "." then NormalizeFrom(acc, cs[1..])
    else if cs[0] == ".." then
      if acc == [] then None else NormalizeFrom(acc[..|acc| - 1], cs[1..])
    else NormalizeFrom(acc + [cs[0]], cs[1..])
  }

  /** The stack a path starts from: empty for an absolute path, relativeTo's components otherwise. */
  function StartingStack(relativeTo: string, path: string): seq<string>
  {
    if "/" <= path then [] else SplitPath(relativeTo)
  }

  /** What normalizePathComponents returns: null is None. */
  function NormalizedComponents(relativeTo: string, path: string): Option<seq<string>>
  {
    NormalizeFrom(StartingStack(relativeTo, path), SplitPath(path))
  }

  /** The components under one leading slash each; "" for no components. */
  function Slashed(cs: seq<string>): string
    decreases |cs|
  {
    if cs == [] then "" else Slashed(cs[..|cs| - 1]) + "/" + cs[|cs| - 1]
  }

  /** What joinPath returns: "/" for no components. */
  function JoinedPath(cs: seq<string>): string
  {
    if cs == [] then "/" else Slashed(cs)
  }

  /** What joinRelativePath returns: a slash is written only once the text is non-empty. */
  function JoinedRelative(cs: seq<string>): string
    decreases |cs|
  {
    if cs == [] then ""
    else
      var front := JoinedRelative(cs[..|cs| - 1]);
      if |front| > 0 then front + "/" + cs[|cs| - 1] else cs[|cs| - 1]
  }

  /** What normalizePath returns. */
  function NormalizedPath(relativeTo: string, path: string): Option<string>
  {
    match NormalizedComponents(relativeTo, path)
    case None => None
    case Some(cs) => Some(JoinedPath(cs))
  }

  /** The prefix through the last slash, or "/" when there is none. */
  function Dirname(path: string): (r: string)
    ensures '/' !in path ==> r == "/"
    ensures '/' in path ==> 0 < |r| <= |path| && r == path[..|r|] && r[|r| - 1] == '/' && '/' !in path[|r|..]
  {
    var k := LastIndexOf(path, '/');
    if k < 0 then "/" else path[..k + 1]
  }

  /** The number of leading components on which a and b agree. */
  function CommonPrefixLength(a: seq<string>, b: seq<string>): (k: nat)
    ensures k <= |a| && k <= |b| && a[..k] == b[..k]
    ensures k < |a| && k < |b| ==> a[k] != b[k]
    decreases |a|
  {
    if |a| == 0 || |b| == 0 || a[0] != b[0] then 0
    else
      var k := CommonPrefixLength(a[1..], b[1..]);
      assert a[..k + 1] == [a[0]] + a[1..][..k];
      assert b[..k + 1] == [b[0]] + b[1..][..k];
      k + 1
  }

  /** n parent references. */
  function Parents(n: nat): (r: seq<string>)
    ensures |r| == n && forall i :: 0 <= i < n ==> r[i] == ".."
  {
    if n == 0 then [] else Parents(n - 1) + [".."]
  }

  /** The components of translateRelative's answer once the from-path is normalised. */
  function TranslatedComponents(from: seq<string>, to: seq<string>): seq<string>
  {
    var k := CommonPrefixLength(from, to);
    Parents(|to| - k) + from[k..]
  }

  /** What translateRelative returns: null is None. */
  function TranslatedPath(fromPath: string, toPath: string, path: string): (r: Option<string>)
    ensures r.None? <==> NormalizedComponents(fromPath, path).None?
  {
    match NormalizedComponents(fromPath, path)
    case None => None
    case Some(from) => Some(JoinedRelative(TranslatedComponents(from, SplitPath(toPath))))
  }

  // ---------------------------------------------------------------------------
  // The loops of the source

  /** normalizePathComponents: a stack of components built component by component. */
  method NormalizePathComponents(relativeTo: string, path: string) returns (r: Option<seq<string>>)
    ensures r == NormalizedComponents(relativeTo, path)
  {
    var components := SplitPath(path);
    var normalized: seq<string> := [];
    if !("/" <= path) {
      normalized := SplitPath(relativeTo);
    }
    var i := 0;
    while i < |components|
      invariant 0 <= i <= |components|
      invariant NormalizeFrom(normalized, components[i..]) == NormalizedComponents(relativeTo, path)
    {
      var component := components[i];
      assert components[i..][1..] == components[i + 1..];
      if component == "" || component == "." {
        i := i + 1;
        continue;
      }
      if component == ".." {
        if normalized == [] {
          return None;
        }
        normalized := normalized[..|normalized| - 1];
        i := i + 1;
        continue;
      }
      normalized := normalized + [component];
      i := i + 1;
    }
    r := Some(normalized);
  }

  /** joinPath: a slash before every component, "/" for none. */
  method JoinPath(components: seq<string>) returns (r: string)
    ensures r == JoinedPath(components)
  {
    if components == [] {
      return "/";
    }
    var builder := "";
    var i := 0;
    while i < |components|
      invariant 0 <= i <= |components|
      invariant builder == Slashed(components[..i])
    {
      assert components[..i + 1][..i] == components[..i];
      builder := builder + "/" + components[i];
      i := i + 1;
    }
    assert components[..i] == components;
    r := builder;
  }

  /** joinRelativePath: components separated by slashes, with no leading slash. */
  method JoinRelativePath(components: seq<string>) returns (r: string)
    ensures r == JoinedRelative(components)
  {
    var builder := "";
    var i := 0;
    while i < |components|
      invariant 0 <= i <= |components|
      invariant builder == JoinedRelative(components[..i])
    {
      assert components[..i + 1][..i] == components[..i];
      if |builder| > 0 {
        builder := builder + "/";
      }
      builder := builder + components[i];
      i := i + 1;
    }
    assert components[..i] == components;
    r := builder;
  }

  /** normalizePath. */
  method NormalizePath(relativeTo: string, path: string) returns (r: Option<string>)
    ensures r == NormalizedPath(relativeTo, path)
  {
    var components := NormalizePathComponents(relativeTo, path);
    if components.None? {
      return None;
    }
    var joined := JoinPath(components.value);
    r := Some(joined);
  }

  /** translateRelative: common prefix, one ".." per remaining target component, then the rest. */
  method TranslateRelative(fromPath: string, toPath: string, path: string) returns (r: Option<string>)
    ensures r == TranslatedPath(fromPath, toPath, path)
  {
    var fromOpt := NormalizePathComponents(fromPath, path);
    if fromOpt.None? {
      return None;
    }
    var from := fromOpt.value;
    var to := SplitPath(toPath);
    var suffixIndex := CommonPrefix(from, to);
    var target := TargetComponents(from, to, suffixIndex);
    var joined := JoinRelativePath(target);
    r := Some(joined);
  }

  /** The first loop of translateRelative: the length of the common prefix. */
  method CommonPrefix(from: seq<string>, to: seq<string>) returns (suffixIndex: nat)
    ensures suffixIndex == CommonPrefixLength(from, to)
  {
    var minLength := if |from| < |to| then |from| else |to|;
    suffixIndex := 0;
    var i := 0;
    while i < minLength
      invariant 0 <= i <= minLength && suffixIndex == i
      invariant from[..i] == to[..i]
      decreases minLength - i
    {
      if to[i] != from[i] {
        break;
      }
      assert from[..i + 1] == from[..i] + [from[i]];
      assert to[..i + 1] == to[..i] + [to[i]];
      suffixIndex := suffixIndex + 1;
      i := i + 1;
    }
    CommonPrefixIsMaximal(from, to, suffixIndex);
  }

  /** The last two loops of translateRelative: parent references, then the rest of from. */
  method TargetComponents(from: seq<string>, to: seq<string>, suffixIndex: nat) returns (target: seq<string>)
    requires suffixIndex == CommonPrefixLength(from, to)
    ensures target == TranslatedComponents(from, to)
  {
    target := [];
    var i := suffixIndex;
    while i < |to|
      invariant suffixIndex <= i <= |to|
      invariant target == Parents(i - suffixIndex)
    {
      target := target + [".."];
      i := i + 1;
    }
    i := suffixIndex;
    while i < |from|
      invariant suffixIndex <= i <= |from|
      invariant target == Parents(|to| - suffixIndex) + from[suffixIndex..i]
    {
      assert from[suffixIndex..i + 1] == from[suffixIndex..i] + [from[i]];
      target := target + [from[i]];
      i := i + 1;
    }
    assert from[suffixIndex..i] == from[suffixIndex..];
  }

  /** Stopping at the first disagreement (or at the shorter end) gives the common prefix length. */
  lemma CommonPrefixIsMaximal(a: seq<string>, b: seq<string>, k: nat)
    requires k <= |a| && k <= |b| && a[..k] == b[..k]
    requires k < |a| && k < |b| ==> a[k] != b[k]
    ensures k == CommonPrefixLength(a, b)
  {
  }

  // ---------------------------------------------------------------------------
  // Properties

  /** The change of stack depth caused by one component. */
  function Delta(c: string): int
  {
    if c == "" || c == "." then 0 else if c == ".." then -1 else 1
  }

  /** The net change of stack depth caused by a list of components. */
  function Balance(cs: seq<string>): int
    decreases |cs|
  {
    if cs == [] then 0 else Delta(cs[0]) + Balance(cs[1..])
  }

  /**
   * Normalisation fails exactly when some prefix of the components climbs above the
   * starting stack, and otherwise leaves a stack whose depth is the start plus the balance.
   */
  lemma {:induction false} NormalizeFailsIffClimbsAboveRoot(acc: seq<string>, cs: seq<string>)
    ensures NormalizeFrom(acc, cs).None? <==> exists k :: 0 < k <= |cs| && |acc| + Balance(cs[..k]) < 0
    ensures NormalizeFrom(acc, cs).Some? ==> |NormalizeFrom(acc, cs).value| == |acc| + Balance(cs)
    decreases |cs|
  {
    if cs != [] {
      var acc' := if cs[0] == "" || cs[0] == "." then acc
        else if cs[0] == ".." then (if acc == [] then [] else acc[..|acc| - 1])
        else acc + [cs[0]];
      NormalizeFailsIffClimbsAboveRoot(acc', cs[1..]);
      forall k | 0 < k <= |cs|
        ensures Balance(cs[..k]) == Delta(cs[0]) + Balance(cs[1..][..k - 1])
      {
        assert cs[..k][1..] == cs[1..][..k - 1];
      }
      if cs[0] == ".." && acc == [] {
        assert |acc| + Balance(cs[..1]) < 0;
      } else {
        if NormalizeFrom(acc, cs).None? {
          var k :| 0 < k <= |cs[1..]| && |acc'| + Balance(cs[1..][..k]) < 0;
          assert |acc| + Balance(cs[..k + 1]) < 0;
        }
        if exists k :: 0 < k <= |cs| && |acc| + Balance(cs[..k]) < 0 {
          var k :| 0 < k <= |cs| && |acc| + Balance(cs[..k]) < 0;
          assert k > 1;
          assert |acc'| + Balance(cs[1..][..k - 1]) < 0;
        }
      }
    }
  }

  /** Normalisation introduces no empty, "." or ".." component of its own. */
  /**
   * normalizePathComponents returns null exactly when some prefix of the path climbs above
   * the starting directory, and otherwise a stack as deep as the start plus the balance.
   */
  lemma NormalizedComponentsMeaning(relativeTo: string, path: string)
    ensures NormalizedComponents(relativeTo, path).None? <==>
      exists k :: 0 < k <= |SplitPath(path)| && |StartingStack(relativeTo, path)| + Balance(SplitPath(path)[..k]) < 0
    ensures NormalizedComponents(relativeTo, path).Some? ==>
      |NormalizedComponents(relativeTo, path).value| == |StartingStack(relativeTo, path)| + Balance(SplitPath(path))
  {
    NormalizeFailsIffClimbsAboveRoot(StartingStack(relativeTo, path), SplitPath(path));
  }

  lemma {:induction false} NormalizeKeepsClean(acc: seq<string>, cs: seq<string>)
    requires Clean(acc)
    requires NormalizeFrom(acc, cs).Some?
    ensures Clean(NormalizeFrom(acc, cs).value)
    decreases |cs|
  {
    if cs != [] {
      if cs[0] == "" || cs[0] == "." {
        NormalizeKeepsClean(acc, cs[1..]);
      } else if cs[0] == ".." {
        NormalizeKeepsClean(acc[..|acc| - 1], cs[1..]);
      } else {
        NormalizeKeepsClean(acc + [cs[0]], cs[1..]);
      }
    }
  }

  /** Plain names are simply pushed onto the stack. */
  lemma {:induction false} NormalizeNamed(acc: seq<string>, cs: seq<string>)
    requires Clean(cs)
    ensures NormalizeFrom(acc, cs) == Some(acc + cs)
    decreases |cs|
  {
    if cs != [] {
      assert IsNamed(cs[0]);
      NormalizeNamed(acc + [cs[0]], cs[1..]);
      assert acc + [cs[0]] + cs[1..] == acc + cs;
    } else {
      assert acc + cs == acc;
    }
  }

  /** n parent references pop exactly n entries off a stack at least that deep. */
  lemma {:induction false} NormalizeParents(acc: seq<string>, n: nat)
    requires n <= |acc|
    ensures NormalizeFrom(acc, Parents(n)) == Some(acc[..|acc| - n])
    decreases n
  {
    if n > 0 {
      assert Parents(n)[0] == ".." && Parents(n)[1..] == Parents(n - 1);
      NormalizeParents(acc[..|acc| - 1], n - 1);
      assert acc[..|acc| - 1][..|acc| - 1 - (n - 1)] == acc[..|acc| - n];
    } else {
      assert acc[..|acc|] == acc;
    }
  }

  /** Processing a list in two parts is processing the first part, then the second. */
  lemma {:induction false} NormalizeAppend(acc: seq<string>, xs: seq<string>, ys: seq<string>)
    requires NormalizeFrom(acc, xs).Some?
    ensures NormalizeFrom(acc, xs + ys) == NormalizeFrom(NormalizeFrom(acc, xs).value, ys)
    decreases |xs|
  {
    if xs != [] {
      assert (xs + ys)[0] == xs[0];
      assert (xs + ys)[1..] == xs[1..] + ys;
      if xs[0] == "" || xs[0] == "." {
        NormalizeAppend(acc, xs[1..], ys);
      } else if xs[0] == ".." {
        NormalizeAppend(acc[..|acc| - 1], xs[1..], ys);
      } else {
        NormalizeAppend(acc + [xs[0]], xs[1..], ys);
      }
    } else {
      assert xs + ys == ys;
    }
  }

  lemma {:induction false} SlashedIsJoin(cs: seq<string>)
    requires |cs| >= 1
    ensures Slashed(cs) == "/" + JoinWith(cs, '/')
    decreases |cs|
  {
    if |cs| > 1 {
      var front := cs[..|cs| - 1];
      SlashedIsJoin(front);
      JoinWithSnoc(front, cs[|cs| - 1], '/');
      assert front + [cs[|cs| - 1]] == cs;
    }
  }

  lemma {:induction false} JoinWithSnoc(ps: seq<string>, x: string, c: char)
    requires |ps| >= 1
    ensures JoinWith(ps + [x], c) == JoinWith(ps, c) + [c] + x
    decreases |ps|
  {
    if |ps| == 1 {
      assert ps + [x] == [ps[0], x];
    } else {
      assert (ps + [x])[1..] == ps[1..] + [x];
      JoinWithSnoc(ps[1..], x, c);
    }
  }

  /** Relative joining of non-empty components is plain slash-joining. */
  lemma {:induction false} JoinedRelativeIsJoin(cs: seq<string>)
    requires forall i :: 0 <= i < |cs| ==> cs[i] != ""
    ensures JoinedRelative(cs) == JoinWith(cs, '/')
    ensures |cs| > 0 ==> |JoinedRelative(cs)| > 0
    decreases |cs|
  {
    if |cs| > 1 {
      var front := cs[..|cs| - 1];
      JoinedRelativeIsJoin(front);
      JoinWithSnoc(front, cs[|cs| - 1], '/');
      assert front + [cs[|cs| - 1]] == cs;
    }
  }

  lemma {:induction false} JoinWithEnds(ps: seq<string>, c: char)
    requires |ps| >= 1 && ps[|ps| - 1] != ""
    ensures |JoinWith(ps, c)| > 0
    ensures JoinWith(ps, c)[|JoinWith(ps, c)| - 1] == ps[|ps| - 1][|ps[|ps| - 1]| - 1]
    decreases |ps|
  {
    if |ps| > 1 {
      JoinWithEnds(ps[1..], c);
    }
  }

  lemma {:induction false} JoinWithStarts(ps: seq<string>, c: char)
    requires |ps| >= 1 && ps[0] != ""
    ensures |JoinWith(ps, c)| > 0 && JoinWith(ps, c)[0] == ps[0][0]
  {
  }

  /**
   * joinPath always begins with a slash and, when the last component is non-empty,
   * ends with a slash only for the root.
   */
  lemma JoinedPathShape(cs: seq<string>)
    requires |cs| > 0 ==> cs[|cs| - 1] != ""
    ensures "/" <= JoinedPath(cs)
    ensures JoinedPath(cs)[|JoinedPath(cs)| - 1] == '/' <==> cs == [] || cs[|cs| - 1][|cs[|cs| - 1]| - 1] == '/'
  {
    if cs != [] {
      SlashedIsJoin(cs);
      JoinWithEnds(cs, '/');
    }
  }

  /** Splitting a joined path gives back its components (non-empty and slash-free). */
  lemma SplitJoinedPath(cs: seq<string>)
    requires forall i :: 0 <= i < |cs| ==> cs[i] != "" && '/' !in cs[i]
    ensures SplitPath(JoinedPath(cs)) == cs
  {
    if cs != [] {
      SlashedIsJoin(cs);
      JoinWithEnds(cs, '/');
      var j := JoinWith(cs, '/');
      assert ("/" + j)[1..] == j;
      assert TrimSlashes(JoinedPath(cs)) == j;
      SplitOfJoin(cs, '/');
    }
  }

  /** Splitting a relative join gives back its components (non-empty and slash-free). */
  lemma SplitJoinedRelative(cs: seq<string>)
    requires forall i :: 0 <= i < |cs| ==> cs[i] != "" && '/' !in cs[i]
    ensures SplitPath(JoinedRelative(cs)) == cs
    ensures cs != [] ==> !("/" <= JoinedRelative(cs))
  {
    JoinedRelativeIsJoin(cs);
    if cs != [] {
      JoinWithEnds(cs, '/');
      JoinWithStarts(cs, '/');
      assert TrimSlashes(JoinedRelative(cs)) == JoinedRelative(cs);
      SplitOfJoin(cs, '/');
    }
  }

  /** A normalised path is a fixed point of normalisation (when the base was clean). */
  lemma NormalizedPathIsStable(relativeTo: string, path: string)
    requires Clean(StartingStack(relativeTo, path))
    requires NormalizedPath(relativeTo, path).Some?
    ensures NormalizedPath("/", NormalizedPath(relativeTo, path).value) == NormalizedPath(relativeTo, path)
  {
    var cs := NormalizedComponents(relativeTo, path).value;
    NormalizeKeepsClean(StartingStack(relativeTo, path), SplitPath(path));
    NormalizeWithoutSlash(StartingStack(relativeTo, path), SplitPath(path));
    SplitJoinedPath(cs);
    JoinedPathShape(cs);
    NormalizeNamed([], cs);
    assert [] + cs == cs;
  }

  /** Normalising slash-free components yields slash-free components. */
  lemma {:induction false} NormalizeWithoutSlash(acc: seq<string>, cs: seq<string>)
    requires forall i :: 0 <= i < |acc| ==> '/' !in acc[i]
    requires forall i :: 0 <= i < |cs| ==> '/' !in cs[i]
    requires NormalizeFrom(acc, cs).Some?
    ensures forall i :: 0 <= i < |NormalizeFrom(acc, cs).value| ==> '/' !in NormalizeFrom(acc, cs).value[i]
    decreases |cs|
  {
    if cs != [] {
      if cs[0] == "" || cs[0] == "." {
        NormalizeWithoutSlash(acc, cs[1..]);
      } else if cs[0] == ".." {
        NormalizeWithoutSlash(acc[..|acc| - 1], cs[1..]);
      } else {
        NormalizeWithoutSlash(acc + [cs[0]], cs[1..]);
      }
    }
  }

  /** Slash-free components for a list that contains no embedded slash. */
  predicate SlashFree(cs: seq<string>)
  {
    forall i :: 0 <= i < |cs| ==> '/' !in cs[i]
  }

  /** The translated components are non-empty and slash-free when the from-components are clean. */
  lemma TranslatedComponentsArePlain(from: seq<string>, to: seq<string>)
    requires Clean(from) && SlashFree(from)
    ensures forall i :: 0 <= i < |TranslatedComponents(from, to)| ==>
      TranslatedComponents(from, to)[i] != "" && '/' !in TranslatedComponents(from, to)[i]
  {
    var k := CommonPrefixLength(from, to);
    var target := TranslatedComponents(from, to);
    forall i | 0 <= i < |target| ensures target[i] != "" && '/' !in target[i] {
      if i >= |to| - k {
        assert target[i] == from[k + (i - (|to| - k))];
      }
    }
  }

  /** Resolving the translated components on top of the target directory gives from back. */
  lemma ResolveTranslatedComponents(from: seq<string>, to: seq<string>)
    requires Clean(from)
    ensures NormalizeFrom(to, TranslatedComponents(from, to)) == Some(from)
  {
    var k := CommonPrefixLength(from, to);
    assert Clean(from[k..]);
    NormalizeParents(to, |to| - k);
    NormalizeAppend(to, Parents(|to| - k), from[k..]);
    assert to[..|to| - (|to| - k)] == to[..k];
    NormalizeNamed(to[..k], from[k..]);
    assert to[..k] + from[k..] == from[..k] + from[k..] == from;
  }

  /**
   * The translated reference, resolved against toPath, names the same components as
   * the original reference resolved against fromPath.
   */
  lemma TranslateRoundTrip(fromPath: string, toPath: string, path: string)
    requires TranslatedPath(fromPath, toPath, path).Some?
    requires Clean(NormalizedComponents(fromPath, path).value)
    ensures NormalizedComponents(toPath, TranslatedPath(fromPath, toPath, path).value) ==
            NormalizedComponents(fromPath, path)
  {
    var from := NormalizedComponents(fromPath, path).value;
    var to := SplitPath(toPath);
    var target := TranslatedComponents(from, to);
    NormalizeWithoutSlash(StartingStack(fromPath, path), SplitPath(path));
    TranslatedComponentsArePlain(from, to);
    SplitJoinedRelative(target);
    var t := JoinedRelative(target);
    assert t == TranslatedPath(fromPath, toPath, path).value;
    assert StartingStack(toPath, t) == to;
    ResolveTranslatedComponents(from, to);
  }

  /**
   * When the target directory lies on the normalised path, the translation is just the
   * rest of that path, with no parent reference (the first PathUtilTest example).
   */
  lemma TranslateBelowTarget(fromPath: string, toPath: string, path: string)
    requires NormalizedComponents(fromPath, path).Some?
    requires SplitPath(toPath) <= NormalizedComponents(fromPath, path).value
    ensures TranslatedPath(fromPath, toPath, path) ==
            Some(JoinedRelative(NormalizedComponents(fromPath, path).value[|SplitPath(toPath)|..]))
  {
    var from := NormalizedComponents(fromPath, path).value;
    var to := SplitPath(toPath);
    assert from[..|to|] == to[..|to|];
    CommonPrefixIsMaximal(from, to, |to|);
    assert Parents(0) + from[|to|..] == from[|to|..];
  }

  /**
   * When the normalised path and the target directory differ from their first component,
   * the translation climbs out of the whole target first (the second PathUtilTest example).
   */
  lemma TranslateAcrossRoot(fromPath: string, toPath: string, path: string)
    requires NormalizedComponents(fromPath, path).Some?
    requires |SplitPath(toPath)| > 0 && |NormalizedComponents(fromPath, path).value| > 0
    requires SplitPath(toPath)[0] != NormalizedComponents(fromPath, path).value[0]
    ensures TranslatedPath(fromPath, toPath, path) ==
            Some(JoinedRelative(Parents(|SplitPath(toPath)|) + NormalizedComponents(fromPath, path).value))
  {
    TranslatedComponentsAcrossRoot(NormalizedComponents(fromPath, path).value, SplitPath(toPath));
  }

  /** Paths that differ in their first component share nothing: every target component is climbed. */
  lemma TranslatedComponentsAcrossRoot(from: seq<string>, to: seq<string>)
    requires |from| > 0 && |to| > 0 && from[0] != to[0]
    ensures TranslatedComponents(from, to) == Parents(|to|) + from
  {
    CommonPrefixIsMaximal(from, to, 0);
    assert from[0..] == from;
  }
}
