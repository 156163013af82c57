// The asset predicates that a filter binding pattern builds: a literal base name, a glob
// over the base name, a path pattern over the full path, or a literal path prefix
// followed by a path pattern.

module PatternPredicateFactory {
  import opened Wrappers
  import opened JavaString
  import opened PathUtil
  import opened NamePattern
  import opened PathPattern
  import AP = AssetPath

  // ---------------------------------------------------------------------------
  // The path-pattern helpers the factory relies on (isPathPattern, splitComponents,
  // findPrefix and joinComponents), as its class comment describes them

  /** A pattern is a path pattern when it contains a slash. */
  predicate IsPathPattern(pattern: string)
  {
    '/' in pattern
  }

  /** The number of leading components that hold no glob character. */
  function FindPrefix(cs: seq<string>): (k: nat)
    ensures k <= |cs|
    ensures forall i :: 0 <= i < k ==> !ContainsMetaChars(cs[i])
    ensures k < |cs| ==> ContainsMetaChars(cs[k])
    decreases |cs|
  {
    if cs == [] || ContainsMetaChars(cs[0]) then 0 else 1 + FindPrefix(cs[1..])
  }

  /** The literal prefix: the first k components, each under a leading slash. */
  function PrefixText(cs: seq<string>, k: nat): (r: string)
    requires k <= |cs|
    ensures k > 0 ==> r == "/" + JoinWith(cs[..k], '/')
  {
    if k == 0 then ""
    else
      SlashedIsJoin(cs[..k]);
      Slashed(cs[..k])
  }

  /** The compiled form of a component array, as the constructor of a PathPattern makes it. */
  function CompileAll(cs: seq<string>): (r: seq<MatchComp>)
    ensures |r| == |cs|
    ensures forall i :: 0 <= i < |cs| ==> r[i] == CompileComponent(cs[i])
  {
    seq(|cs|, i requires 0 <= i < |cs| => CompileComponent(cs[i]))
  }

  // ---------------------------------------------------------------------------
  // The predicates

  /**
   * The four predicate classes, by the fields their equals and matches read. A prefix
   * predicate keeps its pattern components (all components when it has no pattern) and
   * whether a PathPattern was built over them.
   */
  datatype Predicate =
    | NamePatternPredicate(srcPattern: string)
    | NameLiteralPredicate(nameLiteral: string)
    | PathPatternPredicate(components: seq<string>)
    | PrefixPatternPredicate(components: seq<string>, prefix: string, hasPattern: bool)

  /** The shape build gives a prefix predicate. */
  predicate WellFormed(p: Predicate)
  {
    p.PrefixPatternPredicate? ==>
      p.components != [] && (p.hasPattern <==> ContainsMetaChars(p.components[0]))
  }

  /** The pattern components of a prefix predicate: those after the literal prefix. */
  function PatternComponents(cs: seq<string>, prefixLength: nat): (r: seq<string>)
    requires prefixLength < |cs|
    ensures |r| == |cs| - prefixLength
    ensures forall i :: 0 <= i < |r| ==> r[i] == cs[i + prefixLength]
  {
    cs[prefixLength..]
  }

  /** The PrefixPatternPredicate constructor. */
  function NewPrefixPredicate(cs: seq<string>, prefixLength: nat): (r: Predicate)
    requires 0 < prefixLength <= |cs|
    ensures r.PrefixPatternPredicate? && r.prefix == PrefixText(cs, prefixLength)
    ensures r.hasPattern <==> prefixLength < |cs|
    ensures r.hasPattern ==> r.components == cs[prefixLength..]
    ensures !r.hasPattern ==> r.components == cs
  {
    var prefix := PrefixText(cs, prefixLength);
    if prefixLength < |cs| then PrefixPatternPredicate(PatternComponents(cs, prefixLength), prefix, true)
    else PrefixPatternPredicate(cs, prefix, false)
  }

  /** build: name literal, name glob, path pattern, or prefix plus pattern. */
  function Build(pattern: string): (r: Predicate)
    ensures WellFormed(r)
  {
    if !IsPathPattern(pattern) then
      if ContainsMetaChars(pattern) then NamePatternPredicate(pattern)
      else NameLiteralPredicate(pattern)
    else
      var cs := Components(pattern);
      var k := FindPrefix(cs);
      if k > 0 then NewPrefixPredicate(cs, k) else PathPatternPredicate(cs)
  }

  /**
   * matches(assetPath). The name predicates read the base name (null without components:
   * the glob then throws, the literal compares unequal); the path predicates read the
   * full path, whose failure propagates.
   */
  function Matches(p: Predicate, ap: AP.AssetPath): (r: Result<bool>)
  {
    match p
    case NamePatternPredicate(src) => MatchesName([CompileClause(src)], AP.BaseName(ap))
    case NameLiteralPredicate(lit) => Ok(AP.BaseName(ap) == Some(lit))
    case PathPatternPredicate(cs) =>
      (match AP.FullPath(ap)
       case Err(e) => Err(e)
       case Ok(path) => MatchPath(CompileAll(cs), Some(DefaultExcludes()), path))
    case PrefixPatternPredicate(cs, prefix, hasPattern) =>
      (match AP.FullPath(ap)
       case Err(e) => Err(e)
       case Ok(path) =>
         if !hasPattern then Ok(prefix == path)
         else if !(prefix <= path) then Ok(false)
         else
           var sub := path[|prefix|..];
           if !("/" <= sub) then Ok(false)
           else MatchPath(CompileAll(cs), Some(DefaultExcludes()), sub))
  }

  /** equals(other): same class and equal source fields; false for null. */
  function Equals(p: Predicate, other: Option<Predicate>): (r: bool)
    ensures other.None? ==> !r
    ensures !p.PrefixPatternPredicate? ==> (r <==> other == Some(p))
    ensures p.PrefixPatternPredicate? && r ==> other.value.PrefixPatternPredicate? && other.value.components == p.components
  {
    match other
    case None => false
    case Some(q) =>
      match p
      case NamePatternPredicate(src) => q.NamePatternPredicate? && q.srcPattern == src
      case NameLiteralPredicate(lit) => q.NameLiteralPredicate? && q.nameLiteral == lit
      case PathPatternPredicate(cs) => q.PathPatternPredicate? && q.components == cs
      case PrefixPatternPredicate(cs, prefix, _) =>
        q.PrefixPatternPredicate? && q.components == cs && q.prefix == prefix
  }

  // ---------------------------------------------------------------------------
  // The constructor's copy loop

  /**
   * The copy loop of the PrefixPatternPredicate constructor as written: it runs to
   * prefixLength rather than to the length of the new array. Reading past the source array
   * throws when the prefix is longer than the rest; when it is shorter the tail of the new
   * array stays null.
   */
  function CopyAsWritten(cs: seq<string>, prefixLength: nat): (r: Result<seq<Option<string>>>)
    requires prefixLength < |cs|
    ensures r.Err? <==> 2 * prefixLength > |cs|
    ensures r.Err? ==> r.error == IndexOutOfBounds
    ensures r.Ok? ==> |r.value| == |cs| - prefixLength
  {
    var n := |cs| - prefixLength;
    if prefixLength > n then Err(IndexOutOfBounds)
    else Ok(seq(n, i requires 0 <= i < n => if i < prefixLength then Some(cs[i + prefixLength]) else None))
  }

  /** The as-written copy is right only when the prefix and the rest have the same length. */
  lemma CopyAsWrittenExactOnlyAtHalf(cs: seq<string>, prefixLength: nat)
    requires 0 < prefixLength < |cs|
    ensures CopyAsWritten(cs, prefixLength).Ok? && 2 * prefixLength == |cs| ==>
      (forall i :: 0 <= i < |cs| - prefixLength ==> CopyAsWritten(cs, prefixLength).value[i] == Some(cs[i + prefixLength]))
    ensures CopyAsWritten(cs, prefixLength).Ok? && 2 * prefixLength < |cs| ==>
      CopyAsWritten(cs, prefixLength).value[|cs| - prefixLength - 1] == None
  {
  }

  // "/a/b/*.js": a prefix of two and one pattern component; the copy overruns.
  lemma CopyOverrunsOnLongPrefix(a: string, b: string, g: string)
    requires !ContainsMetaChars(a) && !ContainsMetaChars(b) && ContainsMetaChars(g)
    ensures FindPrefix([a, b, g]) == 2
    ensures CopyAsWritten([a, b, g], 2) == Err(IndexOutOfBounds)
  {
    assert [a, b, g][1..] == [b, g];
    assert [b, g][1..] == [g];
    assert FindPrefix([g]) == 0;
    assert FindPrefix([b, g]) == 1;
  }

  // "/a/**/x.js": a prefix of one and two pattern components; the last one stays null.
  lemma CopyLeavesNullOnShortPrefix(a: string, g: string)
    requires !ContainsMetaChars(a)
    ensures FindPrefix([a, "**", g]) == 1
    ensures CopyAsWritten([a, "**", g], 1) == Ok([Some("**"), None])
  {
    assert ContainsMetaChars("**") by { assert IsMeta("**"[0]); }
    assert [a, "**", g][1..] == ["**", g];
    assert FindPrefix(["**", g]) == 0;
    var r := CopyAsWritten([a, "**", g], 1);
    assert r.Ok? && |r.value| == 2;
    assert r.value[0] == Some("**") && r.value[1] == None;
    assert r.value == [Some("**"), None];
  }

  /** The copy loop with the bound corrected: every slot of the new array is filled. */
  method CopyPatternComponents(cs: seq<string>, prefixLength: nat) returns (pc: array<string>)
    requires prefixLength < |cs|
    ensures fresh(pc)
    ensures pc[..] == PatternComponents(cs, prefixLength)
  {
    pc := new string[|cs| - prefixLength](_ => "");
    var i := 0;
    while i < pc.Length
      invariant 0 <= i <= pc.Length
      invariant forall j :: 0 <= j < i ==> pc[j] == cs[j + prefixLength]
    {
      pc[i] := cs[i + prefixLength];
      i := i + 1;
    }
  }

  /** build with the constructor's copy loop run on an array. */
  method BuildPredicate(pattern: string) returns (r: Predicate)
    ensures r == Build(pattern)
  {
    if !IsPathPattern(pattern) {
      if ContainsMetaChars(pattern) {
        return NamePatternPredicate(pattern);
      }
      return NameLiteralPredicate(pattern);
    }
    var cs := Components(pattern);
    var k := FindPrefix(cs);
    if k == 0 {
      return PathPatternPredicate(cs);
    }
    var prefix := PrefixText(cs, k);
    if k < |cs| {
      var pc := CopyPatternComponents(cs, k);
      r := PrefixPatternPredicate(pc[..], prefix, true);
    } else {
      r := PrefixPatternPredicate(cs, prefix, false);
    }
  }

  // ---------------------------------------------------------------------------
  // Properties

  /** Which predicate build chooses, in both directions. */
  lemma BuildChooses(pattern: string)
    ensures Build(pattern).NameLiteralPredicate? <==> !IsPathPattern(pattern) && !ContainsMetaChars(pattern)
    ensures Build(pattern).NamePatternPredicate? <==> !IsPathPattern(pattern) && ContainsMetaChars(pattern)
    ensures Build(pattern).PathPatternPredicate? <==>
      IsPathPattern(pattern) && (Components(pattern) == [] || ContainsMetaChars(Components(pattern)[0]))
    ensures Build(pattern).PrefixPatternPredicate? ==>
      (Build(pattern).hasPattern <==> exists i :: 0 <= i < |Components(pattern)| && ContainsMetaChars(Components(pattern)[i]))
  {
    var cs := Components(pattern);
    if IsPathPattern(pattern) && FindPrefix(cs) > 0 && FindPrefix(cs) == |cs| {
      assert forall i :: 0 <= i < |cs| ==> !ContainsMetaChars(cs[i]);
    }
  }

  /** A name without slash or glob characters matches exactly the assets of that base name. */
  lemma LiteralMatchesBaseName(name: string, ap: AP.AssetPath)
    requires !IsPathPattern(name) && !ContainsMetaChars(name)
    ensures Matches(Build(name), ap) == Ok(ap.pathComponents != [] && ap.pathComponents[|ap.pathComponents| - 1] == name)
  {
  }

  /** A glob without slash is matched against the base name, and throws when there is none. */
  lemma NamePatternMatchesBaseName(pattern: string, ap: AP.AssetPath)
    requires !IsPathPattern(pattern) && ContainsMetaChars(pattern)
    ensures ap.pathComponents == [] ==> Matches(Build(pattern), ap) == Err(NullPointer)
    ensures ap.pathComponents != [] ==>
      Matches(Build(pattern), ap) == Ok(GlobMatch(CompileClause(pattern), ap.pathComponents[|ap.pathComponents| - 1]))
  {
  }

  /**
   * A path pattern whose first component is a glob matches the full path exactly as a
   * PathPattern built from the same text does.
   */
  lemma PathPatternAgreesWithPathPattern(pattern: string, ap: AP.AssetPath, path: string)
    requires IsPathPattern(pattern) && FindPrefix(Components(pattern)) == 0
    requires AP.FullPath(ap) == Ok(path)
    ensures Matches(Build(pattern), ap) == MatchPath(CompiledPattern(pattern), Some(DefaultExcludes()), path)
  {
    assert CompileAll(Components(pattern)) == CompiledPattern(pattern);
  }

  /** A prefix predicate without pattern accepts exactly the path equal to the prefix. */
  lemma PrefixAloneIsWholePath(p: Predicate, ap: AP.AssetPath, path: string)
    requires p.PrefixPatternPredicate? && !p.hasPattern
    requires AP.FullPath(ap) == Ok(path)
    ensures Matches(p, ap) == Ok(path == p.prefix)
  {
  }

  /**
   * A prefix predicate with a pattern refuses every path that does not continue the prefix
   * with a slash ("/mysite/staticjs/..." under "/mysite/static").
   */
  lemma PrefixNeedsSlash(p: Predicate, ap: AP.AssetPath, path: string)
    requires p.PrefixPatternPredicate? && p.hasPattern
    requires AP.FullPath(ap) == Ok(path)
    requires !(p.prefix + "/" <= path)
    ensures Matches(p, ap) == Ok(false)
  {
  }

  /** Past the prefix and its slash, the remainder is matched by the pattern components. */
  lemma PrefixDelegatesRemainder(p: Predicate, ap: AP.AssetPath, sub: string)
    requires p.PrefixPatternPredicate? && p.hasPattern
    requires AP.FullPath(ap) == Ok(p.prefix + sub) && "/" <= sub
    ensures Matches(p, ap) == MatchPath(CompileAll(p.components), Some(DefaultExcludes()), sub)
  {
    var path := p.prefix + sub;
    assert p.prefix <= path;
    assert path[|p.prefix|..] == sub;
  }

  /** equals is reflexive and symmetric, and refuses null. */
  lemma EqualsIsEquivalence(p: Predicate, q: Predicate)
    ensures Equals(p, Some(p))
    ensures Equals(p, Some(q)) <==> Equals(q, Some(p))
    ensures !Equals(p, None)
  {
  }

  /** Equal predicates of the shape build gives accept the same assets. */
  lemma EqualPredicatesAgree(p: Predicate, q: Predicate, ap: AP.AssetPath)
    requires WellFormed(p) && WellFormed(q) && Equals(p, Some(q))
    ensures Matches(p, ap) == Matches(q, ap)
  {
  }

  /** The components of a path written out under leading slashes. */
  lemma ComponentsOfSlashed(cs: seq<string>)
    requires |cs| >= 1 && cs[|cs| - 1] != ""
    requires forall i :: 0 <= i < |cs| ==> '/' !in cs[i]
    ensures Components(Slashed(cs)) == cs
  {
    SlashedIsJoin(cs);
    JoinWithEnds(cs, '/');
    var j := JoinWith(cs, '/');
    assert ("/" + j)[1..] == j;
    assert TrimSlashes("/" + j) == j;
    SplitOfJoin(cs, '/');
  }

  /** The text of four components under leading slashes. */
  lemma SlashedFour(a: string, b: string, c: string, d: string)
    ensures Slashed([a, b, c, d]) == "/" + a + "/" + b + "/" + c + "/" + d
  {
    SlashedTwo(a, b);
    var cs := [a, b, c, d];
    assert cs[..3] == [a, b, c];
    assert [a, b, c][..2] == [a, b];
    assert Slashed([a, b, c]) == "/" + a + "/" + b + "/" + c;
  }

  /** The text of two components under leading slashes. */
  lemma SlashedTwo(a: string, b: string)
    ensures Slashed([a, b]) == "/" + a + "/" + b
  {
    assert [a, b][..1] == [a];
    assert [a][..0] == [];
    assert Slashed([a]) == "/" + a;
  }

  /** Two literal components, then "**", give a prefix of two. */
  lemma PrefixOfTwoLiterals(a: string, b: string, g: string)
    requires !ContainsMetaChars(a) && !ContainsMetaChars(b)
    ensures FindPrefix([a, b, "**", g]) == 2
    ensures PrefixText([a, b, "**", g], 2) == "/" + a + "/" + b
  {
    var cs := [a, b, "**", g];
    assert ContainsMetaChars("**") by { assert IsMeta("**"[0]); }
    assert cs[1..] == [b, "**", g];
    assert cs[1..][1..] == ["**", g];
    assert FindPrefix(["**", g]) == 0;
    assert cs[..2] == [a, b];
    SlashedTwo(a, b);
  }

  // "/a/b/**/g" builds the prefix "/a/b" with the pattern components ["**", g].
  lemma BuildPrefixPattern(a: string, b: string, g: string)
    requires a != "" && b != "" && g != ""
    requires '/' !in a && '/' !in b && '/' !in g
    requires !ContainsMetaChars(a) && !ContainsMetaChars(b) && ContainsMetaChars(g)
    ensures Build("/" + a + "/" + b + "/**/" + g) == PrefixPatternPredicate(["**", g], "/" + a + "/" + b, true)
  {
    var cs := [a, b, "**", g];
    SlashedFour(a, b, "**", g);
    assert "/" + a + "/" + b + "/**/" + g == Slashed(cs);
    ComponentsOfSlashed(cs);
    PrefixOfTwoLiterals(a, b, g);
    assert cs[2..] == ["**", g];
  }
}
