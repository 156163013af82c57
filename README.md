# assetserver core in Dafny

A model of the core of assetserver, a server and build tool for web assets. A request path
is taken through the following steps:

- it is parsed into an asset path (AssetPath);
- it is matched to the resource mount that owns it (AssetRoot);
- the mount resolves it to a file inside its sandbox, honouring exclusion patterns and checking
  the canonical path (ResourceMount);
- the mount looks the result up in a file-system cache, and on a miss runs the configured filter
  chain (FilterChain, FilterSelector, FilterChainInitializerLookup) with the per-thread request
  context (RequestContext) and stores the result with its file dependencies (CacheIdentity,
  CacheEntry, FileCacheDependency, FileSystemCache).

Other parts are modelled as well:

- the path helpers and the glob and Ant-style patterns the configuration uses (PathUtil,
  NamePattern, PathPattern, PatternPredicateFactory);
- the lexer of the EJS template language (EjsParser);
- the block buffers that hold filter output (BlockOutputStream, BlockInputStream);
- the extension-to-mime-type table (MimeMapping);
- the HTML packer add-on (HtmlPacker).

The model has one Dafny module per source file. Code that computes a value becomes functions
and lemmas over datatypes. A Java object whose methods update its fields becomes a class: its
methods carry `modifies` clauses and are proved against specification functions. Loops stay
loops, with their invariants. The model uses these conventions:

- a Java exception is an `Err` of its kind in a `Result`;
- `null` is `None`;
- `int` and `long` arithmetic is written out where it matters: `String.hashCode`,
  `HashCodeBuilder`, truncating `/` and `%`, and the `(byte)` cast;
- the file system, the clock, the canonicalizer and the digest functions are parameters.

Where the comments and the code disagree, the model follows the code. Lemmas show each
difference on a concrete input:

- The AssetRoot class comment promises the longest matching mount point. The
  code lists the mount points in the order of the HashMap's keys, so the first match in that
  order wins (`AssetRoot.FirstListedWins`, `AssetRoot.OuterListedFirst`,
  `AssetRoot.InnerListedFirst`).
- `FilterChain.findFilterById` is documented to leave its iterator just after the filter. The
  code steps back, so the iterator is just before the filter (`FilterChain.FilterChain.FindFilterById`).
- PathPattern's excludes apply only to the components the matcher visits. A trailing `**`
  matches `/a/.git` even under the default excludes (`PathPattern.TrailingDeepStarSkipsExcludes`).
- The EJS parser's comment says string literals inside an interpolation are skipped. The scan
  as written closes each literal on its own opening quote. This is listed under Findings.

## Model

| member | source | states |
|---|---|---|
| `JavaString.TrimSlashes` | core/src/net/rcode/assetserver/util/PathUtil.java:42-46 | at most one leading and then one trailing slash is removed; "/" becomes "" |
| `JavaString.DropTrailingEmpty` | core/src/net/rcode/assetserver/util/PathUtil.java:34 | String.split's limit-0 rule: the result is a prefix of the pieces, does not end in "", and only empty pieces were dropped |
| `JavaString.SplitOfJoin` | core/src/net/rcode/assetserver/util/PathUtil.java:34 | splitting the separator-join of non-empty, separator-free parts gives the parts back |
| `PathUtil.SplitPath` | core/src/net/rcode/assetserver/util/PathUtil.java:30-35 | components are slash-free, the last one is never empty, and a path that trims to "" (such as "/") has no components |
| `PathUtil.NormalizePathComponents` | core/src/net/rcode/assetserver/util/PathUtil.java:55-92 | the stack loop returns exactly NormalizedComponents: relativeTo's components first unless the path is absolute, "" and "." skipped, ".." pops, null when popping an empty stack |
| `PathUtil.NormalizeFailsIffClimbsAboveRoot` | core/src/net/rcode/assetserver/util/PathUtil.java:75-80 | normalisation fails if and only if some prefix of the components climbs above the starting stack; on success the depth is the start depth plus the net balance |
| `PathUtil.NormalizeKeepsClean` | core/src/net/rcode/assetserver/util/PathUtil.java:63-89 | normalised output never holds an empty, "." or ".." component |
| `PathUtil.NormalizeNamed` | core/src/net/rcode/assetserver/util/PathUtil.java:87-88 | plain names are pushed in order onto the starting stack |
| `PathUtil.NormalizeParents` | core/src/net/rcode/assetserver/util/PathUtil.java:75-84 | n ".." components pop exactly n entries from a stack at least that deep |
| `PathUtil.NormalizeAppend` | core/src/net/rcode/assetserver/util/PathUtil.java:64-89 | the component loop composes: processing xs + ys is processing xs and then ys |
| `PathUtil.JoinPath` | core/src/net/rcode/assetserver/util/PathUtil.java:118-128 | the StringBuilder loop yields "/" for no components and "/c1/c2/..." otherwise |
| `PathUtil.JoinedPathShape` | core/src/net/rcode/assetserver/util/PathUtil.java:110-128 | a joined path always starts with "/" and ends with "/" only for the root (or when the last component itself ends in "/") |
| `PathUtil.SplitJoinedPath` | core/src/net/rcode/assetserver/util/PathUtil.java:30-35 | splitPath(joinPath(cs)) == cs for non-empty, slash-free components |
| `PathUtil.JoinRelativePath` | core/src/net/rcode/assetserver/util/PathUtil.java:144-152 | the loop writes a separator only once the builder is non-empty |
| `PathUtil.JoinedRelativeIsJoin` | core/src/net/rcode/assetserver/util/PathUtil.java:144-152 | for non-empty components the relative join is the plain slash-join and is non-empty when there is a component |
| `PathUtil.SplitJoinedRelative` | core/src/net/rcode/assetserver/util/PathUtil.java:144-152 | a relative join splits back into its components and never starts with "/" |
| `PathUtil.NormalizePath` | core/src/net/rcode/assetserver/util/PathUtil.java:103-108 | null when normalisation fails, otherwise the joined normalised components |
| `PathUtil.NormalizedPathIsStable` | core/src/net/rcode/assetserver/util/PathUtil.java:103-108 | normalising an already normalised path gives it back (idempotence) |
| `PathUtil.Dirname` | core/src/net/rcode/assetserver/util/PathUtil.java:170-174 | "/" when the path has no slash; otherwise the prefix through the last slash, inclusive |
| `PathUtil.CommonPrefixLength` | core/src/net/rcode/assetserver/util/PathUtil.java:194-200 | the two lists agree on the first k components and differ at k unless one ends there |
| `PathUtil.CommonPrefixIsMaximal` | core/src/net/rcode/assetserver/util/PathUtil.java:194-200 | any agreeing prefix that stops at a disagreement or an end is the common prefix length |
| `PathUtil.CommonPrefix` | core/src/net/rcode/assetserver/util/PathUtil.java:195-200 | the counting loop computes the common prefix length |
| `PathUtil.TargetComponents` | core/src/net/rcode/assetserver/util/PathUtil.java:202-211 | one ".." per uncommon toPath component, then the remaining from-components |
| `PathUtil.TranslateRelative` | core/src/net/rcode/assetserver/util/PathUtil.java:185-215 | null when the from-path does not normalise, otherwise the relative join of the target components |
| `PathUtil.ResolveTranslatedComponents` | core/src/net/rcode/assetserver/util/PathUtil.java:202-211 | normalising the target components on top of toPath's components gives the from-components back |
| `PathUtil.TranslateRoundTrip` | core/src/net/rcode/assetserver/util/PathUtil.java:176-215 | the translated reference, resolved against toPath, names the same components as the original resolved against fromPath |
| `PathUtil.TranslateBelowTarget` | core/src/net/rcode/assetserver/util/PathUtil.java:194-214 | when toPath lies on the normalised path the answer is the rest of that path, with no ".." |
| `PathUtil.TranslateAcrossRoot` | core/src/net/rcode/assetserver/util/PathUtil.java:194-214 | when the first components differ, the answer climbs out of all of toPath and then spells the whole path |
| `PathUtil.NormalizedComponentsMeaning` | core/src/net/rcode/assetserver/util/PathUtil.java:55-92 | normalizePathComponents returns null exactly when some prefix of the path climbs above the starting directory, and otherwise a stack as deep as the start plus the balance of names over parent references |
| `PathUtil.TranslatedPath` | core/src/net/rcode/assetserver/util/PathUtil.java:185-215 | translateRelative returns null exactly when the path cannot be normalised |
| `PathUtil.TranslatedComponentsAcrossRoot` | core/src/net/rcode/assetserver/util/PathUtil.java:194-211 | with no common first component every target component is climbed with ".." before the path |
| `NamePattern.MatchesAny` | core/src/net/rcode/assetserver/util/NamePattern.java:114-124 | the '^c1\|c2\|...$' alternation matches iff at least one clause matches the whole name |
| `NamePattern.NextMeta` | core/src/net/rcode/assetserver/util/NamePattern.java:47 | the GLOB_SPLIT search: the first '*' or '?' at or after the index, or -1 when there is none (also lines 88-90) |
| `NamePattern.CompileClause` | core/src/net/rcode/assetserver/util/NamePattern.java:85-100 | the corrected compilation: one token per pattern character, '*' as '.*', '?' as '.', every other character quoted |
| `NamePattern.Unquoted` | core/src/net/rcode/assetserver/util/NamePattern.java:99 | the terminal piece as the source appends it: an unquoted '.' is the any-character token; other regular-expression syntax in the tail is not modelled |
| `NamePattern.CompileGlob` | core/src/net/rcode/assetserver/util/NamePattern.java:85-100 | the find/quote loop of include builds exactly the corrected clause of the pattern |
| `NamePattern.QuotePiece` | core/src/net/rcode/assetserver/util/NamePattern.java:91-95 | a glob-free piece contributes its quotation and each glob character its token |
| `NamePattern.MatchesName` | core/src/net/rcode/assetserver/util/NamePattern.java:104-108 | false without clauses (before the name is looked at), a NullPointerException for a null name, otherwise the alternation's verdict |
| `NamePattern.NamePattern.constructor` | core/src/net/rcode/assetserver/util/NamePattern.java:63-64 | a fresh pattern has no clauses, is not frozen and has no compiled alternation |
| `NamePattern.NamePattern.FromPatterns` | core/src/net/rcode/assetserver/util/NamePattern.java:70-74 | the varargs constructor holds one compiled clause per pattern, in order |
| `NamePattern.NamePattern.Freeze` | core/src/net/rcode/assetserver/util/NamePattern.java:76-80 | sets frozen, keeps the clauses and compiles the alternation now |
| `NamePattern.NamePattern.Include` | core/src/net/rcode/assetserver/util/NamePattern.java:82-102 | IllegalStateException and no change when frozen; otherwise appends the compiled clause and drops the cached alternation |
| `NamePattern.NamePattern.CompilePattern` | core/src/net/rcode/assetserver/util/NamePattern.java:110-127 | null without clauses; otherwise the alternation of all clauses, cached in matchExpression |
| `NamePattern.NamePattern.Matches` | core/src/net/rcode/assetserver/util/NamePattern.java:104-108 | equals MatchesName over the current clauses |
| `NamePattern.NewDefaultExcludes` | core/src/net/rcode/assetserver/util/NamePattern.java:133-138 | DEFAULT_EXCLUDES holds one clause per listed name and is frozen and compiled |
| `NamePattern.AnyRunMatches` | core/src/net/rcode/assetserver/util/NamePattern.java:93 | '*' matches any run of non-terminator characters followed by a match of the rest |
| `NamePattern.AnyCharMatches` | core/src/net/rcode/assetserver/util/NamePattern.java:94 | '?' matches exactly one non-terminator character |
| `NamePattern.QuotedMatchesItself` | core/src/net/rcode/assetserver/util/NamePattern.java:91 | a quoted piece matches exactly the string it spells |
| `NamePattern.LiteralClauseMatchesItself` | core/src/net/rcode/assetserver/util/NamePattern.java:85-100 | a glob-free pattern (corrected compilation) matches that name and nothing else |
| `NamePattern.EmptyPatternMatchesNothing` | core/src/net/rcode/assetserver/util/NamePattern.java:105-106 | a pattern without clauses matches nothing, even a null name (also line 113) |
| `NamePattern.DefaultExcludes` | core/src/net/rcode/assetserver/util/NamePattern.java:22-45 | one corrected clause per default name, in list order |
| `NamePattern.DefaultExcludesMeaning` | core/src/net/rcode/assetserver/util/NamePattern.java:22-45 | DEFAULT_EXCLUDES matches a name iff it is a listed exact name or has one of the five glob shapes (backup "~", "#...#", ".#...", "%...%", "._...") |
| `NamePattern.GlobClausesOfDefaults` | core/src/net/rcode/assetserver/util/NamePattern.java:23-27 | the five glob defaults each match exactly the names of their shape |
| `NamePattern.LiteralClausesOfDefaults` | core/src/net/rcode/assetserver/util/NamePattern.java:28-44 | each exact default name matches only itself |
| `NamePattern.DefaultExcludesListedNames` | core/src/net/rcode/assetserver/util/NamePattern.java:28-44 | every listed exact name is excluded |
| `NamePattern.DefaultExcludesBackupFile` | core/test/net/rcode/assetserver/util/NamePatternTest.java:20-54 | "somefile.txt~" is excluded |
| `NamePattern.DefaultExcludesRefuseRandomFile` | core/test/net/rcode/assetserver/util/NamePatternTest.java:20-54 | "randomfile.txt" is not excluded |
| `NamePattern.DefaultExcludesRefuseLongerName` | core/test/net/rcode/assetserver/util/NamePatternTest.java:20-54 | ".DS_Storesomethingelse" is not excluded |
| `NamePattern.DefaultExcludesRefuseHalfBackup` | core/test/net/rcode/assetserver/util/NamePatternTest.java:20-54 | "#notabackup" is not excluded |
| `NamePattern.CompileClauseAsWritten` | core/src/net/rcode/assetserver/util/NamePattern.java:87-100 | include as written has one token per pattern character, and agrees with the corrected compilation whenever the pattern holds no '.' (the only metacharacter the model reads in the unquoted tail) |
| `NamePattern.AsWrittenGitClauseMatchesAgit` | core/src/net/rcode/assetserver/util/NamePattern.java:99 | as written, the ".git" default compiles to any-character + "git" and so excludes the ordinary name "agit" |
| `NamePattern.CorrectedGitClauseRefusesAgit` | core/src/net/rcode/assetserver/util/NamePattern.java:91 | with the tail quoted, ".git" does not match "agit" (also line 99) |
| `NamePattern.NoMetaWhenAbsent` | core/src/net/rcode/assetserver/util/NamePattern.java:47 | a name holding neither '*' nor '?' has no meta characters (also lines 59-61) |
| `NamePattern.GlobMatch` | core/src/net/rcode/assetserver/util/NamePattern.java:104-108 | the specification of a whole-name match of one clause: a literal token takes its own character, the any-character token one character other than a line terminator, the any-run token any run of such characters |
| `NamePattern.StarFreeClauseLength` | core/src/net/rcode/assetserver/util/NamePattern.java:85-100 | a clause without '*' matches names of its own length only, and a clause of literals matches exactly the name it spells |
| `NamePattern.ContainsMetaChars` | core/src/net/rcode/assetserver/util/NamePattern.java:59-61 | the specification of containsMetaChars: the name holds a '*' or a '?' |
| `NamePattern.DefaultExcludesAsWritten` | core/src/net/rcode/assetserver/util/NamePattern.java:133-138 | DEFAULT_EXCLUDES as the source compiles it: one clause per default name, each compiled as written |
| `NamePattern.GitClauseAsWritten` | core/src/net/rcode/assetserver/util/NamePattern.java:99 | as written, ".git" compiles to any character followed by "git" |
| `PathPattern.CompileComponent` | core/src/net/rcode/assetserver/util/PathPattern.java:39-48 | "**" becomes the deep star, a component with '*' or '?' a one-clause name glob, anything else a literal |
| `PathPattern.CompiledPattern` | core/src/net/rcode/assetserver/util/PathPattern.java:36-49 | one compiled component per slash-separated pattern component, leading and trailing slash ignored |
| `PathPattern.CompileComponents` | core/src/net/rcode/assetserver/util/PathPattern.java:37-49 | the constructor's loop compiles every component in place |
| `PathPattern.PathPattern.constructor` | core/src/net/rcode/assetserver/util/PathPattern.java:31 | keeps the pattern text, compiles its components and starts with DEFAULT_EXCLUDES (also lines 33-50) |
| `PathPattern.PathPattern.SetExcludes` | core/src/net/rcode/assetserver/util/PathPattern.java:56-58 | replaces the exclusion set and nothing else |
| `PathPattern.PathPattern.Matches` | core/src/net/rcode/assetserver/util/PathPattern.java:74-78 | the result of matchesHelp from index 0 on both sides; an empty component array on either side is the array-index exception |
| `PathPattern.HelpLoop` | core/src/net/rcode/assetserver/util/PathPattern.java:80-117 | the for(;;) loop of matchesHelp computes the recursive matcher Help |
| `PathPattern.DeepStarMethod` | core/src/net/rcode/assetserver/util/PathPattern.java:128-147 | the loop of matchesDeepStar computes DeepStarMatch: a trailing deep star matches at once, otherwise each later start index is tried in turn |
| `PathPattern.HelpWithoutDeepStar` | core/src/net/rcode/assetserver/util/PathPattern.java:90-112 | without "**" the rest matches iff both sides have equal length, every component matches pairwise and none is excluded |
| `PathPattern.MatchWithoutDeepStar` | core/src/net/rcode/assetserver/util/PathPattern.java:74-112 | the same for a whole path string |
| `PathPattern.HelpFromStart` | core/src/net/rcode/assetserver/util/PathPattern.java:77 | the component-wise verdict from the first components (also lines 90-112) |
| `PathPattern.CompiledWithoutDeepStar` | core/src/net/rcode/assetserver/util/PathPattern.java:36-49 | for a compiled pattern without "**": equal counts, each literal equal or glob matching, and no excluded component (also lines 90-112) |
| `PathPattern.DeepStarLoopExists` | core/src/net/rcode/assetserver/util/PathPattern.java:137-146 | the deep-star loop succeeds iff the rest of the pattern matches from some later path index |
| `PathPattern.InteriorDeepStar` | core/src/net/rcode/assetserver/util/PathPattern.java:95-97 | an interior "**" absorbs zero or more components: it matches iff the current component is allowed and the rest matches from some index on (also lines 137-146) |
| `PathPattern.TrailingDeepStar` | core/src/net/rcode/assetserver/util/PathPattern.java:95-97 | a trailing "**" matches whatever remains once the current component is allowed (also lines 129-133) |
| `PathPattern.ExcludedComponentRejects` | core/src/net/rcode/assetserver/util/PathPattern.java:86-88 | without "**", any excluded path component makes the match fail |
| `PathPattern.TrailingDeepStarSkipsExcludes` | core/src/net/rcode/assetserver/util/PathPattern.java:86-88 | the excludes only see visited components: "/**" still matches "/a/.git" under DEFAULT_EXCLUDES (also lines 95-97) |
| `PathPattern.ComponentsOfRoot` | core/src/net/rcode/assetserver/util/PathPattern.java:64-68 | "/" and "" split into the single empty component (also lines 75-76) |
| `PathPattern.ComponentsOfTwo` | core/src/net/rcode/assetserver/util/PathPattern.java:64-68 | "/a/b" splits into ["a", "b"] (also lines 75-76) |
| `PathPattern.DeepStarMatchesRoot` | core/test/net/rcode/assetserver/util/PathPatternTest.java:54 | "/**" matches "/" when the empty name is not excluded |
| `PathPattern.DeepStarMatchesTwo` | core/test/net/rcode/assetserver/util/PathPatternTest.java:55 | "/**" matches "/abc/123"-shaped paths |
| `PathPattern.DeepStarNeedsAComponent` | core/src/net/rcode/assetserver/util/PathPattern.java:104-112 | "/abc/**" does not match "/abc": the path runs out before the deep star |
| `PathPattern.DeepStarSuffixRejects` | core/test/net/rcode/assetserver/util/PathPatternTest.java:65-66 | "/**/123/456.txt" rejects "/789/456.txt" and "/abc/def/123/456.js" |
| `PathPattern.DeepStarSuffixAccepts` | core/test/net/rcode/assetserver/util/PathPatternTest.java:58 | "/**/123/456.txt" accepts "/abc/def/123/456.txt" |
| `PathPattern.DefaultExcludesRefuseGit` | core/src/net/rcode/assetserver/util/PathPattern.java:31 | the default exclusion set refuses ".git" |
| `PathPattern.DefaultExcludesAllowA` | core/src/net/rcode/assetserver/util/PathPattern.java:31 | the default exclusion set allows "a" |
| `PathPattern.Help` | core/src/net/rcode/assetserver/util/PathPattern.java:80-117 | a match never begins at an excluded component, a component other than a deep star accepts the path component it is matched with, and without a deep star in the rest of the pattern both run out together |
| `PathPattern.DeepStarMatch` | core/src/net/rcode/assetserver/util/PathPattern.java:128-147 | a deep star that ends the pattern matches at once |
| `PathPattern.DeepStarMatchMeaning` | core/src/net/rcode/assetserver/util/PathPattern.java:128-147 | a deep star followed by more pattern matches exactly when that rest matches from this or some later path component |
| `PathPattern.MatchPath` | core/src/net/rcode/assetserver/util/PathPattern.java:74-78 | matches throws exactly when the pattern or the path has no components, and a match never accepts an excluded first component |
| `PatternPredicateFactory.FindPrefix` | core/src/net/rcode/assetserver/core/PatternPredicateFactory.java:24-26 | findPrefix: the number of leading components without '*' or '?'; the component after them, if any, holds one (also line 192) |
| `PatternPredicateFactory.PrefixText` | core/src/net/rcode/assetserver/core/PatternPredicateFactory.java:128 | joinComponents(components, 0, k): the first k components, each under a leading slash |
| `PatternPredicateFactory.CompileAll` | core/src/net/rcode/assetserver/core/PatternPredicateFactory.java:96 | new PathPattern(String[]): one compiled component per array element (also line 135) |
| `PatternPredicateFactory.PatternComponents` | core/src/net/rcode/assetserver/core/PatternPredicateFactory.java:129-136 | the pattern components of a prefix predicate are exactly those after the prefix |
| `PatternPredicateFactory.NewPrefixPredicate` | core/src/net/rcode/assetserver/core/PatternPredicateFactory.java:126-138 | keeps the joined prefix; builds a pattern over the remaining components iff some remain, otherwise keeps all components |
| `PatternPredicateFactory.Build` | core/src/net/rcode/assetserver/core/PatternPredicateFactory.java:178-200 | every predicate build returns has the shape the constructors give it |
| `PatternPredicateFactory.BuildPredicate` | core/src/net/rcode/assetserver/core/PatternPredicateFactory.java:178-200 | build, with the prefix constructor's copy loop run on an array, returns the predicate Build describes |
| `PatternPredicateFactory.CopyPatternComponents` | core/src/net/rcode/assetserver/core/PatternPredicateFactory.java:131-134 | the corrected copy loop fills the new array with the components after the prefix |
| `PatternPredicateFactory.BuildChooses` | core/src/net/rcode/assetserver/core/PatternPredicateFactory.java:178-200 | literal iff no slash and no glob; name glob iff no slash and a glob; path pattern iff a slash and no literal leading component; a prefix predicate has a pattern iff some component holds a glob |
| `PatternPredicateFactory.LiteralMatchesBaseName` | core/src/net/rcode/assetserver/core/PatternPredicateFactory.java:69-73 | a name without slash or glob matches exactly the assets whose base name equals it (false when there is none) (also lines 180-186) |
| `PatternPredicateFactory.NamePatternMatchesBaseName` | core/src/net/rcode/assetserver/core/PatternPredicateFactory.java:41-45 | a slash-free glob is matched against the base name, and a missing base name is a NullPointerException (also lines 182-183) |
| `PatternPredicateFactory.PathPatternAgreesWithPathPattern` | core/src/net/rcode/assetserver/core/PatternPredicateFactory.java:99-103 | a path pattern without a literal prefix matches getFullPath exactly as a PathPattern of the same text (also lines 196-199) |
| `PatternPredicateFactory.PrefixAloneIsWholePath` | core/src/net/rcode/assetserver/core/PatternPredicateFactory.java:144-146 | with no remaining pattern, the prefix must equal the whole path |
| `PatternPredicateFactory.PrefixNeedsSlash` | core/src/net/rcode/assetserver/core/PatternPredicateFactory.java:148-150 | a path that does not continue the prefix with "/" is refused ("/mysite/staticjs/..." under "/mysite/static") |
| `PatternPredicateFactory.PrefixDelegatesRemainder` | core/src/net/rcode/assetserver/core/PatternPredicateFactory.java:148-151 | past the prefix and its slash, the remainder is matched by the pattern components |
| `PatternPredicateFactory.EqualsIsEquivalence` | core/src/net/rcode/assetserver/core/PatternPredicateFactory.java:47-55 | equals is reflexive and symmetric and false for null (also lines 75-83, 105-113, 155-164) |
| `PatternPredicateFactory.EqualPredicatesAgree` | core/src/net/rcode/assetserver/core/PatternPredicateFactory.java:47-55 | equals compares only the source pattern or components (and prefix), and equal predicates accept the same assets (also lines 75-83, 105-113, 155-164) |
| `PatternPredicateFactory.BuildPrefixPattern` | core/test/net/rcode/assetserver/core/PatternPredicateFactoryTest.java:44-45 | "/a/b/**/g" builds the prefix "/a/b" with the pattern components ["**", g] |
| `PatternPredicateFactory.PrefixOfTwoLiterals` | core/src/net/rcode/assetserver/core/PatternPredicateFactory.java:192 | two literal components before "**" give a prefix of two |
| `PatternPredicateFactory.ComponentsOfSlashed` | core/src/net/rcode/assetserver/core/PatternPredicateFactory.java:191 | splitComponents of a slash-led path gives its components back |
| `PatternPredicateFactory.CopyAsWritten` | core/src/net/rcode/assetserver/core/PatternPredicateFactory.java:131-134 | the copy loop as written: an index exception when the prefix is longer than the rest, null slots when it is shorter |
| `PatternPredicateFactory.CopyAsWrittenExactOnlyAtHalf` | core/src/net/rcode/assetserver/core/PatternPredicateFactory.java:132 | the as-written copy is right only when prefix and rest have the same length, and otherwise leaves its last slot null |
| `PatternPredicateFactory.CopyOverrunsOnLongPrefix` | core/src/net/rcode/assetserver/core/PatternPredicateFactory.java:132-133 | "/a/b/*.js": a prefix of two and one pattern component makes the copy read past the array |
| `PatternPredicateFactory.CopyLeavesNullOnShortPrefix` | core/src/net/rcode/assetserver/core/PatternPredicateFactory.java:132-133 | "/a/**/x.js": a prefix of one leaves the second pattern component null |
| `PatternPredicateFactory.IsPathPattern` | core/src/net/rcode/assetserver/core/PatternPredicateFactory.java:180 | the specification of isPathPattern: the pattern holds a slash |
| `PatternPredicateFactory.Matches` | core/src/net/rcode/assetserver/core/PatternPredicateFactory.java:41-45 | the specification of the four matches methods (also lines 70-73, 100-103, 141-152); the lemmas on base names, path patterns and prefixes state what each one accepts |
| `PatternPredicateFactory.Equals` | core/src/net/rcode/assetserver/core/PatternPredicateFactory.java:47-55 | equals is false for null; for name, literal and path predicates it is equality of the predicates, and prefix predicates agree on their components (also lines 75-83, 105-113, 155-164) |
| `AssetPath.EscapeValue` | core/src/net/rcode/assetserver/core/AssetPath.java:289-295 | an escape `%xy` decodes to a value below 256 whenever both characters are hexadecimal (signs accepted as `Integer.parseInt` does) |
| `AssetPath.UrlDecode` | core/src/net/rcode/assetserver/core/AssetPath.java:289-295 | decoding fails only with an illegal-argument error (a malformed escape) |
| `AssetPath.PercentEncode` | core/src/net/rcode/assetserver/core/AssetPath.java:289-295 | the reference encoder writes every character as one three-character escape |
| `AssetPath.DecodePlain` | core/src/net/rcode/assetserver/core/AssetPath.java:289-295 | a string without `%` or `+` decodes to itself |
| `AssetPath.DecodeEncoded` | core/src/net/rcode/assetserver/core/AssetPath.java:289-295 | decoding undoes percent-encoding of byte-sized characters (round trip) |
| `AssetPath.ValidHasNoSlash` | core/src/net/rcode/assetserver/core/AssetPath.java:35-37 | a valid component never contains a slash |
| `AssetPath.ExtractParameters` | core/src/net/rcode/assetserver/core/AssetPath.java:44-45 | without a `$...$` group the component is unchanged; with one, the parameter string holds no `$` and both pieces are shorter than the component |
| `AssetPath.ExtractFromParameterized` | core/src/net/rcode/assetserver/core/AssetPath.java:197-204 | `name$params$ext` with an extension chain yields the component `name+ext` and the parameter string `params` |
| `AssetPath.NoParametersWithoutTwoDollars` | core/src/net/rcode/assetserver/core/AssetPath.java:197-204 | a component with no `$` carries no parameters |
| `AssetPath.NormalizeComponent` | core/src/net/rcode/assetserver/core/AssetPath.java:195-219 | normalization fails only with an illegal-argument error, returns only valid components, and finds parameters only when asked to scan |
| `AssetPath.ComponentText` | core/src/net/rcode/assetserver/core/AssetPath.java:153-175 | a path fails exactly when it is non-empty and does not start with a slash |
| `AssetPath.NormalizeAll` | core/src/net/rcode/assetserver/core/AssetPath.java:178-185 | succeeds exactly when every component normalizes, giving one output per input, in order, with only the last scanned for parameters |
| `AssetPath.ParseComponents` | core/src/net/rcode/assetserver/core/AssetPath.java:153-186 | parsing fails only with an illegal-argument error and yields only valid components |
| `AssetPath.NormalizeAllFails` | core/src/net/rcode/assetserver/core/AssetPath.java:181-183 | one invalid component makes the whole path fail |
| `AssetPath.NormalizeAllSucceeds` | core/src/net/rcode/assetserver/core/AssetPath.java:181-185 | when every component normalizes, the result is those normalized components |
| `AssetPath.NormalizeComponents` | core/src/net/rcode/assetserver/core/AssetPath.java:178-185 | the loop computes exactly the specification of component normalization |
| `AssetPath.NewAssetPath` | core/src/net/rcode/assetserver/core/AssetPath.java:87-94 | construction keeps mount, mount point and path, and takes the parameter string from the last path component |
| `AssetPath.JoinComponents` | core/src/net/rcode/assetserver/core/AssetPath.java:305-313 | joining succeeds exactly when no component is empty or invalid, and writes each component after a slash |
| `AssetPath.JoinPath` | core/src/net/rcode/assetserver/core/AssetPath.java:305-313 | the loop appends the joined components to the buffer, or fails with an illegal-argument error |
| `AssetPath.FullPath` | core/src/net/rcode/assetserver/core/AssetPath.java:124-130 | the full path exists exactly when both component lists can be joined |
| `AssetPath.GetFullPath` | core/src/net/rcode/assetserver/core/AssetPath.java:124-130 | the method computes the full path |
| `AssetPath.BaseName` | core/src/net/rcode/assetserver/core/AssetPath.java:145-148 | the base name is the last path component, absent for the root path |
| `AssetPath.CreateChild` | core/src/net/rcode/assetserver/core/AssetPath.java:111-119 | a child exists exactly for a valid name, has one more component and the path extended by `/name` |
| `AssetPath.ChildBaseName` | core/src/net/rcode/assetserver/core/AssetPath.java:111-119 | a child's base name is the child name |
| `AssetPath.ChildFullPath` | core/src/net/rcode/assetserver/core/AssetPath.java:111-130 | a child's full path is the parent's full path plus `/name` |
| `AssetPath.FullPathJoined` | core/src/net/rcode/assetserver/core/AssetPath.java:124-130 | the full path is the slashed mount point components followed by the slashed path components |
| `AssetPath.ParseJoined` | core/src/net/rcode/assetserver/core/AssetPath.java:153-186 | parsing a path built from plain components gives back those components (round trip with joining) |
| `AssetPath.ParseJoinedScanned` | core/src/net/rcode/assetserver/core/AssetPath.java:153-186 | the same round trip holds when the last component is scanned for parameters and has none |
| `AssetPath.FullPathOfPlain` | core/test/net/rcode/assetserver/core/AssetPathTest.java:40-53 | a mount point and path of plain components parse to those components with no parameters, and the full path is their concatenation |
| `AssetPath.RootPath` | core/test/net/rcode/assetserver/core/AssetPathTest.java:24-37 | path `/` under the root mount point has no components, no base name and the full path `""` |
| `AssetPath.RelativePathRefused` | core/src/net/rcode/assetserver/core/AssetPath.java:153-175 | a non-empty path that does not start with `/` is refused |
| `AssetPath.InvalidComponentRefused` | core/src/net/rcode/assetserver/core/AssetPath.java:213-216 | any invalid component makes construction fail with an illegal-argument error |
| `AssetPath.DotNamesRefused` | core/test/net/rcode/assetserver/core/AssetPathTest.java:86-87 | `.` and `..` are not valid components |
| `AssetPath.DeviceNamesRefused` | core/test/net/rcode/assetserver/core/AssetPathTest.java:88-91 | the device names `con`, `PRN`, `AUX`, `NUL` are refused in any case |
| `AssetPath.NumberedDeviceNamesRefused` | core/test/net/rcode/assetserver/core/AssetPathTest.java:92-93 | numbered device names such as `COM3` and `LPT5` are refused |
| `AssetPath.LongerNamesAllowed` | core/src/net/rcode/assetserver/core/AssetPath.java:320-332 | names that only start like a device name, and ordinary file names, are valid |
| `AssetPath.DecodeEncodedSlash` | core/src/net/rcode/assetserver/core/AssetPath.java:207-211 | `%2f` decodes to a slash |
| `AssetPath.EncodedSlashRefused` | core/test/net/rcode/assetserver/core/AssetPathTest.java:74 | a component hiding an encoded slash is refused after decoding |
| `AssetPath.NameValue` | core/src/net/rcode/assetserver/core/AssetPath.java:269-277 | a piece without `=` binds its whole text to `""`; otherwise it splits at the first `=` |
| `AssetPath.Bindings` | core/src/net/rcode/assetserver/core/AssetPath.java:263-282 | binding pieces never loses a key already bound |
| `AssetPath.BindingKeys` | core/src/net/rcode/assetserver/core/AssetPath.java:263-282 | a key is bound exactly when it was already bound or names one of the pieces |
| `AssetPath.LastBindingWins` | core/src/net/rcode/assetserver/core/AssetPath.java:263-282 | when a name occurs several times, the last piece's value is the one kept |
| `AssetPath.KeptBinding` | core/src/net/rcode/assetserver/core/AssetPath.java:263-282 | a name that no piece mentions keeps its earlier value |
| `AssetPath.BadPieceFails` | core/src/net/rcode/assetserver/core/AssetPath.java:289-295 | a piece with a malformed escape makes parameter parsing fail |
| `AssetPath.NameValueOfPair` | core/src/net/rcode/assetserver/core/AssetPath.java:269-277 | `n=v` with an `=`-free name splits back into `n` and `v` |
| `AssetPath.BindPlain` | core/src/net/rcode/assetserver/core/AssetPath.java:269-279 | binding an escape-free piece adds its pair and continues with the rest |
| `AssetPath.TwoParameters` | core/test/net/rcode/assetserver/core/AssetPathTest.java:60-67 | `name=value&other=some` binds both names to their values |
| `AssetPath.ParameterOr` | core/src/net/rcode/assetserver/core/AssetPath.java:251-256 | a bound name gives its value, an unbound one the default |
| `AssetPath.ParameterMap.constructor` | core/src/net/rcode/assetserver/core/AssetPath.java:87-94 | a new path carries its parameter string and no parsed map yet |
| `AssetPath.ParameterMap.InitParameters` | core/src/net/rcode/assetserver/core/AssetPath.java:263-282 | parameters are parsed once, lazily; the map is the bindings of the `&`-separated pieces and the call fails when a piece is malformed |
| `AssetPath.ParameterMap.GetParameter` | core/src/net/rcode/assetserver/core/AssetPath.java:251-256 | looking a name up parses the parameters if needed and gives the bound value or the default |
| `AssetPath.IsValidComponent` | core/src/net/rcode/assetserver/core/AssetPath.java:320-332 | a valid component holds no slash and no backslash and is neither "." nor ".." |
| `AssetPath.IsReservedName` | core/src/net/rcode/assetserver/core/AssetPath.java:35 | the specification of INVALID_COMPONENT: ".", "..", and the device names CON, PRN, AUX, NUL, COM0-9 and LPT0-9 in any ASCII letter case |
| `AssetRoot.NormalizeMountPoint` | core/src/net/rcode/assetserver/core/AssetRoot.java:75-80 | the root key stands for null, `""` and `/`; otherwise one trailing slash is dropped and the key is non-empty |
| `AssetRoot.NonRoot` | core/src/net/rcode/assetserver/core/AssetRoot.java:89-97 | the alternatives are exactly the non-root keys |
| `AssetRoot.PatternOf` | core/src/net/rcode/assetserver/core/AssetRoot.java:82-117 | there is no pattern exactly when there are no mount points; the root is optional exactly when a root mount exists; the alternatives are the non-root mount points |
| `AssetRoot.FirstAlternative` | core/src/net/rcode/assetserver/core/AssetRoot.java:112 | the alternation picks a listed mount point that the full path starts with, followed by a slash and a line-terminator-free rest; it fails only when no mount point qualifies |
| `AssetRoot.MatchPath` | core/src/net/rcode/assetserver/core/AssetRoot.java:139-165 | a match names a registered mount point and its mount, the mount point text followed by the path is the full path, and the path starts with a slash; with no mounts nothing matches |
| `AssetRoot.AssetRoot.constructor` | core/src/net/rcode/assetserver/core/AssetRoot.java:40-46 | a new root has no mounts and no cached pattern |
| `AssetRoot.AssetRoot.Add` | core/src/net/rcode/assetserver/core/AssetRoot.java:70-73 | the mount is stored under the normalized key, replacing an earlier one, and the cached pattern is dropped; the key order is left open, as the HashMap leaves it: each key of the map is listed exactly once |
| `AssetRoot.SingleOwnerAnyOrder` | core/src/net/rcode/assetserver/core/AssetRoot.java:89-95 | when only one mount point can own a path, it owns it whatever order the map lists its keys in (also lines 30 and 139-153) |
| `AssetRoot.AssetRoot.GetMountPattern` | core/src/net/rcode/assetserver/core/AssetRoot.java:82-117 | the returned pattern is the one for the current keys, and it is cached when it exists |
| `AssetRoot.AssetRoot.Match` | core/src/net/rcode/assetserver/core/AssetRoot.java:139-165 | the method computes the match specification |
| `AssetRoot.AssetRoot.Resolve` | core/src/net/rcode/assetserver/core/AssetRoot.java:125-130 | without a match the result is null; otherwise it is what the matched mount resolves for the matched path |
| `AssetRoot.KeysStep` | core/src/net/rcode/assetserver/core/AssetRoot.java:89-97 | one more key adds its text to the alternatives, or marks the root |
| `AssetRoot.BuildMountPattern` | core/src/net/rcode/assetserver/core/AssetRoot.java:84-113 | the built pattern is the specification's pattern for the keys |
| `AssetRoot.ScanKeys` | core/src/net/rcode/assetserver/core/AssetRoot.java:86-97 | the loop collects the non-root keys in order and records whether a root and a non-root key exist |
| `AssetRoot.NoMountsMatchNothing` | core/src/net/rcode/assetserver/core/AssetRoot.java:106-107 | with no mounts no path matches |
| `AssetRoot.MountPointAloneRefused` | core/src/net/rcode/assetserver/core/AssetRoot.java:112 | a mount point's own text without a following slash is not matched |
| `AssetRoot.MountPointWithSlash` | core/src/net/rcode/assetserver/core/AssetRoot.java:139-157 | the mount point followed by a slash resolves under that mount with the path `/` and no components |
| `AssetRoot.SlashAfterMountPoint` | core/src/net/rcode/assetserver/core/AssetRoot.java:143-149 | the groups of `a/` are the key `a` and the rest `/` |
| `AssetRoot.SlashPathParses` | core/src/net/rcode/assetserver/core/AssetPath.java:153-186 | the path `/` parses to no components and no parameters |
| `AssetRoot.RootGroups` | core/src/net/rcode/assetserver/core/AssetRoot.java:143-153 | under no non-root mount point the groups are the root key and the whole path |
| `AssetRoot.RootTakesTheRest` | core/src/net/rcode/assetserver/core/AssetRoot.java:139-157 | a path under no non-root mount point goes to the root mount with a null mount point and the whole path |
| `AssetRoot.InvalidPathRefused` | core/src/net/rcode/assetserver/core/AssetRoot.java:156-161 | a rest that does not parse as a path gives null instead of an exception |
| `AssetRoot.FirstListedWins` | core/src/net/rcode/assetserver/core/AssetRoot.java:89-95 | for nested mount points the one earlier in the key order owns the deeper path, whichever is longer (the class comment promises the longest) |
| `AssetRoot.OuterListedFirst` | core/src/net/rcode/assetserver/core/AssetRoot.java:89-95 | with the outer mount point listed first, the outer mount owns `a/b/x` |
| `AssetRoot.InnerListedFirst` | core/src/net/rcode/assetserver/core/AssetRoot.java:89-95 | with the inner mount point listed first, the inner mount owns `a/b/x` |
| `AssetRoot.Groups` | core/src/net/rcode/assetserver/core/AssetRoot.java:143-153 | a match splits the full path into a listed mount point (or the root, when the pattern allows it) followed by a rest that starts with a slash and holds no line terminator |
| `ResourceMount.AccumPath` | core/src/net/rcode/assetserver/core/ResourceMount.java:96-102 | building the candidate path fails only on an empty location with components (charAt of an empty buffer), and otherwise extends the location |
| `ResourceMount.AccumPathJoins` | core/src/net/rcode/assetserver/core/ResourceMount.java:96-104 | for plain components the candidate path is the location, one separator unless it already ends with one, and the components joined by the separator |
| `ResourceMount.FileName` | core/src/net/rcode/assetserver/core/ResourceMount.java:149 | the file name is the separator-free tail of the path |
| `ResourceMount.Identity` | core/src/net/rcode/assetserver/core/ResourceMount.java:133-135 | a resolution is cached under the mount's class name, its mount point, its path and the empty environment string |
| `ResourceMount.RootLocator` | core/src/net/rcode/assetserver/core/ResourceMount.java:148-155 | the root locator is not cacheable, reads the file's bytes, has the mime table's type for the file name and the default encoding only for a textual type |
| `ResourceMount.DependencyArray` | core/src/net/rcode/assetserver/core/ResourceMount.java:166 | the entry's dependency array is the chain's dependencies in order, none null |
| `ResourceMount.DependencyArrayValid` | core/src/net/rcode/assetserver/core/ResourceMount.java:166-176 | a stored entry is valid exactly when every dependency the chain collected still holds |
| `ResourceMount.NegativeEntry` | core/src/net/rcode/assetserver/core/ResourceMount.java:167-170 | a null result is stored as an entry with null contents under the request's identity |
| `ResourceMount.PositiveEntry` | core/src/net/rcode/assetserver/core/ResourceMount.java:172-177 | a cacheable result is stored with its type, encoding and whole contents |
| `ResourceMount.ChainRun` | core/src/net/rcode/assetserver/core/ResourceMount.java:157-160 | the chain fails exactly when a binding's predicate throws or a filter throws during processing, with that exception (a predicate's comes first); a chain that succeeds has the file's own snapshot among its dependencies |
| `ResourceMount.ChainExceptionThrown` | core/src/net/rcode/assetserver/core/ResourceMount.java:157-160 | an exception from the chain, whether a predicate's or a filter's, is rethrown by resolve after the cache lookup, and nothing is stored |
| `ResourceMount.CacheResult` | core/src/net/rcode/assetserver/core/ResourceMount.java:163-182 | a non-cacheable result is returned untouched; otherwise the entry is stored when a cache exists and the temporary file never stays behind without a write fault |
| `ResourceMount.NullCacheStoreThrows` | core/src/net/rcode/assetserver/core/ResourceMount.java:164-177 | with no shared cache, a null or cacheable result makes the code as written throw a null-pointer exception, while the corrected decision returns the result |
| `ResourceMount.Serve` | core/src/net/rcode/assetserver/core/ResourceMount.java:146-182 | the part after the cache check keeps the cache present or absent and leaves no temporary file without a write fault |
| `ResourceMount.Settled` | core/src/net/rcode/assetserver/core/ResourceMount.java:160-182 | a thrown filter error is rethrown, an unfinished chain stays unfinished, and a finished chain goes through the caching decision |
| `ResourceMount.LookupCache` | core/src/net/rcode/assetserver/core/ResourceMount.java:136-144 | without a cache there is no hit; a hit has the request's identity and leaves the directory as it was |
| `ResourceMount.Resolution` | core/src/net/rcode/assetserver/core/ResourceMount.java:92-183 | resolving keeps the cache present or absent and leaves no temporary file behind without a write fault |
| `ResourceMount.LookupOrServe` | core/src/net/rcode/assetserver/core/ResourceMount.java:132-182 | a valid cached entry answers the request, otherwise the file is served through the chain |
| `ResourceMount.RejectedPathsNotFound` | core/src/net/rcode/assetserver/core/ResourceMount.java:104-130 | a path whose canonical form differs, that has an excluded component or that is not a file resolves to null without touching the cache |
| `ResourceMount.ValidHitShortCircuits` | core/src/net/rcode/assetserver/core/ResourceMount.java:138-143 | a valid hit answers with null for a negative entry or the entry itself, leaves the cache unchanged and does not depend on the filters |
| `ResourceMount.NoFiltersServesFile` | core/src/net/rcode/assetserver/core/ResourceMount.java:146-182 | when no filter is selected the file's own locator is returned, uncached |
| `ResourceMount.UncacheableNotStored` | core/src/net/rcode/assetserver/core/ResourceMount.java:179-182 | a non-cacheable chain result is returned as it is and nothing is stored |
| `ResourceMount.SecondResolutionHitsCache` | core/src/net/rcode/assetserver/core/ResourceMount.java:164-177 | after a null or cacheable result is stored, resolving the same path again gives the same answer from the cache, whatever the filters are |
| `ResourceMount.ChangedFileInvalidates` | core/src/net/rcode/assetserver/core/ResourceMount.java:158 | every stored entry depends on the file's stat, so a change to the file invalidates it |
| `ResourceMount.Files` | core/src/net/rcode/assetserver/core/ResourceMount.java:136 | the shared cache's directory exists exactly when there is a shared cache |
| `ResourceMount.ResourceMount.constructor` | core/src/net/rcode/assetserver/core/ResourceMount.java:47-67 | a new mount has its location, the default exclusions and no user exclusions |
| `ResourceMount.ResourceMount.SetDefaultExclusions` | core/src/net/rcode/assetserver/core/ResourceMount.java:80-82 | only the default exclusions change |
| `ResourceMount.ResourceMount.SetUserExclusions` | core/src/net/rcode/assetserver/core/ResourceMount.java:87-89 | only the user exclusions change |
| `ResourceMount.ResourceMount.CandidatePath` | core/src/net/rcode/assetserver/core/ResourceMount.java:96-104 | the loop computes the candidate path specification |
| `ResourceMount.ResourceMount.IsExcluded` | core/src/net/rcode/assetserver/core/ResourceMount.java:121-124 | the loop answers whether some component is matched by the default or user exclusions |
| `ResourceMount.ResourceMount.InitializeFilterChain` | core/src/net/rcode/assetserver/core/ResourceMount.java:190-198 | the chain gains, in order, the filters of the bindings whose predicate matches, and fails when a predicate throws |
| `ResourceMount.ResourceMount.RunChain` | core/src/net/rcode/assetserver/core/ResourceMount.java:157-160 | the chain run computes the chain specification, a filter's exception included |
| `ResourceMount.ResourceMount.StoreResult` | core/src/net/rcode/assetserver/core/ResourceMount.java:163-182 | the caching decision returns the outcome and leaves the cache files that CacheResult gives: an uncacheable locator is returned as is, and otherwise the entry (negative when nothing resolved) is stored, skipped when there is no cache (the corrected null check) |
| `ResourceMount.ResourceMount.ServeFile` | core/src/net/rcode/assetserver/core/ResourceMount.java:146-182 | serving computes the serve specification and its effect on the cache |
| `ResourceMount.ResourceMount.Settle` | core/src/net/rcode/assetserver/core/ResourceMount.java:160-182 | the end of serving computes the settle specification |
| `ResourceMount.ResourceMount.Resolve` | core/src/net/rcode/assetserver/core/ResourceMount.java:92-183 | resolve computes the resolution specification, outcome and cache directory |
| `ResourceMount.ResourceMount.LookupOrServeFile` | core/src/net/rcode/assetserver/core/ResourceMount.java:132-182 | the cache lookup and serving compute their specification |
| `ResourceMount.Excluded` | core/src/net/rcode/assetserver/core/ResourceMount.java:120-124 | the specification of the exclusion check: some component is matched by the default or the user exclusions |
| `ResourceMount.CacheResultAsWritten` | core/src/net/rcode/assetserver/core/ResourceMount.java:164-182 | with a cache, or for a locator that is not cacheable, the decision as written is the corrected one |
| `FilterChain.WithDependency` | core/src/net/rcode/assetserver/core/FilterChain.java:21 | adding a dependency to the set adds its path, keeps every earlier dependency and never duplicates a path (also lines 72-74) |
| `FilterChain.WithDependencies` | core/src/net/rcode/assetserver/core/FilterChain.java:21 | adding several dependencies adds all their paths, keeps the earlier ones and never duplicates a path (also lines 72-74) |
| `FilterChain.WithDependencyIdempotent` | core/src/net/rcode/assetserver/core/FilterChain.java:21 | adding the same dependency twice is the same as adding it once |
| `FilterChain.Process` | core/src/net/rcode/assetserver/core/FilterChain.java:44-49 | processing stops without an exception only when the locator is null, the queue is empty or the fuel is spent; a filter's exception ends it after that filter's call |
| `FilterChain.ProcessKeepsDependencies` | core/src/net/rcode/assetserver/core/FilterChain.java:44-49 | processing, whether it ends normally or with a filter's exception, only ever adds dependencies and never duplicates a path |
| `FilterChain.ThrowStopsProcessing` | core/src/net/rcode/assetserver/core/FilterChain.java:44-49 | when the head filter throws, processing ends with that exception: no further filter runs, the current locator stays the one before the call, and the queue is what the filter left |
| `FilterChain.NoThrowWithoutThrowingFilter` | core/src/net/rcode/assetserver/core/FilterChain.java:44-49 | when no filter throws, processing never ends with an exception |
| `FilterChain.ProcessAfterCall` | core/src/net/rcode/assetserver/core/FilterChain.java:45-48 | one pass of the loop body agrees with the processing specification: after a throw it is the final state, otherwise processing goes on from the new state with one call less |
| `FilterChain.ProcessStep` | core/src/net/rcode/assetserver/core/FilterChain.java:45-48 | one step removes the head filter and gives it the current locator and the rest of the queue; if the filter throws, processing ends there with that exception |
| `FilterChain.ProcessStops` | core/src/net/rcode/assetserver/core/FilterChain.java:45 | with a null locator or an empty queue nothing happens |
| `FilterChain.PipelineHead` | core/src/net/rcode/assetserver/core/FilterChain.java:44-49 | the composed pipeline applies the head filter first, then the rest to its output |
| `FilterChain.ProcessComposes` | core/src/net/rcode/assetserver/core/FilterChain.java:38-49 | filters that only transform their source are applied head to tail, each to the previous output, and add no dependencies |
| `FilterChain.NullStopsProcessing` | core/src/net/rcode/assetserver/core/FilterChain.java:38-48 | once a filter returns null without throwing, no further filter runs and the rest stays queued |
| `FilterChain.AppendedFilterRuns` | core/src/net/rcode/assetserver/core/FilterChain.java:38-48 | a filter added to the queue by a running filter runs in the same processing call |
| `FilterChain.FilterChain.constructor` | core/src/net/rcode/assetserver/core/FilterChain.java:30-36 | a new chain's current locator is the root locator, with no filters and no dependencies |
| `FilterChain.FilterChain.ProcessFilters` | core/src/net/rcode/assetserver/core/FilterChain.java:44-49 | the loop leaves the chain in the state the processing specification gives; it throws exactly when the specification ends with a filter's exception, and that exception; otherwise it reports whether its own condition ended it |
| `FilterChain.FilterChain.CallHead` | core/src/net/rcode/assetserver/core/FilterChain.java:46-47 | one pass of the loop body: the head filter is removed and run, the new state is the specification's step, and the filter's exception, if any, is returned |
| `FilterChain.FilterChain.SetCurrent` | core/src/net/rcode/assetserver/core/FilterChain.java:63-65 | only the current locator changes |
| `FilterChain.FilterChain.AddLast` | core/src/net/rcode/assetserver/core/FilterChain.java:102-104 | the filter is appended to the queue and nothing else changes |
| `FilterChain.FilterChain.AddDependency` | core/src/net/rcode/assetserver/core/FilterChain.java:72-74 | the dependency is added to the set and nothing else changes |
| `FilterChain.FilterChain.FindFilterById` | core/src/net/rcode/assetserver/core/FilterChain.java:118-128 | the position is just before the first filter with the id, or the end when none has it |
| `FilterChain.Pipeline` | core/src/net/rcode/assetserver/core/FilterChain.java:44-49 | the specification of filters that only transform: the queue composed as functions, head first; `FilterChain.ProcessComposes` relates it to processing |
| `FilterSelector.PredicateMatches` | core/src/net/rcode/assetserver/core/NamePatternPredicate.java:12-15 | a name-pattern predicate matches the pattern against the asset's base name; a factory predicate matches as the factory built it |
| `FilterSelector.Selected` | core/src/net/rcode/assetserver/core/FilterSelector.java:41-46 | at most one filter per pair is selected, and each selected filter belongs to a pair whose predicate accepts the asset |
| `FilterSelector.SelectedOne` | core/src/net/rcode/assetserver/core/FilterSelector.java:42-45 | one pair contributes its filter when the predicate accepts, nothing when it refuses, and the exception when it throws |
| `FilterSelector.SelectedAppend` | core/src/net/rcode/assetserver/core/FilterSelector.java:42-45 | selection over two lists is the first list's filters followed by the second's, unless the first throws |
| `FilterSelector.AppendMatching` | core/src/net/rcode/assetserver/core/FilterSelector.java:41-46 | the loop appends exactly the selected filters, in order, to the chain's list, and stops at a throwing predicate |
| `FilterSelector.FilterSelector.constructor` | core/src/net/rcode/assetserver/core/FilterSelector.java:21-24 | a new selector has no pairs |
| `FilterSelector.FilterSelector.Add` | core/src/net/rcode/assetserver/core/FilterSelector.java:26-31 | the pair is appended |
| `FilterSelector.FilterSelector.AddNamePattern` | core/src/net/rcode/assetserver/core/FilterSelector.java:33-39 | a glob string is added as a name-pattern predicate of that one glob |
| `FilterSelector.FilterSelector.Build` | core/src/net/rcode/assetserver/core/FilterSelector.java:41-46 | building appends the selected filters to the chain and changes nothing else in it |
| `FilterSelector.NamePatternSelectsOnBaseName` | core/src/net/rcode/assetserver/core/FilterSelector.java:33-45 | a filter added by glob is selected exactly when the glob matches the asset's base name |
| `FilterChainInitializerLookup.FollowSplit` | core/src/net/rcode/assetserver/core/FilterChainInitializerLookup.java:90-99 | following i alias links and then j more is following i+j links |
| `FilterChainInitializerLookup.Chase` | core/src/net/rcode/assetserver/core/FilterChainInitializerLookup.java:88-99 | the alias loop fails only with an illegal-state error, and a name it returns has no alias |
| `FilterChainInitializerLookup.ChaseFollows` | core/src/net/rcode/assetserver/core/FilterChainInitializerLookup.java:88-99 | the name the loop returns is reached by following alias links from the requested name |
| `FilterChainInitializerLookup.CycleNeverEnds` | core/src/net/rcode/assetserver/core/FilterChainInitializerLookup.java:93-96 | on an alias cycle every name reached still has an alias |
| `FilterChainInitializerLookup.ChaseEndsWithoutCycle` | core/src/net/rcode/assetserver/core/FilterChainInitializerLookup.java:88-99 | when the alias walk reaches an unaliased name, the cycle check never fires |
| `FilterChainInitializerLookup.CycleIffNoEnd` | core/src/net/rcode/assetserver/core/FilterChainInitializerLookup.java:88-99 | lookup reports a circular alias exactly when the alias links from the name never reach an unaliased name; otherwise it stops at such a name on the walk |
| `FilterChainInitializerLookup.AliasAll` | core/src/net/rcode/assetserver/core/FilterChainInitializerLookup.java:70-74 | after alias, each listed alias stands for the root name and every other name keeps its binding |
| `FilterChainInitializerLookup.LookupResult` | core/src/net/rcode/assetserver/core/FilterChainInitializerLookup.java:86-116 | a found initializer is cached under the end of the alias chain, cached bindings are never lost, and an object is created only by instantiating the class named after the `@` |
| `FilterChainInitializerLookup.FilterChainInitializerLookup.constructor` | core/src/net/rcode/assetserver/core/FilterChainInitializerLookup.java:27-32 | a new lookup has no aliases and no cached initializers |
| `FilterChainInitializerLookup.FilterChainInitializerLookup.Alias` | core/src/net/rcode/assetserver/core/FilterChainInitializerLookup.java:70-74 | the loop binds each alias to the root name, in order, and changes nothing else |
| `FilterChainInitializerLookup.FilterChainInitializerLookup.AddBuiltins` | core/src/net/rcode/assetserver/core/FilterChainInitializerLookup.java:38-63 | the four bundled filters get their id and category aliases, and nothing else changes |
| `FilterChainInitializerLookup.FilterChainInitializerLookup.Set` | core/src/net/rcode/assetserver/core/FilterChainInitializerLookup.java:82-84 | the name is bound in the instance cache and nothing else changes |
| `FilterChainInitializerLookup.FilterChainInitializerLookup.Lookup` | core/src/net/rcode/assetserver/core/FilterChainInitializerLookup.java:86-131 | the method computes the lookup specification: result, cache and count of created objects |
| `FilterChainInitializerLookup.LaterAliasOverrides` | core/src/net/rcode/assetserver/core/FilterChainInitializerLookup.java:70-74 | a later alias call for the same name wins |
| `FilterChainInitializerLookup.SetBindingIsFound` | core/src/net/rcode/assetserver/core/FilterChainInitializerLookup.java:82-84 | a binding made with set is what lookup returns for every name whose alias chain ends there, without instantiating (also lines 101-103) |
| `FilterChainInitializerLookup.UnaliasedIsItsOwnEnd` | core/src/net/rcode/assetserver/core/FilterChainInitializerLookup.java:91-92 | a name without an alias is looked up as itself |
| `FilterChainInitializerLookup.RepeatedLookupSameInstance` | core/src/net/rcode/assetserver/core/FilterChainInitializerLookup.java:101-115 | a second lookup of the same name returns the same object without instantiating again |
| `FilterChainInitializerLookup.UnboundNames` | core/src/net/rcode/assetserver/core/FilterChainInitializerLookup.java:106-109 | an uncached empty name gives null, and an uncached name not starting with `@` is an illegal-state error |
| `FilterChainInitializerLookup.TwoAliasCycle` | core/src/net/rcode/assetserver/core/FilterChainInitializerLookup.java:93-96 | two names aliased to each other are reported as a circular reference |
| `FilterChainInitializerLookup.AliasPairKeeps` | core/src/net/rcode/assetserver/core/FilterChainInitializerLookup.java:70-74 | an alias call leaves names it does not mention alone |
| `FilterChainInitializerLookup.SecondCallSurvives` | core/src/net/rcode/assetserver/core/FilterChainInitializerLookup.java:38-58 | later alias calls on other names keep an earlier call's bindings |
| `FilterChainInitializerLookup.BuiltinEjsAliases` | core/src/net/rcode/assetserver/core/FilterChainInitializerLookup.java:46-49 | after addBuiltins both ejs names alias the ejs filter class, which has no alias |
| `FilterChainInitializerLookup.BuiltinEjsNames` | core/test/net/rcode/assetserver/core/FilterChainInitializerLookupTest.java:20-21 | after addBuiltins `ejs`, `#std-ejs` and the ejs class name all look up the ejs filter class |
| `RequestContext.RequestContext.constructor` | core/src/net/rcode/assetserver/core/RequestContext.java:56-57 | a new context has no references and no active chains |
| `RequestContext.RequestContext.GetCurrentFilterChain` | core/src/net/rcode/assetserver/core/RequestContext.java:73-79 | the current chain is the top of the stack, and an empty stack is an illegal-state error |
| `RequestContext.RequestContext.PushActiveFilterChain` | core/src/net/rcode/assetserver/core/RequestContext.java:84-86 | the chain goes on top of the stack |
| `RequestContext.RequestContext.PopActiveFilterChain` | core/src/net/rcode/assetserver/core/RequestContext.java:93-99 | the top chain is removed and returned, and an empty stack is an illegal-state error |
| `RequestContext.RequestContext.AddDependency` | core/src/net/rcode/assetserver/core/RequestContext.java:105-109 | every active chain's dependency set gains the dependency, and nothing else of the chains changes |
| `RequestContext.RequestThread.constructor` | core/src/net/rcode/assetserver/core/RequestContext.java:17 | a thread starts with no context bound |
| `RequestContext.RequestThread.GetInstance` | core/src/net/rcode/assetserver/core/RequestContext.java:24-30 | the bound context is returned, and none bound is an illegal-state error |
| `RequestContext.RequestThread.Enter` | core/src/net/rcode/assetserver/core/RequestContext.java:32-43 | entering adds a reference to the bound context, or binds a new context with one reference |
| `RequestContext.RequestThread.Exit` | core/src/net/rcode/assetserver/core/RequestContext.java:45-54 | exiting with nothing bound is an illegal-state error; otherwise it drops a reference and unbinds the context when none is left |
| `RequestContext.EnterExitBalanced` | core/src/net/rcode/assetserver/core/RequestContext.java:32-54 | one enter followed by one exit leaves the thread unbound |
| `RequestContext.NestedEnterSharesContext` | core/src/net/rcode/assetserver/core/RequestContext.java:32-54 | a nested enter returns the same context, which stays bound until the outer exit |
| `CacheIdentity.HashCode` | src/net/rcode/assetserver/cache/CacheIdentity.java:39-47 | the hash code is a 32-bit value built from the four fields with seed 17 and multiplier 37 |
| `CacheIdentity.EqualsIffSameFields` | src/net/rcode/assetserver/cache/CacheIdentity.java:49-62 | two identities are equal exactly when all four fields agree, nulls included |
| `CacheIdentity.EqualsIsEquivalence` | src/net/rcode/assetserver/cache/CacheIdentity.java:49-62 | equality is reflexive, symmetric and transitive, and false for null |
| `CacheIdentity.EqualHashCodes` | src/net/rcode/assetserver/cache/CacheIdentity.java:39-62 | equal identities have equal hash codes |
| `FileCacheDependency.Snapshot` | core/src/net/rcode/assetserver/cache/FileCacheDependency.java:26-31 | the constructor records the absolute path and the file's existence, modification time and length at that moment |
| `FileCacheDependency.HashCode` | core/src/net/rcode/assetserver/cache/FileCacheDependency.java:43-46 | the hash code is the 32-bit hash of the path |
| `FileCacheDependency.ValidIffUnchanged` | core/src/net/rcode/assetserver/cache/FileCacheDependency.java:34-41 | a dependency is valid exactly while the file's existence, modification time and length are those snapshotted |
| `FileCacheDependency.SnapshotIsValid` | core/src/net/rcode/assetserver/cache/FileCacheDependency.java:26-41 | with no change since the snapshot the dependency is valid |
| `FileCacheDependency.AppearingFileInvalidates` | core/src/net/rcode/assetserver/cache/FileCacheDependency.java:9-13 | a file absent at the snapshot invalidates the dependency once it exists (also lines 34-41) |
| `FileCacheDependency.EqualsOnPathOnly` | core/src/net/rcode/assetserver/cache/FileCacheDependency.java:43-53 | equality and hash code depend on the path alone, and nothing equals null |
| `CacheIdentity.Equals` | src/net/rcode/assetserver/cache/CacheIdentity.java:49-62 | equals holds exactly for the same identity, field by field, and never for null |
| `CacheIdentity.FieldHash` | src/net/rcode/assetserver/cache/CacheIdentity.java:39-47 | each field contributes a 32-bit hash, 0 for null |
| `FileCacheDependency.IsValid` | core/src/net/rcode/assetserver/cache/FileCacheDependency.java:34-41 | valid exactly when the file's stat now is the one snapshotted |
| `FileCacheDependency.Equals` | core/src/net/rcode/assetserver/cache/FileCacheDependency.java:48-53 | equal dependencies have equal path hashes, and nothing equals null |
| `CacheEntry.CheckValid` | core/src/net/rcode/assetserver/cache/CacheEntry.java:58-65 | the loop answers true exactly when there is no dependency array or every non-null dependency is still valid |
| `CacheEntry.Length` | core/src/net/rcode/assetserver/cache/CacheEntry.java:83-86 | a negative entry has length 0, any other the number of its content bytes |
| `CacheEntry.StreamBytes` | core/src/net/rcode/assetserver/cache/CacheEntry.java:77-80 | the stream yields exactly as many bytes as the length says: the contents, or nothing for a negative entry |
| `CacheEntry.NoDependenciesValid` | core/src/net/rcode/assetserver/cache/CacheEntry.java:59-64 | an entry with no dependency array, or an empty one, is valid whatever the files |
| `CacheEntry.NullDependenciesIgnored` | core/src/net/rcode/assetserver/cache/CacheEntry.java:60-61 | null elements of the dependency array never invalidate an entry |
| `CacheEntry.ChangedFileInvalidates` | core/src/net/rcode/assetserver/cache/CacheEntry.java:60-61 | one dependency on a file whose stat changed since its snapshot makes the entry invalid |
| `CacheEntry.CacheEntry.constructor` | core/src/net/rcode/assetserver/cache/CacheEntry.java:30-36 | a new entry holds its fields and no etag yet |
| `CacheEntry.CacheEntry.GetETag` | core/src/net/rcode/assetserver/cache/CacheEntry.java:38-48 | the etag is null for a negative entry and otherwise the digest of the contents, which is then memoised |
| `CacheEntry.IsValid` | core/src/net/rcode/assetserver/cache/CacheEntry.java:58-65 | the specification of isValid: no dependency array, or every non-null dependency still valid; `CacheEntry.CheckValid` is proved against it |
| `FileSystemCache.SlotName` | core/src/net/rcode/assetserver/cache/FileSystemCache.java:39 | every slot file's name starts with the identity's external name (also line 86) |
| `FileSystemCache.SlotNameInjective` | core/src/net/rcode/assetserver/cache/FileSystemCache.java:39 | different sequence numbers give different slot names (also line 86) |
| `FileSystemCache.SlotSetSize` | core/src/net/rcode/assetserver/cache/FileSystemCache.java:38-40 | n sequence numbers give n distinct slot names |
| `FileSystemCache.DeleteByPrefix` | core/src/net/rcode/assetserver/cache/FileSystemCache.java:155-166 | exactly the files whose name starts with the prefix are deleted, and the others keep their contents |
| `FileSystemCache.LookupFrom` | core/src/net/rcode/assetserver/cache/FileSystemCache.java:35-48 | a hit carries the requested identity and leaves the directory unchanged; a miss either leaves it unchanged or has deleted the whole group (also lines 139-147) |
| `FileSystemCache.HeaderOf` | core/src/net/rcode/assetserver/cache/FileSystemCache.java:176-199 | reading the identity fails exactly for a file that cannot be read at all |
| `FileSystemCache.StoreSlotFrom` | core/src/net/rcode/assetserver/cache/FileSystemCache.java:84-102 | the slot search fails only on an unreadable slot; otherwise it picks the first slot that is absent or holds an equal identity, past slots that all hold other identities |
| `FileSystemCache.FileSystemCache.constructor` | core/src/net/rcode/assetserver/cache/FileSystemCache.java:27-29 | a cache holds its directory and its naming of identities |
| `FileSystemCache.FileSystemCache.Lookup` | core/src/net/rcode/assetserver/cache/FileSystemCache.java:35-48 | the probing loop computes the lookup specification, result and directory |
| `FileSystemCache.FileSystemCache.Store` | core/src/net/rcode/assetserver/cache/FileSystemCache.java:54-130 | store leaves the directory the store specification gives |
| `FileSystemCache.FileSystemCache.MoveIntoSlot` | core/src/net/rcode/assetserver/cache/FileSystemCache.java:104-111 | the slot's old file is removed and, unless the rename fails, the entry takes its place |
| `FileSystemCache.StoreInDirNoSlot` | core/src/net/rcode/assetserver/cache/FileSystemCache.java:124-129 | an I/O error in the slot search deletes the whole group |
| `FileSystemCache.StoreInDirFound` | core/src/net/rcode/assetserver/cache/FileSystemCache.java:94 | with a slot found, the entry replaces that slot's file, or the slot is just emptied when the rename fails (also lines 104-111) |
| `FileSystemCache.FindSlot` | core/src/net/rcode/assetserver/cache/FileSystemCache.java:85-102 | the slot-search loop computes the slot specification |
| `FileSystemCache.LookupReadableKeeps` | core/src/net/rcode/assetserver/cache/FileSystemCache.java:35-48 | when every file of the group is readable, lookup never changes the directory |
| `FileSystemCache.LookupFindsSlot` | core/src/net/rcode/assetserver/cache/FileSystemCache.java:38-46 | lookup returns the entry of the first slot holding the identity, past slots of other identities |
| `FileSystemCache.LookupMissesAtGap` | core/src/net/rcode/assetserver/cache/FileSystemCache.java:38-40 | lookup returns null at the first missing slot and leaves the directory unchanged |
| `FileSystemCache.StoreThenLookup` | core/src/net/rcode/assetserver/cache/FileSystemCache.java:37-46 | after a store with no I/O error in a readable group, looking the identity up returns the stored entry (also lines 63-111) |
| `FileSystemCache.StoreKeepsReadable` | core/src/net/rcode/assetserver/cache/FileSystemCache.java:63-111 | a store with no I/O error keeps every file of the group readable |
| `FileSystemCache.StoreKeepsOthers` | core/src/net/rcode/assetserver/cache/FileSystemCache.java:85-102 | storing one identity keeps another identity of the same group retrievable |
| `FileSystemCache.StoreTouchesOnlyGroup` | core/src/net/rcode/assetserver/cache/FileSystemCache.java:54-130 | store changes no file outside the group and the temporary file |
| `FileSystemCache.StoreRemovesTemporary` | core/src/net/rcode/assetserver/cache/FileSystemCache.java:104-123 | the temporary file is gone afterwards unless writing it failed |
| `FileSystemCache.UnreadableDeletesGroup` | core/src/net/rcode/assetserver/cache/FileSystemCache.java:139-147 | an unreadable first slot makes lookup miss and delete every file of the group (also lines 155-166) |
| `FileSystemCache.StoreTwoKeepsBoth` | core/src/net/rcode/assetserver/cache/FileSystemCache.java:85-102 | two identities sharing an external name, stored one after the other, occupy different slots and both stay retrievable (also lines 37-46) |
| `FileSystemCache.LookupInDir` | core/src/net/rcode/assetserver/cache/FileSystemCache.java:35-48 | a hit is an entry carrying the looked-up identity and leaves the directory as it was; a miss leaves it as it was or without the whole group |
| `FileSystemCache.StoreInDir` | core/src/net/rcode/assetserver/cache/FileSystemCache.java:54-130 | store changes no file outside the group except the temporary file, which is left behind exactly when the write fails |
| `EjsParser.SkipLineSpace` | core/src/net/rcode/assetserver/ejs/EjsParser.java:155-156 | the run of `[\p{Space}&&[^\n]]*` from i: every character in it is a blank other than '\n', and the one after it is not |
| `EjsParser.SkipSpace` | core/src/net/rcode/assetserver/ejs/EjsParser.java:186-187 | the run of `\s*` from i: all white space, line terminators included, and the character after it is not |
| `EjsParser.LineEnd` | core/src/net/rcode/assetserver/ejs/EjsParser.java:275-281 | the first '\n' at or after i, or the end of the input: no terminator before it and '$' matches there |
| `EjsParser.Lines` | core/src/net/rcode/assetserver/ejs/EjsParser.java:215-221 | the number of line terminators in source[start..end], at most its length and zero for an empty range |
| `EjsParser.CommandTopAt` | core/src/net/rcode/assetserver/ejs/EjsParser.java:155-156 | a top-level command match starts at a line start and ends at a line end, holds "##" before the keyword, and is an escape exactly when a third '#' follows |
| `EjsParser.FindCommandTop` | core/src/net/rcode/assetserver/ejs/EjsParser.java:307-308 | `matcher.find(position)`: the leftmost command line at or after the position, and no match anywhere when it reports none |
| `EjsParser.IntroAt` | core/src/net/rcode/assetserver/ejs/EjsParser.java:179-180 | an introduction is one of `##`, `##=`, `###`, `###=` after blanks at a line start, or `#{`/`##{` anywhere, and the token is the text the match ends with |
| `EjsParser.FindIntro` | core/src/net/rcode/assetserver/ejs/EjsParser.java:376-377 | the leftmost introduction at or after the position, or none anywhere after it |
| `EjsParser.DirectiveStart` | core/src/net/rcode/assetserver/ejs/EjsParser.java:193-195 | `\s*##(?!#)` looking at i ends just after a "##" that no third '#' follows |
| `EjsParser.BlockEndAt` | core/src/net/rcode/assetserver/ejs/EjsParser.java:200-202 | a block end is a whole line holding "##=" between blanks: it starts at a line start and ends at a line end |
| `EjsParser.FindBlockEnd` | core/src/net/rcode/assetserver/ejs/EjsParser.java:499-501 | the leftmost block-end line at or after start, or none anywhere after it |
| `EjsParser.SkipQuoted` | core/src/net/rcode/assetserver/ejs/EjsParser.java:546-555 | the quoted-run loop ends within the input and advances past at least one character when any is left |
| `EjsParser.InterpEnd` | core/src/net/rcode/assetserver/ejs/EjsParser.java:539-573 | the interpolation end is a '}' with the position just after it, or the end of the input twice (the corrected quote scan that starts after the opening quote) |
| `EjsParser.InterpEndAsWritten` | core/src/net/rcode/assetserver/ejs/EjsParser.java:539-573 | the scan as written, with the quote scan starting on the opening quote; it ends within the input |
| `EjsParser.Dump` | core/src/net/rcode/assetserver/ejs/EjsParser.java:247-269 | dumping the buffer only appends events with non-empty text (an empty buffer reports nothing) |
| `EjsParser.TopLoop` | core/src/net/rcode/assetserver/ejs/EjsParser.java:304-358 | the top-level loop stays within the source, never moves the position back and only appends non-empty events |
| `EjsParser.TopStep` | core/src/net/rcode/assetserver/ejs/EjsParser.java:308-351 | one top-level pass stays within the source, appends only non-empty events and, when it goes round again, has moved the position forward |
| `EjsParser.TopCommand` | core/src/net/rcode/assetserver/ejs/EjsParser.java:326-350 | the ##EJSDISABLE and ##EJSON branches stay within the source and do not move the position back |
| `EjsParser.TopLoopEnds` | core/src/net/rcode/assetserver/ejs/EjsParser.java:352-357 | with no command line left, the rest of the source is gathered as literal text and the position moves to the end |
| `EjsParser.TopLoopPass` | core/src/net/rcode/assetserver/ejs/EjsParser.java:304-351 | with a command line ahead, the loop is one pass on it followed by the loop from where the pass leaves, or that pass's state when it breaks out |
| `EjsParser.StateTop` | core/src/net/rcode/assetserver/ejs/EjsParser.java:301-363 | parseStateTop only appends non-empty events |
| `EjsParser.Parsed` | core/src/net/rcode/assetserver/ejs/EjsParser.java:287-299 | parse(source) only appends non-empty events |
| `EjsParser.MainLoop` | core/src/net/rcode/assetserver/ejs/EjsParser.java:374-442 | the main-mode loop stays within the source, never moves back and only appends non-empty events |
| `EjsParser.MainStep` | core/src/net/rcode/assetserver/ejs/EjsParser.java:375-442 | one main-mode pass reports the text before the introduction and, when it goes round again, has moved the position forward |
| `EjsParser.MainDispatch` | core/src/net/rcode/assetserver/ejs/EjsParser.java:386-441 | the branches on the introduction (escapes, commands, directives, blocks, interpolations) resume no earlier than the end of the introduction |
| `EjsParser.Directives` | core/src/net/rcode/assetserver/ejs/EjsParser.java:451-490 | parseSingleLineDirectives leaves the position after start and only appends non-empty events |
| `EjsParser.DirectiveLine` | core/src/net/rcode/assetserver/ejs/EjsParser.java:457-463 | taking one directive line reports nothing and leaves the position after start |
| `EjsParser.NextDirective` | core/src/net/rcode/assetserver/ejs/EjsParser.java:466-486 | a next directive in the run starts after a "##" at or after the position |
| `EjsParser.DirectiveRun` | core/src/net/rcode/assetserver/ejs/EjsParser.java:456-489 | the corrected run of directives stays within the source and only appends non-empty events |
| `EjsParser.DirectiveRunAsWritten` | core/src/net/rcode/assetserver/ejs/EjsParser.java:456-489 | the run as written stays within the source and leaves the position after start |
| `EjsParser.DelimitedBlock` | core/src/net/rcode/assetserver/ejs/EjsParser.java:497-514 | parseDelimetedBlock leaves the position after start and only appends non-empty events |
| `EjsParser.InterpolationAt` | core/src/net/rcode/assetserver/ejs/EjsParser.java:524-531 | parseInterpolation leaves the position after start and only appends non-empty events |
| `EjsParser.EjsParser.constructor` | core/src/net/rcode/assetserver/ejs/EjsParser.java:204-207 | a new parser has no source and has reported nothing |
| `EjsParser.EjsParser.IncrementLine` | core/src/net/rcode/assetserver/ejs/EjsParser.java:215-221 | the line number grows by the number of terminators in source[start..end]; nothing else changes |
| `EjsParser.EjsParser.Chomp` | core/src/net/rcode/assetserver/ejs/EjsParser.java:228-233 | the state becomes the chomped one: a terminator at the position is stepped over and counted |
| `EjsParser.EjsParser.ResetBuffer` | core/src/net/rcode/assetserver/ejs/EjsParser.java:238-242 | the buffer empties and the location restarts at the current line and position |
| `EjsParser.EjsParser.DumpBuffer` | core/src/net/rcode/assetserver/ejs/EjsParser.java:247-269 | the state becomes Dump of the old state: a non-empty buffer is reported with its location, then reset |
| `EjsParser.EjsParser.FindLineEnd` | core/src/net/rcode/assetserver/ejs/EjsParser.java:275-281 | the loop returns LineEnd(source, start) |
| `EjsParser.EjsParser.SkipQuotedRun` | core/src/net/rcode/assetserver/ejs/EjsParser.java:546-555 | the quoted-run loop returns SkipQuoted from after the opening quote |
| `EjsParser.EjsParser.ScanForInterpolationEnd` | core/src/net/rcode/assetserver/ejs/EjsParser.java:539-573 | returns the index of the closing brace and moves the position past it, as InterpEnd says |
| `EjsParser.EjsParser.ParseInterpolation` | core/src/net/rcode/assetserver/ejs/EjsParser.java:524-531 | the new state is InterpolationAt of the old one |
| `EjsParser.EjsParser.ParseDelimitedBlock` | core/src/net/rcode/assetserver/ejs/EjsParser.java:497-514 | the new state is DelimitedBlock of the old one |
| `EjsParser.EjsParser.ParseSingleLineDirectives` | core/src/net/rcode/assetserver/ejs/EjsParser.java:451-490 | the new state is Directives of the old one, blank lines between directive lines counted |
| `EjsParser.EjsParser.TakeDirectiveLine` | core/src/net/rcode/assetserver/ejs/EjsParser.java:457-463 | the new state is DirectiveLine of the old one |
| `EjsParser.EjsParser.FindNextDirective` | core/src/net/rcode/assetserver/ejs/EjsParser.java:466-486 | returns NextDirective of the current state |
| `EjsParser.EjsParser.MainPass` | core/src/net/rcode/assetserver/ejs/EjsParser.java:375-442 | the new state and the exit flag are those of MainStep |
| `EjsParser.EjsParser.Dispatch` | core/src/net/rcode/assetserver/ejs/EjsParser.java:386-441 | the new state and the exit flag are those of MainDispatch |
| `EjsParser.EjsParser.ParseStateMain` | core/src/net/rcode/assetserver/ejs/EjsParser.java:371-443 | the new state is MainLoop from the reset old state |
| `EjsParser.EjsParser.TopPass` | core/src/net/rcode/assetserver/ejs/EjsParser.java:308-351 | the new state and the exit flag are those of the corrected TopStep |
| `EjsParser.EjsParser.RunCommand` | core/src/net/rcode/assetserver/ejs/EjsParser.java:326-350 | the new state and the exit flag are those of the corrected TopCommand |
| `EjsParser.EjsParser.ParseStateTop` | core/src/net/rcode/assetserver/ejs/EjsParser.java:301-363 | the new state is the corrected StateTop of the old one |
| `EjsParser.EjsParser.TopIteration` | core/src/net/rcode/assetserver/ejs/EjsParser.java:305-357 | one loop turn either finishes the loop or moves the position forward to a state from which the loop ends the same |
| `EjsParser.EjsParser.Parse` | core/src/net/rcode/assetserver/ejs/EjsParser.java:287-299 | the new state is the corrected Parsed of the source |
| `EjsProperties.FindCommandTopAt` | core/src/net/rcode/assetserver/ejs/EjsParser.java:307-308 | when j holds a command line and none lies between from and j, find(from) reports the one at j |
| `EjsProperties.NoCommandLineIsOneLiteral` | core/src/net/rcode/assetserver/ejs/EjsParser.java:352-362 | a source without a command line is reported as one literal holding all of it, located on line 1 at index 0 |
| `EjsProperties.LiteralUpTo` | core/src/net/rcode/assetserver/ejs/EjsParser.java:354-362 | text gathered from an empty buffer up to e is reported as one literal from the buffer's location |
| `EjsProperties.DumpLiteral` | core/src/net/rcode/assetserver/ejs/EjsParser.java:247-253 | a literal dump reports the buffer with its line, its start and the position as end, and nothing if the buffer is empty |
| `EjsProperties.ParsedIsTopLoop` | core/src/net/rcode/assetserver/ejs/EjsParser.java:287-363 | parse is the top-level loop from index 0 on line 1 followed by the final literal at the end of the input |
| `EjsProperties.TopLoopExits` | core/src/net/rcode/assetserver/ejs/EjsParser.java:338-343 | when the pass on a command line breaks out, the loop ends with that pass's state |
| `EjsProperties.DisableEndsParsing` | core/src/net/rcode/assetserver/ejs/EjsParser.java:338-343 | when the first command line is ##EJSDISABLE, parse reports the text before it and then all the text after its line as literals: nothing after it is parsed |
| `EjsProperties.DisabledEventsFrom` | core/src/net/rcode/assetserver/ejs/EjsParser.java:338-343 | the events the ##EJSDISABLE branch leaves, plus the final literal, are the disabled events |
| `EjsProperties.DisableExit` | core/src/net/rcode/assetserver/ejs/EjsParser.java:326-343 | the state after ##EJSDISABLE holds the literal before the line, and gathers everything after its terminator from the next line on |
| `EjsProperties.DirectiveRunIsOneBlock` | core/src/net/rcode/assetserver/ejs/EjsParser.java:451-490 | a run of single-line directives is reported as one block event that starts with the first directive's text and line |
| `EjsProperties.DirectivesAreOneBlock` | core/src/net/rcode/assetserver/ejs/EjsParser.java:451-490 | parseSingleLineDirectives reports exactly one block, on the first directive's line, beginning with that line's text and a terminator |
| `EjsProperties.BalanceFront` | core/src/net/rcode/assetserver/ejs/EjsParser.java:558-559 | the brace balance of a range is the first character's effect plus the balance of the rest |
| `EjsProperties.InterpEndBalances` | core/src/net/rcode/assetserver/ejs/EjsParser.java:539-573 | without quotes the interpolation ends at the first '}' that brings the depth to 0, the depth staying positive before it; the end of input means it never reached 0 |
| `EjsProperties.SkipQuotedFinds` | core/src/net/rcode/assetserver/ejs/EjsParser.java:546-555 | the quoted run ends just after the first unescaped closing quote |
| `EjsProperties.QuotedBracesIgnored` | core/src/net/rcode/assetserver/ejs/EjsParser.java:544-555 | a string literal inside an interpolation is skipped whole: the end found is the one found from after its closing quote |
| `EjsProperties.QuoteClosesAtOnceAsWritten` | core/src/net/rcode/assetserver/ejs/EjsParser.java:546-551 | as written, in `#{'}'}` the quote closes at once and the quoted '}' ends the interpolation at index 3, where the corrected scan ends at 5 |
| `EjsLines.LinesNoBreak` | core/src/net/rcode/assetserver/ejs/EjsParser.java:215-221 | a range without a terminator adds no line |
| `EjsLines.LinesSplit` | core/src/net/rcode/assetserver/ejs/EjsParser.java:215-221 | counting lines over two adjacent ranges is counting them over their union |
| `EjsLines.LineAfter` | core/src/net/rcode/assetserver/ejs/EjsParser.java:215-221 | the line of a plus the terminators of s[a..b] is the line of b |
| `EjsLines.SameLine` | core/src/net/rcode/assetserver/ejs/EjsParser.java:215-221 | two indexes with no terminator between them are on the same line |
| `EjsLines.DumpLocated` | core/src/net/rcode/assetserver/ejs/EjsParser.java:247-269 | a dump from an anchored buffer keeps every event located on its first character's line |
| `EjsLines.ChompCounted` | core/src/net/rcode/assetserver/ejs/EjsParser.java:228-233 | chomp keeps the line number equal to the position's line |
| `EjsLines.HasAtNoBreak` | core/src/net/rcode/assetserver/ejs/EjsParser.java:179-180 | a token without '\n' spans no line terminator |
| `EjsLines.CommandTopNoBreak` | core/src/net/rcode/assetserver/ejs/EjsParser.java:314-316 | a top-level command match holds no line terminator (the premise of the escape branch's comment) |
| `EjsLines.IntroNoBreak` | core/src/net/rcode/assetserver/ejs/EjsParser.java:179-180 | an introduction match holds no line terminator |
| `EjsLines.BlockEndNoBreak` | core/src/net/rcode/assetserver/ejs/EjsParser.java:200-202 | a block-end match holds no line terminator |
| `EjsLines.DirectiveRunGood` | core/src/net/rcode/assetserver/ejs/EjsParser.java:451-490 | the corrected run of directives keeps the line number right and reports its block at the line where it starts |
| `EjsLines.DelimitedBlockGood` | core/src/net/rcode/assetserver/ejs/EjsParser.java:497-514 | a delimited block keeps the line number right and is reported on its own line |
| `EjsLines.ClosedBlockGood` | core/src/net/rcode/assetserver/ejs/EjsParser.java:501-504 | a block closed by a "##=" line is reported and scanning resumes, counted, after that line |
| `EjsLines.OpenBlockGood` | core/src/net/rcode/assetserver/ejs/EjsParser.java:505-509 | a block never closed runs to the end of the input with its events located |
| `EjsLines.InterpolationGood` | core/src/net/rcode/assetserver/ejs/EjsParser.java:524-531 | an interpolation keeps the line number right and is reported on its own line |
| `EjsLines.CommandGood` | core/src/net/rcode/assetserver/ejs/EjsParser.java:397-424 | the main-mode command branches keep the line number right |
| `EjsLines.DispatchGood` | core/src/net/rcode/assetserver/ejs/EjsParser.java:386-441 | every branch on an introduction keeps the line number right and the events located |
| `EjsLines.MainStepGood` | core/src/net/rcode/assetserver/ejs/EjsParser.java:375-442 | one main-mode pass keeps the line number right and the events located |
| `EjsLines.MainLoopGood` | core/src/net/rcode/assetserver/ejs/EjsParser.java:374-442 | the main-mode loop keeps the line number right and the events located |
| `EjsLines.TopCommandGood` | core/src/net/rcode/assetserver/ejs/EjsParser.java:326-350 | the corrected top-level command branches keep the events located |
| `EjsLines.TopStepGood` | core/src/net/rcode/assetserver/ejs/EjsParser.java:308-351 | one corrected top-level pass keeps the events located (the escape branch counts the lines before the match) |
| `EjsLines.TopLoopFinal` | core/src/net/rcode/assetserver/ejs/EjsParser.java:304-358 | the corrected top-level loop leaves a state whose final literal is located |
| `EjsLines.EventsCarryTheirLines` | core/src/net/rcode/assetserver/ejs/EjsParser.java:95-101 | the corrected parser reports every event with the line on which its text starts: 1 plus the terminators before its source start |
| `EjsFindings.LeftoverLostAsWritten` | core/src/net/rcode/assetserver/ejs/EjsParser.java:344-347 | for `##EJSON\nx##{` the source as written reports only "x": the escaped `##{` that main mode left in the buffer is discarded by resetBuffer(); corrected, it is reported as a literal "#{" |
| `EjsFindings.LineUncountedAsWritten` | core/src/net/rcode/assetserver/ejs/EjsParser.java:312-324 | for `x\n###EJSON\n##EJSON\ny` the escape branch does not count the terminator before the match, so "y" is reported on line 3; corrected, on line 4 |
| `EjsFindings.BlankLineUncountedAsWritten` | core/src/net/rcode/assetserver/ejs/EjsParser.java:466-470 | for `##a\n\n##b\nc` the blank line the directive-start pattern steps over is not counted: the run ends at line 3 as written, line 4 (the true line of "c") corrected |
| `EjsParser.MainCommand` | core/src/net/rcode/assetserver/ejs/EjsParser.java:186-187 | a command is recognised only when its keyword follows the leading white space and only white space follows the keyword |
| `EjsParser.Reset` | core/src/net/rcode/assetserver/ejs/EjsParser.java:238-242 | the buffer is emptied and the location restarts at the current line and position; the events stay |
| `EjsParser.Chomped` | core/src/net/rcode/assetserver/ejs/EjsParser.java:228-233 | a newline at the position is stepped over and counted as a line; otherwise nothing changes |
| `EjsParser.Gather` | core/src/net/rcode/assetserver/ejs/EjsParser.java:319 | the source text up to the end index is appended to the buffer; the position and the events stay, and the line count grows by at most the length gathered (also lines 327, 354, 380) |
| `BlockOutputStream.BlockOutputStream.constructor` | core/src/net/rcode/assetserver/util/BlockOutputStream.java:27-29 | a new stream with the given block size holds no bytes |
| `BlockOutputStream.BlockOutputStream.Default` | core/src/net/rcode/assetserver/util/BlockOutputStream.java:19-33 | the no-argument stream uses blocks of 65535 bytes and holds no bytes |
| `BlockOutputStream.BlockOutputStream.NewBlock` | core/src/net/rcode/assetserver/util/BlockOutputStream.java:44-48 | a fresh block is appended to the list and becomes the current block at offset 0; the bytes held do not change |
| `BlockOutputStream.BlockOutputStream.Fill` | core/src/net/rcode/assetserver/util/BlockOutputStream.java:50-59 | the arraycopy into the current block fails with IndexOutOfBoundsException exactly when the source range is out of bounds, and otherwise appends b[off..off+remain] to the bytes held |
| `BlockOutputStream.BlockOutputStream.WriteStep` | core/src/net/rcode/assetserver/util/BlockOutputStream.java:43-65 | one turn of the write loop copies a non-empty prefix of what is left, or fails with IndexOutOfBoundsException on an out-of-range source |
| `BlockOutputStream.BlockOutputStream.Write` | core/src/net/rcode/assetserver/util/BlockOutputStream.java:42-66 | write(b, off, len) appends b[off..off+len] for a positive len, does nothing for len <= 0, and fails exactly when a positive len runs outside b, having then appended a prefix of b[off..] |
| `BlockOutputStream.BlockOutputStream.WriteAll` | core/src/net/rcode/assetserver/util/BlockOutputStream.java:70-72 | write(b) appends all of b |
| `BlockOutputStream.BlockOutputStream.WriteInt` | core/src/net/rcode/assetserver/util/BlockOutputStream.java:75-78 | write(int) appends the low eight bits of the value (the corrected conversion) |
| `BlockOutputStream.BlockOutputStream.Length` | core/src/net/rcode/assetserver/util/BlockOutputStream.java:36-39 | length() is the number of bytes written (the corrected count, which includes a full last block) |
| `BlockOutputStream.BlockOutputStream.OpenInput` | core/src/net/rcode/assetserver/util/BlockOutputStream.java:81-85 | the input stream shares the blocks, starts at 0 and reads exactly the bytes written |
| `BlockOutputStream.BlockOutputStream.GetBytes` | core/src/net/rcode/assetserver/util/BlockOutputStream.java:88-107 | getBytes fails with RuntimeException exactly when more than Integer.MAX_VALUE bytes were written, and otherwise returns a fresh array holding exactly the bytes written |
| `BlockOutputStream.BlockOutputStream.WriteTo` | core/src/net/rcode/assetserver/util/BlockOutputStream.java:110-122 | writeTo emits exactly the bytes written, in order |
| `BlockOutputStream.CopyBlocks` | core/src/net/rcode/assetserver/util/BlockOutputStream.java:93-104 | copying the full blocks and the used part of the last one fills the array with the bytes the blocks hold |
| `BlockOutputStream.CopyWholeBlocks` | core/src/net/rcode/assetserver/util/BlockOutputStream.java:94-98 | the loop over the full blocks fills the array's first count*blockSize entries and leaves the rest alone |
| `BlockOutputStream.OpenBlockContents` | core/src/net/rcode/assetserver/util/BlockOutputStream.java:44-48 | appending a fresh block at offset 0 does not change the bytes the stream holds |
| `BlockOutputStream.WriteExtends` | core/src/net/rcode/assetserver/util/BlockOutputStream.java:55-58 | copying the next run after earlier runs of the same source range extends the bytes held by that range |
| `BlockOutputStream.PartialWrite` | core/src/net/rcode/assetserver/util/BlockOutputStream.java:43-65 | a write that fails part-way has appended a prefix of the source from off |
| `BlockOutputStream.HighByteCorrupted` | core/src/net/rcode/assetserver/util/BlockOutputStream.java:76 | as written, write(200) stores the byte -73, which reads back as 183; the low-bits cast stores 200 |
| `BlockOutputStream.LowBytesAgree` | core/src/net/rcode/assetserver/util/BlockOutputStream.java:76 | for 0..127 the as-written conversion and the cast store the same byte, equal to the value |
| `BlockOutputStream.FullLastBlockLost` | core/src/net/rcode/assetserver/util/BlockOutputStream.java:36-39 | as written, when the bytes fill the last block exactly, length() is short by a block, writeTo leaves that block out and getBytes puts zeros in its place |
| `BlockOutputStream.PartialLastBlockKept` | core/src/net/rcode/assetserver/util/BlockOutputStream.java:101-104 | while the last block is partly filled, the as-written length, writeTo and getBytes give exactly the bytes written |
| `BlockOutputStream.WriteThenRead` | core/test/net/rcode/assetserver/util/BlockOutputStreamTest.java:29-55 | bytes written in one piece are read back, through a buffer, from a stream opened afterwards: the block I/O round trip |
| `BlockInputStream.FullBlocksLength` | core/src/net/rcode/assetserver/util/BlockInputStream.java:42-43 | the first k full blocks hold k*blockSize bytes |
| `BlockInputStream.FullBlocksAppend` | core/src/net/rcode/assetserver/util/BlockInputStream.java:42-43 | appending blocks does not change the contents of the first k |
| `BlockInputStream.ContentsLast` | core/src/net/rcode/assetserver/util/BlockInputStream.java:44-55 | the stream is the full blocks before the last one followed by the first lastLength bytes of the last |
| `BlockInputStream.ContentsAllFull` | core/src/net/rcode/assetserver/util/BlockOutputStream.java:84 | with a full last block (lastLength = blockSize) the stream is all its blocks |
| `BlockInputStream.FullBlocksAt` | core/src/net/rcode/assetserver/util/BlockInputStream.java:42-43 | byte j of block i is at index i*blockSize+j of the full blocks |
| `BlockInputStream.ContentsLength` | core/src/net/rcode/assetserver/util/BlockInputStream.java:34 | the stream holds (blocks-1)*blockSize + lastLength bytes, none without blocks |
| `BlockInputStream.ContentsAt` | core/src/net/rcode/assetserver/util/BlockInputStream.java:42-47 | the position i*blockSize+j of the stream is byte j of block i |
| `BlockInputStream.Locate` | core/src/net/rcode/assetserver/util/BlockInputStream.java:42-45 | with blockIndex = position / blockSize and blockPos = position % blockSize, read's end test holds exactly when the position is at or past the end of the data |
| `BlockInputStream.ContentsSlice` | core/src/net/rcode/assetserver/util/BlockInputStream.java:56-58 | the run arraycopy takes from a block is the matching slice of the stream |
| `BlockInputStream.EmptySkipGoesBackwards` | core/src/net/rcode/assetserver/util/BlockInputStream.java:33-38 | as written, skip(1) on a stream without blocks moves the position to -blockSize and returns it |
| `BlockInputStream.BlockInputStream.constructor` | core/src/net/rcode/assetserver/util/BlockInputStream.java:21-25 | the stream keeps the blocks, the block size and the last length, at position 0 |
| `BlockInputStream.BlockInputStream.Available` | core/src/net/rcode/assetserver/util/BlockInputStream.java:28-30 | available() is blocks*blockSize, never less than what is left to read |
| `BlockInputStream.BlockInputStream.Skip` | core/src/net/rcode/assetserver/util/BlockInputStream.java:33-38 | skip(n) moves the position by n, clamped at the end of the data, and returns the distance moved; with at least one block this is the source's computation, without blocks it clamps at 0 (corrected) |
| `BlockInputStream.BlockInputStream.Read` | core/src/net/rcode/assetserver/util/BlockInputStream.java:41-62 | read(b, off, len) returns -1 at the end, and otherwise copies the next bytes of the data, at most len and not past the current block, into b[off..] and advances by that count; it fails with IndexOutOfBoundsException on an out-of-range target |
| `BlockInputStream.BlockInputStream.CopyRun` | core/src/net/rcode/assetserver/util/BlockInputStream.java:56-61 | the arraycopy of the run into b fails exactly on an out-of-range range and otherwise copies the run and advances |
| `BlockInputStream.BlockInputStream.ReadAll` | core/src/net/rcode/assetserver/util/BlockInputStream.java:65-67 | read(b) is read(b, 0, b.length): -1 at the end, and otherwise a positive count of the next bytes |
| `BlockInputStream.BlockInputStream.ReadByte` | core/src/net/rcode/assetserver/util/BlockInputStream.java:70-75 | read() returns the next byte as 0..255 and advances by one, or -1 at the end |
| `BlockInputStream.ReadToEnd` | core/test/net/rcode/assetserver/util/BlockOutputStreamTest.java:44-48 | reading through a buffer until -1 collects exactly the rest of the data and leaves the position at the end |
| `BlockInputStream.MaxLengthAsWritten` | core/src/net/rcode/assetserver/util/BlockInputStream.java:34 | the specification of the clamp skip uses as written: (blocks - 1) * blockSize + lastLength |
| `BlockInputStream.SkipAsWritten` | core/src/net/rcode/assetserver/util/BlockInputStream.java:33-38 | skip as written returns how far the position moved, at most n, and never moves past the clamp, whatever its sign |
| `BlockOutputStream.ByteOfIntAsWritten` | core/src/net/rcode/assetserver/util/BlockOutputStream.java:75-78 | below 128 the conversion as written stores the value itself |
| `BlockOutputStream.LengthAsWritten` | core/src/net/rcode/assetserver/util/BlockOutputStream.java:36-39 | the specification of length() as written: full blocks, then the last block counted by curPos |
| `BlockOutputStream.EmittedAsWritten` | core/src/net/rcode/assetserver/util/BlockOutputStream.java:110-122 | the specification of writeTo as written: the full blocks, then the last block only while curPos is positive |
| `BlockOutputStream.GetBytesAsWritten` | core/src/net/rcode/assetserver/util/BlockOutputStream.java:88-107 | getBytes as written has streamLength bytes: what writeTo emits, then zeros |
| `MimeMapping.Extension` | src/net/rcode/assetserver/core/MimeMapping.java:39-41 | there is an extension exactly when the name holds a '.'; it is the lower-cased text after the last one |
| `MimeMapping.LookupIn` | src/net/rcode/assetserver/core/MimeMapping.java:37-44 | a null name finds nothing, and a type is found only for a name whose extension is in the table |
| `MimeMapping.MimeMapping.constructor` | src/net/rcode/assetserver/core/MimeMapping.java:24-30 | a new mapping has no extensions and no explicit textual types |
| `MimeMapping.MimeMapping.Lookup` | src/net/rcode/assetserver/core/MimeMapping.java:37-44 | lookup(fileName) is LookupIn on the current table |
| `MimeMapping.MimeMapping.IsTextualMimeType` | src/net/rcode/assetserver/core/MimeMapping.java:46-50 | isTextualMimeType is IsTextual on the current set of explicit types |
| `MimeMapping.MimeMapping.AddMapping` | src/net/rcode/assetserver/core/MimeMapping.java:52-54 | addMapping stores the type under the lower-cased extension and changes nothing else; a null extension throws NullPointerException and changes nothing |
| `MimeMapping.MimeMapping.AddExplicitTextMimeType` | src/net/rcode/assetserver/core/MimeMapping.java:56-58 | the type joins the explicit textual types; the table is unchanged |
| `MimeMapping.ExtensionOfDotted` | src/net/rcode/assetserver/core/MimeMapping.java:39-41 | the extension of stem + "." + ext, for ext without a '.', is ext lower-cased |
| `MimeMapping.LookupIgnoresCase` | src/net/rcode/assetserver/core/MimeMapping.java:41-53 | after addMapping(ext, type), any name ending in "." plus ext in any letter case finds type |
| `MimeMapping.LookupOtherExtension` | src/net/rcode/assetserver/core/MimeMapping.java:41-53 | addMapping does not change the lookup of a name with any other extension |
| `MimeMapping.NoDotNoType` | src/net/rcode/assetserver/core/MimeMapping.java:39-40 | a name without a '.' finds no type whatever the table holds |
| `MimeMapping.TextualTypes` | src/net/rcode/assetserver/core/MimeMapping.java:46-58 | every "text/" type and every added explicit type is textual, null never is, and nothing else is |
| `MimeMapping.IsTextual` | src/net/rcode/assetserver/core/MimeMapping.java:46-50 | the specification of isTextualMimeType: a non-null type under "text/" or one of the explicit textual types |
| `HtmlPacker.AttributeNodeFinds` | addons/htmlpack/src/net/rcode/assetserver/addon/htmlpack/HtmlPacker.java:227-236 | getAttributeNode finds an attribute that has exactly the name asked for, and finds none exactly when no attribute has that name |
| `HtmlPacker.RunEnd` | addons/htmlpack/src/net/rcode/assetserver/addon/htmlpack/HtmlPacker.java:69 | the run of white space, or of other characters, from i ends at the first character of the other kind |
| `HtmlPacker.Runs` | addons/htmlpack/src/net/rcode/assetserver/addon/htmlpack/HtmlPacker.java:239 | splitting on `\s+` gives at least one piece, and no piece holds white space |
| `HtmlPacker.ClassSplitSpaceFree` | addons/htmlpack/src/net/rcode/assetserver/addon/htmlpack/HtmlPacker.java:239 | CLASSSPLIT.split(value) gives pieces free of white space |
| `HtmlPacker.NonEmptyMembers` | addons/htmlpack/src/net/rcode/assetserver/addon/htmlpack/HtmlPacker.java:240-241 | skipping empty class names keeps exactly the non-empty pieces |
| `HtmlPacker.ClassNames` | addons/htmlpack/src/net/rcode/assetserver/addon/htmlpack/HtmlPacker.java:239-244 | the class names written after '.' are non-empty and free of white space |
| `HtmlPacker.ListedAttrs` | addons/htmlpack/src/net/rcode/assetserver/addon/htmlpack/HtmlPacker.java:123-131 | the attributes written out are exactly those without a namespace whose name is neither id nor class in any letter case |
| `HtmlPacker.TextItem` | addons/htmlpack/src/net/rcode/assetserver/addon/htmlpack/HtmlPacker.java:171-180 | a written text child never looks like an attribute name, and undoing the '@@' escape gives the text, after one space when a run of white space was pending |
| `HtmlPacker.Packed` | addons/htmlpack/src/net/rcode/assetserver/addon/htmlpack/HtmlPacker.java:117-202 | packElement writes the encoded name first, and fails only with IllegalStateException |
| `HtmlPacker.ChildItems` | addons/htmlpack/src/net/rcode/assetserver/addon/htmlpack/HtmlPacker.java:143-199 | the child loop fails only with IllegalStateException |
| `HtmlPacker.FirstElement` | addons/htmlpack/src/net/rcode/assetserver/addon/htmlpack/HtmlPacker.java:94-101 | the element selectFirstChild finds is a child, and it finds none exactly when no child is an element |
| `HtmlPacker.JoinedSnoc` | addons/htmlpack/src/net/rcode/assetserver/addon/htmlpack/HtmlPacker.java:134-137 | appending "," and one more item extends the comma-separated rendering |
| `HtmlPacker.DottedSnoc` | addons/htmlpack/src/net/rcode/assetserver/addon/htmlpack/HtmlPacker.java:242-243 | appending "." and one more class name extends the encoded name |
| `HtmlPacker.ElementChild` | addons/htmlpack/src/net/rcode/assetserver/addon/htmlpack/HtmlPacker.java:145-153 | an element child adds the pending 0, then its own array, or makes the loop fail when it fails |
| `HtmlPacker.TextChild` | addons/htmlpack/src/net/rcode/assetserver/addon/htmlpack/HtmlPacker.java:155-183 | a white-space text child only sets the pending flag; any other adds its text item and clears it |
| `HtmlPacker.IgnoredChild` | addons/htmlpack/src/net/rcode/assetserver/addon/htmlpack/HtmlPacker.java:185-188 | a comment or processing instruction changes nothing, not even the pending flag |
| `HtmlPacker.UnexpectedChild` | addons/htmlpack/src/net/rcode/assetserver/addon/htmlpack/HtmlPacker.java:190-191 | any other node type throws IllegalStateException |
| `HtmlPacker.ThenThen` | addons/htmlpack/src/net/rcode/assetserver/addon/htmlpack/HtmlPacker.java:143-199 | prefixing items before and after the child loop compose |
| `HtmlPacker.Builder.constructor` | addons/htmlpack/src/net/rcode/assetserver/addon/htmlpack/HtmlPacker.java:111 | a new StringBuilder is empty |
| `HtmlPacker.Builder.Append` | addons/htmlpack/src/net/rcode/assetserver/addon/htmlpack/HtmlPacker.java:118-201 | append adds the text at the end |
| `HtmlPacker.HtmlPacker.constructor` | addons/htmlpack/src/net/rcode/assetserver/addon/htmlpack/HtmlPacker.java:75-77 | the packer holds the given root element |
| `HtmlPacker.HtmlPacker.CopyWith` | addons/htmlpack/src/net/rcode/assetserver/addon/htmlpack/HtmlPacker.java:79-87 | copyWith returns a new packer on the new root |
| `HtmlPacker.HtmlPacker.SelectFirstChild` | addons/htmlpack/src/net/rcode/assetserver/addon/htmlpack/HtmlPacker.java:92-102 | without a root the packer itself is returned; otherwise a new packer on the first element child, or on no root when there is none |
| `HtmlPacker.HtmlPacker.Pack` | addons/htmlpack/src/net/rcode/assetserver/addon/htmlpack/HtmlPacker.java:108-115 | pack() is "[]" without a root, and otherwise the rendered array of the root or IllegalStateException |
| `HtmlPacker.HtmlPacker.ElementName` | addons/htmlpack/src/net/rcode/assetserver/addon/htmlpack/HtmlPacker.java:221-249 | elementName is the tag, '#' and the id when there is one, then '.' and each non-empty class name |
| `HtmlPacker.HtmlPacker.AppendClasses` | addons/htmlpack/src/net/rcode/assetserver/addon/htmlpack/HtmlPacker.java:240-244 | the loop over the split class value appends '.' and each non-empty piece, in order |
| `HtmlPacker.HtmlPacker.PackElement` | addons/htmlpack/src/net/rcode/assetserver/addon/htmlpack/HtmlPacker.java:117-202 | packElement succeeds exactly when Packed does, and then appends the rendered array; otherwise it throws IllegalStateException |
| `HtmlPacker.HtmlPacker.PackAttributes` | addons/htmlpack/src/net/rcode/assetserver/addon/htmlpack/HtmlPacker.java:122-138 | the attribute loop appends ",'@name','value'" for each written attribute, in order |
| `HtmlPacker.HtmlPacker.PackSpace` | addons/htmlpack/src/net/rcode/assetserver/addon/htmlpack/HtmlPacker.java:147-150 | a pending run of white space is written as ",0" |
| `HtmlPacker.HtmlPacker.PackText` | addons/htmlpack/src/net/rcode/assetserver/addon/htmlpack/HtmlPacker.java:166-181 | a text child that is not white space is written as its text item |
| `HtmlPacker.HtmlPacker.PackChildren` | addons/htmlpack/src/net/rcode/assetserver/addon/htmlpack/HtmlPacker.java:141-199 | the child loop and the trailing 0 append the children's items, or throw IllegalStateException exactly when ChildItems does |
| `HtmlPacker.HtmlPacker.PackElementChild` | addons/htmlpack/src/net/rcode/assetserver/addon/htmlpack/HtmlPacker.java:145-153 | an element child appends the pending 0 and its own array, failing exactly when its packing fails |
| `HtmlPacker.HtmlPacker.PackChild` | addons/htmlpack/src/net/rcode/assetserver/addon/htmlpack/HtmlPacker.java:144-192 | one pass of the child loop appends what ChildItems says for that child, or throws when ChildItems fails |
| `HtmlPackerProperties.PackedFails` | addons/htmlpack/src/net/rcode/assetserver/addon/htmlpack/HtmlPacker.java:190-191 | packing fails with IllegalStateException exactly when the element or a node below it has an unexpected type |
| `HtmlPackerProperties.ChildrenFail` | addons/htmlpack/src/net/rcode/assetserver/addon/htmlpack/HtmlPacker.java:143-192 | the child loop fails exactly when some child holds an unexpected node |
| `HtmlPackerProperties.ShapeConcat` | addons/htmlpack/src/net/rcode/assetserver/addon/htmlpack/HtmlPacker.java:143-199 | the 0-before-array and no-attribute-name shapes survive concatenation |
| `HtmlPackerProperties.ChildItemsShape` | addons/htmlpack/src/net/rcode/assetserver/addon/htmlpack/HtmlPacker.java:46-56 | in the children a 0 only comes before an element's array or at the close, and no text can be read as an attribute name (leading '@' is doubled) |
| `HtmlPackerProperties.ElementChildren` | addons/htmlpack/src/net/rcode/assetserver/addon/htmlpack/HtmlPacker.java:94-96 | the element children are exactly the children that are elements |
| `HtmlPackerProperties.ArraysConcat` | addons/htmlpack/src/net/rcode/assetserver/addon/htmlpack/HtmlPacker.java:143-153 | the nested arrays of a concatenation are those of each part, in order |
| `HtmlPackerProperties.PackedInOrderIndexed` | addons/htmlpack/src/net/rcode/assetserver/addon/htmlpack/HtmlPacker.java:52 | pairing elements with arrays in order means equal counts and each array is its element packed |
| `HtmlPackerProperties.ChildArraysInOrder` | addons/htmlpack/src/net/rcode/assetserver/addon/htmlpack/HtmlPacker.java:52 | the element children become the nested arrays, one each, in document order |
| `HtmlPackerProperties.ChildArraysPaired` | addons/htmlpack/src/net/rcode/assetserver/addon/htmlpack/HtmlPacker.java:143-192 | the child loop pairs each element child with its array, in order |
| `HtmlPackerProperties.ElementArraysPaired` | addons/htmlpack/src/net/rcode/assetserver/addon/htmlpack/HtmlPacker.java:145-153 | an element child puts its array in front of the rest's |
| `HtmlPackerProperties.TextArraysPaired` | addons/htmlpack/src/net/rcode/assetserver/addon/htmlpack/HtmlPacker.java:155-183 | a text child adds no array |
| `HtmlPackerProperties.Significant` | addons/htmlpack/src/net/rcode/assetserver/addon/htmlpack/HtmlPacker.java:185-188 | the significant children are exactly those that are neither comments nor processing instructions |
| `HtmlPackerProperties.IgnoredChildrenVanish` | addons/htmlpack/src/net/rcode/assetserver/addon/htmlpack/HtmlPacker.java:185-188 | comments and processing instructions leave no trace: packing the children is packing the significant ones |
| `HtmlPackerProperties.AttrItemsArePairs` | addons/htmlpack/src/net/rcode/assetserver/addon/htmlpack/HtmlPacker.java:42-44 | each written attribute becomes the two strings '@' + name and its value, in order |
| `HtmlPackerProperties.CountPairs` | addons/htmlpack/src/net/rcode/assetserver/addon/htmlpack/HtmlPacker.java:42-44 | n name/value pairs followed by something that is not an attribute name are counted as n pairs |
| `HtmlPackerProperties.AtName` | addons/htmlpack/src/net/rcode/assetserver/addon/htmlpack/HtmlPacker.java:135 | '@' + a name not starting with '@' reads as an attribute name |
| `HtmlPackerProperties.AttributesRecoverable` | addons/htmlpack/src/net/rcode/assetserver/addon/htmlpack/HtmlPacker.java:42-51 | a reader counting pairs after the encoded name finds exactly the written attributes, never a child |
| `HtmlPackerProperties.PairsBeforeChildren` | addons/htmlpack/src/net/rcode/assetserver/addon/htmlpack/HtmlPacker.java:42-51 | after the head, n pairs followed by children without attribute names are counted as n |
| `HtmlPackerProperties.PackedLeaf` | addons/htmlpack/src/net/rcode/assetserver/addon/htmlpack/HtmlPacker.java:117-138 | an element without children packs to its encoded name and its attribute pairs |
| `HtmlPackerProperties.PackTag` | addons/htmlpack/src/net/rcode/assetserver/addon/htmlpack/HtmlPacker.java:118-119 | a bare element packs to its tag alone in brackets |
| `HtmlPackerProperties.PackId` | addons/htmlpack/src/net/rcode/assetserver/addon/htmlpack/HtmlPacker.java:226-232 | an element with only an id packs to tag '#' id, with no attribute pair |
| `HtmlPackerProperties.PackIdClass` | addons/htmlpack/src/net/rcode/assetserver/addon/htmlpack/HtmlPacker.java:221-249 | an element with an id and a class is named by both |
| `HtmlPackerProperties.PackAttribute` | addons/htmlpack/src/net/rcode/assetserver/addon/htmlpack/HtmlPacker.java:133-137 | one ordinary attribute gives the tag, then '@' + name and the value |
| `HtmlPackerProperties.PackNested` | addons/htmlpack/src/net/rcode/assetserver/addon/htmlpack/HtmlPacker.java:145-183 | an element holding an element holding text packs to a nested array after the tag |
| `HtmlPackerProperties.PackTagExample` | addons/htmlpack/test/net/rcode/assetserver/addon/htmlpack/HtmlPackerTest.java:14 | `<p>` packs to `['p']` |
| `HtmlPackerProperties.PackIdExample` | addons/htmlpack/test/net/rcode/assetserver/addon/htmlpack/HtmlPackerTest.java:15 | `<p id='myid'>` packs to `['p#myid']` |
| `HtmlPackerProperties.PackClassExample` | addons/htmlpack/test/net/rcode/assetserver/addon/htmlpack/HtmlPackerTest.java:16 | with class 'class1' it packs to `['p#myid.class1']` |
| `HtmlPackerProperties.PackLeadingSpaceExample` | addons/htmlpack/test/net/rcode/assetserver/addon/htmlpack/HtmlPackerTest.java:17 | class ' class1' gives no empty class name |
| `HtmlPackerProperties.PackTrailingSpaceExample` | addons/htmlpack/test/net/rcode/assetserver/addon/htmlpack/HtmlPackerTest.java:18 | class 'class1 ' gives no empty class name |
| `HtmlPackerProperties.PackTwoClassesExample` | addons/htmlpack/test/net/rcode/assetserver/addon/htmlpack/HtmlPackerTest.java:19 | class 'class1 class2' packs to `['p#myid.class1.class2']` |
| `HtmlPackerProperties.PackAttributeExample` | addons/htmlpack/test/net/rcode/assetserver/addon/htmlpack/HtmlPackerTest.java:24 | `<div someattr='somevalue'>` packs to `['div','@someattr','somevalue']` |
| `HtmlPackerProperties.PackTypeExample` | addons/htmlpack/test/net/rcode/assetserver/addon/htmlpack/HtmlPackerTest.java:25 | `<input type='submit'>` packs to `['input','@type','submit']` |
| `HtmlPackerProperties.PackNestedExample` | addons/htmlpack/test/net/rcode/assetserver/addon/htmlpack/HtmlPackerTest.java:26 | `<tr><td>col1</td></tr>` packs to `['tr',['td','col1']]` |
| `HtmlPackerProperties.UpperCaseId` | addons/htmlpack/src/net/rcode/assetserver/addon/htmlpack/HtmlPacker.java:130 | an attribute spelled "ID" is dropped from the pairs (equalsIgnoreCase) but not taken as the id (getAttributeNode is exact) |
| `HtmlPacker.Dotted` | addons/htmlpack/src/net/rcode/assetserver/addon/htmlpack/HtmlPacker.java:240-244 | the class names are appended after the name, which stays a prefix and grows exactly when there are class names |
| `HtmlPacker.Name` | addons/htmlpack/src/net/rcode/assetserver/addon/htmlpack/HtmlPacker.java:221-249 | the encoded name starts with the tag |
| `HtmlPacker.NameIsBareTag` | addons/htmlpack/src/net/rcode/assetserver/addon/htmlpack/HtmlPacker.java:221-249 | the encoded name is the bare tag exactly when the element has no id and no class name |
| `HtmlPacker.Render` | addons/htmlpack/src/net/rcode/assetserver/addon/htmlpack/HtmlPacker.java:117-202 | the first character of the rendered item tells its kind: '[' for an array (which also ends in ']'), a quote for a string literal, anything else for the number |
| `HtmlPacker.PackOf` | addons/htmlpack/src/net/rcode/assetserver/addon/htmlpack/HtmlPacker.java:108-115 | pack fails exactly when packing the root element fails, and otherwise yields a bracketed array ("[]" without a root element) |
| `JavaLang.Wrap32` | src/net/rcode/assetserver/cache/CacheIdentity.java:40-47 | an int result is the value reduced into the 32-bit two's-complement range, congruent to it modulo 2^32 |
| `JavaLang.StringHash` | core/src/net/rcode/assetserver/cache/FileCacheDependency.java:43-46 | String.hashCode, used by the hash codes, is an int |
| `JavaLang.DigitChar` | core/src/net/rcode/assetserver/cache/FileSystemCache.java:86 | the decimal digit of d is the character '0' + d |
| `JavaLang.Decimal` | core/src/net/rcode/assetserver/cache/FileSystemCache.java:86 | the slot number is written as one or more decimal digits |
| `JavaLang.DecimalRoundTrip` | core/src/net/rcode/assetserver/cache/FileSystemCache.java:85-86 | the decimal text of a slot number reads back as that number |
| `JavaLang.DecimalInjective` | core/src/net/rcode/assetserver/cache/FileSystemCache.java:85-86 | two slot numbers with the same decimal text are equal, so each slot has its own file name |
| `JavaBytes.ToByte` | core/src/net/rcode/assetserver/util/BlockOutputStream.java:76 | the (byte) cast keeps the value modulo 256 |
| `JavaBytes.Unsigned` | core/src/net/rcode/assetserver/util/BlockInputStream.java:74 | `b<0 ? b+256 : b` is in 0..255 and congruent to the byte modulo 256 |
| `JavaBytes.UnsignedOfToByte` | core/src/net/rcode/assetserver/util/BlockInputStream.java:74 | on 0..255 the cast and the unsigned reading undo each other |
| `JavaBytes.JavaDiv` | core/src/net/rcode/assetserver/util/BlockInputStream.java:42 | position / blockSize on a non-negative position is the floor quotient |
| `JavaBytes.JavaRem` | core/src/net/rcode/assetserver/util/BlockInputStream.java:43 | position % blockSize completes the quotient, is in 0..blockSize-1 for a non-negative position and takes the dividend's sign otherwise |
| `JavaBytes.ArrayCopy` | core/src/net/rcode/assetserver/util/BlockOutputStream.java:55 | System.arraycopy throws IndexOutOfBoundsException exactly on an out-of-range position or length, leaving the target alone, and otherwise replaces the target range with the source range |
| `JavaString.Split` | core/src/net/rcode/assetserver/util/PathUtil.java:34 | String.split keeps an input without the separator whole, returns pieces free of the separator, and drops the trailing empty pieces |
| `JavaString.ToLower` | src/net/rcode/assetserver/core/MimeMapping.java:41 | toLowerCase keeps the length and maps each character by ASCII lower-casing |
| `JavaString.EqualsIgnoreCase` | addons/htmlpack/src/net/rcode/assetserver/addon/htmlpack/HtmlPacker.java:130 | the specification of equalsIgnoreCase: equal after ASCII upper-casing |
| `JavaString.EqualsIgnoreCaseCharwise` | addons/htmlpack/src/net/rcode/assetserver/addon/htmlpack/HtmlPacker.java:130 | equalsIgnoreCase holds exactly for strings of one length that agree character by character after ASCII case mapping |

## Left out

- I/O of every kind is a parameter of the model: files, streams, HTTP, the servlet layer and
  the Rhino engine that runs EJS output. `ResourceMount` receives the canonicalizer,
  `isFile`, the file stat and the file bytes from its caller. `FileSystemCache` works on a map
  from file names to stored files. Its read and write failures are chosen by a fault
  parameter (no fault, a failed write, a failed rename).
- Digests are abstract function parameters: MessageDigest, `CacheIdentity.getExternalName` and
  the ETag digest. Their collision resistance is not modelled.
- Concurrency is not modelled: volatile fields, the concurrent maps, and races between two
  writers of the same cache slot. Each operation runs alone.
- Logging is left out, including the `server.getLogger()` call that AssetRoot makes in its catch block.
- `FileSystemCache.clear()` is not modelled because the source leaves it unimplemented.
- FilterChain.Process: processFilters may run forever, since a filter may requeue filters.
  The model bounds the number of filter calls with a fuel parameter, and a run that uses up
  the fuel stops with the chain as it stands. What each filter does, and which exception it
  throws, is a parameter of the model.
- FilterChain.FilterChain.ProcessFilters: the same fuel bound applies to the loop, so a chain
  that never ends in Java ends in the model once the fuel is spent.
- ResourceMount.ChainRun and ResourceMount.ResourceMount.RunChain inherit that fuel bound and
  take the filters' behaviour from the environment parameter; the concrete filters are not
  modelled.
- AssetRoot.AssetRoot.Add appends a new key after the existing ones. This is one order the
  HashMap may produce; the contract promises only that each key is listed once, and
  `AssetRoot.SingleOwnerAnyOrder` is the only result proved for every order.
- FilterChain `getFilters` is not modelled. The queue is the `filters` field of the class, and
  no copy of it is handed out.
- FilterChain.FilterChain.FindFilterById: a null id is not modelled. The model's ids are
  strings, so `id.equals` never meets null.
- FileSystemCache.FileSystemCache.Store: a failure of `File.createTempFile` is not one of the
  fault options. Only a failed write and a failed rename are modelled.
- AssetPath.NewAssetPath: a null path argument is not modelled. The model's paths are strings.
- PathPattern.PathPattern.SetExcludes stores the NamePattern value, not a reference to it.
  Changes made to that NamePattern later are not seen by the PathPattern, so aliasing is lost.
- EjsParser.EjsParser: the parser's StringBuilder and its shared LocationInfo are values in the
  model. Each event takes a snapshot of the text and the location, so the aliasing between
  events and the parser's state is lost.
- BlockOutputStream.BlockOutputStream.constructor requires a positive block size. In Java a
  size of 0 makes `write` loop forever and a negative size throws NegativeArraySizeException;
  neither case is modelled.
- NamePattern.Unquoted: the only regular-expression syntax read in the unquoted terminal piece
  is '.'. Java also reads `+ ( ) [ ] { } | \ ^ $` there, and a malformed tail throws
  PatternSyntaxException; neither is modelled.
- NamePattern.CompileClauseAsWritten: the same limit as `NamePattern.Unquoted`. The as-written
  clause is exact only for patterns whose tail holds no metacharacter other than '.'.
- AssetPath.EscapeValue accepts only the ASCII hex digits. Java's `Character.digit` also
  accepts other Unicode decimal digits, so an escape written with Arabic-Indic digits decodes in Java but not in the model.
- AssetPath.UrlDecode: the same limit as `AssetPath.EscapeValue`.
- JavaString.ToLower maps the ASCII letters only. Java's toLowerCase also maps non-ASCII
  letters and may change the length for some of them.
- JavaString.EqualsIgnoreCase compares by ASCII case mapping only. Java's equalsIgnoreCase also
  folds non-ASCII letters.
- MimeMapping.Extension: the extension is lower-cased with `JavaString.ToLower`, so only ASCII
  letters are folded.
- MimeMapping.MimeMapping.AddMapping: the same ASCII-only lower-casing of the extension.
- MimeMapping.ExtensionOfDotted: the same ASCII-only lower-casing.
- MimeMapping.LookupIgnoresCase holds for ASCII case differences only.
- HtmlPacker.ListedAttrs: attribute names are compared with `JavaString.EqualsIgnoreCase`, so
  only ASCII case differences are ignored.
- `AssetRoot.scan` and `overlapped` walk the real file system and are left out.
  `MimeMapping.loadDefaults` and `loadXmlFile` parse an XML resource and are left out too; only
  the table operations they call are modelled.
- A null name passed to `FilterChainInitializerLookup.lookup` is not modelled. That call
  throws NullPointerException inside ConcurrentHashMap.get, and the model's names are strings.
  AssetRoot mounts registered with a null value are not modelled either.
- The step-by-step symlink evaluation that the source marks as a TODO in ResourceMount is not
  modelled. Canonical-path equality is the whole check, as in the code.
- URLDecoder in AssetPath maps each percent-escaped byte to the character with that code. It
  does not assemble UTF-8 sequences of several bytes.
- PatternPredicateFactory.CompileAll: the PathPattern helpers `isPathPattern`, `splitComponents`,
  `findPrefix`, `joinComponents` and the `PathPattern(String[])` constructor are not in
  `core/src/net/rcode/assetserver/util/PathPattern.java`. The model rebuilds them from their
  uses (`core/src/net/rcode/assetserver/core/PatternPredicateFactory.java` lines 180 and
  191-192, and the expectations at lines 34 and 45 of `PatternPredicateFactoryTest.java`). The
  String[] constructor is taken to start with the default excludes, like the String
  constructor.
- PatternPredicateFactory.IsPathPattern is rebuilt from its use, as described for `CompileAll`.
- PatternPredicateFactory.FindPrefix is rebuilt from its use, as described for `CompileAll`.
- PatternPredicateFactory.PrefixText is rebuilt from its use (`joinComponents`), as described
  for `CompileAll`.
- PatternPredicateFactory.ComponentsOfSlashed is rebuilt from its use (`splitComponents`), as
  described for `CompileAll`.
- The ResourceMount under `src/` is an older stub. The model follows
  `core/src/net/rcode/assetserver/core/ResourceMount.java`.
- The template compiler and runtime (EjsCompiler, EjsRuntime) are not part of this model, and
  neither are the concrete filters (YUI optimizer, SVG rendering). Only the parser is modelled.
- HtmlPacker.PackOf: the ECMAScript string escaper from commons-lang is a function parameter.
  HtmlCleaner parsing (`HtmlPacker.parse`, `dumpDom`) is left out, and the model starts from the
  cleaned DOM tree.

## Findings

| source | as written | input that shows it | evidently intended | confidence | as-written member | corrected member |
|---|---|---|---|---|---|---|
| core/src/net/rcode/assetserver/util/NamePattern.java:99 | the text after the last glob character goes into the regular expression unquoted | the default exclude `.git` compiles to `.git`, where `.` is any character, so the ordinary name `agit` is excluded | quote the terminal piece like the pieces before it | not executed | `NamePattern.AsWrittenGitClauseMatchesAgit` | `NamePattern.LiteralClauseMatchesItself` |
| core/src/net/rcode/assetserver/core/PatternPredicateFactory.java:132 | the copy loop runs to `prefixLength` instead of to `components.length - prefixLength` | `/a/b/*.js` (prefix 2, one pattern component) throws ArrayIndexOutOfBoundsException; `/a/**/x.js` (prefix 1) leaves the last pattern component null | copy every component after the prefix | not executed | `PatternPredicateFactory.CopyAsWrittenExactOnlyAtHalf` | `PatternPredicateFactory.CopyPatternComponents` |
| core/src/net/rcode/assetserver/core/ResourceMount.java:164-177 | `cache.store` is called without a null check, although the lookup side checks for a null cache (no caching) | a mount with no shared cache and a resolved, cacheable locator throws NullPointerException | skip the store when there is no cache and return the result | not executed | `ResourceMount.NullCacheStoreThrows` | `ResourceMount.CacheResult` |
| core/src/net/rcode/assetserver/util/BlockOutputStream.java:76 | `write(int)` stores `127 - ib` for values of 128 and above | `write(200)` stores -73, which reads back as 183 | store the low eight bits, `(byte) ib` | not executed | `BlockOutputStream.HighByteCorrupted` | `BlockOutputStream.BlockOutputStream.WriteInt` |
| core/src/net/rcode/assetserver/util/BlockOutputStream.java:36-39 | `length()`, `getBytes()` and `writeTo()` take the last block's size from `curPos`, which the write loop has reset to 0 when that block is full | writing exactly `blockSize` bytes: `length()` is 0, `writeTo` writes nothing and `getBytes` returns zeros | count a full last block in full, as `openInput` does | not executed | `BlockOutputStream.FullLastBlockLost` | `BlockOutputStream.BlockOutputStream.GetBytes` |
| core/src/net/rcode/assetserver/util/BlockInputStream.java:33-38 | `skip` clamps to `(blocks.length-1)*blockSize + lastLength`, which is negative without blocks | `skip(1)` on the stream opened from an empty BlockOutputStream moves to `-blockSize` and returns it | clamp to the data length, 0 here | not executed | `BlockInputStream.EmptySkipGoesBackwards` | `BlockInputStream.BlockInputStream.Skip` |
| core/src/net/rcode/assetserver/ejs/EjsParser.java:546-551 | the scan for a closing quote starts on the opening quote, which closes the literal at once | `#{'}'}`: the quoted `}` ends the interpolation at index 3 | start the scan after the opening quote, so braces in string literals do not count | not executed | `EjsProperties.QuoteClosesAtOnceAsWritten` | `EjsProperties.QuotedBracesIgnored` |
| core/src/net/rcode/assetserver/ejs/EjsParser.java:347 | `resetBuffer()` after `parseStateMain()` discards what main mode left in the buffer | `##EJSON\nx##{`: the escaped `##{` (literal `#{`) is lost | report the leftover buffer as a literal | not executed | `EjsFindings.LeftoverLostAsWritten` | `EjsParser.EjsParser.RunCommand` |
| core/src/net/rcode/assetserver/ejs/EjsParser.java:312-324 | the escape branch does not count the line terminators of the text before the match | `x\n###EJSON\n##EJSON\ny`: `y` is reported on line 3 instead of 4 | count the lines of `source[position..match.start]` as the other branch does | not executed | `EjsFindings.LineUncountedAsWritten` | `EjsLines.EventsCarryTheirLines` |
| core/src/net/rcode/assetserver/ejs/EjsParser.java:466-470 | `\s*##(?!#)` steps over blank lines between directive lines without counting them | `##a\n\n##b\nc`: the run ends with line number 3 where `c` is on line 4 | count the terminators the pattern steps over | not executed | `EjsFindings.BlankLineUncountedAsWritten` | `EjsLines.DirectiveRunGood` |
