// A mount serving a directory of the file system: an asset path is mapped onto a file,
// checked against its canonical form, the exclusions and the file's existence, then either
// answered from the shared cache or run through the filter chain, whose result is cached
// when it is null or cacheable.

module ResourceMount {
  import opened Wrappers
  import opened JavaString
  import opened NamePattern
  import opened CacheIdentity
  import opened CacheEntry
  import AP = AssetPath
  import FC = FilterChain
  import FS = FilterSelector
  import FCD = FileCacheDependency
  import FSC = FileSystemCache
  import MM = MimeMapping

  /** getClass().getName() of a plain mount. */
  const HANDLER_CLASS: string := "net.rcode.assetserver.core.ResourceMount"

  /** What resolve returns: null, a cache entry, or the chain's locator itself. */
  datatype Resolved = NotFound | FromEntry(entry: Entry) | Plain(locator: FC.Locator)

  /**
   * How resolve ends: it returns, it throws, or its filter chain is still running once the
   * filters have been called as often as the fuel allows.
   */
  datatype Outcome = Returned(value: Resolved) | Threw(error: Exception) | Unfinished

  /**
   * What resolve gets from the world and from the owning server: the canonicalizer
   * (getCanonicalPath, Err for an IOException), isFile, the file stat, the bytes a file's
   * locator reads, the default text encoding, the root context's filter bindings, the
   * filters' code, and for a store the temporary file name and the I/O fault it meets.
   */
  datatype Environment = Environment(
    canonical: string -> Result<string>,
    isFile: string -> bool,
    fs: FCD.FileSystem,
    contentsOf: string -> seq<byte>,
    defaultEncoding: Option<string>,
    bindings: seq<FS.Binding>,
    run: FC.Behaviour,
    fuel: nat,
    tempName: string,
    fault: FSC.StoreFault)

  /** The mount's own settings: the canonical location, File.separatorChar and the exclusions. */
  datatype MountConfig = MountConfig(
    location: string,
    separator: char,
    defaultExclusions: Option<seq<Clause>>,
    userExclusions: Option<seq<Clause>>)

  /** The server's MimeMapping, as its two tables. */
  datatype MimeTable = MimeTable(mappings: map<string, Option<string>>, textMimeTypes: set<string>)

  // ---------------------------------------------------------------------------
  // The candidate path

  /**
   * The pathAccum loop from accumulated text acc: a separator goes before each component
   * unless the text already ends with one; charAt on empty text is an
   * IndexOutOfBoundsException.
   */
  function AccumPath(acc: string, comps: seq<string>, sep: char): (r: Result<string>)
    ensures r.Err? ==> r.error == IndexOutOfBounds && acc == [] && comps != []
    ensures r.Ok? ==> acc <= r.value
    decreases |comps|
  {
    if comps == [] then Ok(acc)
    else if |acc| == 0 then Err(IndexOutOfBounds)
    else AccumPath(acc + (if acc[|acc| - 1] != sep then [sep] else []) + comps[0], comps[1..], sep)
  }

  /** The components the path checks let through: not empty, without the separator. */
  predicate PlainComponents(comps: seq<string>, sep: char)
  {
    forall i :: 0 <= i < |comps| ==> comps[i] != [] && sep !in comps[i]
  }

  /**
   * For plain components the candidate path is the location and the components joined by
   * the separator, with one separator after the location unless it already ends with one:
   * no separator is ever doubled.
   */
  lemma {:induction false} AccumPathJoins(acc: string, comps: seq<string>, sep: char)
    requires acc != [] && comps != [] && PlainComponents(comps, sep)
    ensures AccumPath(acc, comps, sep) ==
      Ok(acc + (if acc[|acc| - 1] != sep then [sep] else []) + JoinWith(comps, sep))
    decreases |comps|
  {
    var next := acc + (if acc[|acc| - 1] != sep then [sep] else []) + comps[0];
    if |comps| > 1 {
      assert next[|next| - 1] == comps[0][|comps[0]| - 1];
      assert next[|next| - 1] != sep;
      assert PlainComponents(comps[1..], sep) by {
        forall i | 0 <= i < |comps[1..]|
          ensures comps[1..][i] != [] && sep !in comps[1..][i]
        {
          assert comps[1..][i] == comps[i + 1];
        }
      }
      AccumPathJoins(next, comps[1..], sep);
      assert JoinWith(comps, sep) == comps[0] + [sep] + JoinWith(comps[1..], sep);
      assert next + [sep] + JoinWith(comps[1..], sep) ==
        acc + (if acc[|acc| - 1] != sep then [sep] else []) + (comps[0] + [sep] + JoinWith(comps[1..], sep));
    } else {
      assert comps[1..] == [];
      assert JoinWith(comps, sep) == comps[0];
    }
  }

  /** File.getName: the text after the last separator. */
  function FileName(path: string, sep: char): (r: string)
    ensures sep !in r && |r| <= |path| && r == path[|path| - |r|..]
  {
    var k := LastIndexOf(path, sep);
    NoneAfter(path, sep, k);
    path[k + 1..]
  }

  /** A character that occurs nowhere after k does not occur in the text after k. */
  lemma NoneAfter(s: string, c: char, k: int)
    requires -1 <= k < |s| && forall j :: k < j < |s| ==> s[j] != c
    ensures c !in s[k + 1..]
  {
  }

  // ---------------------------------------------------------------------------
  // Exclusions

  /** One exclusion pattern (None for a null one) matches the component. */
  predicate ExcludedBy(exclusions: Option<seq<Clause>>, comp: string)
  {
    exclusions.Some? && MatchesName(exclusions.value, Some(comp)) == Ok(true)
  }

  /** Some component is matched by the default or the user exclusions. */
  predicate Excluded(defaultExclusions: Option<seq<Clause>>, userExclusions: Option<seq<Clause>>, comps: seq<string>)
  {
    exists i :: 0 <= i < |comps| && (ExcludedBy(defaultExclusions, comps[i]) || ExcludedBy(userExclusions, comps[i]))
  }

  // ---------------------------------------------------------------------------
  // The pieces of resolve

  /** The identity a resolution is cached under; the environment redux is "". */
  function Identity(ap: AP.AssetPath): (id: CacheIdentity)
    ensures id.handlerClassName == Some(HANDLER_CLASS) && id.environmentRedux == Some("")
    ensures id.mountPoint == ap.mountPoint && id.path == Some(ap.path)
  {
    CacheIdentity(Some(HANDLER_CLASS), ap.mountPoint, Some(ap.path), Some(""))
  }

  /**
   * The FileAssetLocator of the file: never cacheable, typed by the mime table (possibly null),
   * with the default encoding only for a textual type.
   */
  function RootLocator(mime: MimeTable, path: string, sep: char, env: Environment): (l: FC.Locator)
    ensures !l.shouldCache && l.contents == env.contentsOf(path)
    ensures l.contentType == MM.LookupIn(mime.mappings, Some(FileName(path, sep)))
    ensures l.characterEncoding ==
      if MM.IsTextual(mime.textMimeTypes, l.contentType) then env.defaultEncoding else None
  {
    var mimeType := MM.LookupIn(mime.mappings, Some(FileName(path, sep)));
    FC.Locator(false, mimeType,
      if MM.IsTextual(mime.textMimeTypes, mimeType) then env.defaultEncoding else None,
      env.contentsOf(path))
  }

  /** The dependency array of a new entry: the chain's set, in order, none null. */
  function DependencyArray(deps: seq<FCD.FileCacheDependency>): (r: seq<Option<FCD.FileCacheDependency>>)
    ensures |r| == |deps| && forall i :: 0 <= i < |r| ==> r[i] == Some(deps[i])
  {
    seq(|deps|, i requires 0 <= i < |deps| => Some(deps[i]))
  }

  /** An entry is valid when every dependency of the chain still matches the file system. */
  lemma DependencyArrayValid(id: CacheIdentity, deps: seq<FCD.FileCacheDependency>, contentType: Option<string>,
                             encoding: Option<string>, contents: Option<seq<byte>>, fs: FCD.FileSystem)
    ensures IsValid(Entry(id, Some(DependencyArray(deps)), contentType, encoding, contents), fs) <==>
      forall d :: d in deps ==> FCD.IsValid(d, fs)
  {
    var arr := DependencyArray(deps);
    if forall d :: d in deps ==> FCD.IsValid(d, fs) {
      assert forall i :: 0 <= i < |arr| ==> arr[i].Some? && FCD.IsValid(arr[i].value, fs);
    } else {
      var d :| d in deps && !FCD.IsValid(d, fs);
      var i :| 0 <= i < |deps| && deps[i] == d;
      assert arr[i] == Some(d);
    }
  }

  /** The negative entry: no type, no encoding, null contents. */
  function NegativeEntry(id: CacheIdentity, deps: seq<FCD.FileCacheDependency>): (e: Entry)
    ensures e.identity == id && IsNullContent(e)
  {
    Entry(id, Some(DependencyArray(deps)), None, None, None)
  }

  /** The positive entry: the locator's type, encoding and whole contents. */
  function PositiveEntry(id: CacheIdentity, deps: seq<FCD.FileCacheDependency>, l: FC.Locator): (e: Entry)
    ensures e.identity == id && !IsNullContent(e) && e.contents == Some(l.contents)
    ensures e.contentType == l.contentType && e.characterEncoding == l.characterEncoding
  {
    Entry(id, Some(DependencyArray(deps)), l.contentType, l.characterEncoding, Some(l.contents))
  }

  /** The chain before processing: the root locator, the selected filters and a dependency on the file. */
  function ChainStart(ap: AP.AssetPath, root: FC.Locator, path: string, env: Environment): FC.ChainState
  {
    FC.ChainState(Some(root), FS.Selected(env.bindings, ap).0, [FCD.Snapshot(path, env.fs)])
  }

  /**
   * The chain after initialisation and processing: seeded with the root locator and a
   * dependency on the file, given the filters the bindings select (Err when a predicate
   * throws), then processed (Err when a filter throws).
   */
  function ChainRun(ap: AP.AssetPath, root: FC.Locator, path: string, env: Environment): (r: Result<FC.ChainState>)
    ensures r.Err? <==>
      FS.Selected(env.bindings, ap).1.Some? || FC.Process(ChainStart(ap, root, path, env), env.run, env.fuel).2.Some?
    ensures FS.Selected(env.bindings, ap).1.Some? ==> r == Err(FS.Selected(env.bindings, ap).1.value)
    ensures FS.Selected(env.bindings, ap).1.None? && r.Err? ==>
      Some(r.error) == FC.Process(ChainStart(ap, root, path, env), env.run, env.fuel).2
    ensures r.Ok? ==> FCD.Snapshot(path, env.fs) in r.value.dependencies
  {
    var sel := FS.Selected(env.bindings, ap);
    if sel.1.Some? then Err(sel.1.value)
    else
      var p := FC.Process(ChainStart(ap, root, path, env), env.run, env.fuel);
      FC.ProcessKeepsDependencies(ChainStart(ap, root, path, env), env.run, env.fuel);
      if p.2.Some? then Err(p.2.value) else Ok(p.0)
  }

  /** The chain stopped by its own loop condition. */
  predicate Finished(s: FC.ChainState)
  {
    s.current.None? || s.filters == []
  }

  /**
   * The caching decision on the chain's result: a non-cacheable locator is returned as it is;
   * null stores a negative entry and returns null; a cacheable locator stores a positive
   * entry and returns it. Without a shared cache nothing is stored.
   */
  function CacheResult(cache: Option<FSC.Directory>, x: string, id: CacheIdentity,
                       deps: seq<FCD.FileCacheDependency>, current: Option<FC.Locator>, env: Environment): (r: (Outcome, Option<FSC.Directory>))
    requires cache.Some? ==> env.tempName !in cache.value && !(x <= env.tempName)
    ensures r.0.Returned? && r.1.Some? == cache.Some?
    ensures cache.Some? && env.fault != FSC.WriteFails ==> env.tempName !in r.1.value
  {
    if current.Some? && !current.value.shouldCache then (Returned(Plain(current.value)), cache)
    else
      var e := if current.None? then NegativeEntry(id, deps) else PositiveEntry(id, deps, current.value);
      var result := if current.None? then NotFound else FromEntry(e);
      if cache.None? then (Returned(result), None)
      else
        FSC.StoreRemovesTemporary(cache.value, e, x, env.tempName, env.fault);
        (Returned(result), Some(FSC.StoreInDir(cache.value, e, x, env.tempName, env.fault)))
  }

  /**
   * The caching decision as written: cache.store is called on a null cache, which is a
   * NullPointerException.
   */
  function CacheResultAsWritten(cache: Option<FSC.Directory>, x: string, id: CacheIdentity,
                                deps: seq<FCD.FileCacheDependency>, current: Option<FC.Locator>, env: Environment): (r: (Outcome, Option<FSC.Directory>))
    requires cache.Some? ==> env.tempName !in cache.value && !(x <= env.tempName)
    ensures cache.Some? || (current.Some? && !current.value.shouldCache) ==> r == CacheResult(cache, x, id, deps, current, env)
  {
    if current.Some? && !current.value.shouldCache then (Returned(Plain(current.value)), cache)
    else if cache.None? then (Threw(NullPointer), None)
    else CacheResult(cache, x, id, deps, current, env)
  }

  /**
   * Without a shared cache, a null or cacheable result makes the code as written throw,
   * where the null check made on the lookup side shows that it is meant to skip the store.
   */
  lemma NullCacheStoreThrows(x: string, id: CacheIdentity, deps: seq<FCD.FileCacheDependency>,
                             current: Option<FC.Locator>, env: Environment)
    requires current.None? || current.value.shouldCache
    ensures CacheResultAsWritten(None, x, id, deps, current, env) == (Threw(NullPointer), None)
    ensures CacheResult(None, x, id, deps, current, env) ==
      (Returned(if current.None? then NotFound else FromEntry(PositiveEntry(id, deps, current.value))), None)
  {
  }

  /**
   * What follows the cache check: the root locator, the chain, the caching decision, on
   * the cache directory as the lookup left it.
   */
  function Serve(mime: MimeTable, sep: char,
                 cache: Option<FSC.Directory>, x: string, ap: AP.AssetPath, path: string, env: Environment): (r: (Outcome, Option<FSC.Directory>))
    requires cache.Some? ==> env.tempName !in cache.value && !(x <= env.tempName)
    ensures r.1.Some? == cache.Some?
    ensures cache.Some? && env.fault != FSC.WriteFails ==> env.tempName !in r.1.value
  {
    Settled(cache, x, ap, ChainRun(ap, RootLocator(mime, path, sep, env), path, env), env)
  }

  /**
   * What follows the chain's run: its exception is thrown, a chain still running is
   * unfinished, and a finished chain's result goes through the cache.
   */
  function Settled(cache: Option<FSC.Directory>, x: string, ap: AP.AssetPath, run: Result<FC.ChainState>,
                   env: Environment): (r: (Outcome, Option<FSC.Directory>))
    requires cache.Some? ==> env.tempName !in cache.value && !(x <= env.tempName)
    ensures r.1.Some? == cache.Some?
    ensures cache.Some? && env.fault != FSC.WriteFails ==> env.tempName !in r.1.value
    ensures run.Err? ==> r == (Threw(run.error), cache)
    ensures run.Ok? && !Finished(run.value) ==> r == (Unfinished, cache)
  {
    match run
    case Err(e) => (Threw(e), cache)
    case Ok(s) =>
      if !Finished(s) then (Unfinished, cache)
      else CacheResult(cache, x, Identity(ap), s.dependencies, s.current, env)
  }

  /** The cache directory after a lookup, or None without a cache. */
  function LookupCache(cache: Option<FSC.Directory>, x: string, id: CacheIdentity): (r: (Option<Entry>, Option<FSC.Directory>))
    ensures r.1.Some? == cache.Some?
    ensures cache.None? ==> r.0.None?
    ensures cache.Some? ==> r.1.value.Keys <= cache.value.Keys
    ensures r.0.Some? ==> r.0.value.identity == id && r.1 == cache
  {
    if cache.None? then (None, None)
    else
      var look := FSC.LookupInDir(cache.value, x, id);
      (look.0, Some(look.1))
  }

  /**
   * resolve(assetPath) on a mount at location, with the mime table, the shared cache
   * directory (None for no cache) and its external-name function: the outcome and the
   * cache directory afterwards.
   */
  function Resolution(m: MountConfig, mime: MimeTable, cache: Option<FSC.Directory>, externalName: CacheIdentity -> string,
                      env: Environment, ap: AP.AssetPath): (r: (Outcome, Option<FSC.Directory>))
    requires cache.Some? ==> env.tempName !in cache.value && !(externalName(Identity(ap)) <= env.tempName)
    ensures r.1.Some? == cache.Some?
    ensures cache.Some? && env.fault != FSC.WriteFails ==> env.tempName !in r.1.value
  {
    match AccumPath(m.location, ap.pathComponents, m.separator)
    case Err(e) => (Threw(e), cache)
    case Ok(path) =>
      match env.canonical(path)
      case Err(e) => (Threw(e), cache)
      case Ok(canonicalPath) =>
        if canonicalPath != path then (Returned(NotFound), cache)
        else if Excluded(m.defaultExclusions, m.userExclusions, ap.pathComponents) then (Returned(NotFound), cache)
        else if !env.isFile(path) then (Returned(NotFound), cache)
        else LookupOrServe(mime, m.separator, cache, externalName(Identity(ap)), env, ap, path)
  }

  /**
   * The admitted file's resolution: a valid cached entry answers (null for a negative one),
   * otherwise the file is served through the filter chain.
   */
  function LookupOrServe(mime: MimeTable, sep: char, cache: Option<FSC.Directory>, x: string,
                         env: Environment, ap: AP.AssetPath, path: string): (r: (Outcome, Option<FSC.Directory>))
    requires cache.Some? ==> env.tempName !in cache.value && !(x <= env.tempName)
    ensures r.1.Some? == cache.Some?
    ensures cache.Some? && env.fault != FSC.WriteFails ==> env.tempName !in r.1.value
  {
    var look := LookupCache(cache, x, Identity(ap));
    if look.0.Some? && IsValid(look.0.value, env.fs) then
      (Returned(if IsNullContent(look.0.value) then NotFound else FromEntry(look.0.value)), look.1)
    else
      Serve(mime, sep, look.1, x, ap, path, env)
  }

  // ---------------------------------------------------------------------------
  // Properties of resolve

  /** The candidate path is path, it is its own canonical form, nothing excludes it, and it is a file. */
  predicate Admitted(m: MountConfig, env: Environment, ap: AP.AssetPath, path: string)
  {
    && AccumPath(m.location, ap.pathComponents, m.separator) == Ok(path)
    && env.canonical(path) == Ok(path)
    && !Excluded(m.defaultExclusions, m.userExclusions, ap.pathComponents)
    && env.isFile(path)
  }

  /**
   * A path that canonicalises differently (by case or otherwise), that has an excluded
   * component, or that is not a file resolves to null, without touching the cache.
   */
  lemma RejectedPathsNotFound(m: MountConfig, mime: MimeTable, cache: Option<FSC.Directory>, externalName: CacheIdentity -> string,
                              env: Environment, ap: AP.AssetPath, path: string)
    requires cache.Some? ==> env.tempName !in cache.value && !(externalName(Identity(ap)) <= env.tempName)
    requires AccumPath(m.location, ap.pathComponents, m.separator) == Ok(path) && env.canonical(path).Ok?
    requires || env.canonical(path).value != path
             || Excluded(m.defaultExclusions, m.userExclusions, ap.pathComponents)
             || !env.isFile(path)
    ensures Resolution(m, mime, cache, externalName, env, ap) == (Returned(NotFound), cache)
  {
  }

  /**
   * A valid cache hit answers the request: null for a negative entry, the entry otherwise;
   * the directory is unchanged and the result is the same whatever the filters are.
   */
  lemma ValidHitShortCircuits(m: MountConfig, mime: MimeTable, dir: FSC.Directory, externalName: CacheIdentity -> string,
                              env: Environment, ap: AP.AssetPath, path: string, e: Entry,
                              bindings: seq<FS.Binding>, run: FC.Behaviour, fuel: nat)
    requires env.tempName !in dir && !(externalName(Identity(ap)) <= env.tempName)
    requires Admitted(m, env, ap, path)
    requires FSC.LookupInDir(dir, externalName(Identity(ap)), Identity(ap)).0 == Some(e) && IsValid(e, env.fs)
    ensures Resolution(m, mime, Some(dir), externalName, env, ap) ==
      (Returned(if IsNullContent(e) then NotFound else FromEntry(e)), Some(dir))
    ensures Resolution(m, mime, Some(dir), externalName, env.(bindings := bindings, run := run, fuel := fuel), ap) ==
      Resolution(m, mime, Some(dir), externalName, env, ap)
  {
  }

  /** A mount whose bindings select no filter serves the file itself, typed by the mime table, uncached. */
  lemma NoFiltersServesFile(m: MountConfig, mime: MimeTable, cache: Option<FSC.Directory>, externalName: CacheIdentity -> string,
                            env: Environment, ap: AP.AssetPath, path: string)
    requires cache.Some? ==> env.tempName !in cache.value && !(externalName(Identity(ap)) <= env.tempName)
    requires Admitted(m, env, ap, path)
    requires cache.Some? ==> FSC.LookupInDir(cache.value, externalName(Identity(ap)), Identity(ap)).0.None?
    requires FS.Selected(env.bindings, ap) == ([], None)
    ensures Resolution(m, mime, cache, externalName, env, ap) ==
      (Returned(Plain(RootLocator(mime, path, m.separator, env))), LookupCache(cache, externalName(Identity(ap)), Identity(ap)).1)
  {
    var root := RootLocator(mime, path, m.separator, env);
    FC.ProcessStops(ChainStart(ap, root, path, env), env.run, env.fuel);
  }

  /**
   * An exception from the chain, thrown by a binding's predicate or by a filter, is thrown
   * on by resolve, and nothing is stored.
   */
  lemma ChainExceptionThrown(m: MountConfig, mime: MimeTable, cache: Option<FSC.Directory>, externalName: CacheIdentity -> string,
                             env: Environment, ap: AP.AssetPath, path: string, e: Exception)
    requires cache.Some? ==> env.tempName !in cache.value && !(externalName(Identity(ap)) <= env.tempName)
    requires Admitted(m, env, ap, path)
    requires cache.Some? ==> FSC.LookupInDir(cache.value, externalName(Identity(ap)), Identity(ap)).0.None?
    requires ChainRun(ap, RootLocator(mime, path, m.separator, env), path, env) == Err(e)
    ensures Resolution(m, mime, cache, externalName, env, ap) ==
      (Threw(e), LookupCache(cache, externalName(Identity(ap)), Identity(ap)).1)
  {
  }

  /**
   * When the chain ends with a locator that is not cacheable, that locator is returned and
   * the cache is left as the lookup left it.
   */
  lemma UncacheableNotStored(m: MountConfig, mime: MimeTable, cache: Option<FSC.Directory>, externalName: CacheIdentity -> string,
                             env: Environment, ap: AP.AssetPath, path: string, s: FC.ChainState)
    requires cache.Some? ==> env.tempName !in cache.value && !(externalName(Identity(ap)) <= env.tempName)
    requires Admitted(m, env, ap, path)
    requires cache.Some? ==> FSC.LookupInDir(cache.value, externalName(Identity(ap)), Identity(ap)).0.None?
    requires ChainRun(ap, RootLocator(mime, path, m.separator, env), path, env) == Ok(s)
    requires Finished(s) && s.current.Some? && !s.current.value.shouldCache
    ensures Resolution(m, mime, cache, externalName, env, ap) ==
      (Returned(Plain(s.current.value)), LookupCache(cache, externalName(Identity(ap)), Identity(ap)).1)
  {
  }

  /**
   * A null or cacheable chain result is stored under the request's identity (a negative
   * entry for null), and with a readable cache group and no I/O fault the same request is
   * then answered from the cache with the same result, whatever the filters are, provided
   * the dependencies the chain collected still hold.
   */
  lemma SecondResolutionHitsCache(m: MountConfig, mime: MimeTable, dir: FSC.Directory, externalName: CacheIdentity -> string,
                                  env: Environment, ap: AP.AssetPath, path: string, s: FC.ChainState,
                                  bindings: seq<FS.Binding>, run: FC.Behaviour, fuel: nat)
    requires env.tempName !in dir && !(externalName(Identity(ap)) <= env.tempName)
    requires env.fault == FSC.NoFault && FSC.GroupReadable(dir, externalName(Identity(ap)))
    requires Admitted(m, env, ap, path)
    requires ChainRun(ap, RootLocator(mime, path, m.separator, env), path, env) == Ok(s) && Finished(s)
    requires s.current.None? || s.current.value.shouldCache
    requires forall d :: d in s.dependencies ==> FCD.IsValid(d, env.fs)
    ensures var first := Resolution(m, mime, Some(dir), externalName, env, ap);
      && Resolution(m, mime, first.1, externalName, env, ap) == first
      && Resolution(m, mime, first.1, externalName, env.(bindings := bindings, run := run, fuel := fuel), ap) == first
  {
    var id := Identity(ap);
    var x := externalName(id);
    var first := Resolution(m, mime, Some(dir), externalName, env, ap);
    FSC.LookupReadableKeeps(dir, x, id, 1);
    var look := FSC.LookupInDir(dir, x, id);
    if look.0.Some? && IsValid(look.0.value, env.fs) {
      assert first == (Returned(if IsNullContent(look.0.value) then NotFound else FromEntry(look.0.value)), Some(dir));
      ValidHitShortCircuits(m, mime, dir, externalName, env, ap, path, look.0.value, bindings, run, fuel);
    } else {
      var e := if s.current.None? then NegativeEntry(id, s.dependencies) else PositiveEntry(id, s.dependencies, s.current.value);
      var stored := FSC.StoreInDir(dir, e, x, env.tempName, FSC.NoFault);
      assert first == (Returned(if s.current.None? then NotFound else FromEntry(e)), Some(stored));
      FSC.StoreThenLookup(dir, e, x, env.tempName);
      FSC.StoreRemovesTemporary(dir, e, x, env.tempName, FSC.NoFault);
      DependencyArrayValid(id, s.dependencies, e.contentType, e.characterEncoding, e.contents, env.fs);
      ValidHitShortCircuits(m, mime, stored, externalName, env, ap, path, e, bindings, run, fuel);
    }
  }

  /**
   * The file's own snapshot is among the dependencies of whatever the chain produces, so a
   * stored entry stops being valid once the file's stat changes.
   */
  lemma ChangedFileInvalidates(ap: AP.AssetPath, root: FC.Locator, path: string, env: Environment,
                               s: FC.ChainState, now: FCD.FileSystem, contents: Option<seq<byte>>)
    requires ChainRun(ap, root, path, env) == Ok(s)
    requires now(path) != env.fs(path)
    ensures !IsValid(Entry(Identity(ap), Some(DependencyArray(s.dependencies)), None, None, contents), now)
  {
    FCD.ValidIffUnchanged(path, env.fs, now);
    DependencyArrayValid(Identity(ap), s.dependencies, None, None, contents, now);
  }

  // ---------------------------------------------------------------------------
  // The object

  /** The shared cache's directory, or None for a null cache. */
  function Files(cache: Option<FSC.FileSystemCache>): (r: Option<FSC.Directory>)
    reads if cache.Some? then {cache.value} else {}
    ensures r.Some? == cache.Some?
  {
    if cache.Some? then Some(cache.value.files) else None
  }

  class ResourceMount {
    /** The canonical root directory. */
    const location: string
    /** File.separatorChar. */
    const separator: char
    /** The default exclusions (DEFAULT_EXCLUDES), as clauses; None when set to null. */
    var defaultExclusions: Option<seq<Clause>>
    /** The user exclusions, as clauses; null until set. */
    var userExclusions: Option<seq<Clause>>

    constructor (location: string, separator: char)
      ensures this.location == location && this.separator == separator
      ensures defaultExclusions == Some(DefaultExcludes()) && userExclusions.None?
    {
      this.location := location;
      this.separator := separator;
      defaultExclusions := Some(DefaultExcludes());
      userExclusions := None;
    }

    function Config(): MountConfig
      reads this
    {
      MountConfig(location, separator, defaultExclusions, userExclusions)
    }

    method SetDefaultExclusions(exclusions: Option<seq<Clause>>)
      modifies this
      ensures defaultExclusions == exclusions && userExclusions == old(userExclusions)
    {
      defaultExclusions := exclusions;
    }

    method SetUserExclusions(exclusions: Option<seq<Clause>>)
      modifies this
      ensures userExclusions == exclusions && defaultExclusions == old(defaultExclusions)
    {
      userExclusions := exclusions;
    }

    /** The pathAccum loop. */
    method CandidatePath(comps: seq<string>) returns (r: Result<string>)
      ensures r == AccumPath(location, comps, separator)
    {
      var pathAccum := location;
      var i := 0;
      while i < |comps|
        invariant 0 <= i <= |comps|
        invariant AccumPath(pathAccum, comps[i..], separator) == AccumPath(location, comps, separator)
      {
        assert comps[i..][1..] == comps[i + 1..] && comps[i..][0] == comps[i];
        if |pathAccum| == 0 {
          return Err(IndexOutOfBounds);
        }
        var next := pathAccum + (if pathAccum[|pathAccum| - 1] != separator then [separator] else []) + comps[i];
        assert AccumPath(pathAccum, comps[i..], separator) == AccumPath(next, comps[i + 1..], separator);
        pathAccum := next;
        i := i + 1;
      }
      assert comps[i..] == [];
      r := Ok(pathAccum);
    }

    /** The exclusion loop: true at the first component either pattern matches. */
    method IsExcluded(comps: seq<string>) returns (r: bool)
      ensures r == Excluded(defaultExclusions, userExclusions, comps)
    {
      var i := 0;
      while i < |comps|
        invariant 0 <= i <= |comps|
        invariant !exists j :: 0 <= j < i && (ExcludedBy(defaultExclusions, comps[j]) || ExcludedBy(userExclusions, comps[j]))
      {
        var comp := comps[i];
        if defaultExclusions.Some? && MatchesName(defaultExclusions.value, Some(comp)) == Ok(true) {
          return true;
        }
        if userExclusions.Some? && MatchesName(userExclusions.value, Some(comp)) == Ok(true) {
          return true;
        }
        i := i + 1;
      }
      r := false;
    }

    /** initializeFilterChain: each binding whose predicate matches adds its filter. */
    method InitializeFilterChain(bindings: seq<FS.Binding>, chain: FC.FilterChain) returns (r: Result<()>)
      modifies chain
      ensures chain.filters == old(chain.filters) + FS.Selected(bindings, chain.assetPath).0
      ensures r == (if FS.Selected(bindings, chain.assetPath).1.Some? then Err(FS.Selected(bindings, chain.assetPath).1.value) else Ok(()))
      ensures chain.current == old(chain.current) && chain.dependencies == old(chain.dependencies)
    {
      r := FS.AppendMatching(bindings, chain.assetPath, chain);
    }

    /** The chain of resolve: created, seeded with the file's dependency, initialised, processed. */
    method RunChain(ap: AP.AssetPath, root: FC.Locator, path: string, env: Environment) returns (r: Result<FC.ChainState>)
      ensures r == ChainRun(ap, root, path, env)
    {
      var chain := new FC.FilterChain(ap, root, path);
      chain.AddDependency(FCD.Snapshot(path, env.fs));
      assert chain.dependencies == [FCD.Snapshot(path, env.fs)];
      var init := InitializeFilterChain(env.bindings, chain);
      if init.Err? {
        return Err(init.error);
      }
      assert chain.State() == ChainStart(ap, root, path, env);
      var processed := chain.ProcessFilters(env.run, env.fuel);
      if processed.Err? {
        return Err(processed.error);
      }
      r := Ok(chain.State());
    }

    /** The caching decision of resolve on the processed chain's locator and dependencies. */
    method StoreResult(cache: Option<FSC.FileSystemCache>, id: CacheIdentity, deps: seq<FCD.FileCacheDependency>,
                       resolved: Option<FC.Locator>, env: Environment) returns (r: Outcome)
      requires cache.Some? ==> env.tempName !in cache.value.files && !(cache.value.externalName(id) <= env.tempName)
      modifies if cache.Some? then {cache.value} else {}
      ensures (r, Files(cache)) ==
        CacheResult(old(Files(cache)), if cache.Some? then cache.value.externalName(id) else [], id, deps, resolved, env)
    {
      if resolved.Some? && !resolved.value.shouldCache {
        return Returned(Plain(resolved.value));
      }
      var entry;
      if resolved.None? {
        entry := NegativeEntry(id, deps);
        r := Returned(NotFound);
      } else {
        entry := PositiveEntry(id, deps, resolved.value);
        r := Returned(FromEntry(entry));
      }
      if cache.Some? {
        cache.value.Store(entry, env.tempName, env.fault);
      }
    }

    /** The part of resolve after the cache check. */
    method ServeFile(ap: AP.AssetPath, path: string, mime: MM.MimeMapping, cache: Option<FSC.FileSystemCache>,
                     env: Environment) returns (r: Outcome)
      requires cache.Some? ==> env.tempName !in cache.value.files && !(cache.value.externalName(Identity(ap)) <= env.tempName)
      modifies if cache.Some? then {cache.value} else {}
      ensures (r, Files(cache)) ==
        Serve(MimeTable(mime.mappings, mime.textMimeTypes), separator, old(Files(cache)),
              if cache.Some? then cache.value.externalName(Identity(ap)) else [], ap, path, env)
    {
      var mimeType := mime.Lookup(Some(FileName(path, separator)));
      var textual := mime.IsTextualMimeType(mimeType);
      var root := FC.Locator(false, mimeType, if textual then env.defaultEncoding else None, env.contentsOf(path));
      assert root == RootLocator(MimeTable(mime.mappings, mime.textMimeTypes), path, separator, env);
      var chain := RunChain(ap, root, path, env);
      r := Settle(ap, cache, chain, env);
    }

    /** The end of serveFile: what follows the filter chain's run. */
    method Settle(ap: AP.AssetPath, cache: Option<FSC.FileSystemCache>, chain: Result<FC.ChainState>, env: Environment)
      returns (r: Outcome)
      requires cache.Some? ==> env.tempName !in cache.value.files && !(cache.value.externalName(Identity(ap)) <= env.tempName)
      modifies if cache.Some? then {cache.value} else {}
      ensures (r, Files(cache)) ==
        Settled(old(Files(cache)), if cache.Some? then cache.value.externalName(Identity(ap)) else [], ap, chain, env)
    {
      if chain.Err? {
        return Threw(chain.error);
      }
      if !Finished(chain.value) {
        return Unfinished;
      }
      r := StoreResult(cache, Identity(ap), chain.value.dependencies, chain.value.current, env);
    }

    /** resolve(assetPath). */
    method Resolve(ap: AP.AssetPath, mime: MM.MimeMapping, cache: Option<FSC.FileSystemCache>, env: Environment)
      returns (r: Outcome)
      requires cache.Some? ==> env.tempName !in cache.value.files && !(cache.value.externalName(Identity(ap)) <= env.tempName)
      modifies if cache.Some? then {cache.value} else {}
      ensures (r, Files(cache)) ==
        Resolution(Config(), MimeTable(mime.mappings, mime.textMimeTypes),
                              old(Files(cache)), if cache.Some? then cache.value.externalName else (_ => []), env, ap)
    {
      var resolvedPath := CandidatePath(ap.pathComponents);
      if resolvedPath.Err? {
        return Threw(resolvedPath.error);
      }
      var path := resolvedPath.value;
      var canonicalPath := env.canonical(path);
      if canonicalPath.Err? {
        return Threw(canonicalPath.error);
      }
      if canonicalPath.value != path {
        if EqualsIgnoreCase(canonicalPath.value, path) {
          return Returned(NotFound);
        } else {
          return Returned(NotFound);
        }
      }
      var excluded := IsExcluded(ap.pathComponents);
      if excluded {
        return Returned(NotFound);
      }
      if !env.isFile(path) {
        return Returned(NotFound);
      }
      r := LookupOrServeFile(ap, path, mime, cache, env);
    }

    /** The end of resolve: the cache lookup and, on a miss, serveFile. */
    method LookupOrServeFile(ap: AP.AssetPath, path: string, mime: MM.MimeMapping, cache: Option<FSC.FileSystemCache>,
                             env: Environment) returns (r: Outcome)
      requires cache.Some? ==> env.tempName !in cache.value.files && !(cache.value.externalName(Identity(ap)) <= env.tempName)
      modifies if cache.Some? then {cache.value} else {}
      ensures (r, Files(cache)) ==
        LookupOrServe(MimeTable(mime.mappings, mime.textMimeTypes), separator, old(Files(cache)),
                      if cache.Some? then cache.value.externalName(Identity(ap)) else [], env, ap, path)
    {
      var id := Identity(ap);
      if cache.Some? {
        var cacheEntry := cache.value.Lookup(id);
        if cacheEntry.Some? {
          var valid := CheckValid(cacheEntry.value, env.fs);
          if valid {
            if IsNullContent(cacheEntry.value) {
              return Returned(NotFound);
            } else {
              return Returned(FromEntry(cacheEntry.value));
            }
          }
        }
      }
      r := ServeFile(ap, path, mime, cache, env);
    }
  }
}
