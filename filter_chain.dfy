// The filter chain of one resolution: a queue of resource filters that is worked off head
// first, each filter receiving the locator the previous one returned, and the set of cache
// dependencies collected along the way.

module FilterChain {
  import opened Wrappers
  import opened CacheEntry
  import FCD = FileCacheDependency
  import AP = AssetPath

  /** An AssetLocator, by what its consumers read from it. */
  datatype Locator = Locator(
    shouldCache: bool,
    contentType: Option<string>,
    characterEncoding: Option<string>,
    contents: seq<byte>)

  /** A ResourceFilter instance: which filter it is, and its id (getId, possibly null). */
  datatype ResourceFilter = ResourceFilter(key: nat, id: Option<string>)

  /**
   * What one call filter(chain, source) does: the locator it returns (None for null), the
   * chain's filter list as the filter leaves it, the dependencies it adds, and the exception
   * it throws, if any (result is then ignored).
   */
  datatype Outcome = Outcome(
    result: Option<Locator>,
    filters: seq<ResourceFilter>,
    added: seq<FCD.FileCacheDependency>,
    thrown: Option<Exception>)

  /** The filters' code: the filter, its source locator and the queue after its removal. */
  type Behaviour = (ResourceFilter, Locator, seq<ResourceFilter>) -> Outcome

  // ---------------------------------------------------------------------------
  // The dependency set: a HashSet, so two dependencies on one path count once

  function Paths(deps: seq<FCD.FileCacheDependency>): set<string>
  {
    set d | d in deps :: d.dependentPath
  }

  predicate DistinctPaths(deps: seq<FCD.FileCacheDependency>)
  {
    forall i, j :: 0 <= i < j < |deps| ==> deps[i].dependentPath != deps[j].dependentPath
  }

  /** Set.add of one dependency, in insertion order. */
  function WithDependency(deps: seq<FCD.FileCacheDependency>, d: FCD.FileCacheDependency): (r: seq<FCD.FileCacheDependency>)
    ensures Paths(r) == Paths(deps) + {d.dependentPath}
    ensures DistinctPaths(deps) ==> DistinctPaths(r)
    ensures forall e :: e in deps ==> e in r
  {
    if d.dependentPath in Paths(deps) then deps
    else
      assert forall e :: e in deps + [d] <==> e in deps || e == d;
      deps + [d]
  }

  /** Set.add of each dependency in turn. */
  function WithDependencies(deps: seq<FCD.FileCacheDependency>, ds: seq<FCD.FileCacheDependency>): (r: seq<FCD.FileCacheDependency>)
    ensures Paths(r) == Paths(deps) + Paths(ds)
    ensures DistinctPaths(deps) ==> DistinctPaths(r)
    ensures forall e :: e in deps ==> e in r
    decreases |ds|
  {
    if ds == [] then deps
    else
      assert Paths(ds) == {ds[0].dependentPath} + Paths(ds[1..]) by {
        assert forall e :: e in ds <==> e == ds[0] || e in ds[1..];
      }
      WithDependencies(WithDependency(deps, ds[0]), ds[1..])
  }

  /** A dependency already in the set is not added again. */
  lemma WithDependencyIdempotent(deps: seq<FCD.FileCacheDependency>, d: FCD.FileCacheDependency)
    ensures WithDependency(WithDependency(deps, d), d) == WithDependency(deps, d)
  {
  }

  // ---------------------------------------------------------------------------
  // processFilters

  /** The fields processFilters reads and writes. */
  datatype ChainState = ChainState(
    current: Option<Locator>,
    filters: seq<ResourceFilter>,
    dependencies: seq<FCD.FileCacheDependency>)

  /**
   * The chain after one filter call: current = filter.filter(this, current) takes the
   * returned locator, unless the call throws, which leaves current as it was; the queue and
   * the dependencies are as the filter left them either way.
   */
  function Absorb(s: ChainState, o: Outcome): ChainState
  {
    ChainState(if o.thrown.Some? then s.current else o.result, o.filters, WithDependencies(s.dependencies, o.added))
  }

  /**
   * processFilters with at most fuel filter calls: while current is not null and the list
   * is not empty, remove the head and let it filter current. The second component is the
   * fuel left, the third the exception a filter threw, which ends processing at once.
   */
  function Process(s: ChainState, run: Behaviour, fuel: nat): (r: (ChainState, nat, Option<Exception>))
    ensures r.1 <= fuel
    ensures r.2.None? ==> r.1 == 0 || r.0.current.None? || r.0.filters == []
    ensures r.2.Some? ==> r.1 < fuel
    decreases fuel
  {
    if s.current.None? || s.filters == [] || fuel == 0 then (s, fuel, None)
    else
      var o := run(s.filters[0], s.current.value, s.filters[1..]);
      if o.thrown.Some? then (Absorb(s, o), fuel - 1, o.thrown)
      else Process(Absorb(s, o), run, fuel - 1)
  }

  /**
   * The dependency set only grows while the filters run, thrown exception or not, and two
   * dependencies on one path never both end up in it.
   */
  lemma {:induction false} ProcessKeepsDependencies(s: ChainState, run: Behaviour, fuel: nat)
    ensures DistinctPaths(s.dependencies) ==> DistinctPaths(Process(s, run, fuel).0.dependencies)
    ensures Paths(s.dependencies) <= Paths(Process(s, run, fuel).0.dependencies)
    ensures forall d :: d in s.dependencies ==> d in Process(s, run, fuel).0.dependencies
    decreases fuel
  {
    if s.current.Some? && s.filters != [] && fuel > 0 {
      var o := run(s.filters[0], s.current.value, s.filters[1..]);
      var t := Absorb(s, o);
      ProcessStep(s, run, fuel);
      if o.thrown.None? {
        ProcessKeepsDependencies(t, run, fuel - 1);
      }
    } else {
      ProcessStops(s, run, fuel);
    }
  }

  /** One filter call of processFilters: it either throws, which ends processing, or processing goes on. */
  lemma ProcessStep(s: ChainState, run: Behaviour, fuel: nat)
    requires s.current.Some? && s.filters != [] && fuel > 0
    ensures var o := run(s.filters[0], s.current.value, s.filters[1..]);
      Process(s, run, fuel) == if o.thrown.Some? then (Absorb(s, o), fuel - 1, o.thrown) else Process(Absorb(s, o), run, fuel - 1)
  {
  }

  /** The chain after one filter call continues processing, or ends it with the exception thrown. */
  lemma ProcessAfterCall(before: ChainState, after: ChainState, thrown: Option<Exception>, run: Behaviour, fuel: nat)
    requires before.current.Some? && before.filters != [] && fuel > 0
    requires var o := run(before.filters[0], before.current.value, before.filters[1..]);
      after == Absorb(before, o) && thrown == o.thrown
    ensures thrown.None? ==> Process(after, run, fuel - 1) == Process(before, run, fuel)
    ensures thrown.Some? ==> Process(before, run, fuel) == (after, fuel - 1, thrown)
  {
  }

  /** processFilters leaves the chain as it is once current is null, the queue is empty or the fuel is spent. */
  lemma ProcessStops(s: ChainState, run: Behaviour, fuel: nat)
    requires s.current.None? || s.filters == [] || fuel == 0
    ensures Process(s, run, fuel) == (s, fuel, None)
  {
  }

  /**
   * A filter that throws ends processing with its exception: current keeps the locator the
   * filter was given, and the rest of the queue, as the filter left it, does not run.
   */
  lemma ThrowStopsProcessing(s: ChainState, run: Behaviour, fuel: nat)
    requires s.current.Some? && s.filters != [] && fuel > 0
    requires run(s.filters[0], s.current.value, s.filters[1..]).thrown.Some?
    ensures var o := run(s.filters[0], s.current.value, s.filters[1..]);
      var r := Process(s, run, fuel);
      r.2 == o.thrown && r.0.current == s.current && r.0.filters == o.filters &&
      Paths(r.0.dependencies) == Paths(s.dependencies) + Paths(o.added)
  {
  }

  /** Processing throws only what some filter call threw: without throwing filters it never throws. */
  lemma {:induction false} NoThrowWithoutThrowingFilter(s: ChainState, run: Behaviour, fuel: nat)
    requires forall f, l, rest :: run(f, l, rest).thrown.None?
    ensures Process(s, run, fuel).2.None?
    decreases fuel
  {
    if s.current.Some? && s.filters != [] && fuel > 0 {
      var t := Absorb(s, run(s.filters[0], s.current.value, s.filters[1..]));
      NoThrowWithoutThrowingFilter(t, run, fuel - 1);
      NoThrowStep(s, run, fuel);
    } else {
      ProcessStops(s, run, fuel);
    }
  }

  lemma NoThrowStep(s: ChainState, run: Behaviour, fuel: nat)
    requires s.current.Some? && s.filters != [] && fuel > 0
    requires run(s.filters[0], s.current.value, s.filters[1..]).thrown.None?
    ensures Process(s, run, fuel) == Process(Absorb(s, run(s.filters[0], s.current.value, s.filters[1..])), run, fuel - 1)
  {
  }

  /**
   * The filters composed as functions, the last one outermost: what a queue of filters
   * computes from a locator when none of them edits the queue.
   */
  function Pipeline(fs: seq<ResourceFilter>, l: Locator, apply: (ResourceFilter, Locator) -> Option<Locator>): Option<Locator>
    decreases |fs|
  {
    if fs == [] then Some(l)
    else
      match Pipeline(fs[..|fs| - 1], l, apply)
      case None => None
      case Some(m) => apply(fs[|fs| - 1], m)
  }

  lemma {:induction false} PipelineHead(fs: seq<ResourceFilter>, l: Locator, apply: (ResourceFilter, Locator) -> Option<Locator>)
    requires fs != []
    ensures Pipeline(fs, l, apply) ==
      match apply(fs[0], l)
      case None => None
      case Some(m) => Pipeline(fs[1..], m, apply)
    decreases |fs|
  {
    if |fs| > 1 {
      var init := fs[..|fs| - 1];
      PipelineHead(init, l, apply);
      assert init[0] == fs[0] && init[1..] == fs[1..][..|fs[1..]| - 1];
    } else {
      assert fs[..0] == [];
      match apply(fs[0], l)
      case None =>
      case Some(m) =>
    }
  }

  /** A filter that only transforms its source: it leaves the queue and the dependencies alone. */
  ghost predicate Transforms(run: Behaviour, apply: (ResourceFilter, Locator) -> Option<Locator>)
  {
    forall f, l, rest :: run(f, l, rest) == Outcome(apply(f, l), rest, [], None)
  }

  /**
   * With filters that only transform, processFilters applies them head first, each to the
   * previous output: the result is the composed pipeline, and the dependencies stay.
   */
  lemma {:induction false} ProcessComposes(l: Locator, fs: seq<ResourceFilter>, deps: seq<FCD.FileCacheDependency>,
                                          run: Behaviour, apply: (ResourceFilter, Locator) -> Option<Locator>, fuel: nat)
    requires Transforms(run, apply) && fuel >= |fs|
    ensures Process(ChainState(Some(l), fs, deps), run, fuel).0.current == Pipeline(fs, l, apply)
    ensures Process(ChainState(Some(l), fs, deps), run, fuel).0.dependencies == deps
    decreases |fs|
  {
    if fs != [] {
      PipelineHead(fs, l, apply);
      var o := run(fs[0], l, fs[1..]);
      assert o == Outcome(apply(fs[0], l), fs[1..], [], None);
      match apply(fs[0], l)
      case None =>
      case Some(m) =>
        ProcessComposes(m, fs[1..], deps, run, apply, fuel - 1);
    }
  }

  /** Once a filter returns null, no further filter runs and the rest stays queued. */
  lemma NullStopsProcessing(s: ChainState, run: Behaviour, fuel: nat)
    requires s.current.Some? && s.filters != [] && fuel > 0
    requires run(s.filters[0], s.current.value, s.filters[1..]).result.None?
    requires run(s.filters[0], s.current.value, s.filters[1..]).thrown.None?
    ensures var o := run(s.filters[0], s.current.value, s.filters[1..]);
      Process(s, run, fuel) == (ChainState(None, o.filters, WithDependencies(s.dependencies, o.added)), fuel - 1, None)
  {
  }

  /**
   * A filter appended to the queue by a running filter runs in the same call: after f, the
   * chain is g's call on f's result, as processing from [g] with the fuel left.
   */
  lemma AppendedFilterRuns(l: Locator, m: Locator, f: ResourceFilter, g: ResourceFilter,
                           deps: seq<FCD.FileCacheDependency>, run: Behaviour, fuel: nat)
    requires run(f, l, []) == Outcome(Some(m), [g], [], None)
    requires fuel >= 2
    ensures var o := run(g, m, []);
      var s := ChainState(Some(m), [g], deps);
      Process(ChainState(Some(l), [f], deps), run, fuel) ==
      if o.thrown.Some? then (Absorb(s, o), fuel - 2, o.thrown) else Process(Absorb(s, o), run, fuel - 2)
  {
    assert [f][1..] == [];
    assert [g][1..] == [];
  }

  // ---------------------------------------------------------------------------
  // The object

  class FilterChain {
    /** getDependencies: the set callers add to. */
    var dependencies: seq<FCD.FileCacheDependency>
    const rootLocator: Locator
    const assetPath: AP.AssetPath
    const rootFile: string
    /** getFilters: processed from head to tail. */
    var filters: seq<ResourceFilter>
    /** getCurrent: None is the "not found" condition. */
    var current: Option<Locator>

    constructor (assetPath: AP.AssetPath, rootLocator: Locator, rootFile: string)
      ensures this.assetPath == assetPath && this.rootLocator == rootLocator && this.rootFile == rootFile
      ensures current == Some(rootLocator) && filters == [] && dependencies == []
    {
      this.assetPath := assetPath;
      this.rootLocator := rootLocator;
      this.current := Some(rootLocator);
      this.rootFile := rootFile;
      this.filters := [];
      this.dependencies := [];
    }

    function State(): ChainState
      reads this
    {
      ChainState(current, filters, dependencies)
    }

    /**
     * One turn of processFilters: filters.removeFirst(), then current = filter.filter(this,
     * current), which leaves current alone when the filter throws.
     */
    method CallHead(run: Behaviour) returns (thrown: Option<Exception>)
      requires current.Some? && filters != []
      modifies this
      ensures var o := run(old(filters)[0], old(current).value, old(filters)[1..]);
        State() == Absorb(old(State()), o) && thrown == o.thrown
    {
      var filter := filters[0];
      filters := filters[1..];
      var o := run(filter, current.value, filters);
      filters, dependencies := o.filters, WithDependencies(dependencies, o.added);
      if o.thrown.Some? {
        return o.thrown;
      }
      current := o.result;
      thrown := None;
    }

    /**
     * processFilters, stopped after fuel filter calls: Err with the exception a filter threw,
     * or Ok(finished), where finished reports that the loop's own condition ended it.
     */
    method ProcessFilters(run: Behaviour, fuel: nat) returns (r: Result<bool>)
      modifies this
      ensures State() == Process(old(State()), run, fuel).0
      ensures r.Err? <==> Process(old(State()), run, fuel).2.Some?
      ensures r.Err? ==> Some(r.error) == Process(old(State()), run, fuel).2
      ensures r.Ok? ==> (r.value <==> current.None? || filters == [])
    {
      ghost var start := State();
      var left := fuel;
      while current.Some? && filters != [] && left > 0
        invariant Process(State(), run, left) == Process(start, run, fuel)
        decreases left
      {
        ghost var before := State();
        var thrown := CallHead(run);
        ProcessAfterCall(before, State(), thrown, run, left);
        left := left - 1;
        if thrown.Some? {
          return Err(thrown.value);
        }
      }
      ProcessStops(State(), run, left);
      r := Ok(current.None? || filters == []);
    }

    /** setCurrent: replace current outside a filter. */
    method SetCurrent(l: Option<Locator>)
      modifies this
      ensures current == l && filters == old(filters) && dependencies == old(dependencies)
    {
      current := l;
    }

    /** getFilters().addLast(f), as initializeChain does. */
    method AddLast(f: ResourceFilter)
      modifies this
      ensures filters == old(filters) + [f]
      ensures current == old(current) && dependencies == old(dependencies)
    {
      filters := filters + [f];
    }

    /** getDependencies().add(d). */
    method AddDependency(d: FCD.FileCacheDependency)
      modifies this
      ensures dependencies == WithDependency(old(dependencies), d)
      ensures current == old(current) && filters == old(filters)
    {
      dependencies := WithDependency(dependencies, d);
    }

    /**
     * findFilterById: the position of the returned iterator, just before the first filter
     * whose id is the given one, or at the end.
     */
    method FindFilterById(id: string) returns (position: nat)
      ensures position <= |filters|
      ensures position < |filters| ==> filters[position].id == Some(id)
      ensures forall j :: 0 <= j < position ==> filters[j].id != Some(id)
    {
      position := 0;
      while position < |filters|
        invariant position <= |filters|
        invariant forall j :: 0 <= j < position ==> filters[j].id != Some(id)
      {
        var f := filters[position];
        if f.id == Some(id) {
          return;
        }
        position := position + 1;
      }
    }
  }
}
