// Binding filters to assets: an ordered list of (predicate, filter) pairs; building a chain
// appends, in list order, the filters whose predicate accepts the asset.

module FilterSelector {
  import opened Wrappers
  import opened NamePattern
  import AP = AssetPath
  import PPF = PatternPredicateFactory
  import FC = FilterChain

  /** The asset predicates there are: the factory's four, and a bare name pattern. */
  datatype AssetPredicate =
    | FactoryPredicate(p: PPF.Predicate)
    | NamePatternPredicate(clauses: seq<Clause>)

  /** matches(assetPath); a NamePatternPredicate matches the pattern against the base name. */
  function PredicateMatches(p: AssetPredicate, ap: AP.AssetPath): (r: Result<bool>)
    ensures p.NamePatternPredicate? ==> r == MatchesName(p.clauses, AP.BaseName(ap))
    ensures p.FactoryPredicate? ==> r == PPF.Matches(p.p, ap)
  {
    match p
    case FactoryPredicate(q) => PPF.Matches(q, ap)
    case NamePatternPredicate(clauses) => MatchesName(clauses, AP.BaseName(ap))
  }

  /** A predicate bound to the filter it selects. */
  datatype Binding = Binding(assetPredicate: AssetPredicate, filter: FC.ResourceFilter)

  /**
   * The filters the loop over the bindings appends: those whose predicate accepts the
   * asset, in order, up to the first predicate that throws, and that exception.
   */
  function Selected(bindings: seq<Binding>, ap: AP.AssetPath): (r: (seq<FC.ResourceFilter>, Option<Exception>))
    ensures |r.0| <= |bindings|
    ensures forall f :: f in r.0 ==> exists b :: b in bindings && b.filter == f && PredicateMatches(b.assetPredicate, ap) == Ok(true)
    decreases |bindings|
  {
    if bindings == [] then ([], None)
    else
      var rest := Selected(bindings[1..], ap);
      match PredicateMatches(bindings[0].assetPredicate, ap)
      case Err(e) => ([], Some(e))
      case Ok(b) => ((if b then [bindings[0].filter] else []) + rest.0, rest.1)
  }

  /** One binding: its filter when its predicate accepts, nothing when it refuses. */
  lemma SelectedOne(b: Binding, ap: AP.AssetPath)
    ensures PredicateMatches(b.assetPredicate, ap) == Ok(true) ==> Selected([b], ap) == ([b.filter], None)
    ensures PredicateMatches(b.assetPredicate, ap) == Ok(false) ==> Selected([b], ap) == ([], None)
    ensures PredicateMatches(b.assetPredicate, ap).Err? ==> Selected([b], ap) == ([], Some(PredicateMatches(b.assetPredicate, ap).error))
  {
    assert [b][1..] == [];
    assert [b.filter] + [] == [b.filter];
  }

  /**
   * Selection distributes over concatenation: the second list's filters follow the
   * first's, unless a predicate of the first list throws.
   */
  lemma {:induction false} SelectedAppend(b1: seq<Binding>, b2: seq<Binding>, ap: AP.AssetPath)
    ensures Selected(b1, ap).1.None? ==>
      Selected(b1 + b2, ap) == (Selected(b1, ap).0 + Selected(b2, ap).0, Selected(b2, ap).1)
    ensures Selected(b1, ap).1.Some? ==> Selected(b1 + b2, ap) == Selected(b1, ap)
    decreases |b1|
  {
    if b1 != [] {
      assert (b1 + b2)[0] == b1[0];
      assert (b1 + b2)[1..] == b1[1..] + b2;
      SelectedAppend(b1[1..], b2, ap);
      match PredicateMatches(b1[0].assetPredicate, ap)
      case Err(_) =>
      case Ok(m) =>
        var head := if m then [b1[0].filter] else [];
        assert head + Selected(b1[1..], ap).0 + Selected(b2, ap).0 == head + (Selected(b1[1..], ap).0 + Selected(b2, ap).0);
    } else {
      assert b1 + b2 == b2;
      assert [] + Selected(b2, ap).0 == Selected(b2, ap).0;
    }
  }

  /**
   * The chain-building loop shared by build and by a mount's initializeFilterChain: each
   * pair whose predicate matches adds its filter at the end of the chain's list.
   */
  method AppendMatching(bindings: seq<Binding>, ap: AP.AssetPath, chain: FC.FilterChain) returns (r: Result<()>)
    modifies chain
    ensures chain.filters == old(chain.filters) + Selected(bindings, ap).0
    ensures r == (if Selected(bindings, ap).1.Some? then Err(Selected(bindings, ap).1.value) else Ok(()))
    ensures chain.current == old(chain.current) && chain.dependencies == old(chain.dependencies)
  {
    var i := 0;
    while i < |bindings|
      invariant 0 <= i <= |bindings|
      invariant Selected(bindings[..i], ap).1.None?
      invariant chain.filters == old(chain.filters) + Selected(bindings[..i], ap).0
      invariant chain.current == old(chain.current) && chain.dependencies == old(chain.dependencies)
    {
      var b := bindings[i];
      SelectedOne(b, ap);
      SelectedAppend(bindings[..i], [b], ap);
      assert bindings[..i + 1] == bindings[..i] + [b];
      var m := PredicateMatches(b.assetPredicate, ap);
      if m.Err? {
        SelectedAppend(bindings[..i + 1], bindings[i + 1..], ap);
        assert bindings[..i + 1] + bindings[i + 1..] == bindings;
        return Err(m.error);
      }
      if m.value {
        chain.AddLast(b.filter);
      }
      i := i + 1;
    }
    assert bindings[..i] == bindings;
    r := Ok(());
  }

  class FilterSelector {
    /** The pairs, in add order. */
    var filters: seq<Binding>

    constructor ()
      ensures filters == []
    {
      filters := [];
    }

    /** add(predicate, filter). */
    method Add(assetPredicate: AssetPredicate, filter: FC.ResourceFilter)
      modifies this
      ensures filters == old(filters) + [Binding(assetPredicate, filter)]
    {
      filters := filters + [Binding(assetPredicate, filter)];
    }

    /** add(String namePattern, filter): a name pattern of that one glob, on the base name. */
    method AddNamePattern(namePattern: string, filter: FC.ResourceFilter)
      modifies this
      ensures filters == old(filters) + [Binding(NamePatternPredicate([CompileClause(namePattern)]), filter)]
    {
      var pattern := new NamePattern.FromPatterns([namePattern]);
      assert |pattern.rawClauses| == 1 && pattern.rawClauses[0] == CompileClause(namePattern);
      assert pattern.rawClauses == [CompileClause(namePattern)];
      Add(NamePatternPredicate(pattern.rawClauses), filter);
    }

    /** build(assetPath, chain). */
    method Build(ap: AP.AssetPath, chain: FC.FilterChain) returns (r: Result<()>)
      modifies chain
      ensures chain.filters == old(chain.filters) + Selected(filters, ap).0
      ensures r == (if Selected(filters, ap).1.Some? then Err(Selected(filters, ap).1.value) else Ok(()))
      ensures chain.current == old(chain.current) && chain.dependencies == old(chain.dependencies)
    {
      r := AppendMatching(filters, ap, chain);
    }
  }

  /**
   * A filter added by name pattern is selected exactly for the assets whose base name the
   * glob matches.
   */
  lemma NamePatternSelectsOnBaseName(pattern: string, f: FC.ResourceFilter, ap: AP.AssetPath, name: string)
    requires AP.BaseName(ap) == Some(name)
    ensures Selected([Binding(NamePatternPredicate([CompileClause(pattern)]), f)], ap) ==
      (if GlobMatch(CompileClause(pattern), name) then [f] else [], None)
  {
    SelectedOne(Binding(NamePatternPredicate([CompileClause(pattern)]), f), ap);
    assert MatchesAny([CompileClause(pattern)], name) == GlobMatch(CompileClause(pattern), name);
  }
}
