// Looking up chain initializers by name: names are first rewritten through alias links until
// a name without an alias is reached (a cycle is an error); the final name is then taken
// from the instance cache, or, for an "@class" name, instantiated and cached.

module FilterChainInitializerLookup {
  import opened Wrappers
  import FC = FilterChain

  /**
   * A FilterChainInitializer object: one registered with set, or one made by instantiating
   * a class (serial tells apart the objects instantiation creates).
   */
  datatype Initializer =
    | Registered(filter: FC.ResourceFilter)
    | Instance(className: string, serial: nat)

  /** What instantiate meets for a class name. */
  datatype ClassKind =
    | InitializerClass  // loads, and is a FilterChainInitializer
    | OtherClass        // loads, but the cast fails: IllegalStateException
    | Unloadable        // loading or construction fails: RuntimeException

  /** The alias map: alias name to the name it stands for. */
  type Aliases = map<string, string>

  // ---------------------------------------------------------------------------
  // Alias chasing

  /** The name reached after k alias links, stopping at a name without an alias. */
  function Follow(a: Aliases, n: string, k: nat): string
    decreases k
  {
    if k == 0 || n !in a then n else Follow(a, a[n], k - 1)
  }

  lemma {:induction false} FollowSplit(a: Aliases, n: string, i: nat, j: nat)
    ensures Follow(a, n, i + j) == Follow(a, Follow(a, n, i), j)
    decreases i
  {
    if i > 0 && n in a {
      FollowSplit(a, a[n], i - 1, j);
    } else if i > 0 {
      FollowStuck(a, n, j);
      FollowStuck(a, n, i + j);
    }
  }

  lemma {:induction false} FollowStuck(a: Aliases, n: string, k: nat)
    requires n !in a
    ensures Follow(a, n, k) == n
  {
  }

  /**
   * The alias loop of lookup: seen is circularDetect, the aliased names already passed
   * through.
   */
  function Chase(a: Aliases, name: string, seen: set<string>): (r: Result<string>)
    requires seen <= a.Keys
    ensures r.Err? ==> r.error == IllegalState
    ensures r.Ok? ==> r.value !in a
    decreases |a.Keys - seen|
  {
    if name !in a then Ok(name)
    else if name in seen then Err(IllegalState)
    else
      assert a.Keys - (seen + {name}) < a.Keys - seen;
      Chase(a, a[name], seen + {name})
  }

  /** What the loop returns is the end of the alias chain from the name. */
  lemma {:induction false} ChaseFollows(a: Aliases, name: string, seen: set<string>)
    requires seen <= a.Keys && Chase(a, name, seen).Ok?
    ensures exists k: nat :: Follow(a, name, k) == Chase(a, name, seen).value
    decreases |a.Keys - seen|
  {
    if name !in a {
      assert Follow(a, name, 0) == name;
    } else {
      assert a.Keys - (seen + {name}) < a.Keys - seen;
      ChaseFollows(a, a[name], seen + {name});
      var k: nat :| Follow(a, a[name], k) == Chase(a, a[name], seen + {name}).value;
      assert Follow(a, name, k + 1) == Follow(a, a[name], k);
    }
  }

  /** The alias links from s arrive at t in at least one step. */
  ghost predicate LeadsTo(a: Aliases, s: string, t: string)
  {
    exists j: nat :: j > 0 && Follow(a, s, j) == t
  }

  /** On a cycle through n, every name on the walk from n has an alias. */
  lemma {:induction false} CycleNeverEnds(a: Aliases, n: string, j: nat, m: nat)
    requires n in a && j > 0 && Follow(a, n, j) == n
    ensures Follow(a, n, m) in a
    decreases m
  {
    if m >= j {
      FollowSplit(a, n, j, m - j);
      CycleNeverEnds(a, n, j, m - j);
    } else if Follow(a, n, m) !in a {
      FollowSplit(a, n, m, j - m);
      FollowStuck(a, Follow(a, n, m), j - m);
    }
  }

  /** When the walk from the name reaches an unaliased name, the loop finds no cycle. */
  lemma {:induction false} ChaseEndsWithoutCycle(a: Aliases, name: string, seen: set<string>, k: nat)
    requires seen <= a.Keys
    requires forall s :: s in seen ==> LeadsTo(a, s, name)
    requires Follow(a, name, k) !in a
    ensures Chase(a, name, seen).Ok?
    decreases |a.Keys - seen|
  {
    if name in a {
      if name in seen {
        var j: nat :| j > 0 && Follow(a, name, j) == name;
        CycleNeverEnds(a, name, j, k);
      } else {
        assert k > 0;
        var next := a[name];
        forall s | s in seen + {name}
          ensures LeadsTo(a, s, next)
        {
          if s == name {
            assert Follow(a, name, 1) == next;
          } else {
            var j: nat :| j > 0 && Follow(a, s, j) == name;
            FollowSplit(a, s, j, 1);
            assert Follow(a, s, j + 1) == next;
          }
        }
        assert Follow(a, next, k - 1) == Follow(a, name, k);
        assert a.Keys - (seen + {name}) < a.Keys - seen;
        ChaseEndsWithoutCycle(a, next, seen + {name}, k - 1);
      }
    }
  }

  /**
   * lookup throws for the alias cycle exactly when the alias links from the name never
   * reach a name without an alias; otherwise it ends at such a name on the walk.
   */
  lemma CycleIffNoEnd(a: Aliases, name: string)
    ensures Chase(a, name, {}).Err? <==> forall k: nat :: Follow(a, name, k) in a
    ensures Chase(a, name, {}).Ok? ==>
      Chase(a, name, {}).value !in a && exists k: nat :: Follow(a, name, k) == Chase(a, name, {}).value
  {
    if Chase(a, name, {}).Ok? {
      ChaseFollows(a, name, {});
    } else if !(forall k: nat :: Follow(a, name, k) in a) {
      var k: nat :| Follow(a, name, k) !in a;
      ChaseEndsWithoutCycle(a, name, {}, k);
    }
  }

  // ---------------------------------------------------------------------------
  // alias, set, lookup

  /** alias(rootName, aliases...): each alias now stands for rootName. */
  function AliasAll(a: Aliases, rootName: string, aliases: seq<string>): (r: Aliases)
    ensures forall k :: k in r <==> k in a || k in aliases
    ensures forall k :: k in r ==> r[k] == if k in aliases then rootName else a[k]
    decreases |aliases|
  {
    if aliases == [] then a
    else AliasAll(a[aliases[0] := rootName], rootName, aliases[1..])
  }

  /**
   * lookup(name) as a function of the aliases, the instance cache, the count of objects
   * instantiated so far and the classes: the result, the new cache and the new count.
   */
  function LookupResult(a: Aliases, cache: map<string, Initializer>, created: nat,
                        classes: string -> ClassKind, name: string): (r: (Result<Option<Initializer>>, map<string, Initializer>, nat))
    ensures r.0.Ok? && r.0.value.Some? ==>
      Chase(a, name, {}).Ok? && Chase(a, name, {}).value in r.1 && r.1[Chase(a, name, {}).value] == r.0.value.value
    ensures forall k :: k in cache ==> k in r.1 && r.1[k] == cache[k]
    ensures r.2 == created ||
      (Chase(a, name, {}).Ok? && |Chase(a, name, {}).value| > 0 && r.2 == created + 1 &&
       r.0 == Ok(Some(Instance(Chase(a, name, {}).value[1..], created))))
  {
    match Chase(a, name, {})
    case Err(e) => (Err(e), cache, created)
    case Ok(n) =>
      if n in cache then (Ok(Some(cache[n])), cache, created)
      else if n == "" then (Ok(None), cache, created)
      else if n[0] != '@' then (Err(IllegalState), cache, created)
      else
        match classes(n[1..])
        case InitializerClass =>
          var made := Instance(n[1..], created);
          (Ok(Some(made)), cache[n := made], created + 1)
        case OtherClass => (Err(IllegalState), cache, created)
        case Unloadable => (Err(Runtime), cache, created)
  }

  const CLASS_PREFIX: string := "@net.rcode.assetserver."
  const IGNORE_CLASS: string := CLASS_PREFIX + "core.IgnoreResourceFilter"
  const EJS_CLASS: string := CLASS_PREFIX + "ejs.EjsResourceFilter"
  const JS_CLASS: string := CLASS_PREFIX + "optimizer.YuiOptimizeJsResourceFilter"
  const CSS_CLASS: string := CLASS_PREFIX + "optimizer.YuiOptimizeCssResourceFilter"

  /** addBuiltins: the aliases of the bundled filters, in the order they are made. */
  function Builtins(a: Aliases): Aliases
  {
    var ignore := AliasAll(a, IGNORE_CLASS, ["#std-ignore", "ignore"]);
    var ejs := AliasAll(ignore, EJS_CLASS, ["#std-ejs", "ejs"]);
    var js := AliasAll(ejs, JS_CLASS, ["#yui-jsoptimize", "jsoptimize"]);
    AliasAll(js, CSS_CLASS, ["#yui-cssoptimize", "cssoptimize"])
  }

  class FilterChainInitializerLookup {
    var nameAliases: Aliases
    var instanceCache: map<string, Initializer>
    /** How many objects instantiate has created. */
    var created: nat
    /** The class loader, as what it yields for each class name. */
    const classes: string -> ClassKind

    constructor (classes: string -> ClassKind)
      ensures nameAliases == map[] && instanceCache == map[] && created == 0 && this.classes == classes
    {
      nameAliases := map[];
      instanceCache := map[];
      created := 0;
      this.classes := classes;
    }

    /** alias(rootName, aliases...). */
    method Alias(rootName: string, aliases: seq<string>)
      modifies this
      ensures nameAliases == AliasAll(old(nameAliases), rootName, aliases)
      ensures instanceCache == old(instanceCache) && created == old(created)
    {
      var i := 0;
      while i < |aliases|
        invariant 0 <= i <= |aliases|
        invariant AliasAll(nameAliases, rootName, aliases[i..]) == AliasAll(old(nameAliases), rootName, aliases)
        invariant instanceCache == old(instanceCache) && created == old(created)
      {
        assert aliases[i..][1..] == aliases[i + 1..];
        nameAliases := nameAliases[aliases[i] := rootName];
        i := i + 1;
      }
    }

    method AddBuiltins()
      modifies this
      ensures nameAliases == Builtins(old(nameAliases))
      ensures instanceCache == old(instanceCache) && created == old(created)
    {
      Alias(IGNORE_CLASS, ["#std-ignore", "ignore"]);
      Alias(EJS_CLASS, ["#std-ejs", "ejs"]);
      Alias(JS_CLASS, ["#yui-jsoptimize", "jsoptimize"]);
      Alias(CSS_CLASS, ["#yui-cssoptimize", "cssoptimize"]);
    }

    /** set(name, initializer): a hard binding in the instance cache. */
    method Set(name: string, initializer: Initializer)
      modifies this
      ensures instanceCache == old(instanceCache)[name := initializer]
      ensures nameAliases == old(nameAliases) && created == old(created)
    {
      instanceCache := instanceCache[name := initializer];
    }

    /** lookup(name). */
    method Lookup(name: string) returns (r: Result<Option<Initializer>>)
      modifies this
      ensures (r, instanceCache, created) == LookupResult(old(nameAliases), old(instanceCache), old(created), classes, name)
      ensures nameAliases == old(nameAliases)
    {
      var current := name;
      var circularDetect: set<string> := {};
      while current in nameAliases
        invariant circularDetect <= nameAliases.Keys
        invariant Chase(nameAliases, current, circularDetect) == Chase(nameAliases, name, {})
        decreases |nameAliases.Keys - circularDetect|
      {
        if current in circularDetect {
          return Err(IllegalState);
        }
        assert nameAliases.Keys - (circularDetect + {current}) < nameAliases.Keys - circularDetect;
        circularDetect := circularDetect + {current};
        current := nameAliases[current];
      }
      if current in instanceCache {
        return Ok(Some(instanceCache[current]));
      }
      if current == "" {
        return Ok(None);
      }
      if current[0] != '@' {
        return Err(IllegalState);
      }
      var className := current[1..];
      var kind := classes(className);
      if kind == OtherClass {
        return Err(IllegalState);
      } else if kind == Unloadable {
        return Err(Runtime);
      }
      var made := Instance(className, created);
      created := created + 1;
      instanceCache := instanceCache[current := made];
      r := Ok(Some(made));
    }
  }

  // ---------------------------------------------------------------------------
  // Properties

  /** Each alias stands for the root name of the latest alias call that named it. */
  lemma LaterAliasOverrides(a: Aliases, r1: string, r2: string, x: string)
    ensures AliasAll(AliasAll(a, r1, [x]), r2, [x])[x] == r2
  {
  }

  /**
   * A binding made with set is what lookup returns for its name and for every name whose
   * alias chain ends there; the cache stays as it was.
   */
  lemma SetBindingIsFound(a: Aliases, cache: map<string, Initializer>, created: nat, classes: string -> ClassKind,
                          target: string, init: Initializer, name: string)
    requires Chase(a, name, {}) == Ok(target)
    ensures LookupResult(a, cache[target := init], created, classes, name) == (Ok(Some(init)), cache[target := init], created)
  {
  }

  /** A name without an alias is its own end. */
  lemma UnaliasedIsItsOwnEnd(a: Aliases, name: string)
    requires name !in a
    ensures Chase(a, name, {}) == Ok(name)
  {
  }

  /** A second lookup of a name returns the same object, without instantiating again. */
  lemma RepeatedLookupSameInstance(a: Aliases, cache: map<string, Initializer>, created: nat,
                                   classes: string -> ClassKind, name: string)
    requires LookupResult(a, cache, created, classes, name).0.Ok?
    requires LookupResult(a, cache, created, classes, name).0.value.Some?
    ensures var first := LookupResult(a, cache, created, classes, name);
      LookupResult(a, first.1, first.2, classes, name) == first
  {
  }

  /** An unbound final name: "" is null, a name not starting with '@' an IllegalStateException. */
  lemma UnboundNames(a: Aliases, cache: map<string, Initializer>, created: nat, classes: string -> ClassKind, name: string)
    requires Chase(a, name, {}).Ok? && Chase(a, name, {}).value !in cache
    ensures Chase(a, name, {}).value == "" ==> LookupResult(a, cache, created, classes, name).0 == Ok(None)
    ensures Chase(a, name, {}).value != "" && Chase(a, name, {}).value[0] != '@' ==>
      LookupResult(a, cache, created, classes, name).0 == Err(IllegalState)
  {
  }

  /** A two-name cycle is an IllegalStateException. */
  lemma TwoAliasCycle(x: string, y: string)
    requires x != y
    ensures Chase(map[x := y, y := x], x, {}) == Err(IllegalState)
  {
    var a := map[x := y, y := x];
    assert a[x] == y && a[y] == x;
    assert {} + {x} == {x} && {x} + {y} == {x, y};
    assert Chase(a, x, {}) == Chase(a, y, {x});
    assert Chase(a, y, {x}) == Chase(a, x, {x, y});
  }

  /** What addBuiltins makes of the ejs names: both stand for the ejs class, which is unaliased. */
  predicate EjsBound(a: Aliases)
  {
    EJS_CLASS !in a && "ejs" in a && a["ejs"] == EJS_CLASS && "#std-ejs" in a && a["#std-ejs"] == EJS_CLASS
  }

  /** A name neither alias of a two-name call mentions keeps its binding, or its absence. */
  lemma AliasPairKeeps(a: Aliases, rootName: string, x: string, y: string, k: string)
    requires k != x && k != y
    ensures k in AliasAll(a, rootName, [x, y]) <==> k in a
    ensures k in a ==> AliasAll(a, rootName, [x, y])[k] == a[k]
  {
  }

  /**
   * Four alias calls in a row, the second binding x2 and y2 to r2: when r2 is unaliased at the
   * start and no other call names r2, x2 or y2, the last aliases still bind x2 and y2 to r2.
   */
  lemma SecondCallSurvives(start: Aliases, r1: string, x1: string, y1: string, r2: string, x2: string, y2: string,
                           r3: string, x3: string, y3: string, r4: string, x4: string, y4: string)
    requires r2 !in start && r2 != x1 && r2 != y1 && r2 != x2 && r2 != y2
    requires r2 != x3 && r2 != y3 && r2 != x4 && r2 != y4
    requires x2 != x3 && x2 != y3 && x2 != x4 && x2 != y4
    requires y2 != x3 && y2 != y3 && y2 != x4 && y2 != y4
    ensures var m := AliasAll(AliasAll(AliasAll(AliasAll(start, r1, [x1, y1]), r2, [x2, y2]), r3, [x3, y3]), r4, [x4, y4]);
      r2 !in m && x2 in m && m[x2] == r2 && y2 in m && m[y2] == r2
  {
    var m1 := AliasAll(start, r1, [x1, y1]);
    var m2 := AliasAll(m1, r2, [x2, y2]);
    var m3 := AliasAll(m2, r3, [x3, y3]);
    AliasPairKeeps(start, r1, x1, y1, r2);
    AliasPairKeeps(m1, r2, x2, y2, r2);
    AliasPairKeeps(m2, r3, x3, y3, r2);
    AliasPairKeeps(m3, r4, x4, y4, r2);
    AliasPairKeeps(m2, r3, x3, y3, x2);
    AliasPairKeeps(m3, r4, x4, y4, x2);
    AliasPairKeeps(m2, r3, x3, y3, y2);
    AliasPairKeeps(m3, r4, x4, y4, y2);
  }

  /** The names addBuiltins passes that the ejs facts depend on being different. */
  lemma BuiltinNamesDistinct()
    ensures EJS_CLASS != "#std-ignore" && EJS_CLASS != "ignore" && EJS_CLASS != "#std-ejs" && EJS_CLASS != "ejs"
    ensures EJS_CLASS != "#yui-jsoptimize" && EJS_CLASS != "jsoptimize"
    ensures EJS_CLASS != "#yui-cssoptimize" && EJS_CLASS != "cssoptimize"
    ensures "#std-ejs" != "#yui-jsoptimize" && "#std-ejs" != "jsoptimize"
    ensures "#std-ejs" != "#yui-cssoptimize" && "#std-ejs" != "cssoptimize"
    ensures "ejs" != "#yui-jsoptimize" && "ejs" != "jsoptimize"
    ensures "ejs" != "#yui-cssoptimize" && "ejs" != "cssoptimize"
  {
    assert EJS_CLASS[0] == '@';
    assert "#std-ejs"[1] != "#yui-jsoptimize"[1];
    assert "#std-ejs"[1] != "#yui-cssoptimize"[1];
  }

  /** The ejs names, as the aliases after addBuiltins hold them. */
  lemma BuiltinEjsAliases(start: Aliases)
    requires EJS_CLASS !in start
    ensures EjsBound(Builtins(start))
  {
    BuiltinNamesDistinct();
    SecondCallSurvives(start, IGNORE_CLASS, "#std-ignore", "ignore", EJS_CLASS, "#std-ejs", "ejs",
                       JS_CLASS, "#yui-jsoptimize", "jsoptimize", CSS_CLASS, "#yui-cssoptimize", "cssoptimize");
  }

  /**
   * After addBuiltins (on aliases that do not alias the ejs class name), the category, the
   * id and the class name of ejs share one root.
   */
  lemma BuiltinEjsNames(start: Aliases)
    requires EJS_CLASS !in start
    ensures Chase(Builtins(start), "ejs", {}) == Ok(EJS_CLASS)
    ensures Chase(Builtins(start), "#std-ejs", {}) == Ok(EJS_CLASS)
    ensures Chase(Builtins(start), EJS_CLASS, {}) == Ok(EJS_CLASS)
  {
    BuiltinEjsAliases(start);
  }
}
