// The asset tree: mounts registered under path prefixes, and the selection of the mount
// that owns a full path.

module AssetRoot {
  import opened Wrappers
  import opened JavaString
  import AP = AssetPath

  /** A key of the mount map: None is the root mount point. */
  type MountKey = Option<string>

  predicate Distinct<T(==)>(s: seq<T>)
  {
    forall i, j :: 0 <= i < j < |s| ==> s[i] != s[j]
  }

  /** normalizeMountPoint: one trailing slash dropped, and "" (so also "/") is the root. */
  function NormalizeMountPoint(mountPoint: Option<string>): (r: MountKey)
    ensures r.None? <==> mountPoint.None? || mountPoint.value == "" || mountPoint.value == "/"
    ensures r.Some? ==> r.value != "" && (mountPoint.value == r.value || mountPoint.value == r.value + "/")
    ensures r.Some? && mountPoint.value == r.value ==> r.value[|r.value| - 1] != '/'
  {
    match mountPoint
    case None => None
    case Some(m) =>
      var t := if |m| > 0 && m[|m| - 1] == '/' then m[..|m| - 1] else m;
      if t == "" then None else Some(t)
  }

  // ---------------------------------------------------------------------------
  // The mount pattern

  /**
   * The compiled mount pattern: the alternation of the quoted non-root mount points, in
   * iteration order, optional when there is a root mount, then a slash and the rest of the
   * path.
   */
  datatype MountPattern = MountPattern(alternatives: seq<string>, hasRoot: bool)

  /** The non-root keys, in order. */
  function NonRoot(keys: seq<MountKey>): (r: seq<string>)
    ensures forall a :: a in r <==> Some(a) in keys
    ensures |r| <= |keys|
    decreases |keys|
  {
    if keys == [] then []
    else
      var last := keys[|keys| - 1];
      NonRoot(keys[..|keys| - 1]) + (if last.Some? then [last.value] else [])
  }

  /** getMountPattern: no pattern at all when there are no mount points. */
  function PatternOf(keys: seq<MountKey>): (r: Option<MountPattern>)
    ensures r.None? <==> keys == []
    ensures r.Some? ==> (r.value.hasRoot <==> None in keys)
    ensures r.Some? ==> forall a :: a in r.value.alternatives <==> Some(a) in keys
  {
    var alternatives := NonRoot(keys);
    var hasRoot := None in keys;
    if alternatives == [] && !hasRoot then None
    else Some(MountPattern(alternatives, hasRoot))
  }

  /** What "(\/.*)" with a whole-input match accepts: a slash, then no line terminator. */
  predicate IsRest(s: string)
  {
    |s| >= 1 && s[0] == '/' && forall i :: 0 <= i < |s| ==> !IsLineTerminator(s[i])
  }

  /** The alternation: the first mount point, in order, after which the rest matches. */
  function FirstAlternative(alternatives: seq<string>, fullPath: string): (r: Option<(string, string)>)
    ensures r.Some? ==> r.value.0 in alternatives && fullPath == r.value.0 + r.value.1 && IsRest(r.value.1)
    ensures r.None? <==> forall a :: a in alternatives ==> !(a <= fullPath && IsRest(fullPath[|a|..]))
    decreases |alternatives|
  {
    if alternatives == [] then None
    else
      var a := alternatives[0];
      if a <= fullPath && IsRest(fullPath[|a|..]) then
        assert fullPath == a + fullPath[|a|..];
        Some((a, fullPath[|a|..]))
      else
        var r := FirstAlternative(alternatives[1..], fullPath);
        assert forall b :: b in alternatives ==> b == a || b in alternatives[1..];
        r
  }

  /** The two capture groups of a successful match: the mount key and the mount path. */
  function Groups(pattern: MountPattern, fullPath: string): (r: Option<(MountKey, string)>)
    ensures r.Some? ==> KeyText(r.value.0) + r.value.1 == fullPath && IsRest(r.value.1)
    ensures r.Some? && r.value.0.Some? ==> r.value.0.value in pattern.alternatives
    ensures r.Some? && r.value.0.None? ==> pattern.hasRoot
  {
    match FirstAlternative(pattern.alternatives, fullPath)
    case Some((a, rest)) => Some((Some(a), rest))
    case None => if pattern.hasRoot && IsRest(fullPath) then Some((None, fullPath)) else None
  }

  /** The text a key stands for in the full path: "" for the root. */
  function KeyText(k: MountKey): string
  {
    if k.None? then "" else k.value
  }

  /**
   * match(fullPath): the groups of the mount pattern, the mount registered under the key,
   * and the AssetPath built from them; an invalid path gives null.
   */
  function MatchPath(mountPoints: map<MountKey, AP.MountId>, keys: seq<MountKey>, fullPath: string): (r: Option<AP.AssetPath>)
    ensures r.Some? ==> r.value.mountPoint in mountPoints && r.value.mount == Some(mountPoints[r.value.mountPoint])
    ensures r.Some? ==> KeyText(r.value.mountPoint) + r.value.path == fullPath
    ensures r.Some? ==> IsRest(r.value.path)
    ensures keys == [] ==> r.None?
  {
    match PatternOf(keys)
    case None => None
    case Some(pattern) =>
      match Groups(pattern, fullPath)
      case None => None
      case Some((k, rest)) =>
        if k !in mountPoints then None
        else
          match AP.NewAssetPath(Some(mountPoints[k]), k, rest)
          case Err(_) => None
          case Ok(ap) => Some(ap)
  }

  // ---------------------------------------------------------------------------
  // The object

  class AssetRoot {
    /** Map of mount key to mount. */
    var mountPoints: map<MountKey, AP.MountId>
    /** The iteration order of the map's keys, which the HashMap leaves unspecified. */
    var keys: seq<MountKey>
    /** The cached mount pattern, dropped by add. */
    var mountPattern: Option<MountPattern>

    ghost predicate Valid()
      reads this
    {
      && (forall k :: k in mountPoints <==> k in keys)
      && Distinct(keys)
      && (mountPattern.Some? ==> mountPattern == PatternOf(keys))
    }

    constructor ()
      ensures Valid() && mountPoints == map[] && keys == [] && mountPattern.None?
    {
      mountPoints := map[];
      keys := [];
      mountPattern := None;
    }

    /**
     * add: register under the normalized key, replacing an earlier mount there. The HashMap
     * promises no iteration order, so the new key order is only known to list each key of
     * the map once; appending a new key is one order it may take.
     */
    method Add(mountPoint: Option<string>, mount: AP.MountId)
      requires Valid()
      modifies this
      ensures Valid()
      ensures mountPoints == old(mountPoints)[NormalizeMountPoint(mountPoint) := mount]
      ensures Distinct(keys) && forall k :: k in keys <==> k in mountPoints
      ensures mountPattern.None?
    {
      var k := NormalizeMountPoint(mountPoint);
      if k !in keys {
        keys := keys + [k];
      }
      mountPoints := mountPoints[k := mount];
      mountPattern := None;
    }

    /** getMountPattern: built by a loop over the keys and cached; null without mounts. */
    method GetMountPattern() returns (p: Option<MountPattern>)
      requires Valid()
      modifies this`mountPattern
      ensures Valid()
      ensures p == PatternOf(keys)
      ensures mountPattern == (if p.Some? then p else old(mountPattern))
    {
      if mountPattern.Some? {
        return mountPattern;
      }
      p := BuildMountPattern(keys);
      if p.Some? {
        mountPattern := p;
      }
    }

    /** match(fullPath). */
    method Match(fullPath: string) returns (r: Option<AP.AssetPath>)
      requires Valid()
      modifies this`mountPattern
      ensures Valid()
      ensures r == MatchPath(mountPoints, keys, fullPath)
    {
      var p := GetMountPattern();
      if p.None? {
        return None;
      }
      var g := Groups(p.value, fullPath);
      if g.None? {
        return None;
      }
      var k := g.value.0;
      if k !in mountPoints {
        return None;
      }
      var ap := AP.NewAssetPath(Some(mountPoints[k]), k, g.value.1);
      if ap.Err? {
        return None;
      }
      r := Some(ap.value);
    }

    /** resolve: null without a match, otherwise what the matched mount resolves. */
    method Resolve<L>(fullPath: string, resolveMount: (AP.MountId, AP.AssetPath) -> Option<L>) returns (r: Option<L>)
      requires Valid()
      modifies this`mountPattern
      ensures Valid()
      ensures MatchPath(mountPoints, keys, fullPath).None? ==> r.None?
      ensures MatchPath(mountPoints, keys, fullPath).Some? ==>
        r == resolveMount(MatchPath(mountPoints, keys, fullPath).value.mount.value, MatchPath(mountPoints, keys, fullPath).value)
    {
      var ap := Match(fullPath);
      if ap.None? {
        return None;
      }
      r := resolveMount(ap.value.mount.value, ap.value);
    }
  }

  /** One more key read: a non-root key adds its text, the root key marks the root. */
  lemma KeysStep(keys: seq<MountKey>, i: nat)
    requires i < |keys|
    ensures NonRoot(keys[..i + 1]) == NonRoot(keys[..i]) + (if keys[i].Some? then [keys[i].value] else [])
    ensures None in keys[..i + 1] <==> None in keys[..i] || keys[i].None?
  {
    assert keys[..i + 1][..i] == keys[..i];
    assert keys[..i + 1] == keys[..i] + [keys[i]];
  }

  /** getMountPattern: the pattern over the keys in iteration order, null without keys. */
  method BuildMountPattern(keys: seq<MountKey>) returns (p: Option<MountPattern>)
    ensures p == PatternOf(keys)
  {
    var alternatives, hasRoot, hasNonRoot := ScanKeys(keys);
    if !hasNonRoot && !hasRoot {
      return None;
    }
    p := Some(MountPattern(alternatives, hasRoot));
  }

  /** The loop of getMountPattern over the keys in iteration order. */
  method ScanKeys(keys: seq<MountKey>) returns (alternatives: seq<string>, hasRoot: bool, hasNonRoot: bool)
    ensures alternatives == NonRoot(keys) && (hasRoot <==> None in keys) && (hasNonRoot <==> alternatives != [])
  {
    alternatives, hasRoot, hasNonRoot := [], false, false;
    var i := 0;
    while i < |keys|
      invariant 0 <= i <= |keys|
      invariant alternatives == NonRoot(keys[..i])
      invariant hasRoot <==> None in keys[..i]
      invariant hasNonRoot == (|alternatives| > 0)
    {
      KeysStep(keys, i);
      if keys[i].None? {
        hasRoot := true;
      } else {
        hasNonRoot := true;
        alternatives := alternatives + [keys[i].value];
      }
      i := i + 1;
    }
    assert keys[..i] == keys;
  }

  // ---------------------------------------------------------------------------
  // Properties

  /** With no mounts nothing matches. */
  lemma NoMountsMatchNothing(fullPath: string)
    ensures MatchPath(map[], [], fullPath).None?
  {
  }

  /** A non-root mount point is not matched by its own text: a slash must follow. */
  lemma MountPointAloneRefused(mountPoints: map<MountKey, AP.MountId>, a: string)
    requires a != ""
    ensures MatchPath(mountPoints, [Some(a)], a).None?
  {
    assert a[|a|..] == "";
  }

  /** "/cdn/" under the mount "/cdn" gives the path "/". */
  lemma MountPointWithSlash(m: AP.MountId, a: string)
    requires a != "" && AP.ParseComponents(Some(a), false).Ok?
    ensures MatchPath(map[Some(a) := m], [Some(a)], a + "/") ==
      Some(AP.AssetPath(Some(m), Some(a), AP.ParseComponents(Some(a), false).value.0, "/", [], None))
  {
    SlashAfterMountPoint(a);
    SlashPathParses();
  }

  /** The mount point followed by a slash is that mount's, with the rest "/". */
  lemma SlashAfterMountPoint(a: string)
    requires a != ""
    ensures PatternOf([Some(a)]).Some? && Groups(PatternOf([Some(a)]).value, a + "/") == Some((Some(a), "/"))
  {
    assert (a + "/")[|a|..] == "/";
  }

  /** The path "/" has no components and no parameters. */
  lemma SlashPathParses()
    ensures AP.ParseComponents(Some("/"), true) == Ok(([], None))
  {
    assert AP.ComponentText("/") == Ok(None);
  }

  /** Under no non-root mount point, the groups are the root key and the whole path. */
  lemma RootGroups(keys: seq<MountKey>, fullPath: string)
    requires None in keys && IsRest(fullPath)
    requires forall a :: Some(a) in keys ==> !(a + "/" <= fullPath)
    ensures Groups(PatternOf(keys).value, fullPath) == Some((None, fullPath))
  {
  }

  /**
   * A path under no non-root mount point goes to the root mount with a null mount point and
   * the whole path.
   */
  lemma RootTakesTheRest(mountPoints: map<MountKey, AP.MountId>, keys: seq<MountKey>, fullPath: string)
    requires None in keys && None in mountPoints && IsRest(fullPath)
    requires forall a :: Some(a) in keys ==> !(a + "/" <= fullPath)
    requires AP.NewAssetPath(Some(mountPoints[None]), None, fullPath).Ok?
    ensures MatchPath(mountPoints, keys, fullPath) == Some(AP.NewAssetPath(Some(mountPoints[None]), None, fullPath).value)
    ensures MatchPath(mountPoints, keys, fullPath).value.mountPoint.None?
    ensures MatchPath(mountPoints, keys, fullPath).value.path == fullPath
  {
    RootGroups(keys, fullPath);
  }

  /** A path whose rest does not parse (an invalid component) gives null. */
  lemma InvalidPathRefused(mountPoints: map<MountKey, AP.MountId>, keys: seq<MountKey>, fullPath: string, k: MountKey, rest: string)
    requires PatternOf(keys).Some? && Groups(PatternOf(keys).value, fullPath) == Some((k, rest))
    requires AP.ParseComponents(Some(rest), true).Err?
    ensures MatchPath(mountPoints, keys, fullPath).None?
  {
  }

  /**
   * Nested mount points: the one listed first in the key order wins, whichever is longer,
   * so the owner of "/a/b/x" depends on the map's iteration order.
   */
  lemma FirstListedWins(mountPoints: map<MountKey, AP.MountId>, a: string, b: string, x: string)
    requires a != "" && b != ""
    requires IsRest("/" + b + "/" + x)
    ensures Groups(PatternOf([Some(a), Some(a + "/" + b)]).value, a + "/" + b + "/" + x) ==
      Some((Some(a), "/" + b + "/" + x))
    ensures Groups(PatternOf([Some(a + "/" + b), Some(a)]).value, a + "/" + b + "/" + x) ==
      Some((Some(a + "/" + b), "/" + x))
  {
    OuterListedFirst(a, b, x);
    InnerListedFirst(a, b, x);
  }

  /**
   * When a single mount point can own the path, it owns it whatever order the map lists
   * its keys in: the order matters only for nested mount points.
   */
  lemma SingleOwnerAnyOrder(keys: seq<MountKey>, a: string, fullPath: string)
    requires Some(a) in keys && a <= fullPath && IsRest(fullPath[|a|..])
    requires forall b :: Some(b) in keys && b <= fullPath && IsRest(fullPath[|b|..]) ==> b == a
    ensures PatternOf(keys).Some?
    ensures Groups(PatternOf(keys).value, fullPath) == Some((Some(a), fullPath[|a|..]))
  {
    var r := FirstAlternative(PatternOf(keys).value.alternatives, fullPath);
    assert r.Some?;
    var b := r.value.0;
    assert fullPath[|b|..] == r.value.1;
  }

  /** With the outer mount point listed first, it takes "/a/b/x". */
  lemma OuterListedFirst(a: string, b: string, x: string)
    requires a != "" && b != ""
    requires IsRest("/" + b + "/" + x)
    ensures Groups(PatternOf([Some(a), Some(a + "/" + b)]).value, a + "/" + b + "/" + x) ==
      Some((Some(a), "/" + b + "/" + x))
  {
    var full := a + "/" + b + "/" + x;
    assert NonRoot([Some(a), Some(a + "/" + b)]) == [a, a + "/" + b] by {
      assert [Some(a), Some(a + "/" + b)][..1] == [Some(a)];
      assert [Some(a)][..0] == [];
    }
    assert full == a + ("/" + b + "/" + x);
    assert full[|a|..] == "/" + b + "/" + x;
  }

  /** With the inner mount point listed first, it takes "/a/b/x". */
  lemma InnerListedFirst(a: string, b: string, x: string)
    requires a != "" && b != ""
    requires IsRest("/" + b + "/" + x)
    ensures Groups(PatternOf([Some(a + "/" + b), Some(a)]).value, a + "/" + b + "/" + x) ==
      Some((Some(a + "/" + b), "/" + x))
  {
    var full := a + "/" + b + "/" + x;
    assert NonRoot([Some(a + "/" + b), Some(a)]) == [a + "/" + b, a] by {
      assert [Some(a + "/" + b), Some(a)][..1] == [Some(a + "/" + b)];
      assert [Some(a + "/" + b)][..0] == [];
    }
    assert full == (a + "/" + b) + ("/" + x);
    assert full[|a + "/" + b|..] == "/" + x;
    var r := "/" + b + "/" + x;
    assert IsRest("/" + x) by {
      forall i | 0 <= i < |"/" + x| ensures !IsLineTerminator(("/" + x)[i]) {
        assert ("/" + x)[i] == r[i + |b| + 1];
      }
    }
  }
}
