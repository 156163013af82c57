/**
 * AssetPath: an incoming path matched against a mount, broken into URL-decoded and
 * validated components. Components follow the Windows rules as the lowest common
 * denominator: no reserved characters, no control characters, no reserved device names,
 * and neither "." nor "..". The last path component may carry a parameter string,
 * "name$params$.ext", which is cut out before decoding.
 */
module AssetPath {
  import opened Wrappers
  import opened JavaString
  import opened PathUtil

  // ---------------------------------------------------------------------------
  // URL decoding (URLDecoder.decode with UTF-8)

  predicate IsHexDigit(c: char)
  {
    ('0' <= c <= '9') || ('a' <= c <= 'f') || ('A' <= c <= 'F')
  }

  function HexValue(c: char): (v: nat)
    requires IsHexDigit(c)
    ensures v < 16
  {
    if '0' <= c <= '9' then c as int - '0' as int
    else if 'a' <= c <= 'f' then c as int - 'a' as int + 10
    else c as int - 'A' as int + 10
  }

  /**
   * Integer.parseInt of the two characters after a '%' in base 16, when the result is not
   * negative: a sign is accepted in front of a single digit, so "+7" is 7 and "-0" is 0,
   * while "-7" is negative and refused by the decoder.
   */
  function EscapeValue(a: char, b: char): (r: Option<nat>)
    ensures r.Some? ==> r.value < 256
  {
    if a == '+' && IsHexDigit(b) then Some(HexValue(b))
    else if a == '-' && b == '0' then Some(0)
    else if IsHexDigit(a) && IsHexDigit(b) then Some(16 * HexValue(a) + HexValue(b))
    else None
  }

  /**
   * '+' becomes a space and "%xy" the character with that code; a '%' without two more
   * characters, or followed by anything but a non-negative hexadecimal number, is an
   * IllegalArgumentException.
   */
  function UrlDecode(s: string): (r: Result<string>)
    ensures r.Err? ==> r.error == IllegalArgument
    decreases |s|
  {
    if s == [] then Ok("")
    else if s[0] == '+' then
      match UrlDecode(s[1..])
      case Ok(t) => Ok([' '] + t)
      case Err(e) => Err(e)
    else if s[0] == '%' then
      if |s| < 3 then Err(IllegalArgument)
      else match EscapeValue(s[1], s[2])
        case None => Err(IllegalArgument)
        case Some(v) =>
          match UrlDecode(s[3..])
          case Ok(t) => Ok([v as char] + t)
          case Err(e) => Err(e)
    else
      match UrlDecode(s[1..])
      case Ok(t) => Ok([s[0]] + t)
      case Err(e) => Err(e)
  }

  function HexDigitChar(d: nat): (c: char)
    requires d < 16
    ensures IsHexDigit(c) && HexValue(c) == d
  {
    if d < 10 then ('0' as int + d) as char else ('A' as int + d - 10) as char
  }

  /** Every character written as "%XY" (the characters below 256 only). */
  function PercentEncode(s: string): (r: string)
    requires forall i :: 0 <= i < |s| ==> s[i] as int < 256
    ensures |r| == 3 * |s|
  {
    if s == [] then ""
    else ['%', HexDigitChar(s[0] as int / 16), HexDigitChar(s[0] as int % 16)] + PercentEncode(s[1..])
  }

  /** Text without '%' and '+' decodes to itself. */
  lemma {:induction false} DecodePlain(s: string)
    requires '%' !in s && '+' !in s
    ensures UrlDecode(s) == Ok(s)
    decreases |s|
  {
    if s != [] {
      assert '%' !in s[1..] && '+' !in s[1..] by {
        forall c | c in s[1..] ensures c in s { }
      }
      DecodePlain(s[1..]);
      assert s == [s[0]] + s[1..];
    }
  }

  /** Decoding undoes percent-encoding. */
  lemma {:induction false} DecodeEncoded(s: string)
    requires forall i :: 0 <= i < |s| ==> s[i] as int < 256
    ensures UrlDecode(PercentEncode(s)) == Ok(s)
    decreases |s|
  {
    if s != [] {
      var e := PercentEncode(s);
      var hi, lo := HexDigitChar(s[0] as int / 16), HexDigitChar(s[0] as int % 16);
      assert e[0] == '%' && e[1] == hi && e[2] == lo;
      assert e[3..] == PercentEncode(s[1..]);
      assert hi != '+' && hi != '-';
      assert EscapeValue(hi, lo) == Some(s[0] as int);
      DecodeEncoded(s[1..]);
      assert s == [s[0]] + s[1..];
    }
  }

  // ---------------------------------------------------------------------------
  // Component validity

  /** The characters of INVALID_COMPONENT_SPANS: \ / : " ' < > | ? * and 0x00-0x1f. */
  predicate IsForbiddenChar(c: char)
  {
    c == '\\' || c == '/' || c == ':' || c == '"' || c == '\'' || c == '<' || c == '>' ||
    c == '|' || c == '?' || c == '*' || c as int < 0x20
  }

  /** ".", "..", CON, PRN, AUX, NUL, COM0-9, LPT0-9, ignoring ASCII case. */
  predicate IsReservedName(c: string)
  {
    || c == "." || c == ".."
    || (|c| == 3 && ToUpper(c) in {"CON", "PRN", "AUX", "NUL"})
    || (|c| == 4 && ToUpper(c[..3]) in {"COM", "LPT"} && '0' <= c[3] <= '9')
  }

  /** isValidComponent. The empty component is valid. */
  predicate IsValidComponent(c: string)
    ensures IsValidComponent(c) ==> '/' !in c && '\\' !in c && c != "." && c != ".."
  {
    (forall i :: 0 <= i < |c| ==> !IsForbiddenChar(c[i])) && !IsReservedName(c)
  }

  /** A valid component has no slash, so it stays one component when joined. */
  lemma ValidHasNoSlash(c: string)
    requires IsValidComponent(c)
    ensures '/' !in c
  {
  }

  // ---------------------------------------------------------------------------
  // The parameter string

  predicate IsAlnum(c: char)
  {
    ('0' <= c <= '9') || ('a' <= c <= 'z') || ('A' <= c <= 'Z')
  }

  /** Text of the form (\.[A-Za-z0-9]+)+ . */
  predicate IsExtensionChain(t: string)
  {
    && |t| >= 2 && t[0] == '.' && t[|t| - 1] != '.'
    && (forall i :: 0 <= i < |t| ==> t[i] == '.' || IsAlnum(t[i]))
    && (forall i :: 0 <= i < |t| - 1 ==> t[i] == '.' ==> t[i + 1] != '.')
  }

  /**
   * Where a non-multiline '$' can match at the end: the very end, or just before one final
   * line terminator ("\r\n" counting as one).
   */
  function AnchorEnd(s: string): (e: nat)
    ensures e <= |s| && |s| - e <= 2
  {
    if |s| >= 2 && s[|s| - 2] == '\r' && s[|s| - 1] == '\n' then |s| - 2
    else if |s| >= 1 && IsLineTerminator(s[|s| - 1]) then |s| - 1
    else |s|
  }

  /**
   * PARAMSTRING_PATTERN found in a component: "$params$" followed by an extension chain
   * that reaches the end. The match can only start at the second-to-last '$', since no
   * '$' may follow the closing one. The result is the component with "$params$" (and any
   * final line terminator) removed, and the parameter string.
   */
  function ExtractParameters(comp: string): (r: (string, Option<string>))
    ensures r.1.None? ==> r.0 == comp
    ensures r.1.Some? ==> '$' !in r.1.value && |r.0| + |r.1.value| + 2 <= |comp|
  {
    var t := LastIndexOf(comp, '$');
    if t < 0 then (comp, None) else CutParameters(comp, LastIndexOf(comp[..t], '$'), t)
  }

  /**
   * The rest of the match, with the last '$' at t and the one before it at s (-1 for none):
   * the extension chain after t must reach the anchor.
   */
  function CutParameters(comp: string, s: int, t: nat): (r: (string, Option<string>))
    requires -1 <= s < t < |comp| && comp[t] == '$'
    requires forall j :: s < j < t ==> comp[j] != '$'
    ensures r.1.None? ==> r.0 == comp
    ensures r.1.Some? ==> '$' !in r.1.value && |r.0| + |r.1.value| + 2 <= |comp|
  {
    var e := AnchorEnd(comp);
    if s < 0 || e < t + 1 || !IsExtensionChain(comp[t + 1..e]) then (comp, None)
    else (comp[..s] + comp[t + 1..e], Some(comp[s + 1..t]))
  }

  /** The last c in a + [c] + b is at |a| when b holds no c. */
  lemma LastIndexOfJoin(a: string, c: char, b: string)
    requires c !in b
    ensures LastIndexOf(a + [c] + b, c) == |a|
  {
    var s := a + [c] + b;
    var r := LastIndexOf(s, c);
    assert s[|a|] == c;
  }

  /** Between the last two '$' of comp there is none. */
  lemma DollarFreeBetween(comp: string, s: int, t: nat)
    requires t < |comp| && LastIndexOf(comp[..t], '$') == s
    ensures forall j :: s < j < t ==> comp[j] != '$'
  {
    forall j | s < j < t
      ensures comp[j] != '$'
    {
      assert comp[..t][j] == comp[j];
    }
  }

  /** With the two '$' positions and the anchor known, the extraction cuts out comp[s..t]. */
  lemma ExtractAt(comp: string, s: nat, t: nat)
    requires s < t < |comp|
    requires LastIndexOf(comp, '$') == t
    requires LastIndexOf(comp[..t], '$') == s
    requires AnchorEnd(comp) == |comp|
    requires IsExtensionChain(comp[t + 1..|comp|])
    ensures ExtractParameters(comp) == (comp[..s] + comp[t + 1..|comp|], Some(comp[s + 1..t]))
  {
    DollarFreeBetween(comp, s, t);
    assert ExtractParameters(comp) == CutParameters(comp, s, t);
    var e := AnchorEnd(comp);
    assert IsExtensionChain(comp[t + 1..e]);
    assert CutParameters(comp, s, t) == (comp[..s] + comp[t + 1..e], Some(comp[s + 1..t]));
  }

  /** "name$params$.ext" gives "name.ext" and the parameter string. */
  lemma ExtractFromParameterized(name: string, params: string, ext: string)
    requires '$' !in params && IsExtensionChain(ext)
    ensures ExtractParameters(name + "$" + params + "$" + ext) == (name + ext, Some(params))
  {
    var pre := name + "$" + params;
    var comp := pre + "$" + ext;
    assert name + "$" + params + "$" + ext == comp;
    assert '$' !in ext by {
      forall i | 0 <= i < |ext| ensures ext[i] != '$' { }
    }
    ParameterizedDollars(name, params, ext);
    ParameterizedPieces(name, params, ext);
    ExtractAt(comp, |name|, |pre|);
  }

  /** In name$params$ext, with no '$' in params or ext, the last two '$' are the ones written. */
  lemma ParameterizedDollars(name: string, params: string, ext: string)
    requires '$' !in params && '$' !in ext
    ensures var pre := name + "$" + params;
      LastIndexOf(pre + "$" + ext, '$') == |pre| && LastIndexOf((pre + "$" + ext)[..|pre|], '$') == |name|
  {
    var pre := name + "$" + params;
    LastIndexOfJoin(pre, '$', ext);
    assert (pre + "$" + ext)[..|pre|] == pre;
    LastIndexOfJoin(name, '$', params);
  }

  /** The pieces of name$params$ext around its two '$', and its anchor when ext is an extension chain. */
  lemma ParameterizedPieces(name: string, params: string, ext: string)
    requires IsExtensionChain(ext)
    ensures var pre := name + "$" + params; var comp := pre + "$" + ext;
      && AnchorEnd(comp) == |comp| && comp[|pre| + 1..|comp|] == ext
      && comp[..|name|] == name && comp[|name| + 1..|pre|] == params
  {
    var pre := name + "$" + params;
    var comp := pre + "$" + ext;
    assert AnchorEnd(comp) == |comp| by {
      assert comp[|comp| - 1] == ext[|ext| - 1];
      assert IsAlnum(ext[|ext| - 1]);
    }
    assert comp[|pre| + 1..|comp|] == ext;
    assert comp[..|name|] == name;
    assert comp[|name| + 1..|pre|] == params;
  }

  /** A component with fewer than two '$' carries no parameters. */
  lemma NoParametersWithoutTwoDollars(comp: string)
    requires forall i, j :: 0 <= i < j < |comp| ==> comp[i] != '$' || comp[j] != '$'
    ensures ExtractParameters(comp) == (comp, None)
  {
  }

  /**
   * normalizeComponent: the parameter string is cut out first (on the base name only),
   * then the component is URL-decoded and validated.
   */
  function NormalizeComponent(comp: string, scanForParameters: bool): (r: Result<(string, Option<string>)>)
    ensures r.Err? ==> r.error == IllegalArgument
    ensures r.Ok? ==> IsValidComponent(r.value.0)
    ensures !scanForParameters && r.Ok? ==> r.value.1.None?
  {
    var (c, params) := if scanForParameters then ExtractParameters(comp) else (comp, None);
    match UrlDecode(c)
    case Err(e) => Err(e)
    case Ok(d) => if IsValidComponent(d) then Ok((d, params)) else Err(IllegalArgument)
  }

  // ---------------------------------------------------------------------------
  // Splitting into components

  /**
   * The text parseComponents splits, or None for a path that yields no components: the
   * leading slash removed, then one trailing slash.
   */
  function ComponentText(p: string): (r: Result<Option<string>>)
    ensures r.Err? <==> p != "" && p[0] != '/'
    ensures r.Err? ==> r.error == IllegalArgument
  {
    if p == "" then Ok(None)
    else if p[0] != '/' then Err(IllegalArgument)
    else
      var q := p[1..];
      var q' := if q != "" && q[|q| - 1] == '/' then q[..|q| - 1] else q;
      if q' == "" then Ok(None) else Ok(Some(q'))
  }

  /** Each raw component normalized; only the last one is scanned for parameters. */
  predicate AllNormalize(cs: seq<string>, scan: bool)
  {
    forall i :: 0 <= i < |cs| ==> NormalizeComponent(cs[i], scan && i == |cs| - 1).Ok?
  }

  /** The result of normalizing every raw component, and the parameter string found. */
  function NormalizeAll(cs: seq<string>, scan: bool): (r: Result<(seq<string>, Option<string>)>)
    ensures r.Ok? <==> AllNormalize(cs, scan)
    ensures r.Ok? ==> |r.value.0| == |cs| && forall i :: 0 <= i < |cs| ==> r.value.0[i] == NormalizeComponent(cs[i], scan && i == |cs| - 1).value.0
  {
    if !AllNormalize(cs, scan) then Err(IllegalArgument)
    else
      var out := seq(|cs|, i requires 0 <= i < |cs| => NormalizeComponent(cs[i], scan && i == |cs| - 1).value.0);
      var params := if cs != [] then NormalizeComponent(cs[|cs| - 1], scan).value.1 else None;
      Ok((out, params))
  }

  /** parseComponents: null or "" gives no components; a path must start with '/'. */
  function ParseComponents(p: Option<string>, scan: bool): (r: Result<(seq<string>, Option<string>)>)
    ensures r.Err? ==> r.error == IllegalArgument
    ensures r.Ok? ==> forall i :: 0 <= i < |r.value.0| ==> IsValidComponent(r.value.0[i])
  {
    if p.None? then Ok(([], None))
    else match ComponentText(p.value)
      case Err(e) => Err(e)
      case Ok(None) => Ok(([], None))
      case Ok(Some(q)) => NormalizeAll(Split(q, '/'), scan)
  }

  /** One component that does not normalize makes the whole list fail. */
  lemma NormalizeAllFails(cs: seq<string>, scan: bool, i: nat)
    requires i < |cs| && NormalizeComponent(cs[i], scan && i == |cs| - 1).Err?
    ensures NormalizeAll(cs, scan) == Err(IllegalArgument)
  {
  }

  /** The list built by the loop is the normalized list. */
  lemma NormalizeAllSucceeds(cs: seq<string>, scan: bool, out: seq<string>, params: Option<string>)
    requires |out| == |cs|
    requires forall j :: 0 <= j < |cs| ==> NormalizeComponent(cs[j], scan && j == |cs| - 1).Ok?
    requires forall j :: 0 <= j < |cs| ==> out[j] == NormalizeComponent(cs[j], scan && j == |cs| - 1).value.0
    requires params == if |cs| > 0 then NormalizeComponent(cs[|cs| - 1], scan).value.1 else None
    ensures NormalizeAll(cs, scan) == Ok((out, params))
  {
    assert AllNormalize(cs, scan);
    assert out == NormalizeAll(cs, scan).value.0;
  }

  /** The first |out| components are normalized, and out holds them. */
  predicate NormalizedPrefix(cs: seq<string>, scan: bool, out: seq<string>)
  {
    |out| <= |cs| &&
    forall j :: 0 <= j < |out| ==>
      NormalizeComponent(cs[j], scan && j == |cs| - 1).Ok? &&
      out[j] == NormalizeComponent(cs[j], scan && j == |cs| - 1).value.0
  }

  /** One more normalized component extends the prefix. */
  lemma NormalizedPrefixStep(cs: seq<string>, scan: bool, out: seq<string>, c: string)
    requires NormalizedPrefix(cs, scan, out) && |out| < |cs|
    requires NormalizeComponent(cs[|out|], scan && |out| == |cs| - 1).Ok?
    requires c == NormalizeComponent(cs[|out|], scan && |out| == |cs| - 1).value.0
    ensures NormalizedPrefix(cs, scan, out + [c])
  {
  }

  /** The loop of parseComponents, rewriting the split components one by one. */
  method NormalizeComponents(cs: seq<string>, scan: bool) returns (r: Result<(seq<string>, Option<string>)>)
    ensures r == NormalizeAll(cs, scan)
  {
    var out: seq<string> := [];
    var params: Option<string> := None;
    var i := 0;
    while i < |cs|
      invariant i == |out| && NormalizedPrefix(cs, scan, out)
      invariant params == if i == |cs| && i > 0 then NormalizeComponent(cs[|cs| - 1], scan).value.1 else None
    {
      var n := NormalizeComponent(cs[i], scan && i == |cs| - 1);
      if n.Err? {
        NormalizeAllFails(cs, scan, i);
        return Err(IllegalArgument);
      }
      NormalizedPrefixStep(cs, scan, out, n.value.0);
      out := out + [n.value.0];
      if i == |cs| - 1 {
        params := n.value.1;
      }
      i := i + 1;
    }
    NormalizeAllSucceeds(cs, scan, out, params);
    return Ok((out, params));
  }

  // ---------------------------------------------------------------------------
  // The path

  /** The mount an AssetPath is bound to, by identity. */
  type MountId = nat

  datatype AssetPath = AssetPath(
    mount: Option<MountId>,
    mountPoint: Option<string>,
    mountPointComponents: seq<string>,
    path: string,
    pathComponents: seq<string>,
    parameterString: Option<string>)

  /** The constructor: both the mount point and the path are parsed. */
  function NewAssetPath(mount: Option<MountId>, mountPoint: Option<string>, path: string): (r: Result<AssetPath>)
    ensures r.Err? ==> r.error == IllegalArgument
    ensures r.Ok? ==> r.value.mount == mount && r.value.mountPoint == mountPoint && r.value.path == path
    ensures r.Ok? ==>
      (ParseComponents(Some(path), true).Ok? &&
       r.value.parameterString == ParseComponents(Some(path), true).value.1)
  {
    match ParseComponents(mountPoint, false)
    case Err(e) => Err(e)
    case Ok((mpc, _)) =>
      match ParseComponents(Some(path), true)
      case Err(e) => Err(e)
      case Ok((pc, params)) => Ok(AssetPath(mount, mountPoint, mpc, path, pc, params))
  }

  /** Each component under a slash, when all are non-empty and valid. */
  predicate Joinable(cs: seq<string>)
  {
    forall i :: 0 <= i < |cs| ==> cs[i] != "" && IsValidComponent(cs[i])
  }

  /** joinPath appended to a builder: an empty or invalid component throws. */
  function JoinComponents(cs: seq<string>): (r: Result<string>)
    ensures r.Ok? <==> Joinable(cs)
    ensures r.Ok? ==> r.value == Slashed(cs)
    ensures r.Err? ==> r.error == IllegalArgument
  {
    if Joinable(cs) then Ok(Slashed(cs)) else Err(IllegalArgument)
  }

  /** The loop of joinPath. */
  method JoinPath(dest: string, cs: seq<string>) returns (r: Result<string>)
    ensures JoinComponents(cs).Ok? ==> r == Ok(dest + JoinComponents(cs).value)
    ensures JoinComponents(cs).Err? ==> r == Err(IllegalArgument)
  {
    var s := dest;
    var i := 0;
    while i < |cs|
      invariant 0 <= i <= |cs|
      invariant Joinable(cs[..i])
      invariant s == dest + Slashed(cs[..i])
    {
      if cs[i] == "" || !IsValidComponent(cs[i]) {
        assert !Joinable(cs);
        return Err(IllegalArgument);
      }
      assert cs[..i + 1][..i] == cs[..i];
      s := s + "/" + cs[i];
      i := i + 1;
    }
    assert cs[..|cs|] == cs;
    return Ok(s);
  }

  /** getFullPath: the mount point's components, then the path's. */
  function FullPath(ap: AssetPath): (r: Result<string>)
    ensures r.Ok? <==> Joinable(ap.mountPointComponents) && Joinable(ap.pathComponents)
  {
    match JoinComponents(ap.mountPointComponents)
    case Err(e) => Err(e)
    case Ok(a) =>
      match JoinComponents(ap.pathComponents)
      case Err(e) => Err(e)
      case Ok(b) => Ok(a + b)
  }

  /** The two joinPath loops of getFullPath. */
  method GetFullPath(ap: AssetPath) returns (r: Result<string>)
    ensures r == FullPath(ap)
  {
    var a := JoinPath("", ap.mountPointComponents);
    if a.Err? {
      return a;
    }
    assert a.value == JoinComponents(ap.mountPointComponents).value;
    r := JoinPath(a.value, ap.pathComponents);
  }

  /** getBaseName: the last path component, if any. */
  function BaseName(ap: AssetPath): (r: Option<string>)
    ensures r.None? <==> ap.pathComponents == []
    ensures r.Some? ==> r.value == ap.pathComponents[|ap.pathComponents| - 1]
  {
    if |ap.pathComponents| > 0 then Some(ap.pathComponents[|ap.pathComponents| - 1]) else None
  }

  /**
   * createChild: an invalid name gives null; otherwise a copy with the name appended to
   * the raw path and (undecoded) to the components. Everything else, the parameter
   * string included, is shared with the receiver.
   */
  function CreateChild(ap: AssetPath, childName: string): (r: Option<AssetPath>)
    ensures r.Some? <==> IsValidComponent(childName)
    ensures r.Some? ==> r.value.pathComponents == ap.pathComponents + [childName]
    ensures r.Some? ==> r.value.path == ap.path + "/" + childName
    ensures r.Some? ==>
      (r.value.mountPointComponents == ap.mountPointComponents &&
       r.value.mount == ap.mount && r.value.mountPoint == ap.mountPoint &&
       r.value.parameterString == ap.parameterString)
  {
    if !IsValidComponent(childName) then None
    else Some(ap.(path := ap.path + "/" + childName, pathComponents := ap.pathComponents + [childName]))
  }

  /** The base name of a child is the child's name. */
  lemma ChildBaseName(ap: AssetPath, childName: string)
    requires IsValidComponent(childName)
    ensures BaseName(CreateChild(ap, childName).value) == Some(childName)
  {
  }

  /** A non-empty child makes the full path one component longer, when it was defined. */
  lemma ChildFullPath(ap: AssetPath, childName: string)
    requires IsValidComponent(childName) && childName != "" && FullPath(ap).Ok?
    ensures FullPath(CreateChild(ap, childName).value) == Ok(FullPath(ap).value + "/" + childName)
  {
    var child := CreateChild(ap, childName).value;
    JoinableSnoc(ap.pathComponents, childName);
    FullPathJoined(ap);
    FullPathJoined(child);
    var a := Slashed(ap.mountPointComponents);
    var b := Slashed(ap.pathComponents);
    assert Slashed(child.pathComponents) == b + "/" + childName;
    assert a + (b + "/" + childName) == a + b + "/" + childName;
  }

  /** A joinable list with one more valid, non-empty component is joinable, one slash longer. */
  lemma JoinableSnoc(cs: seq<string>, c: string)
    requires Joinable(cs) && c != "" && IsValidComponent(c)
    ensures Joinable(cs + [c]) && Slashed(cs + [c]) == Slashed(cs) + "/" + c
  {
    var pc := cs + [c];
    assert pc[..|pc| - 1] == cs;
    forall i | 0 <= i < |pc| ensures pc[i] != "" && IsValidComponent(pc[i]) {
      if i < |cs| {
        assert pc[i] == cs[i];
      }
    }
  }

  /** getFullPath of an asset path whose two component lists both join. */
  lemma FullPathJoined(ap: AssetPath)
    requires Joinable(ap.mountPointComponents) && Joinable(ap.pathComponents)
    ensures FullPath(ap) == Ok(Slashed(ap.mountPointComponents) + Slashed(ap.pathComponents))
  {
  }

  // ---------------------------------------------------------------------------
  // Round trip between components and the path text

  /** A component that survives parsing unchanged. */
  predicate PlainComponent(c: string)
  {
    c != "" && IsValidComponent(c) && '%' !in c && '+' !in c
  }

  /** Joining plain components and parsing the result, without parameter scanning, gives them back. */
  lemma ParseJoined(cs: seq<string>)
    requires forall i :: 0 <= i < |cs| ==> PlainComponent(cs[i])
    ensures ParseComponents(Some(Slashed(cs)), false) == Ok((cs, None))
    ensures cs != [] ==> ComponentText(Slashed(cs)) == Ok(Some(JoinWith(cs, '/'))) && Split(JoinWith(cs, '/'), '/') == cs
  {
    if cs == [] {
      assert Slashed(cs) == "";
    } else {
      JoinedText(cs);
      PlainNormalized(cs);
    }
  }

  /** The text of joined plain components is their join, which splits back into them. */
  lemma JoinedText(cs: seq<string>)
    requires cs != [] && forall i :: 0 <= i < |cs| ==> PlainComponent(cs[i])
    ensures ComponentText(Slashed(cs)) == Ok(Some(JoinWith(cs, '/'))) && Split(JoinWith(cs, '/'), '/') == cs
  {
    SlashedIsJoin(cs);
    var j := JoinWith(cs, '/');
    var p := Slashed(cs);
    assert p[1..] == j;
    forall i | 0 <= i < |cs| ensures '/' !in cs[i] {
      ValidHasNoSlash(cs[i]);
    }
    JoinWithEnds(cs, '/');
    LastCharNotSlash(cs[|cs| - 1]);
    SplitOfJoin(cs, '/');
  }

  /** Plain components normalize to themselves, without parameters. */
  lemma PlainNormalized(cs: seq<string>)
    requires cs != [] && forall i :: 0 <= i < |cs| ==> PlainComponent(cs[i])
    ensures NormalizeAll(cs, false) == Ok((cs, None))
  {
    forall i | 0 <= i < |cs| ensures NormalizeComponent(cs[i], false) == Ok((cs[i], None)) {
      DecodePlain(cs[i]);
    }
    var r := NormalizeAll(cs, false);
    assert r.Ok?;
    assert r.value.0 == cs;
  }

  lemma LastCharNotSlash(c: string)
    requires c != "" && IsValidComponent(c)
    ensures c[|c| - 1] != '/'
  {
    assert !IsForbiddenChar(c[|c| - 1]);
  }

  /** A path built from plain components has exactly those components, and no parameters. */
  lemma FullPathOfPlain(mount: Option<MountId>, mpc: seq<string>, pc: seq<string>)
    requires forall i :: 0 <= i < |mpc| ==> PlainComponent(mpc[i]) && !('$' in mpc[i])
    requires forall i :: 0 <= i < |pc| ==> PlainComponent(pc[i]) && !('$' in pc[i])
    ensures var ap := NewAssetPath(mount, Some(Slashed(mpc)), Slashed(pc));
      ap.Ok? && ap.value.mountPointComponents == mpc && ap.value.pathComponents == pc &&
      ap.value.parameterString.None? && FullPath(ap.value) == Ok(Slashed(mpc) + Slashed(pc))
  {
    ParseJoined(mpc);
    ParseJoinedScanned(pc);
    var ap := NewAssetPath(mount, Some(Slashed(mpc)), Slashed(pc));
    assert ap == Ok(AssetPath(mount, Some(Slashed(mpc)), mpc, Slashed(pc), pc, None));
    PlainJoinable(mpc);
    PlainJoinable(pc);
    FullPathJoined(ap.value);
  }

  /** Plain components can be joined. */
  lemma PlainJoinable(cs: seq<string>)
    requires forall i :: 0 <= i < |cs| ==> PlainComponent(cs[i]) && !('$' in cs[i])
    ensures Joinable(cs)
  {
  }

  /** Scanning for parameters changes nothing when the last component has none. */
  lemma NormalizeAllScanned(cs: seq<string>)
    requires cs != [] && NormalizeComponent(cs[|cs| - 1], true) == NormalizeComponent(cs[|cs| - 1], false)
    ensures NormalizeAll(cs, true) == NormalizeAll(cs, false)
  {
    assert forall i :: 0 <= i < |cs| ==>
      NormalizeComponent(cs[i], true && i == |cs| - 1) == NormalizeComponent(cs[i], false && i == |cs| - 1);
    assert AllNormalize(cs, true) == AllNormalize(cs, false);
    if AllNormalize(cs, true) {
      assert NormalizeAll(cs, true).value.0 == NormalizeAll(cs, false).value.0;
    }
  }

  /** Parameter scanning leaves components without '$' alone. */
  lemma ParseJoinedScanned(cs: seq<string>)
    requires forall i :: 0 <= i < |cs| ==> PlainComponent(cs[i]) && !('$' in cs[i])
    ensures ParseComponents(Some(Slashed(cs)), true) == Ok((cs, None))
  {
    if cs == [] {
      assert Slashed(cs) == "";
    } else {
      JoinedText(cs);
      NoParametersWithoutTwoDollars(cs[|cs| - 1]);
      NormalizeAllScanned(cs);
      PlainNormalized(cs);
      assert ParseComponents(Some(Slashed(cs)), true) == NormalizeAll(cs, true);
    }
  }

  /** The root path under the root mount point has no components and the full path "". */
  lemma RootPath(mount: Option<MountId>, mountPoint: Option<string>)
    requires mountPoint == None || mountPoint == Some("") || mountPoint == Some("/")
    ensures var ap := NewAssetPath(mount, mountPoint, "/");
      ap.Ok? && ap.value.mountPointComponents == [] && ap.value.pathComponents == [] &&
      BaseName(ap.value).None? && FullPath(ap.value) == Ok("")
  {
    assert "/"[1..] == "";
    assert ComponentText("/") == Ok(None);
    assert Slashed([]) == "";
    assert JoinComponents([]) == Ok("");
    assert "" + "" == "";
  }

  /** A non-empty path without a leading slash is refused. */
  lemma RelativePathRefused(mount: Option<MountId>, mountPoint: Option<string>, path: string)
    requires path != "" && path[0] != '/' && ParseComponents(mountPoint, false).Ok?
    ensures NewAssetPath(mount, mountPoint, path) == Err(IllegalArgument)
  {
  }

  /** An invalid path component makes construction fail. */
  lemma InvalidComponentRefused(mount: Option<MountId>, mountPoint: Option<string>, path: string, i: nat)
    requires ParseComponents(mountPoint, false).Ok?
    requires ComponentText(path).Ok? && ComponentText(path).value.Some?
    requires var cs := Split(ComponentText(path).value.value, '/');
      i < |cs| && NormalizeComponent(cs[i], i == |cs| - 1).Err?
    ensures NewAssetPath(mount, mountPoint, path) == Err(IllegalArgument)
  {
  }

  /** "." and ".." are refused. */
  lemma DotNamesRefused()
    ensures !IsValidComponent(".") && !IsValidComponent("..")
  {
  }

  /** The three-letter device names of the tests, in either case. */
  lemma DeviceNamesRefused()
    ensures !IsValidComponent("con") && !IsValidComponent("PRN") && !IsValidComponent("AUX")
    ensures !IsValidComponent("NUL")
  {
    assert ToUpper("con") == "CON";
    assert ToUpper("PRN") == "PRN";
    assert ToUpper("AUX") == "AUX";
    assert ToUpper("NUL") == "NUL";
  }

  /** The numbered device names of the tests. */
  lemma NumberedDeviceNamesRefused()
    ensures !IsValidComponent("COM3") && !IsValidComponent("LPT5")
  {
    assert ToUpper("COM3"[..3]) == "COM";
    assert ToUpper("LPT5"[..3]) == "LPT";
  }

  /** Names that merely contain a device name are valid. */
  lemma LongerNamesAllowed()
    ensures IsValidComponent("CONSOLE") && IsValidComponent("COM") && IsValidComponent("file.txt")
  {
    assert ToUpper("COM") == "COM";
  }

  /** "%2f" decodes to a slash. */
  lemma DecodeEncodedSlash()
    ensures UrlDecode("%2f.txt") == Ok("/.txt")
  {
    var s := "%2f.txt";
    assert s[0] == '%' && s[1] == '2' && s[2] == 'f';
    assert EscapeValue('2', 'f') == Some(47);
    DecodePlain(".txt");
    assert s[3..] == ".txt";
    assert [47 as char] + ".txt" == "/.txt";
  }

  /** An encoded slash is refused after decoding. */
  lemma EncodedSlashRefused()
    ensures NormalizeComponent("%2f.txt", true).Err?
  {
    DecodeEncodedSlash();
    assert IsForbiddenChar("/.txt"[0]);
    NoParametersWithoutTwoDollars("%2f.txt");
  }

  // ---------------------------------------------------------------------------
  // Parameters (initParameters / getParameter)

  /** One "name=value" piece split at the first '='; a piece without '=' has the value "". */
  function NameValue(nv: string): (r: (string, string))
    ensures '=' !in nv ==> r == (nv, "")
    ensures '=' in nv ==> nv == r.0 + "=" + r.1 && '=' !in r.0
  {
    var k := IndexOf(nv, '=');
    if k < 0 then (nv, "")
    else
      assert nv == nv[..k] + "=" + nv[k + 1..];
      assert forall j :: 0 <= j < k ==> nv[..k][j] != '=';
      (nv[..k], nv[k + 1..])
  }

  /**
   * The map that the loop of initParameters has built after the given pieces, starting
   * from acc, and whether every name and value decoded. The loop stops at the first piece
   * that does not decode; the bindings made until then stay in the map.
   */
  function Bindings(pieces: seq<string>, acc: map<string, string>): (r: (map<string, string>, bool))
    ensures acc.Keys <= r.0.Keys
    decreases |pieces|
  {
    if pieces == [] then (acc, true)
    else
      var (n, v) := NameValue(pieces[0]);
      match (UrlDecode(n), UrlDecode(v))
      case (Ok(dn), Ok(dv)) => Bindings(pieces[1..], acc[dn := dv])
      case _ => (acc, false)
  }

  /** The pieces of a parameter string, split on '&'. */
  function ParameterPieces(ps: Option<string>): seq<string>
  {
    if ps.None? || ps.value == "" then [] else Split(ps.value, '&')
  }

  /** Every key of the built map is the decoded name of some piece, or was there before. */
  lemma {:induction false} BindingKeys(pieces: seq<string>, acc: map<string, string>, k: string)
    requires (forall i :: 0 <= i < |pieces| ==> '%' !in pieces[i] && '+' !in pieces[i])
    ensures k in Bindings(pieces, acc).0 <==> k in acc || exists i :: 0 <= i < |pieces| && NameValue(pieces[i]).0 == k
    decreases |pieces|
  {
    if pieces != [] {
      var (n, v) := NameValue(pieces[0]);
      NoEscapesInParts(pieces[0]);
      DecodePlain(n);
      DecodePlain(v);
      BindingKeys(pieces[1..], acc[n := v], k);
      if exists i :: 0 <= i < |pieces| && NameValue(pieces[i]).0 == k {
        var i :| 0 <= i < |pieces| && NameValue(pieces[i]).0 == k;
        if i > 0 {
          assert NameValue(pieces[1..][i - 1]).0 == k;
        }
      }
      if exists i :: 0 <= i < |pieces| - 1 && NameValue(pieces[1..][i]).0 == k {
        var i :| 0 <= i < |pieces| - 1 && NameValue(pieces[1..][i]).0 == k;
        assert NameValue(pieces[i + 1]).0 == k;
      }
    }
  }

  /** The later binding of a name wins: the value is that of its last piece. */
  lemma {:induction false} LastBindingWins(pieces: seq<string>, acc: map<string, string>, i: nat)
    requires (forall j :: 0 <= j < |pieces| ==> '%' !in pieces[j] && '+' !in pieces[j])
    requires i < |pieces|
    requires forall j :: i < j < |pieces| ==> NameValue(pieces[j]).0 != NameValue(pieces[i]).0
    ensures Bindings(pieces, acc).1
    ensures NameValue(pieces[i]).0 in Bindings(pieces, acc).0
    ensures Bindings(pieces, acc).0[NameValue(pieces[i]).0] == NameValue(pieces[i]).1
    decreases |pieces|
  {
    var (n, v) := NameValue(pieces[0]);
    NoEscapesInParts(pieces[0]);
    DecodePlain(n);
    DecodePlain(v);
    if i == 0 {
      KeptBinding(pieces[1..], acc[n := v], n);
    } else {
      LastBindingWins(pieces[1..], acc[n := v], i - 1);
    }
  }

  /** A name bound in acc that no later piece rebinds keeps its value. */
  lemma {:induction false} KeptBinding(pieces: seq<string>, acc: map<string, string>, k: string)
    requires (forall j :: 0 <= j < |pieces| ==> '%' !in pieces[j] && '+' !in pieces[j])
    requires k in acc && forall j :: 0 <= j < |pieces| ==> NameValue(pieces[j]).0 != k
    ensures Bindings(pieces, acc).1
    ensures Bindings(pieces, acc).0[k] == acc[k]
    decreases |pieces|
  {
    if pieces != [] {
      var (n, v) := NameValue(pieces[0]);
      NoEscapesInParts(pieces[0]);
      DecodePlain(n);
      DecodePlain(v);
      KeptBinding(pieces[1..], acc[n := v], k);
    }
  }

  lemma NoEscapesInParts(nv: string)
    requires '%' !in nv && '+' !in nv
    ensures var (n, v) := NameValue(nv); '%' !in n && '+' !in n && '%' !in v && '+' !in v
  {
    var k := IndexOf(nv, '=');
    if k >= 0 {
      assert forall c | c in nv[..k] :: c in nv;
      assert forall c | c in nv[k + 1..] :: c in nv;
    }
  }

  /** A piece that does not decode makes the whole parse fail. */
  lemma {:induction false} BadPieceFails(pieces: seq<string>, acc: map<string, string>, i: nat)
    requires i < |pieces|
    requires UrlDecode(NameValue(pieces[i]).0).Err? || UrlDecode(NameValue(pieces[i]).1).Err?
    ensures !Bindings(pieces, acc).1
    decreases |pieces|
  {
    if i > 0 {
      var (n, v) := NameValue(pieces[0]);
      if UrlDecode(n).Ok? && UrlDecode(v).Ok? {
        BadPieceFails(pieces[1..], acc[UrlDecode(n).value := UrlDecode(v).value], i - 1);
      }
    }
  }

  /** getParameter(name, dv): the bound value, or dv when the name is absent. */
  function ParameterOr(parameters: map<string, string>, name: string, dv: string): (r: string)
    ensures name in parameters ==> r == parameters[name]
    ensures name !in parameters ==> r == dv
  {
    if name in parameters then parameters[name] else dv
  }

  /**
   * The lazily built parameter map of one AssetPath. The map is assigned before it is
   * filled, so after a failed parse later calls see the partial map without an error.
   */
  class ParameterMap {
    const parameterString: Option<string>
    var parameters: Option<map<string, string>>

    constructor (ap: AssetPath)
      ensures parameterString == ap.parameterString && parameters.None?
    {
      parameterString := ap.parameterString;
      parameters := None;
    }

    /** initParameters. */
    method InitParameters() returns (r: Result<()>)
      modifies this
      ensures old(parameters).Some? ==> parameters == old(parameters) && r == Ok(())
      ensures old(parameters).None? ==>
        var b := Bindings(ParameterPieces(parameterString), map[]);
        parameters == Some(b.0) && (r.Ok? <==> b.1)
      ensures r.Err? ==> r.error == IllegalArgument
    {
      if parameters.Some? {
        return Ok(());
      }
      var pieces := ParameterPieces(parameterString);
      var m: map<string, string> := map[];
      parameters := Some(m);
      var i := 0;
      while i < |pieces|
        invariant 0 <= i <= |pieces|
        invariant parameters == Some(m)
        invariant Bindings(pieces[i..], m) == Bindings(pieces, map[])
      {
        var (n, v) := NameValue(pieces[i]);
        var dn := UrlDecode(n);
        if dn.Err? {
          return Err(IllegalArgument);
        }
        var dv := UrlDecode(v);
        if dv.Err? {
          return Err(IllegalArgument);
        }
        assert pieces[i..][1..] == pieces[i + 1..];
        m := m[dn.value := dv.value];
        parameters := Some(m);
        i := i + 1;
      }
      return Ok(());
    }

    /** getParameter(name, dv). */
    method GetParameter(name: string, dv: string) returns (r: Result<string>)
      modifies this
      ensures parameters.Some?
      ensures old(parameters).Some? ==> parameters == old(parameters)
      ensures r.Ok? ==> r.value == ParameterOr(parameters.value, name, dv)
      ensures old(parameters).Some? ==> r.Ok?
      ensures old(parameters).None? ==> (r.Ok? <==> Bindings(ParameterPieces(parameterString), map[]).1)
    {
      var init := InitParameters();
      if init.Err? {
        return Err(init.error);
      }
      return Ok(ParameterOr(parameters.value, name, dv));
    }
  }

  /** One plain "name=value" piece. */
  lemma NameValueOfPair(n: string, v: string)
    requires '=' !in n
    ensures NameValue(n + "=" + v) == (n, v)
  {
    var nv := n + "=" + v;
    assert nv[|n|] == '=';
    assert forall j :: 0 <= j < |n| ==> nv[j] == n[j];
    assert IndexOf(nv, '=') == |n|;
    assert nv[..|n|] == n && nv[|n| + 1..] == v;
  }

  /** One binding step of plain text. */
  lemma BindPlain(nv: string, rest: seq<string>, acc: map<string, string>)
    requires '%' !in nv && '+' !in nv
    ensures Bindings([nv] + rest, acc) == Bindings(rest, acc[NameValue(nv).0 := NameValue(nv).1])
  {
    NoEscapesInParts(nv);
    DecodePlain(NameValue(nv).0);
    DecodePlain(NameValue(nv).1);
    assert ([nv] + rest)[1..] == rest;
  }

  /**
   * Two plain "name=value" pieces, as in "name=value&other=some": both names are bound,
   * the second binding winning when the names coincide.
   */
  lemma TwoParameters(n1: string, v1: string, n2: string, v2: string)
    requires '=' !in n1 && '=' !in n2
    requires '%' !in n1 + v1 + n2 + v2 && '+' !in n1 + v1 + n2 + v2
    ensures Bindings([n1 + "=" + v1, n2 + "=" + v2], map[]) == (map[n1 := v1][n2 := v2], true)
  {
    var a, b := n1 + "=" + v1, n2 + "=" + v2;
    NameValueOfPair(n1, v1);
    NameValueOfPair(n2, v2);
    assert '%' !in a && '+' !in a && '%' !in b && '+' !in b by {
      assert forall c | c in a :: c in n1 + v1 + n2 + v2 || c == '=';
      assert forall c | c in b :: c in n1 + v1 + n2 + v2 || c == '=';
    }
    BindPlain(a, [b], map[]);
    BindPlain(b, [], map[n1 := v1]);
    assert [a, b] == [a] + [b];
    assert [b] == [b] + [];
  }
}
