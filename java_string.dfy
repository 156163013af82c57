/**
 * The parts of java.lang.String and java.util.regex that the modelled code relies on,
 * restricted to splitting on one character, prefix tests and ASCII case mapping.
 */
module JavaString {

  /** Splits s at every occurrence of c, keeping every piece (also the empty ones). */
  function Pieces(s: string, c: char): (r: seq<string>)
    ensures |r| >= 1
    decreases |s|
  {
    if |s| == 0 then [""]
    else
      var rest := Pieces(s[1..], c);
      if s[0] == c then [""] + rest
      else [[s[0]] + rest[0]] + rest[1..]
  }

  /** The pieces joined again, with c between neighbours. */
  function JoinWith(ps: seq<string>, c: char): string
    decreases |ps|
  {
    if |ps| == 0 then ""
    else if |ps| == 1 then ps[0]
    else ps[0] + [c] + JoinWith(ps[1..], c)
  }

  /** Removes the empty strings at the end of a list, as String.split with limit 0 does. */
  function DropTrailingEmpty(ps: seq<string>): (r: seq<string>)
    ensures r <= ps
    ensures |r| > 0 ==> r[|r| - 1] != ""
    ensures forall i :: |r| <= i < |ps| ==> ps[i] == ""
    decreases |ps|
  {
    if |ps| > 0 && ps[|ps| - 1] == "" then DropTrailingEmpty(ps[..|ps| - 1]) else ps
  }

  /**
   * String.split with a one-character regular expression and limit 0: without any
   * occurrence the input itself is the only piece; otherwise all pieces, with the
   * trailing empty ones removed.
   */
  function Split(s: string, c: char): (r: seq<string>)
    ensures c !in s ==> r == [s]
    ensures forall i :: 0 <= i < |r| ==> c !in r[i]
    ensures c in s && |r| > 0 ==> r[|r| - 1] != ""
  {
    PiecesHaveNoSeparator(s, c);
    if c !in s then [s] else DropTrailingEmpty(Pieces(s, c))
  }

  /** Index of the first c in s, or -1. */
  function IndexOf(s: string, c: char): (r: int)
    ensures -1 <= r < |s|
    ensures r >= 0 ==> s[r] == c
    ensures r < 0 <==> c !in s
    ensures forall j :: 0 <= j < |s| && (r < 0 || j < r) ==> s[j] != c
    decreases |s|
  {
    if |s| == 0 then -1
    else if s[0] == c then 0
    else
      var k := IndexOf(s[1..], c);
      if k < 0 then -1 else k + 1
  }

  /** Index of the last c in s, or -1. */
  function LastIndexOf(s: string, c: char): (r: int)
    ensures -1 <= r < |s|
    ensures r >= 0 ==> s[r] == c
    ensures r < 0 <==> c !in s
    ensures forall j :: r < j < |s| ==> s[j] != c
    decreases |s|
  {
    if |s| == 0 then -1
    else if s[|s| - 1] == c then |s| - 1
    else LastIndexOf(s[..|s| - 1], c)
  }

  /** Character.toLowerCase restricted to the ASCII letters. */
  function LowerChar(c: char): char
  {
    if 'A' <= c <= 'Z' then (c as int + 32) as char else c
  }

  /** Character.toUpperCase restricted to the ASCII letters. */
  function UpperChar(c: char): char
  {
    if 'a' <= c <= 'z' then (c as int - 32) as char else c
  }

  function ToLower(s: string): (r: string)
    ensures |r| == |s| && forall i :: 0 <= i < |s| ==> r[i] == LowerChar(s[i])
  {
    seq(|s|, i requires 0 <= i < |s| => LowerChar(s[i]))
  }

  function ToUpper(s: string): (r: string)
    ensures |r| == |s| && forall i :: 0 <= i < |s| ==> r[i] == UpperChar(s[i])
  {
    seq(|s|, i requires 0 <= i < |s| => UpperChar(s[i]))
  }

  /** String.equalsIgnoreCase restricted to ASCII letters. */
  predicate EqualsIgnoreCase(a: string, b: string)
  {
    ToUpper(a) == ToUpper(b)
  }

  /** equalsIgnoreCase compares the strings character by character, after case mapping. */
  lemma EqualsIgnoreCaseCharwise(a: string, b: string)
    ensures EqualsIgnoreCase(a, b) <==> |a| == |b| && forall i :: 0 <= i < |a| ==> UpperChar(a[i]) == UpperChar(b[i])
  {
    if |a| == |b| && forall i :: 0 <= i < |a| ==> UpperChar(a[i]) == UpperChar(b[i]) {
      assert forall i :: 0 <= i < |a| ==> ToUpper(a)[i] == ToUpper(b)[i];
    }
  }

  /** The characters of \s and \p{Space}: space, tab, newline, vertical tab, form feed, return. */
  predicate IsSpace(c: char)
  {
    c == ' ' || c == '\t' || c == '\n' || c == '\U{000B}' || c == '\U{000C}' || c == '\r'
  }

  /** Spaces and tabs only: the class [ \t] that the template patterns use. */
  predicate IsBlank(c: char)
  {
    c == ' ' || c == '\t'
  }

  /** The line terminators that '.' refuses to match when neither DOTALL nor UNIX_LINES is set. */
  predicate IsLineTerminator(c: char)
  {
    c == '\n' || c == '\r' || c == '\U{0085}' || c == '\U{2028}' || c == '\U{2029}'
  }

  /** Drops one leading slash and then one trailing slash. */
  function TrimSlashes(s: string): (r: string)
    ensures |r| <= |s|
    ensures s == "/" ==> r == ""
    ensures var lo := if |s| > 0 && s[0] == '/' then 1 else 0;
      lo + |r| <= |s| && r == s[lo..lo + |r|] && |s| - lo - |r| <= 1
  {
    var t := if |s| > 0 && s[0] == '/' then s[1..] else s;
    if |t| > 0 && t[|t| - 1] == '/' then t[..|t| - 1] else t
  }

  // ---------------------------------------------------------------------------
  // Properties of splitting

  lemma {:induction false} PiecesHaveNoSeparator(s: string, c: char)
    ensures forall i :: 0 <= i < |Pieces(s, c)| ==> c !in Pieces(s, c)[i]
    decreases |s|
  {
    if |s| > 0 {
      PiecesHaveNoSeparator(s[1..], c);
    }
  }

  lemma {:induction false} JoinPieces(s: string, c: char)
    ensures JoinWith(Pieces(s, c), c) == s
    decreases |s|
  {
    if |s| > 0 {
      var rest := Pieces(s[1..], c);
      JoinPieces(s[1..], c);
      if s[0] == c {
        assert Pieces(s, c) == [""] + rest;
        assert s == [c] + s[1..];
      } else {
        var r := Pieces(s, c);
        assert r == [[s[0]] + rest[0]] + rest[1..];
        if |rest| == 1 {
          assert s == [s[0]] + rest[0];
        } else {
          assert r[1..] == rest[1..];
          assert JoinWith(rest, c) == rest[0] + [c] + JoinWith(rest[1..], c);
          assert s == [s[0]] + s[1..];
        }
      }
    }
  }

  /** Pieces of a string without c is just that string. */
  lemma {:induction false} PiecesWithout(s: string, c: char)
    requires c !in s
    ensures Pieces(s, c) == [s]
    decreases |s|
  {
    if |s| > 0 {
      PiecesWithout(s[1..], c);
      assert [s[0]] + s[1..] == s;
    }
  }

  /** Pieces of a join of separator-free parts recover the parts. */
  lemma {:induction false} PiecesOfJoin(ps: seq<string>, c: char)
    requires |ps| >= 1
    requires forall i :: 0 <= i < |ps| ==> c !in ps[i]
    ensures Pieces(JoinWith(ps, c), c) == ps
    decreases |ps|
  {
    if |ps| == 1 {
      PiecesWithout(ps[0], c);
    } else {
      PiecesOfJoin(ps[1..], c);
      PiecesOfPrefixed(ps[0], JoinWith(ps[1..], c), c);
      assert [ps[0]] + ps[1..] == ps;
    }
  }

  /** Pieces of a + [c] + b, where a has no c, is [a] followed by the pieces of b. */
  lemma {:induction false} PiecesOfPrefixed(a: string, b: string, c: char)
    requires c !in a
    ensures Pieces(a + [c] + b, c) == [a] + Pieces(b, c)
    decreases |a|
  {
    if |a| == 0 {
      assert a + [c] + b == [c] + b;
      assert ([c] + b)[1..] == b;
    } else {
      PiecesOfPrefixed(a[1..], b, c);
      assert (a + [c] + b)[1..] == a[1..] + [c] + b;
      assert [a[0]] + a[1..] == a;
    }
  }

  /** Every piece that String.split returns is free of the separator. */
  lemma SplitHasNoSeparator(s: string, c: char)
    ensures forall i :: 0 <= i < |Split(s, c)| ==> c !in Split(s, c)[i]
  {
    PiecesHaveNoSeparator(s, c);
  }

  /** Splitting the join of non-empty, separator-free parts gives the parts back. */
  lemma SplitOfJoin(ps: seq<string>, c: char)
    requires |ps| >= 1
    requires forall i :: 0 <= i < |ps| ==> c !in ps[i]
    requires ps[|ps| - 1] != ""
    ensures Split(JoinWith(ps, c), c) == ps
  {
    PiecesOfJoin(ps, c);
    var s := JoinWith(ps, c);
    if c !in s {
      PiecesWithout(s, c);
    }
  }
}
