/** What the EJS parser promises of the events it reports, and the discrepancies in the source. */
module EjsProperties {
  import opened Wrappers
  import opened EjsParser

  /** A literal event, or none when its text is empty (dumpBufferAsLiteral reports no empty text). */
  function Lit(text: string, line: int, a: int, b: int): seq<Event>
  {
    if text == "" then [] else [Event(Literal, text, line, a, b)]
  }

  /** The leftmost command line at or after from is the one at j. */
  lemma FindCommandTopAt(s: string, from: int, j: int)
    requires 0 <= from <= j <= |s| && CommandTopAt(s, j).Some?
    requires forall i :: from <= i < j ==> CommandTopAt(s, i).None?
    ensures FindCommandTop(s, from) == CommandTopAt(s, j)
  {
  }

  /** A source without a command line is reported as one literal: all of it, from line 1. */
  lemma NoCommandLineIsOneLiteral(s: string, st: State, v: Variant)
    requires forall i :: 0 <= i <= |s| ==> CommandTopAt(s, i).None?
    ensures Parsed(s, st, v).events == st.events + Lit(s, 1, 0, |s|)
  {
    var st0 := Reset(st.(position := 0, lineNumber := 1));
    if |s| > 0 {
      var f := FindCommandTop(s, 0);
      if f.Some? {
        assert false;
      }
      assert s[0..|s|] == s;
      var g := Gather(s, st0, |s|).(position := |s|);
      assert g.buffer == s && g.lineStart == 1 && g.sourceStart == 0 && g.events == st.events;
      assert TopLoop(s, st0, v) == g;
    }
  }

  /** The text from an empty buffer's position up to e, reported as a literal that ends at end. */
  lemma LiteralUpTo(s: string, st: State, e: int, end: int)
    requires Within(s, st) && st.buffer == "" && st.position <= e <= end <= |s|
    ensures var d := Dump(Gather(s, st, e).(position := end), Literal);
            d.events == st.events + Lit(s[st.position..e], st.lineStart, st.sourceStart, end)
            && d.lineNumber == st.lineNumber + Lines(s, st.position, e) && d.position == end && d.buffer == ""
  {
    var g := Gather(s, st, e).(position := end);
    assert g.buffer == s[st.position..e];
  }

  /** A literal dump reports the buffer, if any, from the buffer's location to the position. */
  lemma DumpLiteral(st: State)
    ensures Dump(st, Literal).events == st.events + Lit(st.buffer, st.lineStart, st.sourceStart, st.position)
  {
  }

  /** parse(source) is the top-level loop from position 0 on line 1, then the final literal. */
  lemma ParsedIsTopLoop(s: string, st: State, v: Variant)
    ensures Parsed(s, st, v) == Dump(TopLoop(s, Reset(st.(position := 0, lineNumber := 1)), v).(position := |s|), Literal)
  {
  }

  /** The top-level loop ends with a pass that exits. */
  lemma TopLoopExits(s: string, st: State, m: TopMatch, v: Variant)
    requires Within(s, st) && st.position < |s| && FindCommandTop(s, st.position) == Some(m)
    requires TopStep(s, st, m, v).Exit?
    ensures TopLoop(s, st, v) == TopStep(s, st, m, v).st
  {
  }

  /**
   * What parse reports when the command line m, the first one, is ##EJSDISABLE: the text
   * before it as a literal from line 1, then everything after the command as a literal that
   * starts after its line terminator.
   */
  function DisabledEvents(s: string, m: TopMatch): seq<Event>
    requires 0 <= m.start <= m.end <= |s|
  {
    var nl := if m.end < |s| then 1 else 0;
    Lit(s[..m.start], 1, 0, m.end) + Lit(s[m.end..], 1 + Lines(s, 0, m.start) + nl, m.end + nl, |s|)
  }

  /** When the first command line, at j, is ##EJSDISABLE, nothing after it is parsed. */
  lemma DisableEndsParsing(s: string, st: State, v: Variant, j: int)
    requires 0 <= j <= |s| && CommandTopAt(s, j).Some?
    requires forall i :: 0 <= i < j ==> CommandTopAt(s, i).None?
    requires !CommandTopAt(s, j).value.escape && CommandTopAt(s, j).value.disable
    ensures Parsed(s, st, v).events == st.events + DisabledEvents(s, CommandTopAt(s, j).value)
  {
    FindCommandTopAt(s, 0, j);
    var m := CommandTopAt(s, j).value;
    var e := DisableExit(s, st, v, m);
    DisabledEventsFrom(s, st, m, e);
    ParsedIsTopLoop(s, st, v);
    DumpLiteral(e.(position := |s|));
  }

  lemma DisabledEventsFrom(s: string, st: State, m: TopMatch, e: State)
    requires 0 <= m.start <= m.end <= |s|
    requires var nl := if m.end < |s| then 1 else 0;
             e.events == st.events + Lit(s[..m.start], 1, 0, m.end) && e.buffer == s[m.end..]
             && e.lineStart == 1 + Lines(s, 0, m.start) + nl && e.sourceStart == m.end + nl
    ensures st.events + DisabledEvents(s, m) == e.events + Lit(e.buffer, e.lineStart, e.sourceStart, |s|)
  {
  }

  /** The state the top-level loop leaves with when the first command line m is ##EJSDISABLE. */
  lemma DisableExit(s: string, st: State, v: Variant, m: TopMatch) returns (e: State)
    requires FindCommandTop(s, 0) == Some(m) && !m.escape && m.disable
    ensures var nl := if m.end < |s| then 1 else 0;
            e == TopLoop(s, Reset(st.(position := 0, lineNumber := 1)), v)
            && e.events == st.events + Lit(s[..m.start], 1, 0, m.end) && e.buffer == s[m.end..]
            && e.lineStart == 1 + Lines(s, 0, m.start) + nl && e.sourceStart == m.end + nl
  {
    var j := m.start;
    var st0 := Reset(st.(position := 0, lineNumber := 1));
    assert s[0..j] == s[..j];
    var nl := if m.end < |s| then 1 else 0;
    LiteralUpTo(s, st0, j, m.end);
    var d := Dump(Gather(s, st0, j).(position := m.end), Literal);
    var c := Reset(Chomped(s, d));
    assert c.lineNumber == 1 + Lines(s, 0, j) + nl && c.position == m.end + nl && c.events == d.events;
    e := c.(buffer := c.buffer + s[m.end..], lineNumber := c.lineNumber + Lines(s, m.end, |s|));
    assert e.buffer == s[m.end..];
    assert TopCommand(s, c, m, v) == Exit(e);
    assert TopStep(s, st0, m, v) == Exit(e);
    TopLoopExits(s, st0, m, v);
  }

  /** The run of single-line directives from start is reported as one block that opens with start's line. */
  lemma {:induction false} DirectiveRunIsOneBlock(s: string, st: State, start: int)
    requires Within(s, st) && st.position <= start <= |s|
    ensures var r := DirectiveRun(s, st, start);
            var n := |st.events|;
            |r.events| == n + 1 && r.events[..n] == st.events
            && r.events[n].kind == Block && r.events[n].lineStart == st.lineStart
            && r.events[n].sourceStart == st.sourceStart && r.events[n].sourceEnd == r.position
            && st.buffer + s[start..LineEnd(s, start)] + "\n" <= r.events[n].text
    decreases |s| - start
  {
    var st1 := DirectiveLine(s, st, start);
    match NextDirective(s, st1)
    case None =>
    case Some(next) =>
      DirectiveRunIsOneBlock(s, st1, next);
  }

  /**
   * parseSingleLineDirectives reports exactly one block, on the line of the first directive,
   * starting where its text starts and holding that line and a line terminator first.
   */
  lemma DirectivesAreOneBlock(s: string, st: State, start: int)
    requires 0 <= start <= |s|
    ensures var r := Directives(s, st, start);
            var n := |st.events|;
            |r.events| == n + 1 && r.events[..n] == st.events
            && r.events[n].kind == Block && r.events[n].lineStart == st.lineNumber
            && r.events[n].sourceStart == start && r.events[n].sourceEnd == r.position
            && s[start..LineEnd(s, start)] + "\n" <= r.events[n].text
  {
    var st0 := Reset(st.(position := start));
    DirectiveRunIsOneBlock(s, st0, start);
    assert st0.buffer + s[start..LineEnd(s, start)] + "\n" == s[start..LineEnd(s, start)] + "\n";
  }

  // The interpolation end

  /** What c does to the brace depth. */
  function Delta(c: char): int
  {
    if c == '{' then 1 else if c == '}' then -1 else 0
  }

  /** Opening minus closing braces in s[a..b]. */
  function Balance(s: string, a: int, b: int): int
    requires 0 <= a <= b <= |s|
    decreases b - a
  {
    if a == b then 0 else Balance(s, a, b - 1) + Delta(s[b - 1])
  }

  lemma {:induction false} BalanceFront(s: string, a: int, b: int)
    requires 0 <= a < b <= |s|
    ensures Balance(s, a, b) == Delta(s[a]) + Balance(s, a + 1, b)
    decreases b - a
  {
    if b > a + 1 {
      BalanceFront(s, a, b - 1);
    }
  }

  /** No quote character in s from i on. */
  predicate NoQuotes(s: string, i: int)
  {
    forall k :: 0 <= i <= k < |s| ==> s[k] != '\'' && s[k] != '"'
  }

  /**
   * Without quotes the interpolation ends at the first brace that brings the depth to 0: the
   * depth stays positive up to it, and the end of the input means it never reached 0.
   */
  lemma {:induction false} InterpEndBalances(s: string, i: int, depth: int)
    requires 1 <= i <= |s| && depth >= 1 && NoQuotes(s, i)
    ensures var e := InterpEnd(s, i, depth).0;
            (forall k :: i < k <= e ==> depth + Balance(s, i, k) > 0)
            && (e < |s| ==> depth + Balance(s, i, e + 1) == 0)
    decreases |s| - i
  {
    if i < |s| {
      var d := depth + Delta(s[i]);
      if d != 0 {
        InterpEndBalances(s, i + 1, d);
        var e := InterpEnd(s, i, depth).0;
        forall k | i < k <= e
          ensures depth + Balance(s, i, k) > 0
        {
          BalanceFront(s, i, k);
        }
        if e < |s| {
          BalanceFront(s, i, e + 1);
        }
      }
    }
  }

  /** The index after the quote at j, when s[j] closes the string literal that SkipQuoted scans from a. */
  lemma {:induction false} SkipQuotedFinds(s: string, a: int, j: int, q: char)
    requires 1 <= a <= j < |s| && s[j] == q && s[j - 1] != '\\'
    requires forall k :: a <= k < j ==> !(s[k] == q && s[k - 1] != '\\')
    ensures SkipQuoted(s, a, q) == j + 1
    decreases j - a
  {
    if a < j {
      SkipQuotedFinds(s, a + 1, j, q);
    }
  }

  /**
   * A string literal inside an interpolation is skipped whole: the scan goes on after its
   * closing quote as if the literal, and the braces in it, were not there.
   */
  lemma QuotedBracesIgnored(s: string, i: int, j: int, depth: int)
    requires 1 <= i < j < |s| && depth >= 1 && (s[i] == '\'' || s[i] == '"')
    requires s[j] == s[i] && s[j - 1] != '\\'
    requires forall k :: i < k < j ==> !(s[k] == s[i] && s[k - 1] != '\\')
    ensures InterpEnd(s, i, depth) == InterpEnd(s, j + 1, depth)
  {
    SkipQuotedFinds(s, i + 1, j, s[i]);
  }

  /**
   * As written, the scan for the closing quote starts on the opening quote, which closes the
   * literal at once: in #{'}'} the quoted brace ends the interpolation.
   */
  lemma QuoteClosesAtOnceAsWritten()
    ensures InterpEndAsWritten("#{'}'}", 2, 1) == (3, 4)
    ensures InterpEnd("#{'}'}", 2, 1) == (5, 6)
  {
    var s := "#{'}'}";
    assert SkipQuoted(s, 2, '\'') == 3;
    assert SkipQuoted(s, 4, '\'') == 5;
    assert SkipQuoted(s, 3, '\'') == 5;
  }
}
