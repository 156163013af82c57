/**
 * Line numbers in the corrected EJS parser: every event is reported with the line on which
 * its text starts, counting from line 1.
 */
module EjsLines {
  import opened Wrappers
  import opened JavaString
  import opened EjsParser

  /** No line terminator in s[a..b]. */
  predicate NoBreak(s: string, a: int, b: int)
  {
    0 <= a && b <= |s| && forall k :: a <= k < b ==> s[k] != '\n'
  }

  lemma {:induction false} LinesNoBreak(s: string, a: int, b: int)
    requires a <= b && NoBreak(s, a, b)
    ensures Lines(s, a, b) == 0
    decreases b - a
  {
    if a < b {
      LinesNoBreak(s, a, b - 1);
    }
  }

  lemma {:induction false} LinesSplit(s: string, a: int, b: int, c: int)
    requires 0 <= a <= b <= c <= |s|
    ensures Lines(s, a, c) == Lines(s, a, b) + Lines(s, b, c)
    decreases c - b
  {
    if b < c {
      LinesSplit(s, a, b, c - 1);
    }
  }

  /** The line on which index i of s lies. */
  function LineOf(s: string, i: int): int
    requires 0 <= i <= |s|
  {
    1 + Lines(s, 0, i)
  }

  /** Counting the terminators of s[a..b] from a's line gives b's line. */
  lemma LineAfter(s: string, a: int, b: int)
    requires 0 <= a <= b <= |s|
    ensures LineOf(s, a) + Lines(s, a, b) == LineOf(s, b)
  {
    LinesSplit(s, 0, a, b);
  }

  /** Without a terminator between them, a and b are on the same line. */
  lemma SameLine(s: string, a: int, b: int)
    requires a <= b && NoBreak(s, a, b)
    ensures LineOf(s, a) == LineOf(s, b)
  {
    LinesNoBreak(s, a, b);
    LineAfter(s, a, b);
  }

  /** Every event is reported with the line of its first character. */
  predicate Located(s: string, events: seq<Event>)
  {
    forall k :: 0 <= k < |events| ==>
      0 <= events[k].sourceStart <= |s| && events[k].lineStart == LineOf(s, events[k].sourceStart)
  }

  /** The location the buffer will be reported with is that of its first character. */
  predicate Anchored(s: string, st: State)
  {
    0 <= st.sourceStart <= |s| && st.lineStart == LineOf(s, st.sourceStart)
  }

  /** The line number is that of the position. */
  predicate Counted(s: string, st: State)
  {
    Within(s, st) && st.lineNumber == LineOf(s, st.position)
  }

  /**
   * A state from which parsing can go on: the events so far are located, and before the end
   * of the input the line number is right and the buffer is anchored.
   */
  predicate Good(s: string, st: State)
  {
    Within(s, st) && Located(s, st.events)
    && (st.position < |s| ==> Counted(s, st) && Anchored(s, st))
    && (st.buffer != "" ==> Anchored(s, st))
  }

  /** A state whose final literal, if any, will be located. */
  predicate Final(s: string, st: State)
  {
    Located(s, st.events) && (st.buffer != "" ==> Anchored(s, st))
  }

  /** dumpBuffer keeps the events located and restarts the location at the position. */
  lemma DumpLocated(s: string, st: State, kind: Kind)
    requires Final(s, st)
    ensures var r := Dump(st, kind);
            Located(s, r.events) && r.buffer == "" && r.lineStart == st.lineNumber
            && r.sourceStart == st.position && r.position == st.position && r.lineNumber == st.lineNumber
  {
  }

  /** chomp keeps the line number right. */
  lemma ChompCounted(s: string, st: State)
    requires Counted(s, st)
    ensures var r := Chomped(s, st);
            Counted(s, r) && r.events == st.events && r.buffer == st.buffer
            && r.lineStart == st.lineStart && r.sourceStart == st.sourceStart
  {
  }

  // The patterns never match across a line terminator

  lemma HasAtNoBreak(s: string, j: int, t: string)
    requires HasAt(s, j, t) && forall k :: 0 <= k < |t| ==> t[k] != '\n'
    ensures NoBreak(s, j, j + |t|)
  {
    forall k | j <= k < j + |t|
      ensures s[k] != '\n'
    {
      assert s[k] == s[j..j + |t|][k - j];
    }
  }

  lemma CommandTopNoBreak(s: string, i: int)
    requires CommandTopAt(s, i).Some?
    ensures NoBreak(s, i, CommandTopAt(s, i).value.end)
  {
    var j := SkipLineSpace(s, i);
    HasAtNoBreak(s, j, "##");
    var escape := HasAt(s, j + 2, "#");
    if escape {
      HasAtNoBreak(s, j + 2, "#");
    }
    var k := if escape then j + 3 else j + 2;
    var disable := HasAt(s, k, "EJSDISABLE");
    if disable {
      HasAtNoBreak(s, k, "EJSDISABLE");
    } else {
      HasAtNoBreak(s, k, "EJSON");
    }
    var e := SkipLineSpace(s, k + if disable then 10 else 5);
    assert CommandTopAt(s, i).value.end == e;
  }

  lemma IntroNoBreak(s: string, i: int)
    requires IntroAt(s, i).Some?
    ensures NoBreak(s, i, IntroAt(s, i).value.end)
  {
    var m := IntroAt(s, i).value;
    var t := m.token;
    assert t == "##" || t == "##=" || t == "###" || t == "###=" || t == "#{" || t == "##{";
    HasAtNoBreak(s, m.end - |t|, t);
  }

  lemma BlockEndNoBreak(s: string, i: int)
    requires BlockEndAt(s, i).Some?
    ensures NoBreak(s, i, BlockEndAt(s, i).value)
  {
    var j := SkipLineSpace(s, i);
    HasAtNoBreak(s, j, "##=");
  }

  // Main mode

  /** A run of directives keeps the line number right and reports its block where it starts. */
  lemma {:induction false} DirectiveRunGood(s: string, st: State, start: int)
    requires Within(s, st) && st.position <= start <= |s|
    requires Located(s, st.events) && Counted(s, st) && Anchored(s, st)
    ensures Good(s, DirectiveRun(s, st, start))
    decreases |s| - start
  {
    var lineEnd := LineEnd(s, start);
    LineAfter(s, st.position, start);
    SameLine(s, start, lineEnd);
    var st1 := DirectiveLine(s, st, start);
    ChompCounted(s, st.(buffer := st.buffer + s[start..lineEnd] + "\n", position := lineEnd,
                        lineNumber := st.lineNumber + Lines(s, st.position, start)));
    match NextDirective(s, st1)
    case None =>
      DumpLocated(s, st1, Block);
    case Some(next) =>
      DirectiveRunGood(s, st1, next);
  }

  /** The state main mode's branches start from: the text before the introduction m is reported. */
  predicate Ready(s: string, st: State, m: Intro)
  {
    Counted(s, st) && Anchored(s, st) && Located(s, st.events) && st.buffer == ""
    && st.position == m.start && m.start < m.end <= |s| && 2 <= |m.token| && NoBreak(s, m.start, m.end)
  }

  lemma DelimitedBlockGood(s: string, st: State, m: Intro)
    requires Ready(s, st, m)
    ensures Good(s, DelimitedBlock(s, st, m.end))
  {
    match FindBlockEnd(s, m.end)
    case Some((b, e)) => ClosedBlockGood(s, st, m, b, e);
    case None => OpenBlockGood(s, st, m);
  }

  /** A block closed by %> is reported, and the scan resumes after the closing delimiter. */
  lemma ClosedBlockGood(s: string, st: State, m: Intro, b: int, e: int)
    requires Ready(s, st, m) && FindBlockEnd(s, m.end) == Some((b, e))
    ensures Good(s, DelimitedBlock(s, st, m.end))
  {
    var start := m.end;
    SameLine(s, m.start, start);
    var st0 := Reset(st);
    BlockEndNoBreak(s, b);
    LineAfter(s, start, b);
    SameLine(s, b, e);
    var c := Chomped(s, st0.(position := e));
    ChompCounted(s, st0.(position := e, lineNumber := LineOf(s, e)));
    var st1 := c.(lineNumber := c.lineNumber + Lines(s, start, b), buffer := c.buffer + s[start..b]);
    assert Counted(s, st1);
    DumpLocated(s, st1, Block);
  }

  /** A block never closed runs to the end of the input. */
  lemma OpenBlockGood(s: string, st: State, m: Intro)
    requires Ready(s, st, m) && FindBlockEnd(s, m.end).None?
    ensures Good(s, DelimitedBlock(s, st, m.end))
  {
    var start := m.end;
    SameLine(s, m.start, start);
    LineAfter(s, start, |s|);
    var st1 := Reset(st).(position := |s|);
    DumpLocated(s, st1.(lineNumber := st1.lineNumber + Lines(s, start, |s|), buffer := st1.buffer + s[start..|s|]), Block);
  }

  lemma InterpolationGood(s: string, st: State, m: Intro)
    requires Ready(s, st, m)
    ensures Good(s, InterpolationAt(s, st, m.end))
  {
    var start := m.end;
    SameLine(s, m.start, start);
    var (end, pos) := InterpEnd(s, start, 1);
    LineAfter(s, start, end);
    if end < |s| {
      assert Lines(s, 0, end + 1) == Lines(s, 0, end);
    }
    var st1 := Reset(st).(position := pos);
    DumpLocated(s, st1.(lineNumber := st1.lineNumber + Lines(s, start, end), buffer := st1.buffer + s[start..end]), Interpolation);
  }

  lemma CommandGood(s: string, st: State, m: Intro)
    requires Ready(s, st, m) && m.line && m.token == "##"
    ensures Good(s, MainDispatch(s, st, m).st)
  {
    var lineEnd := LineEnd(s, m.end);
    SameLine(s, m.start, m.end);
    SameLine(s, m.end, lineEnd);
    match MainCommand(s[m.end..lineEnd])
    case Some(EjsOff) =>
    case Some(EjsDisable) =>
      var st2 := Reset(st.(position := lineEnd));
      DumpLocated(s, st2.(buffer := st2.buffer + s[st2.position..]), Literal);
    case Some(EjsOn) =>
    case None =>
      SameLine(s, m.start, m.end);
      DirectiveRunGood(s, Reset(st.(position := m.end)), m.end);
  }

  lemma DispatchGood(s: string, st: State, m: Intro)
    requires Ready(s, st, m)
    ensures Good(s, MainDispatch(s, st, m).st)
  {
    SameLine(s, m.start, m.end);
    if m.line {
      if "###" <= m.token {
      } else if m.token == "##" {
        CommandGood(s, st, m);
      } else {
        DelimitedBlockGood(s, st, m);
      }
    } else if "##" <= m.token {
    } else {
      InterpolationGood(s, st, m);
    }
  }

  lemma MainStepGood(s: string, st: State, m: Intro)
    requires Good(s, st) && st.position < |s| && FindIntro(s, st.position) == Some(m)
    ensures Good(s, MainStep(s, st, m).st)
  {
    IntroNoBreak(s, m.start);
    LineAfter(s, st.position, m.start);
    var g := Gather(s, st, m.start).(position := m.start);
    DumpLocated(s, g, Literal);
    DispatchGood(s, Dump(g, Literal), m);
  }

  lemma {:induction false} MainLoopGood(s: string, st: State)
    requires Good(s, st)
    ensures Good(s, MainLoop(s, st))
    decreases |s| - st.position
  {
    if st.position < |s| {
      match FindIntro(s, st.position)
      case None =>
      case Some(m) =>
        MainStepGood(s, st, m);
        match MainStep(s, st, m)
        case Exit(r) =>
        case Next(st1) =>
          MainLoopGood(s, st1);
    }
  }

  // The top level

  lemma TopCommandGood(s: string, st: State, m: TopMatch)
    requires Counted(s, st) && Anchored(s, st) && Located(s, st.events) && st.buffer == "" && 0 <= m.end <= st.position
    ensures var r := TopCommand(s, st, m, Corrected);
            (r.Next? ==> Good(s, r.st)) && (r.Exit? ==> Final(s, r.st))
  {
    if !m.disable {
      MainLoopGood(s, Reset(st));
      DumpLocated(s, MainLoop(s, Reset(st)), Literal);
    }
  }

  lemma TopStepGood(s: string, st: State, m: TopMatch)
    requires Good(s, st) && st.position < |s| && FindCommandTop(s, st.position) == Some(m)
    ensures var r := TopStep(s, st, m, Corrected);
            (r.Next? ==> Good(s, r.st)) && (r.Exit? ==> Final(s, r.st))
  {
    CommandTopNoBreak(s, m.start);
    LineAfter(s, st.position, m.start);
    SameLine(s, m.start, m.end);
    if !m.escape {
      var g := Gather(s, st, m.start).(position := m.end);
      DumpLocated(s, g, Literal);
      ChompCounted(s, Dump(g, Literal));
      TopCommandGood(s, Reset(Chomped(s, Dump(g, Literal))), m);
    }
  }

  lemma {:induction false} TopLoopFinal(s: string, st: State)
    requires Good(s, st)
    ensures Final(s, TopLoop(s, st, Corrected))
    decreases |s| - st.position
  {
    if st.position < |s| {
      match FindCommandTop(s, st.position)
      case None =>
        TopLoopEnds(s, st, Corrected);
      case Some(m) =>
        TopStepGood(s, st, m);
        TopLoopPass(s, st, m, Corrected);
        match TopStep(s, st, m, Corrected)
        case Exit(r) =>
        case Next(st1) =>
          TopLoopFinal(s, st1);
    }
  }

  /**
   * The corrected parser reports every event with the line on which its text starts: the
   * location's lineStart is 1 plus the number of line terminators before sourceStart.
   */
  lemma EventsCarryTheirLines(s: string, st: State)
    requires Located(s, st.events)
    ensures Located(s, Parsed(s, st, Corrected).events)
  {
    var st0 := Reset(st.(position := 0, lineNumber := 1));
    assert Good(s, st0);
    TopLoopFinal(s, st0);
    var t := TopLoop(s, st0, Corrected).(position := |s|);
    DumpLocated(s, t, Literal);
    assert Parsed(s, st, Corrected) == Dump(t, Literal);
  }
}
