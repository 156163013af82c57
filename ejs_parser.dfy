/**
 * EjsParser: the template lexer. A state machine over the source text that reports runs of
 * literal text, script blocks and interpolations to an event sink, while it tracks the
 * position, the line number and the location of the text it is gathering.
 *
 * The regular expressions the parser uses are modelled by functions that say where each
 * one matches, under Java's MULTILINE and UNIX_LINES rules: '^' matches at the start of the
 * input or after '\n', but never at the very end of the input; '$' matches at the end or
 * before '\n'. The blank class [\p{Space}&&[^\n]] is IsLineSpace, \s is IsSpace.
 */
module EjsParser {
  import opened Wrappers
  import opened JavaString

  datatype Kind = Literal | Block | Interpolation

  /** One call of the event sink: the text, and the shared location as it stood at the call. */
  datatype Event = Event(kind: Kind, text: string, lineStart: int, sourceStart: int, sourceEnd: int)

  /**
   * Everything a parse changes: position, lineNumber, the buffer, the three location fields
   * and the events reported so far.
   */
  datatype State = State(position: int, lineNumber: int, buffer: string,
                         lineStart: int, sourceStart: int, sourceEnd: int, events: seq<Event>)

  /** A white-space character other than the line terminator. */
  predicate IsLineSpace(c: char)
  {
    IsSpace(c) && c != '\n'
  }

  /** Where '^' matches. */
  predicate AtLineStart(s: string, i: int)
  {
    0 <= i < |s| && (i == 0 || s[i - 1] == '\n')
  }

  /** Where '$' matches. */
  predicate AtLineEnd(s: string, i: int)
  {
    i == |s| || (0 <= i < |s| && s[i] == '\n')
  }

  /** t occurs in s at i. */
  predicate HasAt(s: string, i: int, t: string)
  {
    0 <= i && i + |t| <= |s| && s[i..i + |t|] == t
  }

  /** The end of the run of blanks that starts at i. */
  function SkipLineSpace(s: string, i: int): (j: int)
    requires 0 <= i <= |s|
    ensures i <= j <= |s| && (j < |s| ==> !IsLineSpace(s[j]))
    ensures forall k :: i <= k < j ==> IsLineSpace(s[k])
    decreases |s| - i
  {
    if i < |s| && IsLineSpace(s[i]) then SkipLineSpace(s, i + 1) else i
  }

  /** The end of the run of white space (line terminators included) that starts at i. */
  function SkipSpace(s: string, i: int): (j: int)
    requires 0 <= i <= |s|
    ensures i <= j <= |s| && (j < |s| ==> !IsSpace(s[j]))
    ensures forall k :: i <= k < j ==> IsSpace(s[k])
    decreases |s| - i
  {
    if i < |s| && IsSpace(s[i]) then SkipSpace(s, i + 1) else i
  }

  /** The index of the next line terminator at or after i, or the end of the input. */
  function LineEnd(s: string, i: int): (j: int)
    requires 0 <= i <= |s|
    ensures i <= j <= |s| && AtLineEnd(s, j)
    ensures forall k :: i <= k < j ==> s[k] != '\n'
    decreases |s| - i
  {
    if i < |s| && s[i] != '\n' then LineEnd(s, i + 1) else i
  }

  /** The number of line terminators in s[a..b]; none when b <= a. */
  function Lines(s: string, a: int, b: int): (n: nat)
    requires 0 <= a && b <= |s|
    ensures n <= if a < b then b - a else 0
    decreases b - a
  {
    if b <= a then 0 else Lines(s, a, b - 1) + (if s[b - 1] == '\n' then 1 else 0)
  }

  // P_COMMANDTOP

  /**
   * A match of the top-level command pattern: a whole line holding ##EJSON or ##EJSDISABLE
   * between blanks, or ###EJSON / ###EJSDISABLE, whose extra '#' (at hash) marks an escape.
   */
  datatype TopMatch = TopMatch(start: int, hash: int, escape: bool, disable: bool, end: int)

  /** The top-level command pattern tried at i. */
  function CommandTopAt(s: string, i: int): (r: Option<TopMatch>)
    ensures r.Some? ==> r.value.start == i && AtLineStart(s, i) && AtLineEnd(s, r.value.end)
    ensures r.Some? ==> i + 2 <= r.value.hash && r.value.hash + 5 <= r.value.end <= |s|
    ensures r.Some? ==> s[r.value.hash - 2..r.value.hash] == "##"
    ensures r.Some? ==> (r.value.escape <==> s[r.value.hash] == '#')
  {
    if !AtLineStart(s, i) then None
    else
      var j := SkipLineSpace(s, i);
      if !HasAt(s, j, "##") then None
      else
        var escape := HasAt(s, j + 2, "#");
        var k := if escape then j + 3 else j + 2;
        var disable := HasAt(s, k, "EJSDISABLE");
        if !disable && !HasAt(s, k, "EJSON") then None
        else
          var e := SkipLineSpace(s, k + if disable then 10 else 5);
          if AtLineEnd(s, e) then Some(TopMatch(i, j + 2, escape, disable, e)) else None
  }

  /** Matcher.find(from) with the top-level command pattern: the leftmost match. */
  function FindCommandTop(s: string, from: int): (r: Option<TopMatch>)
    requires 0 <= from <= |s|
    ensures r.Some? ==> from <= r.value.start && CommandTopAt(s, r.value.start) == r
    ensures r.Some? ==> forall i :: from <= i < r.value.start ==> CommandTopAt(s, i).None?
    ensures r.None? ==> forall i :: from <= i <= |s| ==> CommandTopAt(s, i).None?
    decreases |s| - from
  {
    if from == |s| then None
    else if CommandTopAt(s, from).Some? then CommandTopAt(s, from)
    else FindCommandTop(s, from + 1)
  }

  // P_INTRO

  /**
   * A match of the introduction pattern: group 1 (line) is "##", "##=", "###" or "###="
   * after the blanks that open a line; group 2 is "#{" or "##{" anywhere. The match
   * starts at start (before the blanks) and ends at end, just after the token.
   */
  datatype Intro = Intro(start: int, line: bool, token: string, end: int)

  /** The introduction pattern tried at i: the line alternative first. */
  function IntroAt(s: string, i: int): (r: Option<Intro>)
    ensures r.Some? ==> r.value.start == i && 0 <= i && i + |r.value.token| <= r.value.end <= |s|
    ensures r.Some? ==> r.value.token in {"##", "##=", "###", "###=", "#{", "##{"}
    ensures r.Some? ==> (r.value.line <==> r.value.token in {"##", "##=", "###", "###="})
    ensures r.Some? ==> s[r.value.end - |r.value.token|..r.value.end] == r.value.token
    ensures r.Some? && r.value.line ==> AtLineStart(s, i)
    ensures r.Some? && r.value.line ==> forall k :: i <= k < r.value.end - |r.value.token| ==> IsLineSpace(s[k])
    ensures r.Some? && !r.value.line ==> r.value.end == i + |r.value.token|
  {
    var lineIntro :=
      if AtLineStart(s, i) then
        var j := SkipLineSpace(s, i);
        var token := if HasAt(s, j, "###=") then "###=" else if HasAt(s, j, "###") then "###"
                     else if HasAt(s, j, "##=") then "##=" else if HasAt(s, j, "##") then "##" else "";
        if token == "" then None else Some(Intro(i, true, token, j + |token|))
      else None;
    if lineIntro.Some? then lineIntro
    else if HasAt(s, i, "##{") then Some(Intro(i, false, "##{", i + 3))
    else if HasAt(s, i, "#{") then Some(Intro(i, false, "#{", i + 2))
    else None
  }

  /** Matcher.find(from) with the introduction pattern: the leftmost match. */
  function FindIntro(s: string, from: int): (r: Option<Intro>)
    requires 0 <= from <= |s|
    ensures r.Some? ==> from <= r.value.start && IntroAt(s, r.value.start) == r
    ensures r.Some? ==> forall i :: from <= i < r.value.start ==> IntroAt(s, i).None?
    ensures r.None? ==> forall i :: from <= i <= |s| ==> IntroAt(s, i).None?
    decreases |s| - from
  {
    if from == |s| then None
    else if IntroAt(s, from).Some? then IntroAt(s, from)
    else FindIntro(s, from + 1)
  }

  // P_CMD_MAIN, P_DIRECTIVE_START, P_BLOCK_END

  datatype Command = EjsOn | EjsOff | EjsDisable

  /** The keyword of a command. */
  function Keyword(c: Command): string
  {
    match c
    case EjsOn => "EJSON"
    case EjsOff => "EJSOFF"
    case EjsDisable => "EJSDISABLE"
  }

  /** The main-mode command pattern matched against the whole of t: a keyword between white space. */
  function MainCommand(t: string): (r: Option<Command>)
    ensures r.Some? ==> HasAt(t, SkipSpace(t, 0), Keyword(r.value))
    ensures r.Some? ==> SkipSpace(t, SkipSpace(t, 0) + |Keyword(r.value)|) == |t|
  {
    var j := SkipSpace(t, 0);
    var c := if HasAt(t, j, "EJSON") then Some(EjsOn)
             else if HasAt(t, j, "EJSOFF") then Some(EjsOff)
             else if HasAt(t, j, "EJSDISABLE") then Some(EjsDisable)
             else None;
    if c.Some? && SkipSpace(t, j + |Keyword(c.value)|) == |t| then c else None
  }

  /** The directive-start pattern (\s*##(?!#)) looking at i: where its match ends. */
  function DirectiveStart(s: string, i: int): (r: Option<int>)
    requires 0 <= i <= |s|
    ensures r.Some? ==> i + 2 <= r.value <= |s| && s[r.value - 2..r.value] == "##"
    ensures r.Some? ==> r.value == |s| || s[r.value] != '#'
  {
    var j := SkipSpace(s, i);
    if HasAt(s, j, "##") && !HasAt(s, j + 2, "#") then Some(j + 2) else None
  }

  /** The block-end pattern tried at i: a whole line holding "##=" between blanks; where its match ends. */
  function BlockEndAt(s: string, i: int): (r: Option<int>)
    ensures r.Some? ==> AtLineStart(s, i) && i + 3 <= r.value <= |s| && AtLineEnd(s, r.value)
  {
    if !AtLineStart(s, i) then None
    else
      var j := SkipLineSpace(s, i);
      if !HasAt(s, j, "##=") then None
      else
        var e := SkipLineSpace(s, j + 3);
        if AtLineEnd(s, e) then Some(e) else None
  }

  /** Matcher.find(from) with the block-end pattern: the start and end of the leftmost match. */
  function FindBlockEnd(s: string, from: int): (r: Option<(int, int)>)
    requires 0 <= from <= |s|
    ensures r.Some? ==> from <= r.value.0 && BlockEndAt(s, r.value.0) == Some(r.value.1)
    ensures r.Some? ==> forall i :: from <= i < r.value.0 ==> BlockEndAt(s, i).None?
    ensures r.None? ==> forall i :: from <= i <= |s| ==> BlockEndAt(s, i).None?
    decreases |s| - from
  {
    if from == |s| then None
    else if BlockEndAt(s, from).Some? then Some((from, BlockEndAt(s, from).value))
    else FindBlockEnd(s, from + 1)
  }

  // The interpolation end scan

  /**
   * The inner loop of scanForInterpolationEnd, looking for the closing quote q from i on:
   * the index after the first q at or after i whose predecessor is not a backslash, or
   * the end of the input.
   */
  function SkipQuoted(s: string, i: int, q: char): (j: int)
    requires 1 <= i <= |s|
    ensures i <= j <= |s| && (i < |s| ==> i < j)
    decreases |s| - i
  {
    if i >= |s| then |s|
    else if s[i] == q && s[i - 1] != '\\' then i + 1
    else SkipQuoted(s, i + 1, q)
  }

  /**
   * scanForInterpolationEnd from i at the given brace depth: the index of the brace that
   * brings the depth to 0 and the position just after it, or the end of the input twice.
   * A quote starts a string literal whose braces do not count; the scan for its closing
   * quote starts after the opening one.
   */
  function InterpEnd(s: string, i: int, depth: int): (r: (int, int))
    requires 1 <= i <= |s| && depth >= 1
    ensures i <= r.0 <= |s|
    ensures r.0 < |s| ==> s[r.0] == '}' && r.1 == r.0 + 1
    ensures r.0 == |s| ==> r.1 == |s|
    decreases |s| - i
  {
    if i >= |s| then (|s|, |s|)
    else if s[i] == '\'' || s[i] == '"' then InterpEnd(s, SkipQuoted(s, i + 1, s[i]), depth)
    else
      var d := if s[i] == '{' then depth + 1 else if s[i] == '}' then depth - 1 else depth;
      if d == 0 then (i, i + 1) else InterpEnd(s, i + 1, d)
  }

  /**
   * scanForInterpolationEnd as the source has it: the scan for the closing quote starts on
   * the opening quote itself, which closes at once unless a backslash precedes it.
   */
  function InterpEndAsWritten(s: string, i: int, depth: int): (r: (int, int))
    requires 1 <= i <= |s| && depth >= 1
    ensures i <= r.0 <= |s|
    decreases |s| - i
  {
    if i >= |s| then (|s|, |s|)
    else if s[i] == '\'' || s[i] == '"' then InterpEndAsWritten(s, SkipQuoted(s, i, s[i]), depth)
    else
      var d := if s[i] == '{' then depth + 1 else if s[i] == '}' then depth - 1 else depth;
      if d == 0 then (i, i + 1) else InterpEndAsWritten(s, i + 1, d)
  }

  // The state machine

  /** The position lies within the source. */
  predicate Within(s: string, st: State)
  {
    0 <= st.position <= |s|
  }

  /** b is a followed by events whose text is not empty. */
  predicate Extends(a: seq<Event>, b: seq<Event>)
  {
    a <= b && forall k :: |a| <= k < |b| ==> b[k].text != ""
  }

  /** resetBuffer: empty the buffer and start the location at the current line and position. */
  function Reset(st: State): (r: State)
    ensures r.buffer == "" && r.events == st.events
    ensures r.position == r.sourceStart == st.position && r.lineNumber == r.lineStart == st.lineNumber
  {
    st.(buffer := "", lineStart := st.lineNumber, sourceStart := st.position)
  }

  /** dumpBufferAsLiteral / AsBlock / AsInterpolation: report a non-empty buffer, then reset. */
  function Dump(st: State, kind: Kind): (r: State)
    ensures Extends(st.events, r.events)
  {
    if |st.buffer| > 0 then
      Reset(st.(sourceEnd := st.position,
                events := st.events + [Event(kind, st.buffer, st.lineStart, st.sourceStart, st.position)]))
    else Reset(st)
  }

  /** chomp: step over a line terminator at the position, counting it. */
  function Chomped(s: string, st: State): (r: State)
    requires Within(s, st)
    ensures Within(s, r) && r.buffer == st.buffer && r.events == st.events
    ensures r.position - st.position == r.lineNumber - st.lineNumber
    ensures r.position == st.position + 1 <==> st.position < |s| && s[st.position] == '\n'
    ensures r.position == st.position + 1 || r == st
  {
    if st.position < |s| && s[st.position] == '\n' then
      st.(lineNumber := st.lineNumber + 1, position := st.position + 1)
    else st
  }

  /** Append s[position..e] to the buffer and count its lines; the position stays. */
  function Gather(s: string, st: State, e: int): (r: State)
    requires Within(s, st) && st.position <= e <= |s|
    ensures Within(s, r) && r.position == st.position && r.events == st.events
    ensures r.buffer == st.buffer + s[st.position..e]
    ensures st.lineNumber <= r.lineNumber <= st.lineNumber + (e - st.position)
  {
    st.(buffer := st.buffer + s[st.position..e], lineNumber := st.lineNumber + Lines(s, st.position, e))
  }

  /**
   * The top level as the source has it, or corrected. AsWritten counts no line of the text
   * before an escaped command line and discards what main mode leaves in the buffer (its
   * resetBuffer()); Corrected counts those lines and reports the leftover as a literal.
   */
  datatype Variant = AsWritten | Corrected

  /** The loop of parseStateTop. */
  function TopLoop(s: string, st: State, v: Variant): (r: State)
    requires Within(s, st)
    ensures Within(s, r) && st.position <= r.position
    ensures Extends(st.events, r.events)
    decreases |s| - st.position
  {
    if st.position >= |s| then st
    else match FindCommandTop(s, st.position)
      case None => Gather(s, st, |s|).(position := |s|)
      case Some(m) =>
        match TopStep(s, st, m, v)
        case Exit(r) => r
        case Next(st1) => TopLoop(s, st1, v)
  }

  /** One pass of parseStateTop's loop, on the command line m found at or after the position. */
  function TopStep(s: string, st: State, m: TopMatch, v: Variant): (r: Step)
    requires Within(s, st) && st.position <= m.start && m.start + 2 <= m.hash && m.hash + 5 <= m.end <= |s|
    ensures Within(s, r.st) && Extends(st.events, r.st.events)
    ensures r.Next? ==> st.position < r.st.position
  {
    if m.escape then
      Next(st.(buffer := st.buffer + s[st.position..m.start] + s[m.start..m.hash] + s[m.hash + 1..m.end],
               lineNumber := if v == Corrected then st.lineNumber + Lines(s, st.position, m.start) else st.lineNumber,
               position := m.end))
    else TopCommand(s, Reset(Chomped(s, Dump(Gather(s, st, m.start).(position := m.end), Literal))), m, v)
  }

  /** ##EJSDISABLE or ##EJSON on the top level, once the text before it is reported and its line ended. */
  function TopCommand(s: string, st: State, m: TopMatch, v: Variant): (r: Step)
    requires Within(s, st) && 0 <= m.end <= st.position
    ensures Within(s, r.st) && Extends(st.events, r.st.events)
    ensures r.Next? ==> st.position <= r.st.position
  {
    if m.disable then
      Exit(st.(buffer := st.buffer + s[m.end..], lineNumber := st.lineNumber + Lines(s, m.end, |s|)))
    else
      var st2 := MainLoop(s, Reset(st));
      Next(if v == Corrected then Dump(st2, Literal) else Reset(st2))
  }

  /** The top-level loop when no command line follows the position: the rest is gathered. */
  lemma TopLoopEnds(s: string, st: State, v: Variant)
    requires Within(s, st) && st.position < |s| && FindCommandTop(s, st.position).None?
    ensures TopLoop(s, st, v) == Gather(s, st, |s|).(position := |s|)
  {
  }

  /** The top-level loop on the command line m at or after the position: one pass, then the rest. */
  lemma TopLoopPass(s: string, st: State, m: TopMatch, v: Variant)
    requires Within(s, st) && st.position < |s| && FindCommandTop(s, st.position) == Some(m)
    ensures var step := TopStep(s, st, m, v);
            TopLoop(s, st, v) == if step.Exit? then step.st else TopLoop(s, step.st, v)
  {
  }

  /** parseStateTop: the loop, then whatever is left as a literal ending at the end of the input. */
  function StateTop(s: string, st: State, v: Variant): (r: State)
    requires Within(s, st)
    ensures Extends(st.events, r.events)
  {
    Dump(TopLoop(s, Reset(st), v).(position := |s|), Literal)
  }

  /** parse(source): the top level from position 0 on line 1. */
  function Parsed(s: string, st: State, v: Variant): (r: State)
    ensures Extends(st.events, r.events)
  {
    StateTop(s, st.(position := 0, lineNumber := 1), v)
  }

  /** One pass of a parser loop: the state to go round again with, or the state it leaves with. */
  datatype Step = Next(st: State) | Exit(st: State)

  /** The loop of parseStateMain. */
  function MainLoop(s: string, st: State): (r: State)
    requires Within(s, st)
    ensures Within(s, r) && st.position <= r.position
    ensures Extends(st.events, r.events)
    decreases |s| - st.position
  {
    if st.position >= |s| then st
    else match FindIntro(s, st.position)
      case None => st
      case Some(m) =>
        match MainStep(s, st, m)
        case Exit(r) => r
        case Next(st1) => MainLoop(s, st1)
  }

  /** One pass of parseStateMain's loop, on the introduction m found at or after the position. */
  function MainStep(s: string, st: State, m: Intro): (r: Step)
    requires Within(s, st) && st.position <= m.start < m.end <= |s| && 2 <= |m.token|
    ensures Within(s, r.st) && Extends(st.events, r.st.events)
    ensures r.Next? ==> st.position < r.st.position
  {
    MainDispatch(s, Dump(Gather(s, st, m.start).(position := m.start), Literal), m)
  }

  /** The branch of parseStateMain's loop taken once the text before the introduction m is reported. */
  function MainDispatch(s: string, st: State, m: Intro): (r: Step)
    requires Within(s, st) && 0 <= m.start < m.end <= |s| && 2 <= |m.token|
    ensures Within(s, r.st) && Extends(st.events, r.st.events)
    ensures r.Next? ==> m.end <= r.st.position
  {
    if m.line then
      if "###" <= m.token then Next(st.(buffer := st.buffer + m.token[1..], position := m.end))
      else if m.token == "##" then
        var lineEnd := LineEnd(s, m.end);
        match MainCommand(s[m.end..lineEnd])
        case Some(EjsOff) => Exit(st.(position := lineEnd))
        case Some(EjsDisable) =>
          var st2 := Reset(st.(position := lineEnd));
          Exit(Dump(st2.(buffer := st2.buffer + s[st2.position..]), Literal).(position := |s|))
        case Some(EjsOn) => Next(st.(position := lineEnd))
        case None => Next(Directives(s, st, m.end))
      else Next(DelimitedBlock(s, st, m.end))
    else if "##" <= m.token then Next(st.(buffer := st.buffer + m.token[1..], position := m.end))
    else Next(InterpolationAt(s, st, m.end))
  }

  /** parseSingleLineDirectives(startToken, start). */
  function Directives(s: string, st: State, start: int): (r: State)
    requires 0 <= start <= |s|
    ensures Within(s, r) && start <= r.position
    ensures Extends(st.events, r.events)
  {
    DirectiveRun(s, Reset(st.(position := start)), start)
  }

  /**
   * Take the rest of the directive line that starts at start into the buffer, with its
   * terminator, counting the blank lines between the position and start first.
   */
  function DirectiveLine(s: string, st: State, start: int): (r: State)
    requires Within(s, st) && st.position <= start <= |s|
    ensures Within(s, r) && start <= r.position && r.events == st.events
  {
    var lineEnd := LineEnd(s, start);
    Chomped(s, st.(buffer := st.buffer + s[start..lineEnd] + "\n", position := lineEnd,
                   lineNumber := st.lineNumber + Lines(s, st.position, start)))
  }

  /** Where the text of the next directive of the run starts, if the line at st's position is one. */
  function NextDirective(s: string, st: State): (r: Option<int>)
    requires Within(s, st)
    ensures r.Some? ==> st.position + 2 <= r.value <= |s|
  {
    match DirectiveStart(s, st.position)
    case None => None
    case Some(next) => if MainCommand(s[next..LineEnd(s, next)]).Some? then None else Some(next)
  }

  /**
   * The loop of parseSingleLineDirectives, about to take the directive text that starts at
   * start. The blank lines the directive-start pattern steps over before the next "##" are
   * counted (see DirectiveRunAsWritten).
   */
  function DirectiveRun(s: string, st: State, start: int): (r: State)
    requires Within(s, st) && st.position <= start <= |s|
    ensures Within(s, r) && start <= r.position
    ensures Extends(st.events, r.events)
    decreases |s| - start
  {
    var st1 := DirectiveLine(s, st, start);
    match NextDirective(s, st1)
    case None => Dump(st1, Block)
    case Some(next) => DirectiveRun(s, st1, next)
  }

  /**
   * The loop of parseSingleLineDirectives as the source has it: the line terminators that
   * \s* steps over between one directive line and the next are not counted.
   */
  function DirectiveRunAsWritten(s: string, st: State, start: int): (r: State)
    requires 0 <= start <= |s|
    ensures Within(s, r) && start <= r.position
    decreases |s| - start
  {
    var lineEnd := LineEnd(s, start);
    var st1 := Chomped(s, st.(buffer := st.buffer + s[start..lineEnd] + "\n", position := lineEnd));
    match DirectiveStart(s, st1.position)
    case None => Dump(st1, Block)
    case Some(next) =>
      if MainCommand(s[next..LineEnd(s, next)]).Some? then Dump(st1, Block)
      else DirectiveRunAsWritten(s, st1, next)
  }

  /** parseDelimetedBlock(startToken, start). */
  function DelimitedBlock(s: string, st: State, start: int): (r: State)
    requires 0 <= start <= |s|
    ensures Within(s, r) && start <= r.position
    ensures Extends(st.events, r.events)
  {
    var st0 := Reset(st);
    var (blockEnd, st1) :=
      match FindBlockEnd(s, start)
      case Some((b, e)) => (b, Chomped(s, st0.(position := e)))
      case None => (|s|, st0.(position := |s|));
    Dump(st1.(lineNumber := st1.lineNumber + Lines(s, start, blockEnd), buffer := st1.buffer + s[start..blockEnd]), Block)
  }

  /** parseInterpolation(startToken, start). */
  function InterpolationAt(s: string, st: State, start: int): (r: State)
    requires 1 <= start <= |s|
    ensures Within(s, r) && start <= r.position
    ensures Extends(st.events, r.events)
  {
    var st0 := Reset(st);
    var (end, pos) := InterpEnd(s, start, 1);
    var st1 := st0.(position := pos);
    Dump(st1.(lineNumber := st1.lineNumber + Lines(s, start, end), buffer := st1.buffer + s[start..end]), Interpolation)
  }

  /**
   * The parser. The shared LocationInfo object is flattened into the lineStart, sourceStart
   * and sourceEnd fields, and the event sink is the sequence of events reported to it. The
   * regular-expression matcher is the family of Find functions above.
   */
  class EjsParser {
    var source: string
    var position: int
    var lineNumber: int
    var buffer: string
    var lineStart: int
    var sourceStart: int
    var sourceEnd: int
    var events: seq<Event>

    /** The state the spec functions speak about. */
    function St(): State
      reads this
    {
      State(position, lineNumber, buffer, lineStart, sourceStart, sourceEnd, events)
    }

    constructor()
      ensures source == "" && events == []
      ensures St() == State(0, 0, "", 0, 0, 0, [])
    {
      source, position, lineNumber, buffer := "", 0, 0, "";
      lineStart, sourceStart, sourceEnd := 0, 0, 0;
      events := [];
    }

    /** incrementLine(start, end): count the line terminators of source[start..end]. */
    method IncrementLine(start: int, end: int)
      requires 0 <= start <= |source| && end <= |source|
      modifies this
      ensures source == old(source)
      ensures St() == old(St()).(lineNumber := old(lineNumber) + Lines(source, start, end))
    {
      var i := start;
      while i < end
        invariant start <= i <= |source| && (start <= end ==> i <= end) && (end < start ==> i == start)
        invariant source == old(source)
        invariant St() == old(St()).(lineNumber := old(lineNumber) + Lines(source, start, i))
      {
        if source[i] == '\n' {
          lineNumber := lineNumber + 1;
        }
        i := i + 1;
      }
    }

    /** chomp(): step over a line terminator at the position. */
    method Chomp()
      requires 0 <= position <= |source|
      modifies this
      ensures source == old(source) && St() == Chomped(source, old(St()))
    {
      if position < |source| && source[position] == '\n' {
        lineNumber := lineNumber + 1;
        position := position + 1;
      }
    }

    /** resetBuffer() */
    method ResetBuffer()
      modifies this
      ensures source == old(source) && St() == Reset(old(St()))
    {
      buffer := "";
      lineStart := lineNumber;
      sourceStart := position;
    }

    /** dumpBufferAsLiteral(), dumpBufferAsBlock(), dumpBufferAsInterpolation() */
    method DumpBuffer(kind: Kind)
      modifies this
      ensures source == old(source) && St() == Dump(old(St()), kind)
    {
      if |buffer| > 0 {
        sourceEnd := position;
        events := events + [Event(kind, buffer, lineStart, sourceStart, sourceEnd)];
      }
      ResetBuffer();
    }

    /** findLineEnd(start) */
    method FindLineEnd(start: int) returns (r: int)
      requires 0 <= start <= |source|
      ensures r == LineEnd(source, start)
    {
      r := start;
      while r < |source|
        invariant start <= r <= |source| && LineEnd(source, r) == LineEnd(source, start)
      {
        if source[r] == '\n' {
          return;
        }
        r := r + 1;
      }
    }

    /** The quoted run of scanForInterpolationEnd: the index just past the closing quote c. */
    method SkipQuotedRun(open: int, c: char) returns (i: int)
      requires 1 <= open <= |source|
      ensures open <= i <= |source| && i == SkipQuoted(source, open, c)
    {
      i := open;
      while i < |source|
        invariant open <= i <= |source| && SkipQuoted(source, i, c) == SkipQuoted(source, open, c)
      {
        if source[i] == c && source[i - 1] != '\\' {
          return i + 1;
        }
        i := i + 1;
      }
    }

    /** scanForInterpolationEnd(start): the index of the closing brace; the position moves past it. */
    method ScanForInterpolationEnd(start: int) returns (r: int)
      requires 1 <= start <= |source|
      modifies this
      ensures source == old(source)
      ensures r == InterpEnd(source, start, 1).0
      ensures St() == old(St()).(position := InterpEnd(source, start, 1).1)
    {
      var braceDepth := 1;
      var i := start;
      while i < |source|
        invariant St() == old(St()) && source == old(source)
        invariant 1 <= i <= |source| && braceDepth >= 1
        invariant InterpEnd(source, i, braceDepth) == InterpEnd(source, start, 1)
        decreases |source| - i
      {
        var c := source[i];
        if c == '\'' || c == '"' {
          i := SkipQuotedRun(i + 1, c);
        } else {
          if c == '{' {
            braceDepth := braceDepth + 1;
          }
          if c == '}' {
            braceDepth := braceDepth - 1;
          }
          if braceDepth == 0 {
            position := i + 1;
            return i;
          }
          i := i + 1;
        }
      }
      position := |source|;
      return position;
    }

    /** parseInterpolation(startToken, start) */
    method ParseInterpolation(start: int)
      requires 1 <= start <= |source|
      modifies this
      ensures source == old(source) && St() == InterpolationAt(source, old(St()), start)
    {
      ResetBuffer();
      var end := ScanForInterpolationEnd(start);
      IncrementLine(start, end);
      buffer := buffer + source[start..end];
      DumpBuffer(Interpolation);
    }

    /** parseDelimetedBlock(startToken, start) */
    method ParseDelimitedBlock(start: int)
      requires 0 <= start <= |source|
      modifies this
      ensures source == old(source) && St() == DelimitedBlock(source, old(St()), start)
    {
      ResetBuffer();
      ghost var st0 := St();
      var blockEnd;
      var found := FindBlockEnd(source, start);
      if found.Some? {
        blockEnd := found.value.0;
        position := found.value.1;
        Chomp();
        assert St() == Chomped(source, st0.(position := found.value.1));
      } else {
        blockEnd := |source|;
        position := |source|;
      }
      assert St() == (match found
        case Some((b, e)) => Chomped(source, st0.(position := e))
        case None => st0.(position := |source|));
      IncrementLine(start, blockEnd);
      buffer := buffer + source[start..blockEnd];
      DumpBuffer(Block);
    }

    /** parseSingleLineDirectives(startToken, start), counting the blank lines between directive lines. */
    method ParseSingleLineDirectives(start: int)
      requires 0 <= start <= |source|
      modifies this
      ensures source == old(source) && St() == Directives(source, old(St()), start)
    {
      position := start;
      ResetBuffer();
      ghost var goal := DirectiveRun(source, St(), start);
      var from := start;
      while true
        invariant Within(source, St()) && position <= from <= |source| && source == old(source)
        invariant DirectiveRun(source, St(), from) == goal
        decreases |source| - from
      {
        TakeDirectiveLine(from);
        var found := FindNextDirective();
        if found.None? {
          break;
        }
        from := found.value;
      }
      DumpBuffer(Block);
    }

    /**
     * One line of a run of directives: its text and a line terminator go to the buffer. The
     * blank lines before it are counted first.
     */
    method TakeDirectiveLine(start: int)
      requires Within(source, St()) && position <= start <= |source|
      modifies this
      ensures source == old(source) && St() == DirectiveLine(source, old(St()), start)
    {
      IncrementLine(position, start);
      var lineEnd := FindLineEnd(start);
      buffer := buffer + source[start..lineEnd] + "\n";
      position := lineEnd;
      Chomp();
    }

    /** The directive-start pattern at the position, and the command check on that line. */
    method FindNextDirective() returns (r: Option<int>)
      requires Within(source, St())
      ensures r == NextDirective(source, St())
    {
      var found := DirectiveStart(source, position);
      if found.None? {
        return None;
      }
      var next := found.value;
      var nextEnd := FindLineEnd(next);
      if MainCommand(source[next..nextEnd]).Some? {
        return None;
      }
      return Some(next);
    }

    /** One pass of parseStateMain's loop on the introduction m; exit says whether the loop returns. */
    method MainPass(m: Intro) returns (exit: bool)
      requires Within(source, St()) && position <= m.start < m.end <= |source| && 2 <= |m.token|
      modifies this
      ensures source == old(source)
      ensures St() == MainStep(source, old(St()), m).st && exit == MainStep(source, old(St()), m).Exit?
    {
      ghost var st0 := St();
      buffer := buffer + source[position..m.start];
      IncrementLine(position, m.start);
      position := m.start;
      assert St() == Gather(source, st0, m.start).(position := m.start);
      DumpBuffer(Literal);
      ghost var st1 := St();
      assert st1 == Dump(Gather(source, st0, m.start).(position := m.start), Literal);
      exit := Dispatch(m);
      assert MainStep(source, st0, m) == MainDispatch(source, st1, m);
    }

    /** The branches of parseStateMain's loop on the introduction m. */
    method Dispatch(m: Intro) returns (exit: bool)
      requires Within(source, St()) && 0 <= m.start < m.end <= |source| && 2 <= |m.token|
      modifies this
      ensures source == old(source)
      ensures St() == MainDispatch(source, old(St()), m).st && exit == MainDispatch(source, old(St()), m).Exit?
    {
      exit := false;
      if m.line {
        if "###" <= m.token {
          buffer := buffer + m.token[1..];
          position := m.end;
        } else if m.token == "##" {
          var lineEnd := FindLineEnd(m.end);
          var command := MainCommand(source[m.end..lineEnd]);
          if command.Some? {
            position := lineEnd;
            if command.value == EjsOff {
              exit := true;
            } else if command.value == EjsDisable {
              ResetBuffer();
              buffer := buffer + source[position..];
              DumpBuffer(Literal);
              position := |source|;
              exit := true;
            }
          } else {
            ParseSingleLineDirectives(m.end);
          }
        } else {
          ParseDelimitedBlock(m.end);
        }
      } else if "##" <= m.token {
        buffer := buffer + m.token[1..];
        position := m.end;
      } else {
        ParseInterpolation(m.end);
      }
    }

    /** parseStateMain(): main mode until ##EJSOFF, ##EJSDISABLE or the end of the input. */
    method ParseStateMain()
      requires Within(source, St())
      modifies this
      ensures source == old(source) && St() == MainLoop(source, Reset(old(St())))
    {
      ResetBuffer();
      ghost var st0 := St();
      while true
        invariant source == old(source) && Within(source, St())
        invariant MainLoop(source, St()) == MainLoop(source, st0)
        decreases |source| - position
      {
        if position >= |source| {
          return;
        }
        var found := FindIntro(source, position);
        if found.None? {
          return;
        }
        var exit := MainPass(found.value);
        if exit {
          return;
        }
      }
    }

    /** One pass of parseStateTop's loop on the command line m, with the corrected line count. */
    method TopPass(m: TopMatch) returns (exit: bool)
      requires Within(source, St()) && position <= m.start && m.start + 2 <= m.hash && m.hash + 5 <= m.end <= |source|
      modifies this
      ensures source == old(source)
      ensures St() == TopStep(source, old(St()), m, Corrected).st && exit == TopStep(source, old(St()), m, Corrected).Exit?
    {
      if m.escape {
        buffer := buffer + source[position..m.start];
        buffer := buffer + source[m.start..m.hash];
        buffer := buffer + source[m.hash + 1..m.end];
        IncrementLine(position, m.start);
        position := m.end;
        exit := false;
      } else {
        ghost var st0 := St();
        buffer := buffer + source[position..m.start];
        IncrementLine(position, m.start);
        position := m.end;
        assert St() == Gather(source, st0, m.start).(position := m.end);
        DumpBuffer(Literal);
        Chomp();
        ResetBuffer();
        ghost var st1 := St();
        assert st1 == Reset(Chomped(source, Dump(Gather(source, st0, m.start).(position := m.end), Literal)));
        exit := RunCommand(m);
        assert TopStep(source, st0, m, Corrected) == TopCommand(source, st1, m, Corrected);
      }
    }

    /** The command branches of parseStateTop, with the corrected handling of what main mode leaves. */
    method RunCommand(m: TopMatch) returns (exit: bool)
      requires Within(source, St()) && 0 <= m.end <= position
      modifies this
      ensures source == old(source)
      ensures St() == TopCommand(source, old(St()), m, Corrected).st && exit == TopCommand(source, old(St()), m, Corrected).Exit?
    {
      if m.disable {
        buffer := buffer + source[m.end..];
        IncrementLine(m.end, |source|);
        exit := true;
      } else {
        ParseStateMain();
        DumpBuffer(Literal);
        exit := false;
      }
    }

    /** parseStateTop() */
    method ParseStateTop()
      requires Within(source, St())
      modifies this
      ensures source == old(source) && St() == StateTop(source, old(St()), Corrected)
    {
      ResetBuffer();
      ghost var st0 := St();
      while true
        invariant source == old(source) && Within(source, St())
        invariant TopLoop(source, St(), Corrected) == TopLoop(source, st0, Corrected)
        decreases |source| - position
      {
        if position >= |source| {
          break;
        }
        var exit := TopIteration();
        if exit {
          break;
        }
      }
      ghost var done := St();
      assert done == TopLoop(source, st0, Corrected);
      position := |source|;
      DumpBuffer(Literal);
      assert St() == Dump(done.(position := |source|), Literal);
    }

    /**
     * One turn of the loop of parseStateTop: the next command line is handled, or, when
     * there is none, the rest of the source is gathered and the position moved to the end.
     */
    method TopIteration() returns (exit: bool)
      requires Within(source, St()) && position < |source|
      modifies this
      ensures source == old(source) && Within(source, St())
      ensures exit ==> St() == TopLoop(source, old(St()), Corrected)
      ensures !exit ==> old(position) < position && TopLoop(source, St(), Corrected) == TopLoop(source, old(St()), Corrected)
    {
      ghost var pass := St();
      var found := FindCommandTop(source, position);
      if found.None? {
        buffer := buffer + source[position..];
        IncrementLine(position, |source|);
        position := |source|;
        TopLoopEnds(source, pass, Corrected);
        exit := false;
      } else {
        exit := TopPass(found.value);
        TopLoopPass(source, pass, found.value, Corrected);
      }
    }

    /** parse(source) */
    method Parse(s: string)
      modifies this
      ensures source == s && St() == Parsed(s, old(St()), Corrected)
    {
      source := s;
      position := 0;
      lineNumber := 1;
      ParseStateTop();
    }
  }
}
