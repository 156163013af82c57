/** Two inputs on which the top level of EjsParser.java, as written, reports the wrong events. */
module EjsFindings {
  import opened Wrappers
  import opened EjsParser

  /** t does not occur in s at i, because its k-th character differs or is missing. */
  lemma NotHasAt(s: string, i: int, t: string, k: int)
    requires 0 <= k < |t| && 0 <= i && (i + k >= |s| || s[i + k] != t[k])
    ensures !HasAt(s, i, t)
  {
  }

  // An escaped interpolation left at the end of main mode: "##EJSON\nx##{"

  const Leftover := "##EJSON\nx##{"

  lemma LeftoverCommand()
    ensures FindCommandTop(Leftover, 0) == Some(TopMatch(0, 2, false, false, 7))
  {
    var s := Leftover;
    assert HasAt(s, 0, "##");
    NotHasAt(s, 2, "#", 0);
    NotHasAt(s, 2, "EJSDISABLE", 3);
    assert HasAt(s, 2, "EJSON");
    assert SkipLineSpace(s, 7) == 7;
    assert SkipLineSpace(s, 0) == 0;
  }

  lemma LeftoverIntro()
    ensures FindIntro(Leftover, 8) == Some(Intro(9, false, "##{", 12))
  {
    var s := Leftover;
    assert s[8] == 'x' && s[7] == '\n';
    assert SkipLineSpace(s, 8) == 8;
    NotHasAt(s, 8, "###=", 0);
    NotHasAt(s, 8, "###", 0);
    NotHasAt(s, 8, "##=", 0);
    NotHasAt(s, 8, "##", 0);
    NotHasAt(s, 8, "##{", 0);
    NotHasAt(s, 8, "#{", 0);
    assert IntroAt(s, 8) == None;
    assert IntroAt(s, 9) == Some(Intro(9, false, "##{", 12));
    assert FindIntro(s, 9) == Some(Intro(9, false, "##{", 12));
  }

  /** Main mode takes "x" as a literal and keeps "#{" in the buffer when the input ends. */
  lemma LeftoverMain(st: State)
    requires st.events == []
    ensures var st1 := Reset(Chomped(Leftover, Dump(Gather(Leftover, Reset(st.(position := 0, lineNumber := 1)), 0).(position := 7), Literal)));
            MainLoop(Leftover, Reset(st1)) == State(12, 2, "#{", 2, 9, 9, [Event(Literal, "x", 2, 8, 9)])
  {
    var s := Leftover;
    var st0 := Reset(st.(position := 0, lineNumber := 1));
    var st1 := Reset(Chomped(s, Dump(Gather(s, st0, 0).(position := 7), Literal)));
    assert st1 == State(8, 2, "", 2, 8, st.sourceEnd, []);
    LeftoverIntro();
    assert s[8..9] == "x";
    assert Lines(s, 8, 9) == 0;
    var g := Gather(s, Reset(st1), 9);
    assert g.buffer == "" + s[8..9] == "x";
    assert g == State(8, 2, "x", 2, 8, st.sourceEnd, []);
    var m1 := Dump(g.(position := 9), Literal);
    assert m1 == State(9, 2, "", 2, 9, 9, [Event(Literal, "x", 2, 8, 9)]);
    var pending := m1.(buffer := "#{", position := 12);
    assert MainStep(s, Reset(st1), Intro(9, false, "##{", 12)) == Next(pending);
    assert MainLoop(s, pending) == pending;
  }

  /**
   * As written, the "#{" that main mode leaves in the buffer is discarded by the top level's
   * resetBuffer(); corrected, it is reported as a literal.
   */
  lemma LeftoverLostAsWritten(st: State)
    requires st.events == []
    ensures Parsed(Leftover, st, AsWritten).events == [Event(Literal, "x", 2, 8, 9)]
    ensures Parsed(Leftover, st, Corrected).events == [Event(Literal, "x", 2, 8, 9), Event(Literal, "#{", 2, 9, 12)]
  {
    var s := Leftover;
    LeftoverCommand();
    LeftoverMain(st);
    var st0 := Reset(st.(position := 0, lineNumber := 1));
    var st2 := State(12, 2, "#{", 2, 9, 9, [Event(Literal, "x", 2, 8, 9)]);
    assert TopLoop(s, st0, AsWritten) == Reset(st2);
    assert TopLoop(s, st0, Corrected) == Dump(st2, Literal);
  }

  // Lines above an escaped command line: "x\n###EJSON\n##EJSON\ny"

  const Shifted := "x\n###EJSON\n##EJSON\ny"

  lemma ShiftedEscape()
    ensures FindCommandTop(Shifted, 0) == Some(TopMatch(2, 4, true, false, 10))
  {
    var s := Shifted;
    assert SkipLineSpace(s, 0) == 0;
    NotHasAt(s, 0, "##", 0);
    assert CommandTopAt(s, 0) == None;
    assert CommandTopAt(s, 1) == None;
    ShiftedEscapeAt();
    assert FindCommandTop(s, 2) == Some(TopMatch(2, 4, true, false, 10));
    assert FindCommandTop(s, 1) == Some(TopMatch(2, 4, true, false, 10));
  }

  lemma ShiftedEscapeAt()
    ensures CommandTopAt(Shifted, 2) == Some(TopMatch(2, 4, true, false, 10))
  {
    var s := Shifted;
    assert AtLineStart(s, 2) && AtLineEnd(s, 10);
    assert SkipLineSpace(s, 2) == 2;
    assert s[2..4] == "##" && s[4..5] == "#" && s[5..10] == "EJSON";
    assert HasAt(s, 2, "##") && HasAt(s, 4, "#") && HasAt(s, 5, "EJSON");
    NotHasAt(s, 5, "EJSDISABLE", 3);
    assert SkipLineSpace(s, 10) == 10;
  }

  lemma ShiftedCommand()
    ensures FindCommandTop(Shifted, 10) == Some(TopMatch(11, 13, false, false, 18))
  {
    var s := Shifted;
    assert CommandTopAt(s, 10) == None;
    assert SkipLineSpace(s, 11) == 11;
    assert HasAt(s, 11, "##");
    NotHasAt(s, 13, "#", 0);
    NotHasAt(s, 13, "EJSDISABLE", 3);
    assert HasAt(s, 13, "EJSON");
    assert SkipLineSpace(s, 18) == 18;
    assert CommandTopAt(s, 11) == Some(TopMatch(11, 13, false, false, 18));
    assert FindCommandTop(s, 11) == Some(TopMatch(11, 13, false, false, 18));
  }

  lemma ShiftedTail()
    ensures FindCommandTop(Shifted, 19) == None && FindIntro(Shifted, 19) == None
  {
    var s := Shifted;
    assert SkipLineSpace(s, 19) == 19;
    NotHasAt(s, 19, "##", 1);
    assert CommandTopAt(s, 19) == None;
    NotHasAt(s, 19, "###=", 1);
    NotHasAt(s, 19, "###", 1);
    NotHasAt(s, 19, "##=", 1);
    NotHasAt(s, 19, "##{", 1);
    NotHasAt(s, 19, "#{", 1);
    assert IntroAt(s, 19) == None;
  }

  /** The state after the escaped ###EJSON line, whose line terminator only Corrected counts. */
  lemma ShiftedFirstPass(st: State, v: Variant)
    requires st.events == []
    ensures var l := if v == Corrected then 2 else 1;
            TopStep(Shifted, Reset(st.(position := 0, lineNumber := 1)), TopMatch(2, 4, true, false, 10), v)
            == Next(State(10, l, "x\n##EJSON", 1, 0, st.sourceEnd, []))
  {
    var s := Shifted;
    assert s[0..2] == "x\n" && s[2..4] == "##" && s[5..10] == "EJSON";
    assert "x\n" + "##" + "EJSON" == "x\n##EJSON";
    assert Lines(s, 0, 1) == 0;
    assert Lines(s, 0, 2) == 1;
  }

  /** ##EJSON: the literal before it, then main mode, which finds nothing in "y". */
  lemma ShiftedSecondPass(st: State, v: Variant, l: int)
    ensures var a := State(10, l, "x\n##EJSON", 1, 0, st.sourceEnd, []);
            TopStep(Shifted, a, TopMatch(11, 13, false, false, 18), v)
            == Next(State(19, l + 2, "", l + 2, 19, 18, [Event(Literal, "x\n##EJSON\n", 1, 0, 18)]))
  {
    var s := Shifted;
    var a := State(10, l, "x\n##EJSON", 1, 0, st.sourceEnd, []);
    assert s[10..11] == "\n" && Lines(s, 10, 11) == 1;
    assert "x\n##EJSON" + "\n" == "x\n##EJSON\n";
    var g := Gather(s, a, 11);
    assert g.buffer == "x\n##EJSON\n" && g.lineNumber == l + 1;
    var c := State(19, l + 2, "", l + 2, 19, 18, [Event(Literal, "x\n##EJSON\n", 1, 0, 18)]);
    assert Reset(Chomped(s, Dump(Gather(s, a, 11).(position := 18), Literal))) == c;
    ShiftedTail();
    assert MainLoop(s, Reset(c)) == c;
  }

  /** What is left, "y", is reported from the line the top level has counted to. */
  lemma ShiftedRest(c: State, v: Variant)
    requires c.position == 19 && c.buffer == ""
    ensures TopLoop(Shifted, c, v) == c.(position := 20, buffer := "y")
  {
    var s := Shifted;
    ShiftedTail();
    assert s[19..20] == "y" && Lines(s, 19, 20) == 0;
    assert TopLoop(s, c.(position := 20, buffer := "y"), v) == c.(position := 20, buffer := "y");
  }

  /**
   * "y" is on line 4. As written, the top level does not count the line terminator before the
   * escaped command line and reports "y" from line 3; corrected, from line 4.
   */
  lemma LineUncountedAsWritten(st: State)
    requires st.events == []
    ensures Parsed(Shifted, st, AsWritten).events
            == [Event(Literal, "x\n##EJSON\n", 1, 0, 18), Event(Literal, "y", 3, 19, 20)]
    ensures Parsed(Shifted, st, Corrected).events
            == [Event(Literal, "x\n##EJSON\n", 1, 0, 18), Event(Literal, "y", 4, 19, 20)]
  {
    ShiftedLines(st, AsWritten);
    ShiftedLines(st, Corrected);
  }

  lemma ShiftedLines(st: State, v: Variant)
    requires st.events == []
    ensures var l := if v == Corrected then 2 else 1;
            Parsed(Shifted, st, v).events
            == [Event(Literal, "x\n##EJSON\n", 1, 0, 18), Event(Literal, "y", l + 2, 19, 20)]
  {
    var l := if v == Corrected then 2 else 1;
    ShiftedOpening(st, v);
    ShiftedMiddle(st, v, l);
    ShiftedRest(State(19, l + 2, "", l + 2, 19, 18, [Event(Literal, "x\n##EJSON\n", 1, 0, 18)]), v);
  }

  /** The top level's first pass, over the escaped command line. */
  lemma ShiftedOpening(st: State, v: Variant)
    requires st.events == []
    ensures var l := if v == Corrected then 2 else 1;
            TopLoop(Shifted, Reset(st.(position := 0, lineNumber := 1)), v)
            == TopLoop(Shifted, State(10, l, "x\n##EJSON", 1, 0, st.sourceEnd, []), v)
  {
    ShiftedEscape();
    ShiftedFirstPass(st, v);
  }

  /** The top level's second pass, over the ##EJSON command. */
  lemma ShiftedMiddle(st: State, v: Variant, l: int)
    requires l >= 1
    ensures TopLoop(Shifted, State(10, l, "x\n##EJSON", 1, 0, st.sourceEnd, []), v)
            == TopLoop(Shifted, State(19, l + 2, "", l + 2, 19, 18, [Event(Literal, "x\n##EJSON\n", 1, 0, 18)]), v)
  {
    ShiftedCommand();
    ShiftedSecondPass(st, v, l);
  }

  // A blank line inside a run of directives: "##a\n\n##b\nc"

  const Blank := "##a\n\n##b\nc"

  lemma BlankNext()
    ensures DirectiveStart(Blank, 4) == Some(7) && MainCommand("b") == None
    ensures DirectiveStart(Blank, 9) == None
  {
    var s := Blank;
    assert SkipSpace(s, 5) == 5;
    assert SkipSpace(s, 4) == 5;
    assert s[5..7] == "##";
    assert HasAt(s, 5, "##");
    NotHasAt(s, 7, "#", 0);
    assert SkipSpace(s, 9) == 9;
    NotHasAt(s, 9, "##", 0);
    var t := "b";
    assert SkipSpace(t, 0) == 0;
    NotHasAt(t, 0, "EJSON", 0);
    NotHasAt(t, 0, "EJSOFF", 0);
    NotHasAt(t, 0, "EJSDISABLE", 0);
  }

  /**
   * "c" is on line 4. As written, the run of directives that starts on line 1 leaves the line
   * number at 3 when it stops before "c", because the blank line is not counted; corrected, at 4.
   */
  lemma BlankLineUncountedAsWritten(st: State)
    requires st.position == 2 && st.lineNumber == 1
    ensures DirectiveRunAsWritten(Blank, st, 2).position == 9 && DirectiveRunAsWritten(Blank, st, 2).lineNumber == 3
    ensures DirectiveRun(Blank, st, 2).position == 9 && DirectiveRun(Blank, st, 2).lineNumber == 4
    ensures 1 + Lines(Blank, 0, 9) == 4
  {
    var s := Blank;
    BlankNext();
    assert LineEnd(s, 2) == 3 && LineEnd(s, 7) == 8 && LineEnd(s, 8) == 8;
    assert s[7..8] == "b";
    assert Lines(s, 4, 5) == 1 && Lines(s, 4, 6) == 1 && Lines(s, 4, 7) == 1;
    assert Lines(s, 0, 1) == 0 && Lines(s, 0, 2) == 0 && Lines(s, 0, 3) == 0 && Lines(s, 0, 4) == 1;
    assert Lines(s, 0, 5) == 2 && Lines(s, 0, 6) == 2 && Lines(s, 0, 7) == 2 && Lines(s, 0, 8) == 2;
    assert Lines(s, 2, 2) == 0;
  }
}
