/**
 * Concrete lines worked through the three recognisers: what each pattern
 * accepts and rejects, and the matching behaviours that are kept as they are.
 */
module PatternCases {
  import opened ByteStrings
  import opened Wrappers
  import opened Patterns

  /** A label alone on its line is tagged. */
  lemma LabelAlone()
    ensures MatchAt(Label, "Bar:", 0) == Some(4)
  {
    var t: Bytes := "Bar:";
    assert NameEnd(t, 0) == 3;
    assert Skip(t, 4, Space) == 4;
  }

  /** A label followed by a `;` comment is tagged, the match taking the comment. */
  lemma LabelWithComment()
    ensures MatchAt(Label, "Bar:  ; note", 0) == Some(12)
  {
    var t: Bytes := "Bar:  ; note";
    SkipStopsAt(t, 0, HSpace, 0);
    SkipStopsAt(t, 0, Word, 3);
    SkipStopsAt(t, 4, Space, 6);
    LfEndAt(t, 6, 12);
  }

  /** A label with code on the next line is tagged, the match ending at its own line. */
  lemma LabelThenCode()
    ensures MatchAt(Label, "Bar:\nx", 0) == Some(4)
  {
    var t: Bytes := "Bar:\nx";
    assert NameEnd(t, 0) == 3;
    assert Skip(t, 4, Space) == 5;
    assert LastLf(t, 4, 5) == Some(4);
  }

  /** An assignment is not a label. */
  lemma AssignmentNotLabel()
    ensures MatchAt(Label, "Bar:=1", 0).None?
  {
    var t: Bytes := "Bar:=1";
    SkipStopsAt(t, 0, HSpace, 0);
    SkipStopsAt(t, 0, Word, 3);
    SkipStopsAt(t, 4, Space, 4);
    assert LastLf(t, 4, 4).None?;
  }

  /** A double colon is not a label. */
  lemma DoubleColonNotLabel()
    ensures MatchAt(Label, "Bar::", 0).None?
  {
    var t: Bytes := "Bar::";
    assert NameEnd(t, 0) == 3;
    assert Skip(t, 4, Space) == 4;
  }

  /** Code after the colon on the same line is not a label. */
  lemma CodeAfterColonNotLabel()
    ensures MatchAt(Label, "Bar: x", 0).None?
  {
    var t: Bytes := "Bar: x";
    assert NameEnd(t, 0) == 3;
    assert Skip(t, 5, Space) == 5;
    assert Skip(t, 4, Space) == 5;
    assert LastLf(t, 4, 4).None?;
    assert LastLf(t, 4, 5).None?;
  }

  /** A definition with its brace on the same line is tagged, up to the end of that line. */
  lemma FunctionSameLine()
    ensures MatchAt(Function, "Foo(a, b) {", 0) == Some(11)
    ensures NameStart("Foo(a, b) {", 0) == 0 && NameEnd("Foo(a, b) {", 0) == 3
  {
    SameLineName();
    SameLineMatch();
  }

  lemma SameLineName()
    ensures NameStart("Foo(a, b) {", 0) == 0 && NameEnd("Foo(a, b) {", 0) == 3
  {
    var t: Bytes := "Foo(a, b) {";
    SkipStopsAt(t, 0, HSpace, 0);
    SkipStopsAt(t, 0, Word, 3);
  }

  lemma SameLineMatch()
    ensures MatchFunction("Foo(a, b) {", 0) == Some(11)
  {
    var t: Bytes := "Foo(a, b) {";
    SameLineName();
    LfEndAt(t, 4, 11);
    SkipStopsAt(t, 9, Space, 10);
    assert BraceFollows(t, 8);
    assert CloseParen(t, 4, 9) == Some(8);
    assert CloseParen(t, 4, 11) == Some(8);
    assert Skip(t, 11, Space) == 11;
    LfEndAt(t, 11, 11);
  }

  /** A definition whose brace opens the next line is tagged, the match running onto that line. */
  lemma FunctionBraceNextLine()
    ensures MatchAt(Function, "Foo()\n{", 0) == Some(7)
    ensures NameStart("Foo()\n{", 0) == 0 && NameEnd("Foo()\n{", 0) == 3
  {
    NextLineName();
    NextLineMatch();
  }

  lemma NextLineName()
    ensures NameStart("Foo()\n{", 0) == 0 && NameEnd("Foo()\n{", 0) == 3
  {
    var t: Bytes := "Foo()\n{";
    SkipStopsAt(t, 0, HSpace, 0);
    SkipStopsAt(t, 0, Word, 3);
  }

  lemma NextLineMatch()
    ensures MatchFunction("Foo()\n{", 0) == Some(7)
  {
    var t: Bytes := "Foo()\n{";
    NextLineName();
    LfEndAt(t, 4, 5);
    SkipStopsAt(t, 5, Space, 6);
    assert BraceFollows(t, 4);
    assert CloseParen(t, 4, 5) == Some(4);
    assert Skip(t, 7, Space) == 7;
    LfEndAt(t, 7, 7);
  }

  /** A call with no brace after it is not a definition. */
  lemma FunctionCallRejected()
    ensures MatchAt(Function, "Foo()", 0).None?
  {
    var t: Bytes := "Foo()";
    SkipStopsAt(t, 0, HSpace, 0);
    SkipStopsAt(t, 0, Word, 3);
    LfEndAt(t, 4, 5);
    assert Skip(t, 5, Space) == 5;
    assert !BraceFollows(t, 4);
  }

  /** Kept as it is: a control statement with a brace reads as a function named `if`. */
  lemma IfStatementTagged()
    ensures MatchAt(Function, "if(x) {", 0) == Some(7)
    ensures NameStart("if(x) {", 0) == 0 && NameEnd("if(x) {", 0) == 2
  {
    var t: Bytes := "if(x) {";
    SkipStopsAt(t, 0, HSpace, 0);
    SkipStopsAt(t, 0, Word, 2);
    LfEndAt(t, 3, 7);
    SkipStopsAt(t, 5, Space, 6);
    assert BraceFollows(t, 4);
    assert CloseParen(t, 3, 7) == Some(4);
    assert Skip(t, 7, Space) == 7;
    LfEndAt(t, 7, 7);
  }

  /** Where `.*` stops, given the bytes up to there. */
  lemma LfEndAt(t: Bytes, i: nat, j: nat)
    requires i <= j <= |t| && (j == |t| || t[j] == '\n')
    requires forall m :: i <= m < j ==> t[m] != '\n'
    ensures LfEnd(t, i) == j
  {
  }

  /** A definition whose brace line is followed by another definition. */
  const Nested: Bytes := "A() {\nB() {\n}"

  /** The first definition's match runs over the next line. */
  lemma SwallowingMatch()
    ensures MatchFunction(Nested, 0) == Some(11)
  {
    var t: Bytes := Nested;
    FirstHeaderParen();
    SkipStopsAt(t, 3, Space, 4);
    SkipStopsAt(t, 5, Space, 6);
    LfEndAt(t, 6, 11);
  }

  /** The first definition's name ends at 1 and its `)` at 2 is followed by ` {`. */
  lemma FirstHeaderParen()
    ensures NameEnd(Nested, 0) == 1 && LfEnd(Nested, 2) == 5 && CloseParen(Nested, 2, 5) == Some(2)
  {
    var t: Bytes := Nested;
    SkipStopsAt(t, 0, HSpace, 0);
    SkipStopsAt(t, 0, Word, 1);
    LfEndAt(t, 2, 5);
    SkipStopsAt(t, 3, Space, 4);
    assert BraceFollows(t, 2);
    assert CloseParen(t, 2, 3) == Some(2);
  }

  /** On its own, the swallowed line is a definition. */
  lemma SwallowedLineMatches()
    ensures MatchFunction(Nested, 6) == Some(13)
  {
    var t: Bytes := Nested;
    SkipStopsAt(t, 6, HSpace, 6);
    SkipStopsAt(t, 6, Word, 7);
    LfEndAt(t, 8, 11);
    SkipStopsAt(t, 9, Space, 10);
    assert BraceFollows(t, 8);
    assert CloseParen(t, 8, 9) == Some(8);
    assert CloseParen(t, 8, 11) == Some(8);
    SkipStopsAt(t, 11, Space, 12);
    LfEndAt(t, 12, 13);
  }

  /**
   * Kept as it is: `\s*` after a definition's `{` runs over the line break, so the
   * match swallows the next line, and a definition there gets no entry although
   * its line has the shape of one.
   */
  lemma HeaderSwallowed()
    ensures AtLineStart(Nested, 6) && MatchAt(Function, Nested, 6).Some?
    ensures Scan(Function, Nested) == [Span(0, 11)]
  {
    SwallowedLineStarts();
    SwallowScan();
  }

  lemma SwallowedLineStarts()
    ensures AtLineStart(Nested, 6) && MatchAt(Function, Nested, 6).Some?
  {
    SecondLineStart();
    SwallowedLineMatches();
  }

  lemma SecondLineStart()
    ensures AtLineStart(Nested, 6)
  {
  }

  lemma SwallowScan()
    ensures Scan(Function, Nested) == [Span(0, 11)]
  {
    SwallowFirstSpan();
    NothingAfterSwallow();
  }

  lemma SwallowFirstSpan()
    ensures FindIter(MatcherOf(Function, Nested), Nested, 0) == [Span(0, 11)] + FindIter(MatcherOf(Function, Nested), Nested, 11)
  {
    SwallowFirstStarts();
  }

  lemma SwallowFirstStarts()
    ensures AtLineStart(Nested, 0) && MatcherOf(Function, Nested)(0) == Some(11)
  {
    SwallowingMatch();
  }

  /** After the swallowing match only the closing `}` line is left, and it matches nothing. */
  lemma NothingAfterSwallow()
    ensures FindIter(MatcherOf(Function, Nested), Nested, 11) == []
  {
    var t: Bytes := Nested;
    var f := MatcherOf(Function, t);
    assert NameEnd(t, 12) == 12;
    assert f(12).None?;
    assert FindIter(f, t, 13) == [];
    assert FindIter(f, t, 12) == [];
  }

  /** A definition with code after its `{`, followed by another definition. */
  const CodeAfterBrace: Bytes := "A() { x\nB() {"

  /** With code after the `{`, the match ends with its own line. */
  lemma CodeAfterBraceMatch()
    ensures MatchFunction(CodeAfterBrace, 0) == Some(7)
  {
    var t: Bytes := CodeAfterBrace;
    SkipStopsAt(t, 0, HSpace, 0);
    SkipStopsAt(t, 0, Word, 1);
    LfEndAt(t, 2, 7);
    SkipStopsAt(t, 3, Space, 4);
    assert BraceFollows(t, 2);
    assert CloseParen(t, 2, 3) == Some(2);
    assert CloseParen(t, 2, 7) == Some(2);
    SkipStopsAt(t, 5, Space, 6);
    LfEndAt(t, 6, 7);
  }

  lemma CodeAfterBraceSecond()
    ensures MatchFunction(CodeAfterBrace, 8) == Some(13)
  {
    var t: Bytes := CodeAfterBrace;
    SkipStopsAt(t, 8, HSpace, 8);
    SkipStopsAt(t, 8, Word, 9);
    LfEndAt(t, 10, 13);
    SkipStopsAt(t, 11, Space, 12);
    assert BraceFollows(t, 10);
    assert CloseParen(t, 10, 11) == Some(10);
    assert CloseParen(t, 10, 13) == Some(10);
    assert Skip(t, 13, Space) == 13;
    LfEndAt(t, 13, 13);
  }

  /** So the next definition is not swallowed: both get a span. */
  lemma CodeAfterBraceScan()
    ensures Scan(Function, CodeAfterBrace) == [Span(0, 7), Span(8, 13)]
  {
    CodeAfterBraceFirst();
    CodeAfterBraceRest();
  }

  lemma CodeAfterBraceFirst()
    ensures FindIter(MatcherOf(Function, CodeAfterBrace), CodeAfterBrace, 0)
      == [Span(0, 7)] + FindIter(MatcherOf(Function, CodeAfterBrace), CodeAfterBrace, 7)
  {
    CodeAfterBraceFirstStarts();
  }

  lemma CodeAfterBraceFirstStarts()
    ensures AtLineStart(CodeAfterBrace, 0) && MatcherOf(Function, CodeAfterBrace)(0) == Some(7)
  {
    CodeAfterBraceMatch();
  }

  lemma CodeAfterBraceRest()
    ensures FindIter(MatcherOf(Function, CodeAfterBrace), CodeAfterBrace, 7) == [Span(8, 13)]
  {
    CodeAfterBraceSkip();
    CodeAfterBraceSecondSpan();
  }

  /** Offset 7 is not a line start, so the search moves on to 8. */
  lemma CodeAfterBraceSkip()
    ensures FindIter(MatcherOf(Function, CodeAfterBrace), CodeAfterBrace, 7)
      == FindIter(MatcherOf(Function, CodeAfterBrace), CodeAfterBrace, 8)
  {
    assert !AtLineStart(CodeAfterBrace, 7);
  }

  lemma CodeAfterBraceSecondSpan()
    ensures FindIter(MatcherOf(Function, CodeAfterBrace), CodeAfterBrace, 8) == [Span(8, 13)]
  {
    CodeAfterBraceSecondStarts();
    CodeAfterBraceEnd();
  }

  lemma CodeAfterBraceSecondStarts()
    ensures AtLineStart(CodeAfterBrace, 8) && MatcherOf(Function, CodeAfterBrace)(8) == Some(13)
  {
    CodeAfterBraceSecondLine();
    CodeAfterBraceSecond();
  }

  lemma CodeAfterBraceSecondLine()
    ensures AtLineStart(CodeAfterBrace, 8)
  {
  }

  lemma CodeAfterBraceEnd()
    ensures FindIter(MatcherOf(Function, CodeAfterBrace), CodeAfterBrace, 13) == []
  {
    assert !AtLineStart(CodeAfterBrace, 13);
  }

  /** A legacy assignment `x =` with nothing after it, followed by an assignment. */
  const Legacy: Bytes := "x =\ny := 2"

  /** `\s*` after the `=` runs over the line break, so the match takes the next line too. */
  lemma LegacyMatch()
    ensures MatchVariable(Legacy, 0) == Some(10)
  {
    var t: Bytes := Legacy;
    SkipStopsAt(t, 0, HSpace, 0);
    SkipStopsAt(t, 0, Word, 1);
    SkipStopsAt(t, 1, Space, 2);
    SkipStopsAt(t, 3, Space, 4);
    LfEndAt(t, 4, 10);
  }

  /** `\s*` before the `=` crosses the line break: a name alone on its line is tagged. */
  lemma VariableOverBlankLine()
    ensures MatchVariable("x\n= 1", 0) == Some(5)
  {
    var t: Bytes := "x\n= 1";
    SkipStopsAt(t, 0, HSpace, 0);
    SkipStopsAt(t, 0, Word, 1);
    SkipStopsAt(t, 1, Space, 2);
    SkipStopsAt(t, 3, Space, 4);
    LfEndAt(t, 4, 5);
  }

  /** On its own, the swallowed line is an assignment. */
  lemma LegacySecondLine()
    ensures AtLineStart(Legacy, 4) && MatchVariable(Legacy, 4) == Some(10)
  {
    var t: Bytes := Legacy;
    SkipStopsAt(t, 4, HSpace, 4);
    SkipStopsAt(t, 4, Word, 5);
    SkipStopsAt(t, 5, Space, 6);
    SkipStopsAt(t, 8, Space, 9);
    LfEndAt(t, 9, 10);
  }

  /**
   * Kept as it is: after a legacy `x =` that ends its line, the next line is
   * swallowed, and the variable assigned there gets no entry.
   */
  lemma LegacySwallowed()
    ensures AtLineStart(Legacy, 4) && MatchAt(Variable, Legacy, 4).Some?
    ensures Scan(Variable, Legacy) == [Span(0, 10)]
  {
    LegacySecondLine();
    LegacyScan();
  }

  lemma LegacyScan()
    ensures Scan(Variable, Legacy) == [Span(0, 10)]
  {
    var t: Bytes := Legacy;
    var f := MatcherOf(Variable, t);
    LegacyMatch();
    assert FindIter(f, t, 10) == [];
  }
}
