/** A small script worked through `find_entries`, from text to tag entry. */
module EntryCases {
  import opened ByteStrings
  import opened Wrappers
  import opened Escaping
  import opened Lines
  import opened Patterns
  import opened Extractor

  /** A label on the second line of a script. */
  const LabelScript: Bytes := "\nBar:"

  lemma LabelScriptScan()
    ensures Scan(Label, LabelScript) == [Span(1, 5)]
  {
    var t := LabelScript;
    var f := MatcherOf(Label, t);
    assert NameEnd(t, 0) == 0;
    assert f(0).None?;
    assert NameEnd(t, 1) == 4;
    assert Skip(t, 5, Space) == 5;
    assert f(1) == Some(5);
    assert FindIter(f, t, 5) == [];
    assert FindIter(f, t, 1) == [Span(1, 5)];
    assert FindIter(f, t, 0) == FindIter(f, t, 1);
  }

  /** The label gets one entry: its name, a search for its line, and line number 2. */
  lemma LabelScriptEntry()
    ensures FindEntries(Label, "s.ahk", LabelScript) == [TagEntry("Bar", "s.ahk", "/^Bar:$/", Label, 2)]
  {
    var t := LabelScript;
    LabelScriptScan();
    LabelScriptMatch();
    LabelScriptEntryOf(t);
    var r := FindEntries(Label, "s.ahk", t);
    assert |r| == 1;
    assert r[0] == EntryOf(Label, "s.ahk", t, Span(1, 5));
  }

  lemma LabelScriptMatch()
    ensures MatchAt(Label, LabelScript, 1) == Some(5)
  {
    var t := LabelScript;
    assert NameEnd(t, 1) == 4;
    assert Skip(t, 5, Space) == 5;
  }

  /** The entry expected for the label of `LabelScript` in file `s.ahk`. */
  const BarEntry: TagEntry := TagEntry("Bar", "s.ahk", "/^Bar:$/", Label, 2)

  lemma LabelScriptEntryOf(t: Bytes)
    requires t == LabelScript && MatchAt(Label, t, 1) == Some(5)
    ensures EntryOf(Label, "s.ahk", t, Span(1, 5)) == BarEntry
  {
    LabelScriptName();
    LabelScriptAddress();
    LabelScriptLine();
  }

  lemma LabelScriptName()
    ensures LabelScript[NameStart(LabelScript, 1)..NameEnd(LabelScript, 1)] == BarEntry.name
  {
    var t := LabelScript;
    assert NameStart(t, 1) == 1 && NameEnd(t, 1) == 4;
    assert t[1..4] == BarEntry.name;
  }

  lemma LabelScriptAddress()
    ensures Address(FirstLine(LabelScript[1..5])) == "/^Bar:$/"
  {
    LabelScriptFirstLine();
    BarEscaped();
  }

  lemma LabelScriptFirstLine()
    ensures FirstLine(LabelScript[1..5]) == "Bar:"
  {
    var line: Bytes := "Bar:";
    assert LabelScript[1..5] == line;
    assert FirstLine(line) == line;
  }

  lemma BarEscaped()
    ensures Escape("Bar:") == "Bar:"
  {
    var line: Bytes := "Bar:";
    assert forall i :: 0 <= i < |line| ==> IsPlain(line[i]);
    EscapePlain(line);
  }

  lemma LabelScriptLine()
    ensures LineNumber(LabelScript, 1) == 2
  {
    assert LabelScript[..1] == "\n";
  }
}
