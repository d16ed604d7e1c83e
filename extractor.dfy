/**
 * `find_entries`: one tag entry per match of a pattern, carrying the captured
 * name, the file name, a search address built from the first line of the match,
 * the kind and the 1-based line number of the match start.
 */
module Extractor {
  import opened ByteStrings
  import opened Wrappers
  import opened Escaping
  import opened Lines
  import opened Patterns

  /** A tag entry: the namedtuple `TagEntry(name, file, address, field, line)`. */
  datatype TagEntry = TagEntry(name: Bytes, file: Bytes, address: Bytes, kind: Kind, line: nat)

  /** The `field` text paired with each pattern: a lower-case word, so it holds no tab or line break. */
  function KindName(kind: Kind): (r: Bytes)
    ensures |r| > 0 && forall k :: 0 <= k < |r| ==> 'a' <= r[k] <= 'z'
  {
    match kind
    case Function => "function"
    case Label => "label"
    case Variable => "variable"
  }

  /** Each kind has its own `field` text, so the kind can be read back from an entry line. */
  lemma KindNameInjective(a: Kind, b: Kind)
    requires KindName(a) == KindName(b)
    ensures a == b
  {
  }

  /**
   * `'/^{}$/'.format(line.encode('string_escape'))`: a search for the whole line,
   * whose text between `/^` and `$/` decodes back to the line.
   */
  function Address(line: Bytes): (r: Bytes)
    ensures 4 <= |r| && r[..2] == "/^" && r[|r| - 2..] == "$/"
    ensures Unescape(r[2..|r| - 2]) == Some(line)
  {
    UnescapeEscape(line);
    var r := "/^" + Escape(line) + "$/";
    assert r[2..|r| - 2] == Escape(line);
    r
  }

  /** The entry made from one match span of `kind`'s pattern in file `file` with text `t`. */
  function EntryOf(kind: Kind, file: Bytes, t: Bytes, m: Span): (r: TagEntry)
    requires m.start < m.end <= |t| && MatchAt(kind, t, m.start) == Some(m.end)
    ensures r.kind == kind && r.file == file && IsIdentifier(r.name) && 1 <= r.line <= m.start + 1
  {
    NameIsIdentifier(t, m.start);
    TagEntry(t[NameStart(t, m.start)..NameEnd(t, m.start)], file,
             Address(FirstLine(t[m.start..m.end])), kind, LineNumber(t, m.start))
  }

  /** The `name` group of a match is a non-empty run of word bytes. */
  lemma NameIsIdentifier(t: Bytes, p: nat)
    requires p <= |t| && NameStart(t, p) < NameEnd(t, p)
    ensures IsIdentifier(t[NameStart(t, p)..NameEnd(t, p)])
  {
  }

  /**
   * `find_entries(regex, filename, text, field)`: the entries of the matches of
   * `kind`'s pattern in `t`, in text order. Each names an identifier, and line
   * numbers strictly increase, since no two matches start on the same line.
   */
  function FindEntries(kind: Kind, file: Bytes, t: Bytes): (r: seq<TagEntry>)
    ensures |r| == |Scan(kind, t)|
    ensures forall i :: 0 <= i < |r| ==> r[i].kind == kind && r[i].file == file && IsIdentifier(r[i].name)
    ensures forall i, j :: 0 <= i < j < |r| ==> r[i].line < r[j].line
  {
    var ms := Scan(kind, t);
    LinesIncrease(kind, t, ms);
    seq(|ms|, i requires 0 <= i < |ms| => EntryOf(kind, file, t, ms[i]))
  }

  /** A match never starts on a line break: it starts with `[ \t]` or with the name. */
  lemma MatchStartsOnLine(kind: Kind, t: Bytes, p: nat)
    requires p <= |t| && MatchAt(kind, t, p).Some?
    ensures p < |t| && !IsBreak(t[p])
  {
    if p < NameStart(t, p) {
      assert IsHSpace(t[p]);
    } else {
      assert IsWordChar(t[p]);
    }
  }

  lemma LinesIncrease(kind: Kind, t: Bytes, ms: seq<Span>)
    requires ms == Scan(kind, t)
    ensures forall i, j :: 0 <= i < j < |ms| ==> LineNumber(t, ms[i].start) < LineNumber(t, ms[j].start)
  {
    forall i, j | 0 <= i < j < |ms|
      ensures LineNumber(t, ms[i].start) < LineNumber(t, ms[j].start)
    {
      LaterMatchLaterLine(kind, t, ms[i], ms[j]);
    }
  }

  lemma LaterMatchLaterLine(kind: Kind, t: Bytes, a: Span, b: Span)
    requires a.start < a.end <= b.start <= |t| && AtLineStart(t, b.start) && MatchAt(kind, t, a.start).Some?
    ensures LineNumber(t, a.start) < LineNumber(t, b.start)
  {
    MatchStartsOnLine(kind, t, a.start);
    LineNumberAdvances(t, a.start, b.start);
  }

  // ---------------------------------------------------------------------------
  // What each entry says about its match

  /** The line number is one more than the `\n` bytes plus the lone `\r` bytes before the match. */
  lemma EntryLineNumber(kind: Kind, file: Bytes, t: Bytes, i: nat)
    requires i < |FindEntries(kind, file, t)|
    ensures var s := Scan(kind, t)[i].start;
      FindEntries(kind, file, t)[i].line == 1 + Count(t[..s], '\n') + LoneCRs(t[..s])
  {
    CountBreaksByKind(t[..Scan(kind, t)[i].start]);
  }

  /**
   * `line`, after optional spaces and tabs, begins with `name`, and `name` takes the
   * whole run of word bytes there, as the greedy `(?P<name>\w+)` group does.
   */
  ghost predicate OpensWith(line: Bytes, name: Bytes) {
    exists k: nat :: OpensAt(line, name, k)
  }

  ghost predicate OpensAt(line: Bytes, name: Bytes, k: nat) {
    Indent(line, k) && k + |name| <= |line| && line[k..k + |name|] == name &&
    (k + |name| == |line| || !IsWordChar(line[k + |name|]))
  }

  /** A line opens with at most one identifier: `OpensWith` fixes the captured name. */
  lemma OpensWithUnique(line: Bytes, a: Bytes, b: Bytes)
    requires IsIdentifier(a) && IsIdentifier(b) && OpensWith(line, a) && OpensWith(line, b)
    ensures a == b
  {
    var ka: nat :| OpensAt(line, a, ka);
    var kb: nat :| OpensAt(line, b, kb);
    OpensAtUnique(line, a, b, ka, kb);
  }

  lemma OpensAtUnique(line: Bytes, a: Bytes, b: Bytes, ka: nat, kb: nat)
    requires IsIdentifier(a) && IsIdentifier(b) && OpensAt(line, a, ka) && OpensAt(line, b, kb)
    ensures a == b
  {
    assert line[ka] == a[0] && line[kb] == b[0];
    assert ka == kb;
    assert |a| == |b|;
  }

  /** The first `k` bytes of `line` are spaces and tabs. */
  ghost predicate Indent(line: Bytes, k: nat) {
    k <= |line| && forall m :: 0 <= m < k ==> IsHSpace(line[m])
  }

  /** The name and the leading blanks before it hold no line break. */
  lemma NameOnFirstLine(t: Bytes, p: nat)
    requires p <= |t|
    ensures NameEnd(t, p) <= LineEnd(t, p)
  {
    forall m | p <= m < NameEnd(t, p)
      ensures !IsBreak(t[m])
    {
      if m < NameStart(t, p) {
        assert IsHSpace(t[m]);
      } else {
        assert IsWordChar(t[m]);
      }
    }
  }

  /**
   * The address searches for the whole physical line the match starts on (only
   * the first line of a match that runs over several); the escaped text decodes
   * back to that line; and the line opens with the entry's name after optional
   * spaces and tabs.
   */
  lemma EntryAddress(kind: Kind, file: Bytes, t: Bytes, i: nat)
    requires i < |FindEntries(kind, file, t)|
    ensures var s := Scan(kind, t)[i].start;
      var line := t[s..LineEnd(t, s)];
      var e := FindEntries(kind, file, t)[i];
      e.address == "/^" + Escape(line) + "$/" &&
      Unescape(Escape(line)) == Some(line) &&
      OpensWith(line, e.name)
  {
    var m := Scan(kind, t)[i];
    assert FindEntries(kind, file, t)[i] == EntryOf(kind, file, t, m);
    EntryOfAddress(kind, file, t, m);
  }

  lemma EntryOfAddress(kind: Kind, file: Bytes, t: Bytes, m: Span)
    requires m.start < m.end <= |t| && MatchAt(kind, t, m.start) == Some(m.end)
    ensures var s := m.start;
      var line := t[s..LineEnd(t, s)];
      var e := EntryOf(kind, file, t, m);
      e.address == "/^" + Escape(line) + "$/" &&
      Unescape(Escape(line)) == Some(line) &&
      OpensWith(line, e.name)
  {
    var s := m.start;
    var line := t[s..LineEnd(t, s)];
    FirstLineOfSpan(t, s, m.end);
    UnescapeEscape(line);
    LineOpensWithName(t, s);
  }

  /** The line from a start `p` opens with the name captured there. */
  lemma LineOpensWithName(t: Bytes, p: nat)
    requires p <= |t|
    ensures OpensWith(t[p..LineEnd(t, p)], t[NameStart(t, p)..NameEnd(t, p)])
  {
    var line := t[p..LineEnd(t, p)];
    NameOnFirstLine(t, p);
    var name := t[NameStart(t, p)..NameEnd(t, p)];
    var k: nat := NameStart(t, p) - p;
    assert Indent(line, k);
    assert line[k..k + |name|] == name;
    if k + |name| < |line| {
      assert line[k + |name|] == t[NameEnd(t, p)];
    }
    assert OpensAt(line, name, k);
  }

  /** An entry's name and address are printable text: neither holds a tab or a line break. */
  lemma EntryPrintable(kind: Kind, file: Bytes, t: Bytes, i: nat)
    requires i < |FindEntries(kind, file, t)|
    ensures var e := FindEntries(kind, file, t)[i];
      (forall m :: 0 <= m < |e.name| ==> IsPrintable(e.name[m])) &&
      (forall m :: 0 <= m < |e.address| ==> IsPrintable(e.address[m]))
  {
    var m := Scan(kind, t)[i];
    assert FindEntries(kind, file, t)[i] == EntryOf(kind, file, t, m);
    EntryOfPrintable(kind, file, t, m);
  }

  lemma EntryOfPrintable(kind: Kind, file: Bytes, t: Bytes, m: Span)
    requires m.start < m.end <= |t| && MatchAt(kind, t, m.start) == Some(m.end)
    ensures var e := EntryOf(kind, file, t, m);
      (forall k :: 0 <= k < |e.name| ==> IsPrintable(e.name[k])) &&
      (forall k :: 0 <= k < |e.address| ==> IsPrintable(e.address[k]))
  {
    AddressPrintable(FirstLine(t[m.start..m.end]));
  }

  /** A search address holds printable bytes only. */
  lemma AddressPrintable(line: Bytes)
    ensures forall m :: 0 <= m < |Address(line)| ==> IsPrintable(Address(line)[m])
  {
    var esc := Escape(line);
    forall m | 0 <= m < |Address(line)|
      ensures IsPrintable(Address(line)[m])
    {
      if 2 <= m < 2 + |esc| {
        assert Address(line)[m] == esc[m - 2];
      }
    }
  }

  /** Every entry stands where its kind's shape is found (see `Patterns.Shape`). */
  lemma EntryShape(kind: Kind, file: Bytes, t: Bytes, i: nat)
    requires i < |FindEntries(kind, file, t)|
    ensures AtLineStart(t, Scan(kind, t)[i].start) && Shape(kind, t, Scan(kind, t)[i].start)
  {
    MatchIff(kind, t, Scan(kind, t)[i].start);
  }

  /**
   * Every line start where the shape is found either gets an entry or lies
   * inside the span of an earlier match, whose entry takes its place.
   */
  lemma ShapeFound(kind: Kind, t: Bytes, q: nat)
    requires q <= |t| && AtLineStart(t, q) && Shape(kind, t, q)
    ensures Covers(Scan(kind, t), q)
  {
    MatchIff(kind, t, q);
    ScanCovers(kind, t, q);
  }
}
