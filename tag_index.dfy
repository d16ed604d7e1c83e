/**
 * The `Tags` index: entries accumulated in place, rendered as a ctags file of six
 * fixed header lines followed by one line per entry, stably sorted by name, all
 * joined by `\n`.
 */
module TagIndex {
  import opened ByteStrings
  import opened Patterns
  import opened Extractor

  // ---------------------------------------------------------------------------
  // Header lines

  /** A header value: the source's table holds both numbers and strings. */
  datatype HeaderValue = Number(n: nat) | Text(s: Bytes)

  /** One `(name, value, comment)` row of `Tags.headers`. */
  datatype Header = Header(name: Bytes, value: HeaderValue, comment: Bytes)

  /** `Tags.headers`, in declared order. */
  const Headers: seq<Header> := [
    Header("_TAG_FILE_FORMAT", Number(2), FormatNote),
    Header("_TAG_FILE_SORTED", Number(1), SortedNote),
    Header("_TAG_PROGRAM_AUTHOR", Text(Author), AuthorMail),
    Header("_TAG_PROGRAM_NAME", Text("AHKTags"), ""),
    Header("_TAG_PROGRAM_URL", Text(Url), ""),
    Header("_TAG_PROGRAM_VERSION", Text("0.1"), "")
  ]

  const FormatNote: Bytes := FormatNoteHead + FormatNoteTail
  const FormatNoteHead: Bytes := "extended format; --format=1 "
  const FormatNoteTail: Bytes := "will not append ;\" to lines"
  const SortedNote: Bytes := "0=unsorted, 1=sorted, 2=foldcase"
  const Author: Bytes := "Sviatoslav Abakumov"
  const AuthorMail: Bytes := "dust.harvesting@gmail.com"
  const Url: Bytes := "https://github.com/" + "perlence/ahktags"

  /** `'{}'.format(value)`. */
  function ValueText(v: HeaderValue): Bytes {
    match v
    case Number(n) => Decimal(n)
    case Text(s) => s
  }

  /** `'!{}\t{}\t/{}/'.format(*header)`: a pseudo-tag line, marked by its leading `!`. */
  function HeaderLine(h: Header): (r: Bytes)
    ensures |r| > 0 && r[0] == '!'
  {
    "!" + h.name + "\t" + ValueText(h.value) + "\t/" + h.comment + "/"
  }

  /**
   * Each header name is strictly below the next in byte order, so (by
   * `LexLeTransitive`) the pseudo-tag lines are sorted among themselves, as
   * `_TAG_FILE_SORTED 1` announces.
   */
  lemma HeaderNamesAscending()
    ensures forall k :: 0 <= k < |Headers| - 1 ==> LexLe(Headers[k].name, Headers[k + 1].name) && !LexLe(Headers[k + 1].name, Headers[k].name)
  {
    forall k | 0 <= k < |Headers| - 1
      ensures LexLe(Headers[k].name, Headers[k + 1].name) && !LexLe(Headers[k + 1].name, Headers[k].name)
    {
      HeaderStep(k);
    }
  }

  lemma HeaderStep(k: nat)
    requires k < |Headers| - 1
    ensures LexLe(Headers[k].name, Headers[k + 1].name) && !LexLe(Headers[k + 1].name, Headers[k].name)
  {
    var a, b := Headers[k].name, Headers[k + 1].name;
    if k == 0 { FormatBeforeSorted(a, b); }
    else if k == 1 { SortedBeforeAuthor(a, b); }
    else if k == 2 { AuthorBeforeName(a, b); }
    else if k == 3 { NameBeforeUrl(a, b); }
    else { UrlBeforeVersion(a, b); }
  }

  lemma FormatBeforeSorted(a: Bytes, b: Bytes)
    requires a == "_TAG_FILE_FORMAT" && b == "_TAG_FILE_SORTED"
    ensures LexLe(a, b) && !LexLe(b, a)
  {
    LexLeAt(a, b, 10);
  }

  lemma SortedBeforeAuthor(a: Bytes, b: Bytes)
    requires a == "_TAG_FILE_SORTED" && b == "_TAG_PROGRAM_AUTHOR"
    ensures LexLe(a, b) && !LexLe(b, a)
  {
    LexLeAt(a, b, 5);
  }

  lemma AuthorBeforeName(a: Bytes, b: Bytes)
    requires a == "_TAG_PROGRAM_AUTHOR" && b == "_TAG_PROGRAM_NAME"
    ensures LexLe(a, b) && !LexLe(b, a)
  {
    LexLeAt(a, b, 13);
  }

  lemma NameBeforeUrl(a: Bytes, b: Bytes)
    requires a == "_TAG_PROGRAM_NAME" && b == "_TAG_PROGRAM_URL"
    ensures LexLe(a, b) && !LexLe(b, a)
  {
    LexLeAt(a, b, 13);
  }

  lemma UrlBeforeVersion(a: Bytes, b: Bytes)
    requires a == "_TAG_PROGRAM_URL" && b == "_TAG_PROGRAM_VERSION"
    ensures LexLe(a, b) && !LexLe(b, a)
  {
    LexLeAt(a, b, 13);
  }

  /** `_write_headers`: the header lines in declared order. */
  function WriteHeaders(): (r: seq<Bytes>)
    ensures |r| == 6
  {
    seq(|Headers|, i requires 0 <= i < |Headers| => HeaderLine(Headers[i]))
  }

  // ---------------------------------------------------------------------------
  // Entry lines

  /** `'{}\t{}\t{};"\t{}\tline:{}'.format(*entry)`: a line that opens with the tag's name and a tab. */
  function EntryLine(e: TagEntry): (r: Bytes)
    ensures |e.name| < |r| && r[..|e.name|] == e.name && r[|e.name|] == '\t'
  {
    e.name + "\t" + e.file + "\t" + e.address + ";\"\t" + KindName(e.kind) + "\tline:" + Decimal(e.line)
  }

  /** The five tab-separated fields of an entry line, in the order the format writes them. */
  function EntryFields(e: TagEntry): seq<Bytes> {
    [e.name, e.file, e.address + ";\"", KindName(e.kind), "line:" + Decimal(e.line)]
  }

  /**
   * Every header line sorts before every entry line: `!` is below every byte an
   * identifier can start with.
   */
  lemma HeaderSortsFirst(h: Header, e: TagEntry)
    requires IsIdentifier(e.name)
    ensures LexLe(HeaderLine(h), EntryLine(e)) && !LexLe(EntryLine(e), HeaderLine(h))
  {
    LexLeAt(HeaderLine(h), EntryLine(e), 0);
  }

  /** The entries of `s` named `k`, in their order in `s`. */
  function WithName(s: seq<TagEntry>, k: Bytes): seq<TagEntry> {
    if |s| == 0 then []
    else (if s[0].name == k then [s[0]] else []) + WithName(s[1..], k)
  }

  ghost predicate SortedByName(s: seq<TagEntry>) {
    forall i, j :: 0 <= i < j < |s| ==> LexLe(s[i].name, s[j].name)
  }

  /** `x` placed before the first entry of `s` whose name is not smaller than its own. */
  function InsertByName(x: TagEntry, s: seq<TagEntry>): seq<TagEntry> {
    if |s| == 0 || LexLe(x.name, s[0].name) then [x] + s
    else [s[0]] + InsertByName(x, s[1..])
  }

  /**
   * `sorted(entries, key=lambda x: x.name)`: ordered by name, and for every name
   * the entries carrying it keep their order, which makes it a stable sort.
   */
  function SortByName(s: seq<TagEntry>): (r: seq<TagEntry>)
    ensures SortedByName(r)
    ensures multiset(r) == multiset(s)
    ensures forall k :: WithName(r, k) == WithName(s, k)
  {
    if |s| == 0 then []
    else
      var rest := SortByName(s[1..]);
      InsertByNameFacts(s[0], rest);
      assert s == [s[0]] + s[1..];
      InsertByName(s[0], rest)
  }

  lemma {:induction false} InsertByNameFacts(x: TagEntry, s: seq<TagEntry>)
    requires SortedByName(s)
    ensures SortedByName(InsertByName(x, s))
    ensures multiset(InsertByName(x, s)) == multiset{x} + multiset(s)
    ensures forall k :: WithName(InsertByName(x, s), k) == (if x.name == k then [x] else []) + WithName(s, k)
  {
    InsertByNameMultiset(x, s);
    InsertByNameSorted(x, s);
    forall k {
      InsertByNameWithName(x, s, k);
    }
  }

  lemma {:induction false} InsertByNameMultiset(x: TagEntry, s: seq<TagEntry>)
    ensures multiset(InsertByName(x, s)) == multiset{x} + multiset(s)
  {
    if |s| > 0 && !LexLe(x.name, s[0].name) {
      InsertByNameMultiset(x, s[1..]);
      assert s == [s[0]] + s[1..];
    }
  }

  lemma {:induction false} InsertByNameWithName(x: TagEntry, s: seq<TagEntry>, k: Bytes)
    ensures WithName(InsertByName(x, s), k) == (if x.name == k then [x] else []) + WithName(s, k)
  {
    if |s| > 0 && !LexLe(x.name, s[0].name) {
      InsertByNameWithName(x, s[1..], k);
      LexLeReflexive(x.name);
      assert ([s[0]] + InsertByName(x, s[1..]))[1..] == InsertByName(x, s[1..]);
    } else {
      assert ([x] + s)[1..] == s;
    }
  }

  lemma {:induction false} InsertByNameSorted(x: TagEntry, s: seq<TagEntry>)
    requires SortedByName(s)
    ensures SortedByName(InsertByName(x, s))
  {
    var r := InsertByName(x, s);
    if |s| > 0 && !LexLe(x.name, s[0].name) {
      var rest := InsertByName(x, s[1..]);
      InsertByNameSorted(x, s[1..]);
      InsertByNameMultiset(x, s[1..]);
      LexLeTotal(x.name, s[0].name);
      forall j | 0 <= j < |rest|
        ensures LexLe(s[0].name, rest[j].name)
      {
        assert rest[j] in multiset(rest);
        if rest[j] != x {
          assert rest[j] in multiset(s[1..]);
          var m :| 0 <= m < |s[1..]| && s[1..][m] == rest[j];
          assert s[m + 1] == rest[j];
        }
      }
      assert r == [s[0]] + rest;
    } else if |s| > 0 {
      forall j | 0 < j < |r|
        ensures LexLe(x.name, r[j].name)
      {
        if j > 1 {
          LexLeTransitive(x.name, s[0].name, s[j - 1].name);
        }
      }
    }
  }

  /** `_write_entries`: one line per entry, in name order. */
  function WriteEntries(s: seq<TagEntry>): (r: seq<Bytes>)
    ensures |r| == |s|
  {
    var sorted := SortByName(s);
    assert |multiset(sorted)| == |multiset(s)|;
    seq(|sorted|, i requires 0 <= i < |sorted| => EntryLine(sorted[i]))
  }

  /**
   * `str(tags)`: header lines, then entry lines, joined by `\n` without a trailing
   * one. Whatever the entries hold, the text opens with the six header lines.
   */
  function Render(s: seq<TagEntry>): (r: Bytes)
    ensures |Split(r, '\n')| >= 6 && Split(r, '\n')[..6] == WriteHeaders()
  {
    var lines := WriteHeaders() + WriteEntries(s);
    HeaderLinesClean();
    SplitJoinPrefix(lines, 6, '\n');
    assert lines[..6] == WriteHeaders();
    Join(lines, '\n')
  }

  /** No header field holds a tab or a line break. */
  lemma HeadersOnOneLine()
    ensures forall i :: 0 <= i < 6 ==> FieldClean(Headers[i])
  {
    FormatHeaderClean();
    SortedHeaderClean();
    AuthorHeaderClean();
    NameHeaderClean();
    UrlHeaderClean();
    VersionHeaderClean();
  }

  lemma FormatHeaderClean() ensures FieldClean(Headers[0]) {
    FormatNoteClean();
    NameClean("_TAG_FILE_FORMAT");
    assert Decimal(2) == "2";
  }

  lemma SortedHeaderClean() ensures FieldClean(Headers[1]) {
    SortedNoteClean();
    NameClean("_TAG_FILE_SORTED");
    assert Decimal(1) == "1";
  }

  lemma AuthorHeaderClean() ensures FieldClean(Headers[2]) {
    AuthorClean();
    AuthorMailClean();
    NameClean("_TAG_PROGRAM_AUTHOR");
  }

  lemma NameHeaderClean() ensures FieldClean(Headers[3]) {
    NameClean("_TAG_PROGRAM_NAME");
  }

  lemma UrlHeaderClean() ensures FieldClean(Headers[4]) {
    UrlClean();
    NameClean("_TAG_PROGRAM_URL");
  }

  lemma VersionHeaderClean() ensures FieldClean(Headers[5]) {
    NameClean("_TAG_PROGRAM_VERSION");
  }

  /** Header names are upper-case letters and underscores only. */
  lemma NameClean(s: Bytes)
    requires forall i :: 0 <= i < |s| ==> 'A' <= s[i] <= 'Z' || s[i] == '_'
    ensures Clean(s)
  {
  }

  lemma FormatNoteClean() ensures Clean(FormatNote) {
    FormatNoteHeadClean();
    FormatNoteTailClean();
  }
  lemma FormatNoteHeadClean() ensures Clean(FormatNoteHead) { }
  lemma FormatNoteTailClean() ensures Clean(FormatNoteTail) { }
  lemma SortedNoteClean() ensures Clean(SortedNote) { }
  lemma AuthorClean() ensures Clean(Author) { }
  lemma AuthorMailClean() ensures Clean(AuthorMail) { }
  lemma UrlClean() ensures Clean(Url) { }

  /** No header line holds a line break. */
  lemma HeaderLinesClean()
    ensures forall i :: 0 <= i < 6 ==> '\n' !in WriteHeaders()[i]
  {
    HeadersOnOneLine();
    forall i | 0 <= i < 6
      ensures '\n' !in WriteHeaders()[i]
    {
      HeaderLineClean(Headers[i]);
    }
  }

  predicate Clean(s: Bytes) {
    '\n' !in s && '\t' !in s
  }

  predicate FieldClean(h: Header) {
    Clean(h.name) && Clean(ValueText(h.value)) && Clean(h.comment)
  }

  lemma HeaderLineClean(h: Header)
    requires FieldClean(h)
    ensures '\n' !in HeaderLine(h)
  {
  }

  /** Each header line is the three tab-separated fields `!NAME`, `VALUE` and `/COMMENT/`. */
  lemma HeaderLineFields(i: nat)
    requires i < |Headers|
    ensures Split(WriteHeaders()[i], '\t') == ["!" + Headers[i].name, ValueText(Headers[i].value), "/" + Headers[i].comment + "/"]
  {
    var h := Headers[i];
    var fields := ["!" + h.name, ValueText(h.value), "/" + h.comment + "/"];
    HeadersOnOneLine();
    HeaderLineJoin(h);
    SplitJoin(fields, '\t');
  }

  lemma HeaderLineJoin(h: Header)
    ensures HeaderLine(h) == Join(["!" + h.name, ValueText(h.value), "/" + h.comment + "/"], '\t')
  {
    JoinThree("!" + h.name, ValueText(h.value), "/" + h.comment + "/", '\t');
  }

  /**
   * Each entry line is the five tab-separated fields name, file, address followed
   * by `;"`, kind and `line:N`, when the name, file and address hold no tab.
   */
  lemma EntryLineFields(e: TagEntry)
    requires '\t' !in e.name && '\t' !in e.file && '\t' !in e.address
    ensures Split(EntryLine(e), '\t') == EntryFields(e)
  {
    EntryLineJoin(e);
    SplitJoin(EntryFields(e), '\t');
  }

  lemma EntryLineJoin(e: TagEntry)
    ensures EntryLine(e) == Join(EntryFields(e), '\t')
  {
    var fields := EntryFields(e);
    JoinFive(fields[0], fields[1], fields[2], fields[3], fields[4], '\t');
  }

  /**
   * With no `\n` inside an entry's fields, the lines of the rendered text are
   * exactly the six header lines followed by one line per entry in name order:
   * no blank line, no trailing newline.
   */
  lemma RenderLines(s: seq<TagEntry>)
    requires forall i :: 0 <= i < |s| ==> '\n' !in s[i].name && '\n' !in s[i].file && '\n' !in s[i].address
    ensures Split(Render(s), '\n') == WriteHeaders() + WriteEntries(s)
  {
    var lines := WriteHeaders() + WriteEntries(s);
    HeaderLinesClean();
    EntryLinesClean(s);
    SplitJoin(lines, '\n');
  }

  lemma EntryLinesClean(s: seq<TagEntry>)
    requires forall i :: 0 <= i < |s| ==> '\n' !in s[i].name && '\n' !in s[i].file && '\n' !in s[i].address
    ensures forall i :: 0 <= i < |s| ==> '\n' !in WriteEntries(s)[i]
  {
    var sorted := SortByName(s);
    forall i | 0 <= i < |sorted|
      ensures '\n' !in EntryLine(sorted[i])
    {
      assert sorted[i] in multiset(s);
      var m :| 0 <= m < |s| && s[m] == sorted[i];
      EntryLineClean(sorted[i]);
    }
  }

  lemma EntryLineClean(e: TagEntry)
    requires '\n' !in e.name && '\n' !in e.file && '\n' !in e.address
    ensures '\n' !in EntryLine(e)
  {
    var d := Decimal(e.line);
    assert forall i :: 0 <= i < |d| ==> '0' <= d[i] <= '9';
    assert '\n' !in KindName(e.kind);
  }

  /**
   * The order of the entry lines is the only one that is sorted by name and keeps
   * the entries of each name in insertion order: any stable sort gives it.
   */
  lemma {:induction false} StableSortUnique(a: seq<TagEntry>, b: seq<TagEntry>)
    requires SortedByName(a) && SortedByName(b)
    requires forall k :: WithName(a, k) == WithName(b, k)
    ensures a == b
  {
    HeadNamed(a);
    HeadNamed(b);
    if |a| > 0 && |b| > 0 {
      SameHead(a, b);
      var ka := a[0].name;
      forall k
        ensures WithName(a[1..], k) == WithName(b[1..], k)
      {
        var pre := if ka == k then [a[0]] else [];
        assert WithName(a, k) == pre + WithName(a[1..], k);
        assert WithName(b, k) == pre + WithName(b[1..], k);
        assert WithName(a[1..], k) == WithName(a, k)[|pre|..];
        assert WithName(b[1..], k) == WithName(b, k)[|pre|..];
      }
      StableSortUnique(a[1..], b[1..]);
      assert a == [a[0]] + a[1..] && b == [b[0]] + b[1..];
    }
  }

  /** Two stable sorts of the same entries start with the same entry. */
  lemma SameHead(a: seq<TagEntry>, b: seq<TagEntry>)
    requires |a| > 0 && |b| > 0
    requires SortedByName(a) && SortedByName(b)
    requires forall k :: WithName(a, k) == WithName(b, k)
    ensures a[0] == b[0]
  {
    HeadNamed(a);
    HeadNamed(b);
    var ka := a[0].name;
    var kb := b[0].name;
    WithNameMembers(a, kb);
    WithNameMembers(b, ka);
    assert a[0] in WithName(b, ka);
    assert b[0] in WithName(a, kb);
    var j :| 0 <= j < |b| && b[j] == a[0];
    var i :| 0 <= i < |a| && a[i] == b[0];
    LexLeReflexive(ka);
    assert LexLe(kb, ka) by {
      if j > 0 {
        assert LexLe(b[0].name, b[j].name);
      }
    }
    assert LexLe(ka, kb) by {
      if i > 0 {
        assert LexLe(a[0].name, a[i].name);
      }
    }
    LexLeAntisymmetric(ka, kb);
    assert a[0] == WithName(a, ka)[0] == WithName(b, kb)[0] == b[0];
  }

  lemma HeadNamed(s: seq<TagEntry>)
    ensures |s| > 0 ==> WithName(s, s[0].name) == [s[0]] + WithName(s[1..], s[0].name)
  {
  }

  lemma {:induction false} WithNameMembers(s: seq<TagEntry>, k: Bytes)
    ensures forall x :: x in WithName(s, k) ==> x in s && x.name == k
  {
    if |s| > 0 {
      WithNameMembers(s[1..], k);
    }
  }

  // ---------------------------------------------------------------------------
  // The index object

  /** `Tags`: the entries collected so far, grown in place. */
  class Tags {
    var entries: seq<TagEntry>

    /** `Tags()`: an empty index. */
    constructor ()
      ensures entries == []
    {
      entries := [];
    }

    /** `tags.entries += es`. */
    method Append(es: seq<TagEntry>)
      modifies this
      ensures entries == old(entries) + es
    {
      entries := entries + es;
    }

    /** `str(tags)`: it always opens with the six header lines. */
    function ToString(): (r: Bytes)
      reads this
      ensures |Split(r, '\n')| >= 6 && Split(r, '\n')[..6] == WriteHeaders()
    {
      Render(entries)
    }
  }
}
