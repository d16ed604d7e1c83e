/**
 * The pure part of `main`: every file named on the command line contributes its
 * function entries, then its label entries, then (with `--include-vars`) its
 * variable entries, under its name with one leading `./` removed; the tags file
 * is written only when at least one entry was found.
 */
module Pipeline {
  import opened ByteStrings
  import opened Wrappers
  import opened Escaping
  import opened Patterns
  import opened Extractor
  import opened TagIndex

  /** A script named on the command line, with the text read from it. */
  datatype SourceFile = SourceFile(path: Bytes, text: Bytes)

  /** `re.sub(r'^\./', '', filename)`: without `re.M`, `^` only matches at the start, so one `./` at most goes. */
  function StripDotSlash(path: Bytes): (r: Bytes)
    ensures path == r || path == "./" + r
    ensures |path| >= 2 && path[..2] == "./" ==> |r| == |path| - 2
  {
    if |path| >= 2 && path[..2] == "./" then path[2..] else path
  }

  /** The order in which `main` chains the three patterns for one file. */
  function Rank(kind: Kind): nat {
    match kind
    case Function => 0
    case Label => 1
    case Variable => 2
  }

  /**
   * The entries one file contributes: functions, then labels, then variables
   * when asked for; within one kind they follow the text, line by line.
   */
  function FileEntries(f: SourceFile, includeVars: bool): (r: seq<TagEntry>)
    ensures forall i :: 0 <= i < |r| ==> r[i].file == StripDotSlash(f.path)
    ensures forall i :: 0 <= i < |r| ==> includeVars || r[i].kind != Variable
    ensures forall i, j :: 0 <= i < j < |r| ==>
      Rank(r[i].kind) < Rank(r[j].kind) || (r[i].kind == r[j].kind && r[i].line < r[j].line)
  {
    var name := StripDotSlash(f.path);
    var fs := FindEntries(Function, name, f.text);
    var ls := FindEntries(Label, name, f.text);
    var vs := FindEntries(Variable, name, f.text);
    KindBlocks(fs, ls, vs, name, includeVars);
    Chain(fs, ls, vs, includeVars)
  }

  /** `chain(functions, labels, variables if include_vars else [])`. */
  function Chain(fs: seq<TagEntry>, ls: seq<TagEntry>, vs: seq<TagEntry>, includeVars: bool): (r: seq<TagEntry>)
    ensures |r| == |fs| + |ls| + (if includeVars then |vs| else 0)
    ensures forall e :: e in r <==> e in fs || e in ls || (includeVars && e in vs)
  {
    fs + ls + (if includeVars then vs else [])
  }

  /** One block per kind, each in line order, gives entries ordered by kind, then line. */
  predicate Block(s: seq<TagEntry>, kind: Kind, file: Bytes) {
    (forall i :: 0 <= i < |s| ==> s[i].kind == kind && s[i].file == file) &&
    (forall i, j :: 0 <= i < j < |s| ==> s[i].line < s[j].line)
  }

  lemma KindBlocks(fs: seq<TagEntry>, ls: seq<TagEntry>, vs: seq<TagEntry>, file: Bytes, includeVars: bool)
    requires Block(fs, Function, file) && Block(ls, Label, file) && Block(vs, Variable, file)
    ensures var r := Chain(fs, ls, vs, includeVars);
      (forall i :: 0 <= i < |r| ==> r[i].file == file) &&
      (forall i :: 0 <= i < |r| ==> includeVars || r[i].kind != Variable) &&
      (forall i, j :: 0 <= i < j < |r| ==>
        Rank(r[i].kind) < Rank(r[j].kind) || (r[i].kind == r[j].kind && r[i].line < r[j].line))
  {
  }

  /** The lists in `parts`, one after the other. */
  function Concat(parts: seq<seq<TagEntry>>): seq<TagEntry> {
    if |parts| == 0 then [] else Concat(parts[..|parts| - 1]) + parts[|parts| - 1]
  }

  /** The entries of each file, file by file. */
  function PerFile(files: seq<SourceFile>, includeVars: bool): (r: seq<seq<TagEntry>>)
    ensures |r| == |files|
  {
    seq(|files|, i requires 0 <= i < |files| => FileEntries(files[i], includeVars))
  }

  /** `tags.entries` after the loop of `main` has gone through `files`. */
  function CollectEntries(files: seq<SourceFile>, includeVars: bool): seq<TagEntry> {
    Concat(PerFile(files, includeVars))
  }

  /** One more file appends its entries. */
  lemma CollectLast(files: seq<SourceFile>, includeVars: bool)
    requires |files| > 0
    ensures CollectEntries(files, includeVars)
      == CollectEntries(files[..|files| - 1], includeVars) + FileEntries(files[|files| - 1], includeVars)
  {
    assert PerFile(files, includeVars)[..|files| - 1] == PerFile(files[..|files| - 1], includeVars);
  }

  lemma {:induction false} ConcatEmpty(parts: seq<seq<TagEntry>>)
    ensures Concat(parts) == [] <==> forall i :: 0 <= i < |parts| ==> parts[i] == []
  {
    if |parts| > 0 {
      var init := parts[..|parts| - 1];
      ConcatEmpty(init);
      assert forall i :: 0 <= i < |init| ==> init[i] == parts[i];
    }
  }

  lemma {:induction false} ConcatSplit(parts: seq<seq<TagEntry>>, k: nat)
    requires k <= |parts|
    ensures Concat(parts) == Concat(parts[..k]) + Concat(parts[k..])
  {
    if k < |parts| {
      var init := parts[..|parts| - 1];
      var last := parts[|parts| - 1];
      ConcatSplit(init, k);
      assert init[..k] == parts[..k];
      var tail := parts[k..];
      assert tail[..|tail| - 1] == init[k..] && tail[|tail| - 1] == last;
      assert Concat(tail) == Concat(init[k..]) + last;
      calc {
        Concat(parts);
        Concat(init) + last;
        Concat(parts[..k]) + Concat(init[k..]) + last;
        Concat(parts[..k]) + (Concat(init[k..]) + last);
      }
    } else {
      assert parts[..k] == parts;
      assert parts[k..] == [];
    }
  }

  lemma {:induction false} ConcatMembers(parts: seq<seq<TagEntry>>)
    ensures forall e :: e in Concat(parts) ==> exists i :: 0 <= i < |parts| && e in parts[i]
  {
    if |parts| > 0 {
      var init := parts[..|parts| - 1];
      ConcatMembers(init);
      assert forall i :: 0 <= i < |init| ==> init[i] == parts[i];
    }
  }

  /** What `main` writes: nothing when no entry was found, else `str(tags)`. */
  function TagFile(files: seq<SourceFile>, includeVars: bool): (r: Option<Bytes>)
    ensures r.Some? ==> |Split(r.value, '\n')| >= 6 && Split(r.value, '\n')[..6] == WriteHeaders()
  {
    var entries := CollectEntries(files, includeVars);
    if |entries| == 0 then None else Some(Render(entries))
  }

  /** The loop of `main` over the files, appending to a `Tags` index in place. */
  method Run(files: seq<SourceFile>, includeVars: bool) returns (out: Option<Bytes>)
    ensures out == TagFile(files, includeVars)
  {
    var tags := new Tags();
    var i := 0;
    while i < |files|
      invariant 0 <= i <= |files|
      invariant tags.entries == CollectEntries(files[..i], includeVars)
    {
      tags.Append(FileEntries(files[i], includeVars));
      CollectLast(files[..i + 1], includeVars);
      assert files[..i + 1][..i] == files[..i];
      i := i + 1;
    }
    assert files[..i] == files;
    if |tags.entries| == 0 {
      return None;
    }
    out := Some(tags.ToString());
  }

  // ---------------------------------------------------------------------------
  // What the output holds

  /** Nothing is written exactly when no file yields an entry. */
  lemma {:induction false} NoOutputIffNoEntries(files: seq<SourceFile>, includeVars: bool)
    ensures TagFile(files, includeVars).None? <==> forall i :: 0 <= i < |files| ==> FileEntries(files[i], includeVars) == []
  {
    CollectedEmpty(files, includeVars);
  }

  lemma CollectedEmpty(files: seq<SourceFile>, includeVars: bool)
    ensures CollectEntries(files, includeVars) == [] <==> forall i :: 0 <= i < |files| ==> FileEntries(files[i], includeVars) == []
  {
    var parts := PerFile(files, includeVars);
    ConcatEmpty(parts);
    assert forall i :: 0 <= i < |files| ==> parts[i] == FileEntries(files[i], includeVars);
  }

  /** The entries of earlier files come first, each file's entries kept together in their own order. */
  lemma CollectSplits(files: seq<SourceFile>, k: nat, includeVars: bool)
    requires k <= |files|
    ensures CollectEntries(files, includeVars) == CollectEntries(files[..k], includeVars) + CollectEntries(files[k..], includeVars)
  {
    ConcatSplit(PerFile(files, includeVars), k);
    PerFilePrefix(files, k, includeVars);
    PerFileSuffix(files, k, includeVars);
  }

  lemma PerFilePrefix(files: seq<SourceFile>, k: nat, includeVars: bool)
    requires k <= |files|
    ensures PerFile(files, includeVars)[..k] == PerFile(files[..k], includeVars)
  {
    var a, b := PerFile(files, includeVars)[..k], PerFile(files[..k], includeVars);
    forall i | 0 <= i < k
      ensures a[i] == b[i]
    {
      assert files[..k][i] == files[i];
    }
  }

  lemma PerFileSuffix(files: seq<SourceFile>, k: nat, includeVars: bool)
    requires k <= |files|
    ensures PerFile(files, includeVars)[k..] == PerFile(files[k..], includeVars)
  {
    var a, b := PerFile(files, includeVars)[k..], PerFile(files[k..], includeVars);
    forall i | 0 <= i < |a|
      ensures a[i] == b[i]
    {
      assert files[k..][i] == files[k + i];
    }
  }

  /** Every entry names, with its leading `./` removed, one of the files given. */
  lemma EntriesFromFiles(files: seq<SourceFile>, includeVars: bool)
    ensures forall e :: e in CollectEntries(files, includeVars) ==>
      exists i :: 0 <= i < |files| && e.file == StripDotSlash(files[i].path)
  {
    ConcatMembers(PerFile(files, includeVars));
  }

  /** The entries other than the variables. */
  function NonVariables(s: seq<TagEntry>): (r: seq<TagEntry>)
    ensures forall e :: e in r ==> e in s && e.kind != Variable
  {
    if |s| == 0 then []
    else (if s[0].kind != Variable then [s[0]] else []) + NonVariables(s[1..])
  }

  lemma {:induction false} NonVariablesAppend(a: seq<TagEntry>, b: seq<TagEntry>)
    ensures NonVariables(a + b) == NonVariables(a) + NonVariables(b)
  {
    if |a| > 0 {
      assert (a + b)[1..] == a[1..] + b;
      NonVariablesAppend(a[1..], b);
    } else {
      assert a + b == b;
    }
  }

  lemma {:induction false} NonVariablesKeep(s: seq<TagEntry>)
    requires forall i :: 0 <= i < |s| ==> s[i].kind != Variable
    ensures NonVariables(s) == s
  {
    if |s| > 0 {
      NonVariablesKeep(s[1..]);
      assert s == [s[0]] + s[1..];
    }
  }

  lemma {:induction false} NonVariablesDrop(s: seq<TagEntry>)
    requires forall i :: 0 <= i < |s| ==> s[i].kind == Variable
    ensures NonVariables(s) == []
  {
    if |s| > 0 {
      NonVariablesDrop(s[1..]);
    }
  }

  /**
   * `--include-vars` only adds variable entries: dropping them gives the entries
   * found without the flag, in the same order, and without the flag there are none.
   */
  lemma {:induction false} VarsOnlyAdd(files: seq<SourceFile>)
    ensures NonVariables(CollectEntries(files, true)) == CollectEntries(files, false)
    ensures forall e :: e in CollectEntries(files, false) ==> e.kind != Variable
  {
    ConcatMembers(PerFile(files, false));
    if |files| > 0 {
      var init := files[..|files| - 1];
      var f := files[|files| - 1];
      VarsOnlyAdd(init);
      CollectLast(files, true);
      CollectLast(files, false);
      NonVariablesAppend(CollectEntries(init, true), FileEntries(f, true));
      FileVarsOnlyAdd(f);
    }
  }

  /** For one file, the flag only appends that file's variable entries. */
  lemma FileVarsOnlyAdd(f: SourceFile)
    ensures NonVariables(FileEntries(f, true)) == FileEntries(f, false)
  {
    var name := StripDotSlash(f.path);
    ChainVars(FindEntries(Function, name, f.text), FindEntries(Label, name, f.text), FindEntries(Variable, name, f.text));
  }

  lemma ChainVars(fs: seq<TagEntry>, ls: seq<TagEntry>, vs: seq<TagEntry>)
    requires forall i :: 0 <= i < |fs| ==> fs[i].kind == Function
    requires forall i :: 0 <= i < |ls| ==> ls[i].kind == Label
    requires forall i :: 0 <= i < |vs| ==> vs[i].kind == Variable
    ensures NonVariables(Chain(fs, ls, vs, true)) == Chain(fs, ls, vs, false)
  {
    NonVariablesAppend(fs + ls, vs);
    NonVariablesKeep(fs + ls);
    NonVariablesDrop(vs);
    assert fs + ls + [] == fs + ls;
  }

  /** Every entry's name and address are printable; its file name is the stripped path. */
  lemma FileEntriesPrintable(f: SourceFile, includeVars: bool)
    ensures forall e :: e in FileEntries(f, includeVars) ==>
      (forall m :: 0 <= m < |e.name| ==> IsPrintable(e.name[m])) &&
      (forall m :: 0 <= m < |e.address| ==> IsPrintable(e.address[m]))
  {
    var name := StripDotSlash(f.path);
    forall kind: Kind, i | 0 <= i < |FindEntries(kind, name, f.text)| {
      EntryPrintable(kind, name, f.text, i);
    }
  }

  lemma CollectPrintable(files: seq<SourceFile>, includeVars: bool)
    ensures forall e :: e in CollectEntries(files, includeVars) ==>
      (forall m :: 0 <= m < |e.name| ==> IsPrintable(e.name[m])) &&
      (forall m :: 0 <= m < |e.address| ==> IsPrintable(e.address[m]))
  {
    ConcatMembers(PerFile(files, includeVars));
    forall i | 0 <= i < |files| {
      FileEntriesPrintable(files[i], includeVars);
    }
  }

  /** With clean paths, no entry field holds a tab or a line break. */
  lemma CollectClean(files: seq<SourceFile>, includeVars: bool)
    requires forall i :: 0 <= i < |files| ==> '\n' !in files[i].path && '\t' !in files[i].path
    ensures forall e :: e in CollectEntries(files, includeVars) ==>
      '\n' !in e.name && '\t' !in e.name && '\n' !in e.file && '\t' !in e.file
        && '\n' !in e.address && '\t' !in e.address
  {
    CollectPrintable(files, includeVars);
    EntriesFromFiles(files, includeVars);
    forall e | e in CollectEntries(files, includeVars)
      ensures '\n' !in e.file && '\t' !in e.file
    {
      var i :| 0 <= i < |files| && e.file == StripDotSlash(files[i].path);
      assert e.file == files[i].path || files[i].path == "./" + e.file;
    }
  }

  /**
   * When no path holds a tab or a line break, the written text splits into the
   * six header lines followed by one five-field line per entry, in stable name order.
   */
  lemma OutputLines(files: seq<SourceFile>, includeVars: bool)
    requires forall i :: 0 <= i < |files| ==> '\n' !in files[i].path && '\t' !in files[i].path
    ensures TagFile(files, includeVars).Some? ==>
      var entries := CollectEntries(files, includeVars);
      var lines := Split(TagFile(files, includeVars).value, '\n');
      lines == WriteHeaders() + WriteEntries(entries) &&
      forall i :: 0 <= i < |entries| ==> Split(lines[6 + i], '\t') == EntryFields(SortByName(entries)[i])
  {
    var entries := CollectEntries(files, includeVars);
    CollectClean(files, includeVars);
    RenderLines(entries);
    var sorted := SortByName(entries);
    forall i | 0 <= i < |entries|
      ensures Split(WriteEntries(entries)[i], '\t') == EntryFields(sorted[i])
    {
      assert sorted[i] in multiset(entries);
      EntryLineFields(sorted[i]);
    }
  }
}
