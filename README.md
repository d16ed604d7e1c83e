# ahktags in Dafny

A model of `ahktags`, which scans AutoHotkey scripts and writes a tag index in
the extended ctags format. It covers the three patterns that recognise function
definitions, labels and variable assignments. It covers `find_entries`, which
turns each match into a tag entry with a line number and a `/^...$/` search
address. It covers the `Tags` index, which accumulates entries and renders six
header lines followed by the entries stably sorted by name. It also covers the
part of `main` that chains the patterns per file and decides whether anything
is written.

Text is a Python 2 byte string: `ByteStrings.Bytes`, a sequence of characters
below 256.

Modules, in dependency order:

- `Wrappers`: the `Option` type.
- `ByteStrings`:
  - the character classes `\w`, `\s` and `[ \t]`;
  - `Count`;
  - `Join` and `Split` on a one-byte separator;
  - the decimal rendering of a line number;
  - the byte-wise order `sorted` uses on names.
- `Escaping`: Python 2's `string_escape` codec and a decoder for it.
- `Lines`:
  - the break count behind the line number (`\r\n`, lone `\r`, lone `\n`);
  - the first line of a match as `splitlines()[0]` gives it.
- `Patterns`:
  - `VARIABLE`, `LABEL` and `FUNCTION`, each as a recogniser returning where the
    match ends, as Python's backtracking order decides it;
  - a declarative shape per pattern, with a proof that the recogniser matches at
    exactly the starts where the shape is found (where a match ends is decided by
    the recogniser alone);
  - `finditer` as a scan for leftmost, non-overlapping matches at line starts.
- `Extractor`: `find_entries`.
- `TagIndex`: the header table, the entry-line format, the stable sort by name,
  and the `Tags` class with its `entries` field appended to in place.
- `Pipeline`:
  - path normalisation;
  - the per-file chain function → label → variable;
  - the loop of `main` as a method over a `Tags` object;
  - the rule that nothing is written when no entry is found.
- `PatternCases`, `OutputCases` and `EntryCases`: concrete inputs worked
  through the model. They cover the accepted and rejected label and function
  lines, and the behaviours listed below.

Behaviours of the program that the model keeps as they are:

- `string_escape` does not escape `/`, so a matched line that holds `/` gives
  an address that ends early: an address delimited by `/` needs any `/`
  inside it escaped, and `string_escape` does not escape it
  (`Escaping.EscapeKeepsSlashes`, `OutputCases.SlashNotEscaped`).
- `FUNCTION` accepts any word followed by `(...)` and `{`, so `if(x) {` is
  tagged as a function named `if` (`PatternCases.IfStatementTagged`).
- After a definition's `{`, the pattern's `\s*` runs over line breaks and its
  `(;?.*)$` takes the rest of the line it reaches. When only blanks follow the
  `{`, the match therefore runs to the end of the next non-blank line, and a
  definition there gets no entry (`PatternCases.HeaderSwallowed`). When code
  follows the `{` on its line, the match ends with that line and nothing is
  swallowed (`PatternCases.CodeAfterBraceScan`).
- `VARIABLE` has the same `\s*` after `=`: a legacy assignment `x =` that ends
  its line swallows the next non-blank line, and a variable assigned there gets
  no entry (`PatternCases.LegacySwallowed`).
- The same `\s*` lets the match of a variable run over blank lines between the
  name and `=`: `x` alone on its line, followed by `= 1`, is tagged
  (`PatternCases.VariableOverBlankLine`). The entry's address still uses only
  the first line.

## Model

| member | source | states |
|---|---|---|
| ByteStrings.Decimal | ahktags.py:42 | `{}` of a line number: non-empty, digits only, and a leading `0` only for zero |
| ByteStrings.Join | ahktags.py:35 | `'\n'.join`: the text opens with the first part, followed by the separator when there are more parts; `ByteStrings.SplitJoin` is its inverse |
| ByteStrings.DecimalRoundTrip | ahktags.py:42 | reading the digits back gives the line number |
| ByteStrings.SplitJoin | ahktags.py:35 | splitting the `\n`-joined lines gives the lines back when none holds a `\n` |
| ByteStrings.LexLe | ahktags.py:41 | the byte-wise `<=` of Python 2 `str` holds whenever `a` is a prefix of `b`; `LexLeTotal`, `LexLeAntisymmetric` and `LexLeTransitive` make it a total order |
| ByteStrings.LexLeAt | ahktags.py:41 | two names that agree up to a position where the first has the lower byte are strictly ordered |
| ByteStrings.LexLeTotal | ahktags.py:41 | any two names are ordered one way or the other |
| ByteStrings.LexLeAntisymmetric | ahktags.py:41 | names ordered both ways are equal |
| ByteStrings.LexLeTransitive | ahktags.py:41 | the name order is transitive |
| Escaping.Escape | ahktags.py:89 | `string_escape` output holds printable bytes only (space to `~`) |
| Escaping.UnescapeEscape | ahktags.py:89 | decoding the escaped line gives the line back |
| Escaping.EscapeKeepsSlashes | ahktags.py:89 | escaping leaves every `/` as it is, so there are as many `/` after as before |
| Escaping.EscapePlain | ahktags.py:89 | a line of printable bytes with no backslash and no quote is its own escape |
| Lines.CountBreaks | ahktags.py:88 | the `findall` count is at most the length, and zero exactly when no byte is `\r` or `\n`; `Lines.CountBreaksByKind` gives its value |
| Lines.LineNumber | ahktags.py:88 | the line number of offset `p` lies between 1 and `p + 1`; `Lines.LineNumberMonotone` and `Lines.LineNumberAdvances` relate offsets |
| Lines.CountBreaksByKind | ahktags.py:88 | the `findall` count is the number of `\n` plus the `\r` not followed by `\n` |
| Lines.CountBreaksAppend | ahktags.py:88 | counting over two joined pieces loses one break exactly where `\r` meets `\n` |
| Lines.LineNumberMonotone | ahktags.py:88 | a later offset never has a smaller line number |
| Lines.LineNumberAdvances | ahktags.py:88 | an offset after a `\n` has a larger line number than any earlier non-break byte |
| Lines.FirstLine | ahktags.py:89 | `splitlines()[0]` holds no `\r` or `\n` |
| Lines.FirstLineOfSpan | ahktags.py:89 | the first line of a match is the whole physical line the match starts on |
| Patterns.Skip | ahktags.py:11-13 | a greedy class repetition stops at the end of the longest run |
| Patterns.LfEnd | ahktags.py:11-13 | a greedy `.*` stops at the first `\n` or the end of the text, where `$` holds |
| Patterns.MatchVariable | ahktags.py:11 | a `VARIABLE` match has a non-empty name and ends where `$` holds |
| Patterns.MatchLabel | ahktags.py:12 | a `LABEL` match has a non-empty name and ends where `$` holds |
| Patterns.MatchFunction | ahktags.py:13 | a `FUNCTION` match has a non-empty name and ends where `$` holds |
| Patterns.LastLf | ahktags.py:12 | the last `\n` in a range, or none there |
| Patterns.CloseParen | ahktags.py:13 | the last `)` on the line followed by blanks and `{`, or none |
| Patterns.MatchAt | ahktags.py:11-13 | a match of any of the three patterns ends where `$` holds; `Patterns.MatchIff` says where each one matches |
| Patterns.VariableMatchIff | ahktags.py:11 | `VARIABLE` matches at a position exactly when an identifier is followed by blanks and then `=` or `:=` |
| Patterns.LabelMatchIff | ahktags.py:12 | `LABEL` matches exactly when an identifier and one `:` are followed on that line by blanks or by blanks and a `;` comment |
| Patterns.BraceFollowsIff | ahktags.py:13 | greedy `\s*{` succeeds exactly when blanks and then `{` follow |
| Patterns.FunctionMatchIff | ahktags.py:13 | `FUNCTION` matches exactly when an identifier, `(`, a later `)` on the same line, blanks and `{` follow |
| Patterns.MatchIff | ahktags.py:11-13 | each recogniser accepts exactly its pattern's shape |
| Patterns.FindIter | ahktags.py:87 | `finditer` spans lie in the text, start at line starts where the pattern matches, and do not overlap |
| Patterns.FindIterCovers | ahktags.py:87 | every line start where the pattern matches starts a span or lies inside one |
| Patterns.Scan | ahktags.py:87 | the spans of one pattern's `finditer` over a text are matches at line starts, in order, without overlap |
| Patterns.ScanCovers | ahktags.py:87 | no match at a line start is skipped unless an earlier span covers it |
| Extractor.FindEntries | ahktags.py:86-95 | one entry per match with the given kind and file, an identifier as name, and strictly increasing line numbers |
| Extractor.KindName | ahktags.py:70-72 | the `field` written for a kind is a non-empty lower-case word |
| Extractor.KindNameInjective | ahktags.py:70-72 | different kinds are written as different words |
| Extractor.Address | ahktags.py:93 | the address is `/^`, then text that decodes back to the line, then `$/` |
| Extractor.EntryOf | ahktags.py:88-95 | one entry has the given kind and file, an identifier as its name, and a line number from 1 to one past the match start; `Extractor.EntryAddress` and `Extractor.EntryLineNumber` give the address and the line |
| Extractor.MatchStartsOnLine | ahktags.py:11-13 | a match never starts on a line break |
| Extractor.LinesIncrease | ahktags.py:88 | no two matches of one pattern start on the same line |
| Extractor.EntryLineNumber | ahktags.py:88 | the line is 1 plus the `\n` bytes plus the lone `\r` bytes before the match |
| Extractor.EntryAddress | ahktags.py:89-93 | the address is `/^` + the escaped line of the match start + `$/`, it decodes back, and that line opens with the name after blanks, the name taking the whole word run there |
| Extractor.OpensWithUnique | ahktags.py:91 | a line opens with at most one such identifier, so the entry's name is the whole captured `name` group |
| Extractor.EntryPrintable | ahktags.py:89-93 | the name and the address hold printable bytes only |
| Extractor.EntryShape | ahktags.py:87 | each entry stands at a line start where its pattern's shape is found |
| Extractor.ShapeFound | ahktags.py:87 | a line start with the shape gets an entry or lies inside an earlier match |
| TagIndex.WriteHeaders | ahktags.py:37-38 | there are six header lines |
| TagIndex.HeaderNamesAscending | ahktags.py:20-29 | the header table lists its names in strictly increasing byte order, so the header lines are sorted as `_TAG_FILE_SORTED 1` announces |
| TagIndex.HeaderLine | ahktags.py:38 | a header line starts with `!`; `TagIndex.HeaderLineFields` gives its three fields |
| TagIndex.HeaderSortsFirst | ahktags.py:34-43 | every header line sorts strictly before every entry line |
| TagIndex.HeaderLineFields | ahktags.py:20-38 | each header line is the three tab-separated fields `!NAME`, value and `/comment/`, in the table's order |
| TagIndex.SortByName | ahktags.py:41 | the sorted entries are ordered by name, are a permutation of the entries, and keep the insertion order among equal names |
| TagIndex.StableSortUnique | ahktags.py:41 | there is only one order that is sorted by name and keeps the insertion order among equal names |
| TagIndex.WriteEntries | ahktags.py:40-43 | there is one entry line per entry |
| TagIndex.EntryLine | ahktags.py:42 | an entry line opens with the name and a tab; `TagIndex.EntryLineFields` gives its five fields |
| TagIndex.EntryLineFields | ahktags.py:42 | an entry line is the five tab-separated fields name, file, address with `;"`, kind and `line:N` |
| TagIndex.Render | ahktags.py:34-35 | the text opens with the six header lines |
| TagIndex.RenderLines | ahktags.py:34-43 | the lines of the text are exactly the header lines, then one line per entry in name order |
| TagIndex.Tags.constructor | ahktags.py:31-32 | a new index has no entries |
| TagIndex.Tags.Append | ahktags.py:74 | appending adds the new entries after the old ones and changes nothing else |
| TagIndex.Tags.ToString | ahktags.py:34-35 | `str(tags)` opens with the six header lines |
| Pipeline.StripDotSlash | ahktags.py:67 | at most one leading `./` is removed, and nothing else changes |
| Pipeline.Chain | ahktags.py:69-73 | the chained entries are those of the three kinds, variables only with the flag, and no more; `Pipeline.KindBlocks` gives their order |
| Pipeline.KindBlocks | ahktags.py:69-73 | chaining one block per kind, each in line order, gives entries of one file ordered by kind (function, label, variable) and then by line |
| Pipeline.FileEntries | ahktags.py:67-73 | a file's entries carry its stripped name, are ordered function, label, variable, follow line order within a kind, and hold variables only with the flag |
| Pipeline.Run | ahktags.py:64-77 | the loop over the files appends to a `Tags` index and yields its text, or nothing when it is empty |
| Pipeline.TagFile | ahktags.py:76-77 | any text written opens with the six header lines; `Pipeline.NoOutputIffNoEntries` says when nothing is written |
| Pipeline.NoOutputIffNoEntries | ahktags.py:76-77 | nothing is written exactly when no file yields an entry |
| Pipeline.CollectSplits | ahktags.py:65-74 | the entries of earlier files come first, each file's entries together |
| Pipeline.EntriesFromFiles | ahktags.py:65-74 | every entry names one of the given files with its `./` removed |
| Pipeline.VarsOnlyAdd | ahktags.py:72-73 | the variables flag only adds variable entries: dropping them gives the entries found without it |
| Pipeline.OutputLines | ahktags.py:34-43 | with clean paths the written text is the header lines, then one five-field line per entry in stable name order |
| PatternCases.LabelAlone | ahktags.py:12 | `Bar:` is a label |
| PatternCases.LabelWithComment | ahktags.py:12 | `Bar:  ; note` is a label, and the match takes the comment |
| PatternCases.LabelThenCode | ahktags.py:12 | a label followed by code on the next line matches up to its own line's end |
| PatternCases.AssignmentNotLabel | ahktags.py:12 | `Bar:=1` is not a label |
| PatternCases.DoubleColonNotLabel | ahktags.py:12 | `Bar::` is not a label |
| PatternCases.CodeAfterColonNotLabel | ahktags.py:12 | `Bar: x` is not a label |
| PatternCases.FunctionSameLine | ahktags.py:13 | `Foo(a, b) {` is a definition named `Foo`, matched to its line's end |
| PatternCases.FunctionBraceNextLine | ahktags.py:13 | `Foo()` with `{` opening the next line is a definition named `Foo`, the match running onto that line |
| PatternCases.FunctionCallRejected | ahktags.py:13 | `Foo()` with no brace is not a definition |
| PatternCases.IfStatementTagged | ahktags.py:13 | `if(x) {` matches to its end, and its name group spans `if` from offset 0 to 2 |
| PatternCases.HeaderSwallowed | ahktags.py:13 | a definition on the line after a brace line has the shape, but the scan finds only the first |
| PatternCases.CodeAfterBraceScan | ahktags.py:13 | with code after the first `{`, the scan finds both definitions, the first ending with its own line |
| PatternCases.LegacySwallowed | ahktags.py:11 | the line after `x =` is an assignment on its own, but the scan finds only the first match, which runs over it |
| PatternCases.VariableOverBlankLine | ahktags.py:11 | `x` alone on its line, followed by `= 1` on the next, is an assignment whose match runs to the end of the text |
| OutputCases.SlashNotEscaped | ahktags.py:89-93 | a `/` passes through escaping into the address |
| OutputCases.EscapesQuoteAndTab | ahktags.py:89 | a quote and a tab become `\'` and `\t`, and decode back |
| OutputCases.MixedLineBreaks | ahktags.py:88 | `\r\n`, `\r` and `\n` each count as one line break |
| OutputCases.DotSlashStrippedOnce | ahktags.py:67 | `./lib.ahk` becomes `lib.ahk`, `././lib.ahk` becomes `./lib.ahk`, and other paths stay |
| EntryCases.LabelScriptEntry | ahktags.py:86-95 | a label on line 2 gives one entry with its name, the address `/^Bar:$/` and line 2 |

## Left out

- Command-line parsing with `argparse` is left out: the file list and the `--include-vars` flag are parameters of `Pipeline.Run`.
- The `-f` option is left out. That includes `print` to standard output, which appends one newline, and writing the tags file.
- Opening and reading scripts is left out: a script is given as its path and text.
- `-R` and its `glob('./**/*.ahk')` are left out. The files found that way only extend the list given to `Pipeline.Run`.
- `--list-kinds` is left out: it is parsed but never consulted.
- `setup.py` and packaging are left out.
- The model has no general regular-expression engine. Only the three fixed patterns are modelled, as recognisers. They are proved to match at exactly the starts where declarative shapes are found. Only the recognisers decide where a match ends.
- Text is bytes. Unicode input, locale-dependent `\w` and source encodings are not modelled.
- TagIndex.WriteEntries: its own contract only gives the line count. The line contents are stated by `TagIndex.RenderLines`, `TagIndex.EntryLineFields` and `Pipeline.OutputLines`.
- Pipeline.OutputLines: it requires paths with no tab or line break. The program writes such paths unchanged, and the line and field structure is then lost.
