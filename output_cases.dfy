/**
 * Concrete inputs worked through escaping, line numbering, path handling and
 * entry rendering.
 */
module OutputCases {
  import opened ByteStrings
  import opened Wrappers
  import opened Escaping
  import opened Lines
  import opened Extractor
  import opened TagIndex
  import opened Pipeline
  import Patterns

  /** Kept as it is: `string_escape` leaves `/` alone, so a `/` in a line ends the search early. */
  lemma SlashNotEscaped()
    ensures Address("a/b") == "/^a/b$/"
  {
    assert Escape("b") == "b";
    assert Escape("/b") == "/b";
    assert Escape("a/b") == "a/b";
  }

  /** Quotes, backslashes and control bytes are escaped; they decode back. */
  lemma EscapesQuoteAndTab()
    ensures Escape("it's\t") == "it\\'s\\t"
    ensures Unescape("it\\'s\\t") == Some("it's\t")
  {
    assert Escape("\t") == "\\t";
    assert Escape("s\t") == "s\\t";
    assert Escape("'s\t") == "\\'s\\t";
    UnescapeEscape("it's\t");
  }

  /** `\r\n`, a lone `\r` and a lone `\n` each end one line. */
  lemma MixedLineBreaks()
    ensures LineNumber("a\r\nb\rc\nd", 7) == 4
  {
    var t: Bytes := "a\r\nb\rc\nd";
    var s: Bytes := "a\r\nb\rc\n";
    assert t[..7] == s;
    assert CountBreaks(s[6..]) == 1;
    assert CountBreaks(s[5..]) == 1;
    assert CountBreaks(s[4..]) == 2;
    assert CountBreaks(s[3..]) == 2;
  }

  /** One leading `./` goes, and only one. */
  lemma DotSlashStrippedOnce()
    ensures StripDotSlash("./lib.ahk") == "lib.ahk"
    ensures StripDotSlash("././lib.ahk") == "./lib.ahk"
    ensures StripDotSlash("lib/x.ahk") == "lib/x.ahk"
  {
    var a: Bytes := "./lib.ahk";
    var b: Bytes := "././lib.ahk";
    var c: Bytes := "lib/x.ahk";
    assert a[..2] == "./" && a[2..] == "lib.ahk";
    assert b[..2] == "./" && b[2..] == "./lib.ahk";
    assert c[1] == 'i';
  }
}
