/**
 * Python 2's `string_escape` codec, which turns the first line of a match into
 * the text of a tag's search address, and the decoding that undoes it.
 *
 * A backslash and a single quote get a backslash in front; tab, LF and CR become
 * `\t`, `\n`, `\r`; every other byte below 0x20 or from 0x7f up becomes `\xNN`
 * with two lower-case hex digits; everything else, `/` included, is copied.
 */
module Escaping {
  import opened ByteStrings
  import opened Wrappers

  /** The bytes `string_escape` copies through unchanged or emits: 0x20 to 0x7e. */
  predicate IsPrintable(c: Byte) {
    ' ' <= c <= '~'
  }

  /** A lower-case hex digit, as `%02x` writes it. */
  function HexDigit(d: nat): (c: Byte)
    requires d < 16
    ensures IsPrintable(c)
  {
    if d < 10 then ('0' as int + d) as char else ('a' as int + d - 10) as char
  }

  /** The value of a lower-case hex digit. */
  function HexValue(c: Byte): Option<nat> {
    if '0' <= c <= '9' then Some(c as int - '0' as int)
    else if 'a' <= c <= 'f' then Some(c as int - 'a' as int + 10)
    else None
  }

  /** The escape of one byte. */
  function EscapeByte(c: Byte): (r: Bytes)
    ensures forall i :: 0 <= i < |r| ==> IsPrintable(r[i])
  {
    if c == '\\' || c == '\'' then ['\\', c]
    else if c == '\t' then ['\\', 't']
    else if c == '\n' then ['\\', 'n']
    else if c == '\r' then ['\\', 'r']
    else if c < ' ' || c as int >= 0x7f then ['\\', 'x', HexDigit(c as int / 16), HexDigit(c as int % 16)]
    else [c]
  }

  /** `s.encode('string_escape')`: the result holds printable bytes only. */
  function Escape(s: Bytes): (r: Bytes)
    ensures forall i :: 0 <= i < |r| ==> IsPrintable(r[i])
  {
    if |s| == 0 then [] else EscapeByte(s[0]) + Escape(s[1..])
  }

  function Prepend(c: Byte, o: Option<Bytes>): Option<Bytes> {
    match o
    case Some(t) => Some([c] + t)
    case None => None
  }

  /** Decoding of the escapes `Escape` writes; `None` for a dangling or unknown escape. */
  function Unescape(s: Bytes): Option<Bytes>
    decreases |s|
  {
    if |s| == 0 then Some([])
    else if s[0] != '\\' then Prepend(s[0], Unescape(s[1..]))
    else if |s| < 2 then None
    else if s[1] == '\\' || s[1] == '\'' then Prepend(s[1], Unescape(s[2..]))
    else if s[1] == 't' then Prepend('\t', Unescape(s[2..]))
    else if s[1] == 'n' then Prepend('\n', Unescape(s[2..]))
    else if s[1] == 'r' then Prepend('\r', Unescape(s[2..]))
    else if s[1] == 'x' && |s| >= 4 && HexValue(s[2]).Some? && HexValue(s[3]).Some? then
      Prepend((HexValue(s[2]).value * 16 + HexValue(s[3]).value) as char, Unescape(s[4..]))
    else None
  }

  lemma HexDigitValue(d: nat)
    requires d < 16
    ensures HexValue(HexDigit(d)) == Some(d)
  {
  }

  lemma UnescapeEscapeByte(c: Byte, rest: Bytes)
    ensures Unescape(EscapeByte(c) + rest) == Prepend(c, Unescape(rest))
  {
    var e := EscapeByte(c);
    assert (e + rest)[|e|..] == rest;
    if |e| == 4 {
      HexDigitValue(c as int / 16);
      HexDigitValue(c as int % 16);
    }
  }

  /** Decoding an escaped line gives the line back, so distinct lines get distinct addresses. */
  lemma {:induction false} UnescapeEscape(s: Bytes)
    ensures Unescape(Escape(s)) == Some(s)
  {
    if |s| > 0 {
      UnescapeEscapeByte(s[0], Escape(s[1..]));
      UnescapeEscape(s[1..]);
      assert [s[0]] + s[1..] == s;
    }
  }

  /**
   * `/` is not escaped: every slash of the line is still in the escaped text, where
   * it can end a `/.../` address early.
   */
  lemma {:induction false} EscapeKeepsSlashes(s: Bytes)
    ensures Count(Escape(s), '/') == Count(s, '/')
  {
    if |s| > 0 {
      EscapeKeepsSlashes(s[1..]);
      CountAppend(EscapeByte(s[0]), Escape(s[1..]), '/');
      var e := EscapeByte(s[0]);
      if s[0] == '/' {
        assert e == ['/'] && e[1..] == [];
      } else {
        assert '/' !in e;
        CountAbsent(e, '/');
      }
    }
  }

  /** A byte `string_escape` copies as it is: printable, and neither a backslash nor a quote. */
  predicate IsPlain(c: Byte) {
    IsPrintable(c) && c != '\\' && c != '\''
  }

  /** Text made of plain bytes only is its own escape: only the bytes outside it change. */
  lemma {:induction false} EscapePlain(s: Bytes)
    requires forall i :: 0 <= i < |s| ==> IsPlain(s[i])
    ensures Escape(s) == s
  {
    if |s| > 0 {
      EscapePlain(s[1..]);
      assert EscapeByte(s[0]) == [s[0]];
      assert s == [s[0]] + s[1..];
    }
  }
}
