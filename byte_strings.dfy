/**
 * Python 2 byte strings (`str`) and the handful of operations on them that the
 * tagger relies on: the character classes of its patterns, `sep.join`, the
 * decimal rendering of a line number, and the byte-wise order `sorted` uses.
 */
module ByteStrings {

  /** One byte of a Python 2 `str`, kept as a character below 256. */
  type Byte = c: char | c as int < 256 witness 'a'

  /** A Python 2 `str`. */
  type Bytes = seq<Byte>

  /** `\w`, and also `[a-zA-Z0-9_]`: on byte strings without LOCALE or UNICODE they agree. */
  predicate IsWordChar(c: Byte) {
    ('a' <= c <= 'z') || ('A' <= c <= 'Z') || ('0' <= c <= '9') || c == '_'
  }

  /** `\s` on byte strings: space, and tab, LF, VT, FF, CR (bytes 9 to 13). */
  predicate IsSpace(c: Byte) {
    c == ' ' || ('\t' <= c <= '\r')
  }

  /** `[ \t]`. */
  predicate IsHSpace(c: Byte) {
    c == ' ' || c == '\t'
  }

  /** A byte at which `str.splitlines` breaks a line. */
  predicate IsBreak(c: Byte) {
    c == '\n' || c == '\r'
  }

  /** An identifier as the patterns capture it: `\w+`. */
  predicate IsIdentifier(s: Bytes) {
    |s| > 0 && forall i :: 0 <= i < |s| ==> IsWordChar(s[i])
  }

  /** The number of occurrences of `c` in `s`. */
  function Count(s: Bytes, c: Byte): nat {
    if |s| == 0 then 0 else (if s[0] == c then 1 else 0) + Count(s[1..], c)
  }

  lemma {:induction false} CountAppend(a: Bytes, b: Bytes, c: Byte)
    ensures Count(a + b, c) == Count(a, c) + Count(b, c)
  {
    if |a| > 0 {
      assert (a + b)[1..] == a[1..] + b;
      CountAppend(a[1..], b, c);
    } else {
      assert a + b == b;
    }
  }

  lemma {:induction false} CountAbsent(s: Bytes, c: Byte)
    requires c !in s
    ensures Count(s, c) == 0
  {
    if |s| > 0 {
      CountAbsent(s[1..], c);
    }
  }

  lemma {:induction false} CountPositive(s: Bytes, c: Byte, i: nat)
    requires i < |s| && s[i] == c
    ensures Count(s, c) > 0
  {
    if i > 0 {
      CountPositive(s[1..], c, i - 1);
    }
  }

  // ---------------------------------------------------------------------------
  // `sep.join(parts)` and its inverse `s.split(sep)`

  /**
   * `sep.join(parts)` for a one-byte separator: the first part, then (when there
   * are more) the separator. `SplitJoin` shows `Split` takes it apart again.
   */
  function Join(parts: seq<Bytes>, sep: Byte): (r: Bytes)
    ensures |parts| > 0 ==> |parts[0]| <= |r| && r[..|parts[0]|] == parts[0]
    ensures |parts| > 1 ==> |parts[0]| < |r| && r[|parts[0]|] == sep
  {
    if |parts| == 0 then []
    else if |parts| == 1 then parts[0]
    else parts[0] + [sep] + Join(parts[1..], sep)
  }

  /** `s.split(sep)` for a one-byte separator: never empty, `"".split(sep) == [""]`. */
  function Split(s: Bytes, sep: Byte): (r: seq<Bytes>)
    ensures |r| > 0
  {
    if |s| == 0 then [[]]
    else if s[0] == sep then [[]] + Split(s[1..], sep)
    else
      var rest := Split(s[1..], sep);
      [[s[0]] + rest[0]] + rest[1..]
  }

  lemma {:induction false} SplitWithout(s: Bytes, sep: Byte)
    requires sep !in s
    ensures Split(s, sep) == [s]
  {
    if |s| > 0 {
      SplitWithout(s[1..], sep);
      assert [s[0]] + s[1..] == s;
    }
  }

  lemma {:induction false} SplitAfter(a: Bytes, b: Bytes, sep: Byte)
    requires sep !in a
    ensures Split(a + [sep] + b, sep) == [a] + Split(b, sep)
  {
    if |a| == 0 {
      assert (a + [sep] + b)[1..] == b;
    } else {
      assert (a + [sep] + b)[1..] == a[1..] + [sep] + b;
      SplitAfter(a[1..], b, sep);
      assert [a[0]] + a[1..] == a;
    }
  }

  /** Splitting a join at the separator gives back the parts, when no part contains it. */
  lemma {:induction false} SplitJoin(parts: seq<Bytes>, sep: Byte)
    requires |parts| > 0
    requires forall i :: 0 <= i < |parts| ==> sep !in parts[i]
    ensures Split(Join(parts, sep), sep) == parts
  {
    if |parts| == 1 {
      SplitWithout(parts[0], sep);
    } else {
      SplitJoin(parts[1..], sep);
      SplitAfter(parts[0], Join(parts[1..], sep), sep);
    }
  }

  lemma JoinThree(a: Bytes, b: Bytes, c: Bytes, sep: Byte)
    ensures Join([a, b, c], sep) == a + [sep] + b + [sep] + c
  {
    assert [a, b, c][1..] == [b, c];
    assert [b, c][1..] == [c];
    assert Join([b, c], sep) == b + [sep] + c;
    assert a + [sep] + (b + [sep] + c) == a + [sep] + b + [sep] + c;
  }

  lemma JoinFive(a: Bytes, b: Bytes, c: Bytes, d: Bytes, e: Bytes, sep: Byte)
    ensures Join([a, b, c, d, e], sep) == a + [sep] + b + [sep] + c + [sep] + d + [sep] + e
  {
    assert [a, b, c, d, e][1..] == [b, c, d, e];
    JoinThree(c, d, e, sep);
    assert [b, c, d, e][1..] == [c, d, e];
    assert Join([b, c, d, e], sep) == b + [sep] + (c + [sep] + d + [sep] + e);
    assert a + [sep] + (b + [sep] + (c + [sep] + d + [sep] + e)) == a + [sep] + b + [sep] + c + [sep] + d + [sep] + e;
  }

  /** Splitting a join gives back its leading parts that hold no separator, whatever follows. */
  lemma {:induction false} SplitJoinPrefix(parts: seq<Bytes>, n: nat, sep: Byte)
    requires 0 < n <= |parts|
    requires forall i :: 0 <= i < n ==> sep !in parts[i]
    ensures |Split(Join(parts, sep), sep)| >= n
    ensures Split(Join(parts, sep), sep)[..n] == parts[..n]
  {
    if |parts| == 1 {
      SplitWithout(parts[0], sep);
    } else {
      SplitAfter(parts[0], Join(parts[1..], sep), sep);
      if n > 1 {
        SplitJoinPrefix(parts[1..], n - 1, sep);
        assert parts[..n] == [parts[0]] + parts[1..][..n - 1];
      }
    }
  }

  // ---------------------------------------------------------------------------
  // Decimal rendering of a line number (`'{}'.format(n)` for a natural number)

  function DigitChar(d: nat): (c: Byte)
    requires d < 10
    ensures '0' <= c <= '9'
  {
    ('0' as int + d) as char
  }

  /** `'{}'.format(n)`: the decimal digits of `n`, without leading zeros. */
  function Decimal(n: nat): (r: Bytes)
    ensures |r| > 0
    ensures forall i :: 0 <= i < |r| ==> '0' <= r[i] <= '9'
    ensures r[0] == '0' <==> n == 0
  {
    if n < 10 then [DigitChar(n)] else Decimal(n / 10) + [DigitChar(n % 10)]
  }

  /** The number a string of decimal digits denotes. */
  function DecimalValue(s: Bytes): nat
    requires forall i :: 0 <= i < |s| ==> '0' <= s[i] <= '9'
  {
    if |s| == 0 then 0
    else DecimalValue(s[..|s| - 1]) * 10 + (s[|s| - 1] as int - '0' as int)
  }

  /** The rendered line number reads back as the same number. */
  lemma {:induction false} DecimalRoundTrip(n: nat)
    ensures DecimalValue(Decimal(n)) == n
  {
    if n >= 10 {
      var r := Decimal(n);
      assert r[..|r| - 1] == Decimal(n / 10);
      DecimalRoundTrip(n / 10);
    }
  }

  // ---------------------------------------------------------------------------
  // Byte-wise lexicographic order, as Python 2 compares `str` values

  /** `a <= b` on Python 2 `str`: byte by byte, a proper prefix first. */
  predicate LexLe(a: Bytes, b: Bytes)
    ensures a <= b ==> LexLe(a, b)
  {
    |a| == 0 || (|b| > 0 && (a[0] < b[0] || (a[0] == b[0] && LexLe(a[1..], b[1..]))))
  }

  lemma {:induction false} LexLeReflexive(a: Bytes)
    ensures LexLe(a, a)
  {
    if |a| > 0 {
      LexLeReflexive(a[1..]);
    }
  }

  lemma {:induction false} LexLeTotal(a: Bytes, b: Bytes)
    ensures LexLe(a, b) || LexLe(b, a)
  {
    if |a| > 0 && |b| > 0 && a[0] == b[0] {
      LexLeTotal(a[1..], b[1..]);
    }
  }

  lemma {:induction false} LexLeAntisymmetric(a: Bytes, b: Bytes)
    requires LexLe(a, b) && LexLe(b, a)
    ensures a == b
  {
    if |a| > 0 {
      LexLeAntisymmetric(a[1..], b[1..]);
      assert a == [a[0]] + a[1..] && b == [b[0]] + b[1..];
    }
  }

  lemma {:induction false} LexLeTransitive(a: Bytes, b: Bytes, c: Bytes)
    requires LexLe(a, b) && LexLe(b, c)
    ensures LexLe(a, c)
  {
    if |a| > 0 && a[0] == b[0] && b[0] == c[0] {
      LexLeTransitive(a[1..], b[1..], c[1..]);
    }
  }

  /** Strings that agree before `k` and differ at `k` compare as the bytes at `k` do. */
  lemma {:induction false} LexLeAt(a: Bytes, b: Bytes, k: nat)
    requires k < |a| && k < |b| && a[..k] == b[..k] && a[k] < b[k]
    ensures LexLe(a, b) && !LexLe(b, a)
    decreases k
  {
    if k > 0 {
      assert a[0] == a[..k][0] && b[0] == b[..k][0];
      assert a[1..][..k - 1] == a[..k][1..] && b[1..][..k - 1] == b[..k][1..];
      LexLeAt(a[1..], b[1..], k - 1);
    }
  }
}
