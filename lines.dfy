/**
 * Line numbers and first lines: how the extractor turns a match position into
 * a 1-based line number and a match span into the line its address searches for.
 */
module Lines {
  import opened ByteStrings

  /**
   * `len(re.findall(r'(\r\n|\r|\n)', s))`: a left-to-right scan that takes `\r\n`
   * as one break when it can, and a lone `\r` or `\n` otherwise.
   */
  function CountBreaks(s: Bytes): (r: nat)
    ensures r <= |s|
    ensures r == 0 <==> forall k :: 0 <= k < |s| ==> !IsBreak(s[k])
  {
    if |s| == 0 then 0
    else if |s| >= 2 && s[0] == '\r' && s[1] == '\n' then 1 + CountBreaks(s[2..])
    else if IsBreak(s[0]) then 1 + CountBreaks(s[1..])
    else CountBreaks(s[1..])
  }

  /** The number of `\r` bytes in `s` that are not immediately followed by `\n`. */
  function LoneCRs(s: Bytes): nat {
    if |s| == 0 then 0
    else (if s[0] == '\r' && (|s| == 1 || s[1] != '\n') then 1 else 0) + LoneCRs(s[1..])
  }

  /** Every `\n` counts once (with or without a `\r` before it), and so does every lone `\r`. */
  lemma {:induction false} CountBreaksByKind(s: Bytes)
    ensures CountBreaks(s) == Count(s, '\n') + LoneCRs(s)
  {
    if |s| >= 2 && s[0] == '\r' && s[1] == '\n' {
      CountBreaksByKind(s[2..]);
      assert s[1..][1..] == s[2..];
    } else if |s| > 0 {
      CountBreaksByKind(s[1..]);
    }
  }

  /** A break is lost at a join only where a `\r` ending `a` meets a `\n` starting `b`. */
  lemma {:induction false} CountBreaksAppend(a: Bytes, b: Bytes)
    ensures CountBreaks(a + b)
              + (if |a| > 0 && |b| > 0 && a[|a| - 1] == '\r' && b[0] == '\n' then 1 else 0)
            == CountBreaks(a) + CountBreaks(b)
  {
    if |a| == 0 {
      assert a + b == b;
    } else if |a| >= 2 && a[0] == '\r' && a[1] == '\n' {
      assert (a + b)[2..] == a[2..] + b;
      CountBreaksAppend(a[2..], b);
    } else {
      assert (a + b)[1..] == a[1..] + b;
      CountBreaksAppend(a[1..], b);
    }
  }

  lemma CountBreaksOfLF(s: Bytes)
    requires '\n' in s
    ensures CountBreaks(s) > 0
  {
    var i :| 0 <= i < |s| && s[i] == '\n';
    CountPositive(s, '\n', i);
    CountBreaksByKind(s);
  }

  /** The 1-based number of the line holding position `p`: one more than the breaks before it. */
  function LineNumber(t: Bytes, p: nat): (r: nat)
    requires p <= |t|
    ensures 1 <= r <= p + 1
  {
    CountBreaks(t[..p]) + 1
  }

  /** Line numbers never decrease along the text. */
  lemma LineNumberMonotone(t: Bytes, p: nat, q: nat)
    requires p <= q <= |t|
    ensures LineNumber(t, p) <= LineNumber(t, q)
  {
    assert t[..q] == t[..p] + t[p..q];
    CountBreaksAppend(t[..p], t[p..q]);
    if p < q && p > 0 && t[p - 1] == '\r' && t[p] == '\n' {
      assert '\n' in t[p..q];
      CountBreaksOfLF(t[p..q]);
    }
  }

  /**
   * A position just after a `\n` is on a later line than any earlier position
   * that does not hold a line break.
   */
  lemma LineNumberAdvances(t: Bytes, p: nat, q: nat)
    requires p < q <= |t| && t[q - 1] == '\n' && !IsBreak(t[p])
    ensures LineNumber(t, p) < LineNumber(t, q)
  {
    assert t[..q] == t[..p] + t[p..q];
    CountBreaksAppend(t[..p], t[p..q]);
    assert t[p..q][q - 1 - p] == '\n';
    CountBreaksOfLF(t[p..q]);
  }

  /** The first position from `i` on that holds a line break, or the end of `s`. */
  function LineEnd(s: Bytes, i: nat): (j: nat)
    requires i <= |s|
    ensures i <= j <= |s|
    ensures forall k :: i <= k < j ==> !IsBreak(s[k])
    ensures j == |s| || IsBreak(s[j])
    decreases |s| - i
  {
    if i == |s| || IsBreak(s[i]) then i else LineEnd(s, i + 1)
  }

  /** `s.splitlines()[0]` for a non-empty `s` (`splitlines` breaks at `\r\n`, `\r` and `\n`). */
  function FirstLine(s: Bytes): (r: Bytes)
    requires |s| > 0
    ensures forall k :: 0 <= k < |r| ==> !IsBreak(r[k])
  {
    s[..LineEnd(s, 0)]
  }

  /**
   * When a span ends at a `\n` or at the end of the text, its first line is the
   * whole physical line it starts on, however many lines the span covers.
   */
  lemma FirstLineOfSpan(t: Bytes, p: nat, e: nat)
    requires p < e <= |t| && (e == |t| || t[e] == '\n')
    ensures FirstLine(t[p..e]) == t[p..LineEnd(t, p)]
  {
    var s := t[p..e];
    var j := LineEnd(t, p);
    assert j <= e;
    LineEndShift(t, p, e, 0);
  }

  lemma {:induction false} LineEndShift(t: Bytes, p: nat, e: nat, i: nat)
    requires p <= e <= |t| && (e == |t| || t[e] == '\n') && i <= e - p
    ensures LineEnd(t[p..e], i) == LineEnd(t, p + i) - p
    decreases e - p - i
  {
    if i < e - p && !IsBreak(t[p + i]) {
      LineEndShift(t, p, e, i + 1);
    }
  }
}
