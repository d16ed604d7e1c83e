/**
 * The three line-anchored patterns of the tagger and `finditer` over them.
 *
 *   VARIABLE  ^[ \t]*(?P<name>[a-zA-Z0-9_]+)\s*:?=\s*(;?.*)?$
 *   LABEL     ^[ \t]*(?P<name>\w+):\s*(;.*)?$
 *   FUNCTION  ^[ \t]*(?P<name>\w+)\(.*\)\s*{\s*(;?.*)$
 *
 * All three are compiled with `re.M` over a byte string: `^` holds at the start
 * of the text and after every `\n`, `$` at the end of the text and before every
 * `\n`, `.` is any byte but `\n` (a `\r` included), and `\s` also matches line
 * breaks, so a match may run over several lines.
 *
 * Each recogniser below gives the end of the match Python's backtracking matcher
 * returns at a given start: greedy repetitions take as much as they can and give
 * it back one byte at a time until the rest of the pattern matches. Alongside
 * each sits a declarative description of the same language (`...Shape`) and a
 * lemma that the two agree.
 */
module Patterns {
  import opened ByteStrings
  import opened Wrappers

  /** A tag kind, which also selects the pattern that finds tags of that kind. */
  datatype Kind = Function | Label | Variable

  /** The byte classes the patterns repeat. */
  datatype Class = HSpace | Word | Space

  predicate InClass(c: Byte, k: Class) {
    match k
    case HSpace => IsHSpace(c)
    case Word => IsWordChar(c)
    case Space => IsSpace(c)
  }

  /** Where a greedy repetition of class `k` from `i` stops: the end of the longest run. */
  function Skip(t: Bytes, i: nat, k: Class): (j: nat)
    requires i <= |t|
    ensures i <= j <= |t|
    ensures forall m :: i <= m < j ==> InClass(t[m], k)
    ensures j == |t| || !InClass(t[j], k)
    decreases |t| - i
  {
    if i < |t| && InClass(t[i], k) then Skip(t, i + 1, k) else i
  }

  /** Where a greedy `.*` from `i` stops; it is also the first place from `i` where `$` holds. */
  function LfEnd(t: Bytes, i: nat): (j: nat)
    requires i <= |t|
    ensures i <= j <= |t|
    ensures forall m :: i <= m < j ==> t[m] != '\n'
    ensures j == |t| || t[j] == '\n'
    decreases |t| - i
  {
    if i == |t| || t[i] == '\n' then i else LfEnd(t, i + 1)
  }

  /** `^` under `re.M`. */
  predicate AtLineStart(t: Bytes, p: nat)
    requires p <= |t|
  {
    p == 0 || t[p - 1] == '\n'
  }

  /** Start of the `name` group of a match at `p`: after the leading `[ \t]*`. */
  function NameStart(t: Bytes, p: nat): nat
    requires p <= |t|
  {
    Skip(t, p, HSpace)
  }

  /**
   * End of the `name` group: every pattern needs a non-word byte right after the
   * name, so backtracking can only succeed with the longest word run.
   */
  function NameEnd(t: Bytes, p: nat): (n: nat)
    requires p <= |t|
    ensures NameStart(t, p) <= n <= |t|
  {
    Skip(t, NameStart(t, p), Word)
  }

  /**
   * What every match from `p` to `e` has: a non-empty name, the match reaching past
   * it, and `$` holding at `e`.
   */
  predicate EndsMatch(t: Bytes, p: nat, e: nat)
    requires p <= |t|
  {
    NameStart(t, p) < NameEnd(t, p) <= e <= |t| && (e == |t| || t[e] == '\n')
  }

  // ---------------------------------------------------------------------------
  // VARIABLE

  /**
   * `\s*` after the name takes every blank, line breaks included; `:?=` must then
   * follow, since giving back a blank leaves a blank where `:` or `=` is needed.
   * After `=`, `\s*(;?.*)?$` always succeeds at the first `\n` after the blanks.
   */
  function MatchVariable(t: Bytes, p: nat): (r: Option<nat>)
    requires p <= |t|
    ensures r.Some? ==> EndsMatch(t, p, r.value)
  {
    var h := NameStart(t, p);
    var n := NameEnd(t, p);
    var w := Skip(t, n, Space);
    if n == h then None
    else if w < |t| && t[w] == '=' then Some(LfEnd(t, Skip(t, w + 1, Space)))
    else if w + 1 < |t| && t[w] == ':' && t[w + 1] == '=' then Some(LfEnd(t, Skip(t, w + 2, Space)))
    else None
  }

  ghost predicate Blanks(t: Bytes, i: nat, j: nat) {
    i <= j <= |t| && forall m :: i <= m < j ==> IsSpace(t[m])
  }

  /** An identifier, then blanks (possibly over several lines), then `=` or `:=`. */
  ghost predicate VariableShape(t: Bytes, p: nat)
    requires p <= |t|
  {
    var n := NameEnd(t, p);
    NameStart(t, p) < n &&
    exists j: nat :: Blanks(t, n, j) && j < |t| && (t[j] == '=' || (t[j] == ':' && j + 1 < |t| && t[j + 1] == '='))
  }

  // ---------------------------------------------------------------------------
  // LABEL

  /** The last `\n` in `t[lo..hi]`, if any. */
  function LastLf(t: Bytes, lo: nat, hi: nat): (r: Option<nat>)
    requires lo <= hi <= |t|
    ensures r.Some? ==> lo <= r.value < hi && t[r.value] == '\n'
    ensures r.Some? ==> forall m :: r.value < m < hi ==> t[m] != '\n'
    ensures r.None? ==> forall m :: lo <= m < hi ==> t[m] != '\n'
    decreases hi
  {
    if hi == lo then None
    else if t[hi - 1] == '\n' then Some(hi - 1)
    else LastLf(t, lo, hi - 1)
  }

  /**
   * After `name:`, `\s*` takes every blank. If a `;` follows, `(;.*)` takes the rest
   * of that line and `$` holds; at the end of the text `$` holds too. Otherwise the
   * blanks are given back one at a time and `$` holds first before the last `\n`
   * among them; with no `\n` there, there is no match.
   */
  function MatchLabel(t: Bytes, p: nat): (r: Option<nat>)
    requires p <= |t|
    ensures r.Some? ==> EndsMatch(t, p, r.value)
  {
    var h := NameStart(t, p);
    var n := NameEnd(t, p);
    if n == h || n == |t| || t[n] != ':' then None
    else
      var w := Skip(t, n + 1, Space);
      if w < |t| && t[w] == ';' then Some(LfEnd(t, w))
      else if w == |t| then Some(w)
      else LastLf(t, n + 1, w)
  }

  /**
   * An identifier and a single `:`, then on the rest of that line only blanks,
   * or blanks and a comment starting with `;`.
   */
  ghost predicate LabelShape(t: Bytes, p: nat)
    requires p <= |t|
  {
    var n := NameEnd(t, p);
    NameStart(t, p) < n < |t| && t[n] == ':' &&
    exists j: nat :: Blanks(t, n + 1, j) && j <= LfEnd(t, n + 1) && (j == LfEnd(t, n + 1) || t[j] == ';')
  }

  // ---------------------------------------------------------------------------
  // FUNCTION

  /** Whether `\s*{` matches right after position `k`, as greedy `\s*` then `{` decides it. */
  predicate BraceFollows(t: Bytes, k: nat)
    requires k < |t|
  {
    var w := Skip(t, k + 1, Space);
    w < |t| && t[w] == '{'
  }

  /**
   * The `)` that `\(.*\)\s*{` settles on: `.*` first takes the whole line, then gives
   * it back, so the LAST `)` in `t[lo..hi]` that is followed by blanks and `{`.
   */
  function CloseParen(t: Bytes, lo: nat, hi: nat): (r: Option<nat>)
    requires lo <= hi <= |t|
    ensures r.Some? ==> lo <= r.value < hi && t[r.value] == ')' && BraceFollows(t, r.value)
    ensures r.Some? ==> forall m {:trigger BraceFollows(t, m)} :: r.value < m < hi ==> !(t[m] == ')' && BraceFollows(t, m))
    ensures r.None? ==> forall m {:trigger BraceFollows(t, m)} :: lo <= m < hi ==> !(t[m] == ')' && BraceFollows(t, m))
    decreases hi
  {
    if hi == lo then None
    else if t[hi - 1] == ')' && BraceFollows(t, hi - 1) then Some(hi - 1)
    else CloseParen(t, lo, hi - 1)
  }

  /**
   * Once `{` is matched, `\s*` takes every blank (line breaks included) and `(;?.*)$`
   * takes the rest of the line reached, so the match ends at that line's end.
   */
  function MatchFunction(t: Bytes, p: nat): (r: Option<nat>)
    requires p <= |t|
    ensures r.Some? ==> EndsMatch(t, p, r.value)
  {
    var h := NameStart(t, p);
    var n := NameEnd(t, p);
    if n == h || n == |t| || t[n] != '(' then None
    else
      match CloseParen(t, n + 1, LfEnd(t, n + 1))
      case None => None
      case Some(k) => Some(LfEnd(t, Skip(t, Skip(t, k + 1, Space) + 1, Space)))
  }

  /** Blanks (possibly over several lines) and then `{` after position `k`. */
  ghost predicate BraceAfter(t: Bytes, k: nat) {
    exists w: nat :: Blanks(t, k + 1, w) && w < |t| && t[w] == '{'
  }

  /**
   * An identifier immediately followed by `(`, a later `)` on the same line, then
   * blanks (possibly over several lines) and `{`.
   */
  ghost predicate FunctionShape(t: Bytes, p: nat)
    requires p <= |t|
  {
    var n := NameEnd(t, p);
    NameStart(t, p) < n < |t| && t[n] == '(' &&
    exists k :: n < k < LfEnd(t, n + 1) && t[k] == ')' && BraceAfter(t, k)
  }

  // ---------------------------------------------------------------------------
  // The three together

  /** The end of the match of `kind`'s pattern at `p`, if it matches there. */
  function MatchAt(kind: Kind, t: Bytes, p: nat): (r: Option<nat>)
    requires p <= |t|
    ensures r.Some? ==> EndsMatch(t, p, r.value)
  {
    match kind
    case Function => MatchFunction(t, p)
    case Label => MatchLabel(t, p)
    case Variable => MatchVariable(t, p)
  }

  ghost predicate Shape(kind: Kind, t: Bytes, p: nat)
    requires p <= |t|
  {
    match kind
    case Function => FunctionShape(t, p)
    case Label => LabelShape(t, p)
    case Variable => VariableShape(t, p)
  }

  // ---------------------------------------------------------------------------
  // Each recogniser accepts exactly its shape

  /** A run of class `k` that ends at a byte outside `k` is where `Skip` stops. */
  lemma {:induction false} SkipStopsAt(t: Bytes, i: nat, k: Class, j: nat)
    requires i <= j < |t| && !InClass(t[j], k)
    requires forall m :: i <= m < j ==> InClass(t[m], k)
    ensures Skip(t, i, k) == j
    decreases j - i
  {
    if i < j {
      SkipStopsAt(t, i + 1, k, j);
    }
  }

  /** `Skip` gets at least as far as any run of class `k`. */
  lemma {:induction false} SkipPast(t: Bytes, i: nat, k: Class, j: nat)
    requires i <= j <= |t|
    requires forall m :: i <= m < j ==> InClass(t[m], k)
    ensures j <= Skip(t, i, k)
    decreases j - i
  {
    if i < j {
      SkipPast(t, i + 1, k, j);
    }
  }

  lemma VariableMatchIff(t: Bytes, p: nat)
    requires p <= |t|
    ensures MatchVariable(t, p).Some? <==> VariableShape(t, p)
  {
    if MatchVariable(t, p).Some? {
      VariableMatchSound(t, p);
    }
    if VariableShape(t, p) {
      VariableMatchComplete(t, p);
    }
  }

  lemma VariableMatchSound(t: Bytes, p: nat)
    requires p <= |t| && MatchVariable(t, p).Some?
    ensures VariableShape(t, p)
  {
    var n := NameEnd(t, p);
    assert Blanks(t, n, Skip(t, n, Space));
  }

  lemma VariableMatchComplete(t: Bytes, p: nat)
    requires p <= |t| && VariableShape(t, p)
    ensures MatchVariable(t, p).Some?
  {
    var n := NameEnd(t, p);
    var j: nat :| Blanks(t, n, j) && j < |t| && (t[j] == '=' || (t[j] == ':' && j + 1 < |t| && t[j + 1] == '='));
    VariableMatchAt(t, p, n, j);
  }

  /** With the blanks after the name ending at `j`, the assignment operator is found there. */
  lemma VariableMatchAt(t: Bytes, p: nat, n: nat, j: nat)
    requires p <= |t| && n == NameEnd(t, p) && NameStart(t, p) < n
    requires Blanks(t, n, j) && j < |t| && (t[j] == '=' || (t[j] == ':' && j + 1 < |t| && t[j + 1] == '='))
    ensures MatchVariable(t, p).Some?
  {
    SkipStopsAt(t, n, Space, j);
  }

  lemma LabelMatchIff(t: Bytes, p: nat)
    requires p <= |t|
    ensures MatchLabel(t, p).Some? <==> LabelShape(t, p)
  {
    if MatchLabel(t, p).Some? {
      LabelMatchSound(t, p);
    }
    if LabelShape(t, p) {
      LabelMatchComplete(t, p);
    }
  }

  lemma LabelMatchSound(t: Bytes, p: nat)
    requires p <= |t| && MatchLabel(t, p).Some?
    ensures LabelShape(t, p)
  {
    var n := NameEnd(t, p);
    var w := Skip(t, n + 1, Space);
    var eol := LfEnd(t, n + 1);
    if eol <= w {
      assert Blanks(t, n + 1, eol);
    } else {
      assert Blanks(t, n + 1, w);
    }
  }

  lemma LabelMatchComplete(t: Bytes, p: nat)
    requires p <= |t| && LabelShape(t, p)
    ensures MatchLabel(t, p).Some?
  {
    var n := NameEnd(t, p);
    var j: nat :| Blanks(t, n + 1, j) && j <= LfEnd(t, n + 1) && (j == LfEnd(t, n + 1) || t[j] == ';');
    LabelMatchAt(t, p, n, j);
  }

  /** With only blanks from after the `:` to `j`, and a `;` or the end of the line at `j`, the label matches. */
  lemma LabelMatchAt(t: Bytes, p: nat, n: nat, j: nat)
    requires p <= |t| && n == NameEnd(t, p) && NameStart(t, p) < n < |t| && t[n] == ':'
    requires Blanks(t, n + 1, j) && j <= LfEnd(t, n + 1) && (j == LfEnd(t, n + 1) || t[j] == ';')
    ensures MatchLabel(t, p).Some?
  {
    var eol := LfEnd(t, n + 1);
    if j < eol {
      SkipStopsAt(t, n + 1, Space, j);
    } else if eol < |t| {
      assert Blanks(t, n + 1, eol + 1);
      SkipPast(t, n + 1, Space, eol + 1);
    }
  }

  lemma BraceFollowsIff(t: Bytes, k: nat)
    requires k < |t|
    ensures BraceFollows(t, k) <==> BraceAfter(t, k)
  {
    var w := Skip(t, k + 1, Space);
    if BraceFollows(t, k) {
      assert Blanks(t, k + 1, w);
    }
    if BraceAfter(t, k) {
      var v: nat :| Blanks(t, k + 1, v) && v < |t| && t[v] == '{';
      SkipStopsAt(t, k + 1, Space, v);
    }
  }

  lemma FunctionMatchIff(t: Bytes, p: nat)
    requires p <= |t|
    ensures MatchFunction(t, p).Some? <==> FunctionShape(t, p)
  {
    var h := NameStart(t, p);
    var n := NameEnd(t, p);
    if h < n < |t| && t[n] == '(' {
      var eol := LfEnd(t, n + 1);
      var c := CloseParen(t, n + 1, eol);
      if c.Some? {
        BraceFollowsIff(t, c.value);
      }
      if FunctionShape(t, p) {
        var k :| n < k < eol && t[k] == ')' && BraceAfter(t, k);
        BraceFollowsIff(t, k);
      }
    }
  }

  /** The recogniser of each kind accepts exactly the starts where its shape is found. */
  lemma MatchIff(kind: Kind, t: Bytes, p: nat)
    requires p <= |t|
    ensures MatchAt(kind, t, p).Some? <==> Shape(kind, t, p)
  {
    match kind
    case Function => FunctionMatchIff(t, p);
    case Label => LabelMatchIff(t, p);
    case Variable => VariableMatchIff(t, p);
  }

  // ---------------------------------------------------------------------------
  // finditer

  /** The span `t[start..end]` of one match. */
  datatype Span = Span(start: nat, end: nat)

  /** A compiled pattern applied to a text: the end of its match at each start, if any. */
  type Matcher = nat -> Option<nat>

  /** Every match of `f` in `t` is non-empty and inside `t`. */
  ghost predicate Advances(f: Matcher, t: Bytes) {
    forall p: nat :: p <= |t| && f(p).Some? ==> p < f(p).value <= |t|
  }

  /**
   * `finditer` resumed at `pos`: the first line start from `pos` at which the
   * pattern matches gives a span, and the search goes on from that span's end.
   */
  function FindIter(f: Matcher, t: Bytes, pos: nat): (r: seq<Span>)
    requires pos <= |t| && Advances(f, t)
    ensures forall i :: 0 <= i < |r| ==>
      pos <= r[i].start < r[i].end <= |t| && AtLineStart(t, r[i].start) && f(r[i].start) == Some(r[i].end)
    ensures forall i, j :: 0 <= i < j < |r| ==> r[i].end <= r[j].start
    decreases |t| - pos
  {
    if AtLineStart(t, pos) && f(pos).Some? then [Span(pos, f(pos).value)] + FindIter(f, t, f(pos).value)
    else if pos == |t| then []
    else FindIter(f, t, pos + 1)
  }

  /** Some span of `r` covers position `q`. */
  ghost predicate Covers(r: seq<Span>, q: nat) {
    exists i :: 0 <= i < |r| && r[i].start <= q < r[i].end
  }

  /**
   * No match is skipped: every line start from `pos` on at which the pattern
   * matches is the start of a reported span or lies inside one (a match the
   * previous one swallowed).
   */
  lemma {:induction false} FindIterCovers(f: Matcher, t: Bytes, pos: nat, q: nat)
    requires pos <= q <= |t| && Advances(f, t)
    requires AtLineStart(t, q) && f(q).Some?
    ensures Covers(FindIter(f, t, pos), q)
    decreases |t| - pos
  {
    var r := FindIter(f, t, pos);
    if AtLineStart(t, pos) && f(pos).Some? {
      var rest := FindIter(f, t, f(pos).value);
      assert r == [Span(pos, f(pos).value)] + rest;
      if q < f(pos).value {
        assert r[0].start <= q < r[0].end;
      } else {
        FindIterCovers(f, t, f(pos).value, q);
        var i :| 0 <= i < |rest| && rest[i].start <= q < rest[i].end;
        assert r[i + 1] == rest[i];
      }
    } else {
      FindIterCovers(f, t, pos + 1, q);
    }
  }

  /** The pattern of `kind` applied to `t`. */
  function MatcherOf(kind: Kind, t: Bytes): (f: Matcher)
    ensures Advances(f, t)
  {
    (p: nat) => if p <= |t| then MatchAt(kind, t, p) else None
  }

  /** `regex.finditer(t)` for the pattern of `kind`. */
  function Scan(kind: Kind, t: Bytes): (r: seq<Span>)
    ensures forall i :: 0 <= i < |r| ==>
      r[i].start < r[i].end <= |t| && AtLineStart(t, r[i].start) && MatchAt(kind, t, r[i].start) == Some(r[i].end)
    ensures forall i, j :: 0 <= i < j < |r| ==> r[i].end <= r[j].start
  {
    FindIter(MatcherOf(kind, t), t, 0)
  }

  /** Every line start at which the pattern of `kind` matches is covered by a span of `Scan`. */
  lemma ScanCovers(kind: Kind, t: Bytes, q: nat)
    requires q <= |t| && AtLineStart(t, q) && MatchAt(kind, t, q).Some?
    ensures Covers(Scan(kind, t), q)
  {
    FindIterCovers(MatcherOf(kind, t), t, 0, q);
  }
}
