/**
 * The multiline-header rule (ConditionalIndentationSniff): when the
 * parentheses after a control keyword span several lines, the first token
 * after `(` must start a new line, and every line inside must be indented
 * one level (four columns) deeper than the line of the `(`.
 *
 * Widths count a tab as four columns. The checks and fixes are loops over
 * token indices (methods), each proved against a function that states the
 * reports or edits it records.
 */
module Indentation {
  import opened Tokens
  import opened Text
  import opened Phpcs

  // ---------------------------------------------------------------------
  // Base indentation of the line holding the open parenthesis

  /**
   * The downward scan from `i` for a token on a line before `line`: one
   * past the first such token, or None when every token down to 0 is on
   * `line` or later.
   */
  function LineStartFrom(ts: seq<Token>, i: int, line: int): (r: Option<nat>)
    requires i < |ts|
    ensures r.Some? ==> 1 <= r.value <= i + 1 && ts[r.value - 1].line < line
    ensures r.Some? ==> forall k :: r.value <= k <= i ==> ts[k].line >= line
    ensures r.None? ==> forall k :: 0 <= k <= i ==> ts[k].line >= line
    decreases i + 1
  {
    if i < 0 then None
    else if ts[i].line < line then Some(i + 1)
    else LineStartFrom(ts, i - 1, line)
  }

  /** The first token of the line of `o`, if an earlier line exists. */
  function LineStart(ts: seq<Token>, o: nat): (r: Option<nat>)
    requires o < |ts|
    ensures r.Some? ==> 1 <= r.value <= o && ts[r.value - 1].line < ts[o].line
  {
    LineStartFrom(ts, o, ts[o].line)
  }

  /** The summed widths of the whitespace tokens from `j` up to the first other token or `hi`. */
  function LeadWidth(ts: seq<Token>, j: nat, hi: nat): nat
    requires hi <= |ts|
    decreases hi - j
  {
    if j >= hi || ts[j].kind != Whitespace then 0
    else Width(ts[j].content) + LeadWidth(ts, j + 1, hi)
  }

  /** The end of the whitespace run that starts at `j`, looking no further than `hi`. */
  function RunEnd(ts: seq<Token>, j: nat, hi: nat): (r: nat)
    requires j <= hi <= |ts|
    ensures j <= r <= hi
    ensures forall k :: j <= k < r ==> ts[k].kind == Whitespace
    ensures r < hi ==> ts[r].kind != Whitespace
  {
    match FindNext(ts, {Whitespace}, j, hi, true)
    case None => hi
    case Some(e) => e
  }

  /**
   * The base indent of the line of the open parenthesis `o`: the width of
   * the whitespace that starts its line, 0 when `o` is on the first line.
   */
  function BaseIndent(ts: seq<Token>, o: nat): nat
    requires o < |ts|
  {
    match LineStart(ts, o)
    case None => 0
    case Some(s) => LeadWidth(ts, s, o)
  }

  /** `Width` adds up over concatenation. */
  lemma WidthAppend(a: string, b: string)
    ensures Width(a + b) == Width(a) + Width(b)
  {
    TabsAppend(a, b);
  }

  /**
   * The width summed token by token is the width of the text of the
   * whitespace run: its length plus three per tab.
   */
  lemma {:induction false} LeadWidthIsRunWidth(ts: seq<Token>, j: nat, hi: nat)
    requires j <= hi <= |ts|
    ensures LeadWidth(ts, j, hi) == Width(TextOf(ts, j, RunEnd(ts, j, hi)))
    ensures LeadWidth(ts, j, hi) == |TextOf(ts, j, RunEnd(ts, j, hi))| + 3 * Tabs(TextOf(ts, j, RunEnd(ts, j, hi)))
    decreases hi - j
  {
    var e := RunEnd(ts, j, hi);
    if j < hi && ts[j].kind == Whitespace {
      assert FindNext(ts, {Whitespace}, j, hi, true) == FindNext(ts, {Whitespace}, j + 1, hi, true);
      LeadWidthIsRunWidth(ts, j + 1, hi);
      WidthAppend(ts[j].content, TextOf(ts, j + 1, e));
    } else {
      assert e == j;
    }
  }

  /** The first loop of `calculateBaseIndent`: the downward scan for an earlier line. */
  method FindLineStart(ts: seq<Token>, o: nat) returns (lineStart: Option<nat>)
    requires o < |ts|
    ensures lineStart == LineStart(ts, o)
  {
    var line := ts[o].line;
    lineStart := None;
    var i: int := o;
    while i >= 0
      invariant -1 <= i <= o
      invariant LineStart(ts, o) == LineStartFrom(ts, i, line)
      decreases i + 1
    {
      if ts[i].line < line {
        lineStart := Some(i + 1);
        return;
      }
      i := i - 1;
    }
  }

  /** The second loop of `calculateBaseIndent`: the widths of the whitespace tokens from `j` on, before `o`. */
  method MeasureLead(ts: seq<Token>, start: nat, o: nat) returns (width: nat)
    requires o < |ts|
    ensures width == LeadWidth(ts, start, o)
  {
    width := 0;
    var j := start;
    while j < o
      invariant start <= j
      invariant width + LeadWidth(ts, j, o) == LeadWidth(ts, start, o)
      decreases o - j
    {
      if ts[j].kind == Whitespace {
        width := width + |ExpandTabs(ts[j].content)|;
      } else {
        break;
      }
      j := j + 1;
    }
  }

  /** `calculateBaseIndent`, written twice in the source with the same two loops. */
  method ComputeBaseIndent(ts: seq<Token>, o: nat) returns (base: nat)
    requires o < |ts|
    ensures base == BaseIndent(ts, o)
  {
    var lineStart := FindLineStart(ts, o);
    base := 0;
    if lineStart.Some? {
      base := MeasureLead(ts, lineStart.value, o);
    }
  }

  // ---------------------------------------------------------------------
  // fixOpenParenthesisPlacement

  /** Edits blanking every whitespace token in `[lo, hi)`, in index order. */
  function Clear(ts: seq<Token>, lo: nat, hi: nat): (r: seq<Edit>)
    requires hi <= |ts|
    ensures forall ed :: ed in r ==> lo <= ed.pos < hi && ed == Replace(ed.pos, "") && ts[ed.pos].kind == Whitespace
    ensures forall k :: lo <= k < hi && ts[k].kind == Whitespace ==> Replace(k, "") in r
    decreases hi
  {
    if hi <= lo then []
    else Clear(ts, lo, hi - 1) + (if ts[hi - 1].kind == Whitespace then [Replace(hi - 1, "")] else [])
  }

  /**
   * The edits of `fixOpenParenthesisPlacement` for the open parenthesis
   * `o` and the first token `n` after it that is not whitespace.
   */
  function OpenParenEdits(ts: seq<Token>, o: nat, n: nat): seq<Edit>
    requires o < n <= |ts|
  {
    [AddBefore(n, "\n" + Spaces(BaseIndent(ts, o) + 4))] + Clear(ts, o + 1, n)
  }

  /** The loop of `fixOpenParenthesisPlacement` blanking the whitespace tokens in `[lo, hi)`. */
  method ClearWhitespace(file: File, lo: nat, hi: nat)
    requires lo <= hi <= |file.tokens|
    modifies file.fixer
    ensures file.fixer.edits == old(file.fixer.edits) + Clear(file.tokens, lo, hi)
  {
    var ts := file.tokens;
    var i := lo;
    while i < hi
      invariant lo <= i <= hi
      invariant file.fixer.edits == old(file.fixer.edits) + Clear(ts, lo, i)
      decreases hi - i
    {
      ghost var cleared := Clear(ts, lo, i);
      if ts[i].kind == Whitespace {
        file.fixer.ReplaceToken(i, "");
        assert Clear(ts, lo, i + 1) == cleared + [Replace(i, "")];
        AppendAssoc(old(file.fixer.edits), cleared, [Replace(i, "")]);
      } else {
        assert Clear(ts, lo, i + 1) == cleared + [];
        assert cleared + [] == cleared;
      }
      i := i + 1;
    }
  }

  method FixOpenParenthesisPlacement(file: File, o: nat, n: nat)
    requires o < n <= |file.tokens|
    modifies file.fixer
    ensures file.fixer.edits == old(file.fixer.edits) + OpenParenEdits(file.tokens, o, n)
  {
    var base := ComputeBaseIndent(file.tokens, o);
    file.fixer.AddContentBefore(n, "\n" + Spaces(base + 4));
    ClearWhitespace(file, o + 1, n);
    AppendAssoc(old(file.fixer.edits), [AddBefore(n, "\n" + Spaces(base + 4))], Clear(file.tokens, o + 1, n));
  }

  /**
   * After the fix the first content token reads as a newline, the expected
   * indent in spaces and its old text, and every whitespace token between
   * the parenthesis and it reads as "".
   */
  lemma OpenParenFixRenders(ts: seq<Token>, o: nat, n: nat)
    requires o < n < |ts|
    ensures Rendered(ts, OpenParenEdits(ts, o, n), n) == "\n" + Spaces(BaseIndent(ts, o) + 4) + ts[n].content
    ensures forall k :: o < k < n && ts[k].kind == Whitespace ==> Rendered(ts, OpenParenEdits(ts, o, n), k) == ""
  {
    var text := "\n" + Spaces(BaseIndent(ts, o) + 4);
    var head := [AddBefore(n, text)];
    var clear := Clear(ts, o + 1, n);
    RewriteAppend(head, clear, 0, n, ts[n].content);
    forall j | 0 <= j < |clear|
      ensures clear[j].pos != n
    {
      assert clear[j] in clear;
    }
    RewriteUntouched(clear, 0, n, text + ts[n].content);
    forall k | o < k < n && ts[k].kind == Whitespace
      ensures Rendered(ts, OpenParenEdits(ts, o, n), k) == ""
    {
      RewriteAppend(head, clear, 0, k, ts[k].content);
      assert Replace(k, "") in clear;
      forall j | 0 <= j < |clear| && clear[j].pos == k
        ensures clear[j] == Replace(k, "")
      {
        assert clear[j] in clear;
      }
      RewriteBlanked(clear, 0, k, ts[k].content);
    }
  }

  // ---------------------------------------------------------------------
  // checkOpenParenthesisPlacement

  /** The first token after the open parenthesis `o` that is not whitespace. */
  function NextContent(ts: seq<Token>, o: nat): Option<nat> {
    FindNext(ts, {Whitespace}, o + 1, |ts|, true)
  }

  /**
   * OpenParenthesisPlacement is reported at `o` iff the first token after
   * it that is not whitespace exists and lies on the line of `o`.
   */
  function ParenReports(ts: seq<Token>, o: nat): (r: seq<Report>)
    requires o < |ts|
    ensures r != [] <==>
      exists n :: o < n < |ts| && ts[n].kind != Whitespace && ts[n].line == ts[o].line
        && forall k :: o < k < n ==> ts[k].kind == Whitespace
    ensures r == [] || r == [Report(Error, OpenParenthesisPlacement, o, [], true)]
  {
    match NextContent(ts, o)
    case None => []
    case Some(n) => if ts[o].line == ts[n].line then [Report(Error, OpenParenthesisPlacement, o, [], true)] else []
  }

  function ParenEdits(ts: seq<Token>, o: nat): seq<Edit>
    requires o < |ts|
  {
    match NextContent(ts, o)
    case None => []
    case Some(n) => if ts[o].line == ts[n].line then OpenParenEdits(ts, o, n) else []
  }

  method CheckOpenParenthesisPlacement(file: File, o: nat)
    requires o < |file.tokens|
    modifies file, file.fixer
    ensures file.reports == old(file.reports) + ParenReports(file.tokens, o)
    ensures file.fixing ==> file.fixer.edits == old(file.fixer.edits) + ParenEdits(file.tokens, o)
    ensures !file.fixing ==> file.fixer.edits == old(file.fixer.edits)
  {
    var ts := file.tokens;
    var next := FindNext(ts, {Whitespace}, o + 1, |ts|, true);
    if next.None? {
      return;
    }
    var n := next.value;
    if ts[o].line == ts[n].line {
      var fix := file.AddFixableError(OpenParenthesisPlacement, o, []);
      if fix {
        FixOpenParenthesisPlacement(file, o, n);
      }
    }
  }

  // ---------------------------------------------------------------------
  // fixIndentation

  /** The downward walk of `fixIndentation` from `k` while the line stays that of `t`, stopping at 0. */
  function LineBackFrom(ts: seq<Token>, k: nat, t: nat): (r: nat)
    requires k <= t < |ts|
    ensures r <= k
    ensures r > 0 ==> ts[r].line != ts[t].line
    ensures forall m :: r < m <= k ==> ts[m].line == ts[t].line
    decreases k
  {
    if k > 0 && ts[k].line == ts[t].line then LineBackFrom(ts, k - 1, t) else k
  }

  /**
   * The `line_start` of `fixIndentation`: one past where the walk stops.
   * It is the first token of the line of `t` unless the walk reaches token
   * 0, in which case it is 1 (token 0 is never looked at).
   */
  function LineBegin(ts: seq<Token>, t: nat): (r: nat)
    requires t < |ts|
    ensures 1 <= r <= t + 1
  {
    LineBackFrom(ts, t, t) + 1
  }

  /** The number of leading spaces and tabs of `s`, at most `n`. */
  function Blanks(s: string, n: nat): (r: nat)
    ensures r <= n && r <= |s|
    ensures forall k :: 0 <= k < r ==> s[k] == ' ' || s[k] == '\t'
    ensures r < n && r < |s| ==> s[r] != ' ' && s[r] != '\t'
  {
    if n == 0 || s == [] || (s[0] != ' ' && s[0] != '\t') then 0 else 1 + Blanks(s[1..], n - 1)
  }

  /** `r` is `s` with some leading spaces and tabs, and nothing else, taken off. */
  predicate BlankTrimmed(s: string, r: string) {
    |r| <= |s| && s[|s| - |r|..] == r && forall k :: 0 <= k < |s| - |r| ==> s[k] == ' ' || s[k] == '\t'
  }

  /**
   * `preg_replace('/^[ \t]{1,n}/', '', s)`: drop up to `n` leading spaces
   * and tabs, as many as there are when fewer than `n`.
   */
  function TrimBlanks(s: string, n: nat): (r: string)
    ensures BlankTrimmed(s, r) && |s| - |r| <= n
    ensures |s| - |r| < n && r != [] ==> r[0] != ' ' && r[0] != '\t'
  {
    s[Blanks(s, n)..]
  }

  /**
   * The trim loop of `fixIndentation` from `i`, with `remaining` characters
   * still to remove: each whitespace token before `first` loses up to
   * `remaining` leading blanks and is recorded even when unchanged; the
   * loop stops once nothing remains to remove.
   */
  function TrimEdits(ts: seq<Token>, i: nat, first: nat, remaining: nat): seq<Edit>
    requires first <= |ts|
    decreases first - i
  {
    if i >= first then []
    else if ts[i].kind == Whitespace then
      var c := ts[i].content;
      var trimmed := TrimBlanks(c, remaining);
      var left := remaining - (|c| - |trimmed|);
      [Replace(i, trimmed)] + (if left <= 0 then [] else TrimEdits(ts, i + 1, first, left))
    else TrimEdits(ts, i + 1, first, remaining)
  }

  /**
   * The edits of `fixIndentation` for the token `t` found with indent
   * `current` where `expected` is required.
   */
  function IndentFix(ts: seq<Token>, t: nat, expected: int, current: int): seq<Edit>
    requires t < |ts|
  {
    var ls := LineBegin(ts, t);
    match FindNext(ts, {Whitespace}, ls, |ts|, true)
    case None => []
    case Some(f) =>
      if ts[f].line != ts[t].line then [] else Resize(ts, ls, f, expected - current)
  }

  /**
   * The edits for a difference `d` between expected and found indent on
   * the line from `ls` whose first content token is `f`: `d` spaces before
   * `f` when positive, the trim loop when negative, nothing when zero.
   */
  function Resize(ts: seq<Token>, ls: nat, f: nat, d: int): seq<Edit>
    requires f <= |ts|
  {
    if d > 0 then [AddBefore(f, Spaces(d))]
    else if d < 0 then TrimEdits(ts, ls, f, -d)
    else []
  }

  /** The `line_start` walk of `fixIndentation`. */
  method FindLineBegin(ts: seq<Token>, t: nat) returns (lineStart: nat)
    requires t < |ts|
    ensures lineStart == LineBegin(ts, t)
  {
    var k: nat := t;
    while k > 0 && ts[k].line == ts[t].line
      invariant k <= t
      invariant LineBackFrom(ts, t, t) == LineBackFrom(ts, k, t)
      decreases k
    {
      k := k - 1;
    }
    lineStart := k + 1;
  }

  /** The trim loop of `fixIndentation`, with its `spaces_to_remove` counter. */
  method TrimIndentation(file: File, lineStart: nat, first: nat, toRemove: nat)
    requires first <= |file.tokens|
    modifies file.fixer
    ensures file.fixer.edits == old(file.fixer.edits) + TrimEdits(file.tokens, lineStart, first, toRemove)
  {
    var ts := file.tokens;
    var remaining: nat := toRemove;
    var i := lineStart;
    while i < first
      invariant lineStart <= i
      invariant file.fixer.edits + TrimEdits(ts, i, first, remaining) == old(file.fixer.edits) + TrimEdits(ts, lineStart, first, toRemove)
      decreases first - i
    {
      if ts[i].kind == Whitespace {
        var content := TrimBlanks(ts[i].content, remaining);
        file.fixer.ReplaceToken(i, content);
        var removed := |ts[i].content| - |content|;
        if remaining - removed <= 0 {
          break;
        }
        remaining := remaining - removed;
      }
      i := i + 1;
    }
  }

  /** The three-way branch of `fixIndentation` on the difference `d`, for the line from `lineStart` whose first content token is `first`. */
  method ResizeIndentation(file: File, lineStart: nat, first: nat, d: int)
    requires first <= |file.tokens|
    modifies file.fixer
    ensures file.fixer.edits == old(file.fixer.edits) + Resize(file.tokens, lineStart, first, d)
  {
    if d > 0 {
      file.fixer.AddContentBefore(first, Spaces(d));
    } else if d < 0 {
      TrimIndentation(file, lineStart, first, -d);
    } else {
      assert old(file.fixer.edits) + [] == old(file.fixer.edits);
    }
  }

  method FixIndentation(file: File, t: nat, expected: int, current: int)
    requires t < |file.tokens|
    modifies file.fixer
    ensures file.fixer.edits == old(file.fixer.edits) + IndentFix(file.tokens, t, expected, current)
  {
    var ts := file.tokens;
    var lineStart := FindLineBegin(ts, t);
    var firstContent := FindNext(ts, {Whitespace}, lineStart, |ts|, true);
    if firstContent.None? || ts[firstContent.value].line != ts[t].line {
      assert IndentFix(ts, t, expected, current) == [];
      assert old(file.fixer.edits) + [] == old(file.fixer.edits);
      return;
    }
    var first := firstContent.value;
    assert IndentFix(ts, t, expected, current) == Resize(ts, lineStart, first, expected - current);
    ResizeIndentation(file, lineStart, first, expected - current);
  }

  /** The characters the edits remove from the tokens they replace, added up. */
  function Removed(ts: seq<Token>, edits: seq<Edit>): int {
    if edits == [] then 0
    else (if edits[0].Replace? && edits[0].pos < |ts| then |ts[edits[0].pos].content| - |edits[0].text| else 0)
         + Removed(ts, edits[1..])
  }

  lemma {:induction false} RemovedAppend(ts: seq<Token>, a: seq<Edit>, b: seq<Edit>)
    ensures Removed(ts, a + b) == Removed(ts, a) + Removed(ts, b)
  {
    if a != [] {
      assert (a + b)[1..] == a[1..] + b;
      RemovedAppend(ts, a[1..], b);
    } else {
      assert a + b == b;
    }
  }

  /** The trim loop removes at most `remaining` characters in all. */
  lemma {:induction false} TrimEditsBounded(ts: seq<Token>, i: nat, first: nat, remaining: nat)
    requires first <= |ts|
    ensures 0 <= Removed(ts, TrimEdits(ts, i, first, remaining)) <= remaining
    decreases first - i
  {
    if i < first {
      if ts[i].kind == Whitespace {
        var c := ts[i].content;
        var trimmed := TrimBlanks(c, remaining);
        var left := remaining - (|c| - |trimmed|);
        var rest := if left <= 0 then [] else TrimEdits(ts, i + 1, first, left);
        assert TrimEdits(ts, i, first, remaining) == [Replace(i, trimmed)] + rest;
        RemovedAppend(ts, [Replace(i, trimmed)], rest);
        assert Removed(ts, [Replace(i, trimmed)]) == |c| - |trimmed|;
        if left > 0 {
          TrimEditsBounded(ts, i + 1, first, left);
        }
      } else {
        TrimEditsBounded(ts, i + 1, first, remaining);
      }
    }
  }

  /**
   * The trim loop replaces only whitespace tokens in `[i, first)`, each by
   * a suffix of its own text that leaves out only spaces and tabs.
   */
  lemma {:induction false} TrimEditsShape(ts: seq<Token>, i: nat, first: nat, remaining: nat)
    requires first <= |ts|
    ensures forall ed :: ed in TrimEdits(ts, i, first, remaining) ==>
      && ed.Replace? && i <= ed.pos < first && ts[ed.pos].kind == Whitespace
      && BlankTrimmed(ts[ed.pos].content, ed.text)
    decreases first - i
  {
    if i < first {
      if ts[i].kind == Whitespace {
        var c := ts[i].content;
        var trimmed := TrimBlanks(c, remaining);
        var left := remaining - (|c| - |trimmed|);
        var rest := if left <= 0 then [] else TrimEdits(ts, i + 1, first, left);
        assert TrimEdits(ts, i, first, remaining) == [Replace(i, trimmed)] + rest;
        if left > 0 {
          TrimEditsShape(ts, i + 1, first, left);
        }
      } else {
        TrimEditsShape(ts, i + 1, first, remaining);
      }
    }
  }

  /** A zero difference records nothing. */
  lemma IndentFixNoDifference(ts: seq<Token>, t: nat, width: int)
    requires t < |ts|
    ensures IndentFix(ts, t, width, width) == []
  {
  }

  /**
   * `f` is the first content token of the line of `t`: on that line, at
   * or after its `line_start`, and preceded there only by whitespace.
   */
  predicate FirstContent(ts: seq<Token>, t: nat, f: nat)
    requires t < |ts|
  {
    && LineBegin(ts, t) <= f < |ts| && ts[f].kind != Whitespace && ts[f].line == ts[t].line
    && forall k :: LineBegin(ts, t) <= k < f ==> ts[k].kind == Whitespace
  }

  /** The first content token of the line is the one `fixIndentation` finds after `line_start`. */
  lemma FirstContentFound(ts: seq<Token>, t: nat, f: nat)
    requires t < |ts| && FirstContent(ts, t, f)
    ensures FindNext(ts, {Whitespace}, LineBegin(ts, t), |ts|, true) == Some(f)
  {
    var n := FindNext(ts, {Whitespace}, LineBegin(ts, t), |ts|, true);
    assert Hit(ts[f], {Whitespace}, true);
    assert n.Some? && n.value <= f;
  }

  /**
   * A positive difference inserts exactly that many spaces, never a tab,
   * before the first content token of the line of `t`, and nothing else;
   * a line without content on it gets nothing.
   */
  lemma IndentFixGrows(ts: seq<Token>, t: nat, expected: int, current: int)
    requires t < |ts| && expected > current
    ensures forall f :: FirstContent(ts, t, f) ==>
      IndentFix(ts, t, expected, current) == [AddBefore(f, Spaces(expected - current))]
    ensures (forall f :: !FirstContent(ts, t, f)) ==> IndentFix(ts, t, expected, current) == []
  {
    forall f | FirstContent(ts, t, f)
      ensures IndentFix(ts, t, expected, current) == [AddBefore(f, Spaces(expected - current))]
    {
      FirstContentFound(ts, t, f);
    }
    var n := FindNext(ts, {Whitespace}, LineBegin(ts, t), |ts|, true);
    if n.Some? && ts[n.value].line == ts[t].line {
      assert FirstContent(ts, t, n.value);
    }
  }

  /**
   * A negative difference records exactly the trim loop from the start of
   * the line of `t` up to its first content token, with the difference as
   * the characters to remove; a line without content on it gets nothing.
   * `TrimEditsBounded` and `TrimEditsShape` say what that loop may touch.
   */
  lemma IndentFixShrinks(ts: seq<Token>, t: nat, expected: int, current: int)
    requires t < |ts| && expected < current
    ensures forall f :: FirstContent(ts, t, f) ==>
      IndentFix(ts, t, expected, current) == TrimEdits(ts, LineBegin(ts, t), f, current - expected)
    ensures (forall f :: !FirstContent(ts, t, f)) ==> IndentFix(ts, t, expected, current) == []
  {
    forall f | FirstContent(ts, t, f)
      ensures IndentFix(ts, t, expected, current) == TrimEdits(ts, LineBegin(ts, t), f, current - expected)
    {
      FirstContentFound(ts, t, f);
    }
    var n := FindNext(ts, {Whitespace}, LineBegin(ts, t), |ts|, true);
    if n.Some? && ts[n.value].line == ts[t].line {
      assert FirstContent(ts, t, n.value);
    }
  }

  /** A content token past token 0 has a first content token on its line, at or before it. */
  lemma ContentLineHasFirst(ts: seq<Token>, t: nat) returns (f: nat)
    requires 1 <= t < |ts| && ts[t].kind != Whitespace
    ensures f <= t && FirstContent(ts, t, f)
  {
    var r := LineBackFrom(ts, t, t);
    assert r < t;
    var n := FindNext(ts, {Whitespace}, r + 1, |ts|, true);
    assert Hit(ts[t], {Whitespace}, true);
    f := n.value;
    assert ts[f].line == ts[t].line;
  }

  /**
   * Where `checkConditionalIndentation` calls `fixIndentation`, a line
   * indented too little always gets the missing spaces before its first
   * content token.
   */
  lemma LineEditsGrow(ts: seq<Token>, i: nat, close: nat, expected: nat, m: Misindent) returns (f: nat)
    requires 1 <= i < close < |ts| && LineCheck(ts, i, close, expected) == Some(m) && m.found < expected
    ensures f <= m.pos && FirstContent(ts, m.pos, f)
    ensures LineEdits(ts, i, close, expected) == [AddBefore(f, Spaces(expected - m.found))]
  {
    f := ContentLineHasFirst(ts, m.pos);
    FirstContentFound(ts, m.pos, f);
  }

  /**
   * Where `checkConditionalIndentation` calls `fixIndentation`, a line
   * indented too much always gets the trim loop up to its first content
   * token.
   */
  lemma LineEditsShrink(ts: seq<Token>, i: nat, close: nat, expected: nat, m: Misindent) returns (f: nat)
    requires 1 <= i < close < |ts| && LineCheck(ts, i, close, expected) == Some(m) && m.found > expected
    ensures f <= m.pos && FirstContent(ts, m.pos, f)
    ensures LineEdits(ts, i, close, expected) == TrimEdits(ts, LineBegin(ts, m.pos), f, m.found - expected)
  {
    f := ContentLineHasFirst(ts, m.pos);
    LineEditsTrimAt(ts, i, close, expected, m, f);
  }

  /** With the line's first content token `f` known, its edits are the trim loop up to `f`. */
  lemma LineEditsTrimAt(ts: seq<Token>, i: nat, close: nat, expected: nat, m: Misindent, f: nat)
    requires 1 <= i < close < |ts| && LineCheck(ts, i, close, expected) == Some(m) && m.found > expected
    requires FirstContent(ts, m.pos, f)
    ensures LineEdits(ts, i, close, expected) == TrimEdits(ts, LineBegin(ts, m.pos), f, m.found - expected)
  {
    TrimAtFirstContent(ts, m.pos, f, expected, m.found);
    LineEditsFix(ts, i, close, expected, m);
  }

  /** For a finding `m`, the line's edits are those of `fixIndentation` at `m`. */
  lemma LineEditsFix(ts: seq<Token>, i: nat, close: nat, expected: nat, m: Misindent)
    requires 1 <= i < close < |ts| && LineCheck(ts, i, close, expected) == Some(m)
    ensures m.pos < |ts| && LineEdits(ts, i, close, expected) == IndentFix(ts, m.pos, expected, m.found)
  {
  }

  /** With the first content token known, an excess gives the trim loop up to it. */
  lemma TrimAtFirstContent(ts: seq<Token>, t: nat, f: nat, expected: nat, found: nat)
    requires t < |ts| && FirstContent(ts, t, f) && expected < found
    ensures IndentFix(ts, t, expected, found) == TrimEdits(ts, LineBegin(ts, t), f, found - expected)
  {
    FirstContentFound(ts, t, f);
  }

  /** No edits when the first content token after the line start lies on another line. */
  lemma IndentFixOtherLine(ts: seq<Token>, t: nat, expected: int, current: int, f: nat)
    requires t < |ts| && FindNext(ts, {Whitespace}, LineBegin(ts, t), |ts|, true) == Some(f)
    requires ts[f].line != ts[t].line
    ensures IndentFix(ts, t, expected, current) == []
  {
  }

  /** The edits a positive fix records put the spaces in front of the token's old text. */
  lemma IndentFixAddsWidth(ts: seq<Token>, f: nat, d: nat)
    requires f < |ts| && d > 0
    ensures Rendered(ts, [AddBefore(f, Spaces(d))], f) == Spaces(d) + ts[f].content
    ensures Width(Spaces(d)) == d
  {
    var c := ts[f].content;
    assert Rewrite([AddBefore(f, Spaces(d))], 1, f, Spaces(d) + c) == Spaces(d) + c;
    SpacesHaveNoTabs(d);
  }

  lemma {:induction false} SpacesHaveNoTabs(n: nat)
    ensures Tabs(Spaces(n)) == 0
  {
    if n > 0 {
      SpacesHaveNoTabs(n - 1);
      assert Spaces(n)[1..] == Spaces(n - 1);
    }
  }

  // ---------------------------------------------------------------------
  // checkConditionalIndentation

  /**
   * The inner loop of `checkConditionalIndentation` from `j`: the first
   * token at or after `j` (before `close`) that is not whitespace, and the
   * summed widths of the whitespace tokens passed that hold no newline.
   */
  function LineIndent(ts: seq<Token>, j: nat, close: nat): (r: (nat, nat))
    requires j <= close <= |ts|
    ensures j <= r.0 <= close
    ensures forall k :: j <= k < r.0 ==> ts[k].kind == Whitespace
    ensures r.0 < close ==> ts[r.0].kind != Whitespace
    ensures j == close ==> r == (j, 0)
    decreases close - j
  {
    if j < close && ts[j].kind == Whitespace then
      var rest := LineIndent(ts, j + 1, close);
      (rest.0, (if '\n' in ts[j].content then 0 else Width(ts[j].content)) + rest.1)
    else (j, 0)
  }

  /** A wrongly indented line: the token the report is placed at and the width found. */
  datatype Misindent = Misindent(pos: nat, found: nat)

  /**
   * The check of the token `i` inside the parentheses closed at `close`:
   * a finding iff `i` starts a new line, its first content token `j` lies
   * before `close`, is not a comment, is not on the line of `close`, and
   * the indent found differs from `expected`.
   */
  function LineCheck(ts: seq<Token>, i: nat, close: nat, expected: nat): (r: Option<Misindent>)
    requires 1 <= i < close < |ts|
    ensures r.Some? <==>
      && ts[i].line != ts[i - 1].line
      && LineIndent(ts, i, close).0 < close
      && ts[LineIndent(ts, i, close).0].kind != Comment
      && ts[LineIndent(ts, i, close).0].line != ts[close].line
      && LineIndent(ts, i, close).1 != expected
    ensures r.Some? ==>
      && i <= r.value.pos < close && ts[r.value.pos].kind != Whitespace
      && (forall k :: i <= k < r.value.pos ==> ts[k].kind == Whitespace)
      && r.value.found != expected
  {
    if ts[i].line == ts[i - 1].line then None
    else
      var (j, width) := LineIndent(ts, i, close);
      if j < close && ts[j].kind != Comment && ts[j].line != ts[close].line && width != expected
      then Some(Misindent(j, width))
      else None
  }

  /** The report for a finding: ConditionalIndentation at the token, with expected and found. */
  function IndentReport(m: Misindent, expected: nat): Report {
    Report(Error, ConditionalIndentation, m.pos, [IntArg(expected), IntArg(m.found)], true)
  }

  /** The report for the token `i`, if it starts a wrongly indented line. */
  function LineReports(ts: seq<Token>, i: nat, close: nat, expected: nat): seq<Report>
    requires 1 <= i < close < |ts|
  {
    match LineCheck(ts, i, close, expected)
    case None => []
    case Some(m) => [IndentReport(m, expected)]
  }

  /** The edits fix mode records for the token `i`. */
  function LineEdits(ts: seq<Token>, i: nat, close: nat, expected: nat): seq<Edit>
    requires 1 <= i < close < |ts|
  {
    match LineCheck(ts, i, close, expected)
    case None => []
    case Some(m) => IndentFix(ts, m.pos, expected, m.found)
  }

  /** The reports for the tokens in `(o, hi)`, in index order. */
  function IndentReports(ts: seq<Token>, o: nat, close: nat, expected: nat, hi: nat): seq<Report>
    requires o < close < |ts| && hi <= close
    decreases hi
  {
    if hi <= o + 1 then [] else IndentReports(ts, o, close, expected, hi - 1) + LineReports(ts, hi - 1, close, expected)
  }

  /** The edits fix mode records for the tokens in `(o, hi)`, in index order. */
  function IndentEdits(ts: seq<Token>, o: nat, close: nat, expected: nat, hi: nat): seq<Edit>
    requires o < close < |ts| && hi <= close
    decreases hi
  {
    if hi <= o + 1 then [] else IndentEdits(ts, o, close, expected, hi - 1) + LineEdits(ts, hi - 1, close, expected)
  }

  /**
   * Every report among those of the tokens in `(o, hi)` is that of a line
   * `LineCheck` finds, with the expected and the found width.
   */
  lemma {:induction false} IndentReportSource(ts: seq<Token>, o: nat, close: nat, expected: nat, hi: nat, r: Report) returns (i: nat)
    requires o < close < |ts| && hi <= close
    requires r in IndentReports(ts, o, close, expected, hi)
    ensures o < i < hi && LineCheck(ts, i, close, expected).Some?
    ensures r == IndentReport(LineCheck(ts, i, close, expected).value, expected)
    decreases hi
  {
    var earlier, last := IndentReports(ts, o, close, expected, hi - 1), LineReports(ts, hi - 1, close, expected);
    assert IndentReports(ts, o, close, expected, hi) == earlier + last;
    var found := LineCheck(ts, hi - 1, close, expected);
    if found.Some? && r == IndentReport(found.value, expected) {
      i := hi - 1;
    } else {
      assert r !in last;
      i := IndentReportSource(ts, o, close, expected, hi - 1, r);
    }
  }

  /** Every line in `(o, hi)` that `LineCheck` finds is reported. */
  lemma {:induction false} IndentReportPresent(ts: seq<Token>, o: nat, close: nat, expected: nat, hi: nat, i: nat)
    requires o < i < hi <= close < |ts|
    requires LineCheck(ts, i, close, expected).Some?
    ensures IndentReport(LineCheck(ts, i, close, expected).value, expected) in IndentReports(ts, o, close, expected, hi)
    decreases hi
  {
    var earlier, last := IndentReports(ts, o, close, expected, hi - 1), LineReports(ts, hi - 1, close, expected);
    assert IndentReports(ts, o, close, expected, hi) == earlier + last;
    if i < hi - 1 {
      IndentReportPresent(ts, o, close, expected, hi - 1, i);
    } else {
      assert last == [IndentReport(LineCheck(ts, i, close, expected).value, expected)];
    }
  }

  /** One more line checked extends the reports so far by that line's. */
  lemma IndentReportsStep(ts: seq<Token>, o: nat, close: nat, expected: nat, i: nat, r0: seq<Report>, r1: seq<Report>, r2: seq<Report>)
    requires o < i < close < |ts|
    requires r1 == r0 + IndentReports(ts, o, close, expected, i)
    requires r2 == r1 + LineReports(ts, i, close, expected)
    ensures r2 == r0 + IndentReports(ts, o, close, expected, i + 1)
  {
    var a, b := IndentReports(ts, o, close, expected, i), LineReports(ts, i, close, expected);
    assert IndentReports(ts, o, close, expected, i + 1) == a + b;
    AppendAssoc(r0, a, b);
  }

  /** One more line checked extends the edits so far by that line's. */
  lemma IndentEditsStep(ts: seq<Token>, o: nat, close: nat, expected: nat, i: nat, e0: seq<Edit>, e1: seq<Edit>, e2: seq<Edit>)
    requires o < i < close < |ts|
    requires e1 == e0 + IndentEdits(ts, o, close, expected, i)
    requires e2 == e1 + LineEdits(ts, i, close, expected)
    ensures e2 == e0 + IndentEdits(ts, o, close, expected, i + 1)
  {
    var a, b := IndentEdits(ts, o, close, expected, i), LineEdits(ts, i, close, expected);
    assert IndentEdits(ts, o, close, expected, i + 1) == a + b;
    AppendAssoc(e0, a, b);
  }

  /** The inner loop of `checkConditionalIndentation`, with its `line_indent` sum. */
  method MeasureLine(ts: seq<Token>, i: nat, close: nat) returns (j: nat, lineIndent: nat)
    requires i <= close <= |ts|
    ensures (j, lineIndent) == LineIndent(ts, i, close)
  {
    lineIndent := 0;
    j := i;
    while j < close && ts[j].kind == Whitespace
      invariant i <= j <= close
      invariant LineIndent(ts, i, close) == (LineIndent(ts, j, close).0, lineIndent + LineIndent(ts, j, close).1)
      decreases close - j
    {
      if '\n' !in ts[j].content {
        lineIndent := lineIndent + |ExpandTabs(ts[j].content)|;
      }
      j := j + 1;
    }
  }

  /** One turn of the outer loop of `checkConditionalIndentation`, at the token `i`. */
  method CheckLine(file: File, i: nat, close: nat, expected: nat)
    requires 1 <= i < close < |file.tokens|
    modifies file, file.fixer
    ensures file.reports == old(file.reports) + LineReports(file.tokens, i, close, expected)
    ensures file.fixing ==> file.fixer.edits == old(file.fixer.edits) + LineEdits(file.tokens, i, close, expected)
    ensures !file.fixing ==> file.fixer.edits == old(file.fixer.edits)
  {
    var ts := file.tokens;
    if ts[i].line != ts[i - 1].line {
      var j, lineIndent := MeasureLine(ts, i, close);
      if j < close && ts[j].kind != Comment && ts[j].line != ts[close].line {
        if lineIndent != expected {
          var fix := file.AddFixableError(ConditionalIndentation, j, [IntArg(expected), IntArg(lineIndent)]);
          if fix {
            FixIndentation(file, j, expected, lineIndent);
          }
        }
      }
    }
  }

  /** The outer loop of `checkConditionalIndentation`, over the tokens strictly between `o` and `close`. */
  method CheckLines(file: File, o: nat, close: nat, expected: nat)
    requires o < close < |file.tokens|
    modifies file, file.fixer
    ensures file.reports == old(file.reports) + IndentReports(file.tokens, o, close, expected, close)
    ensures file.fixing ==> file.fixer.edits == old(file.fixer.edits) + IndentEdits(file.tokens, o, close, expected, close)
    ensures !file.fixing ==> file.fixer.edits == old(file.fixer.edits)
  {
    var ts := file.tokens;
    var i := o + 1;
    while i < close
      invariant o + 1 <= i <= close
      invariant file.reports == old(file.reports) + IndentReports(ts, o, close, expected, i)
      invariant file.fixing ==> file.fixer.edits == old(file.fixer.edits) + IndentEdits(ts, o, close, expected, i)
      invariant !file.fixing ==> file.fixer.edits == old(file.fixer.edits)
      decreases close - i
    {
      ghost var reports, edits := file.reports, file.fixer.edits;
      CheckLine(file, i, close, expected);
      IndentReportsStep(ts, o, close, expected, i, old(file.reports), reports, file.reports);
      if file.fixing {
        IndentEditsStep(ts, o, close, expected, i, old(file.fixer.edits), edits, file.fixer.edits);
      }
      i := i + 1;
    }
    assert i == close;
  }

  method CheckConditionalIndentation(file: File, o: nat, close: nat)
    requires o < close < |file.tokens|
    modifies file, file.fixer
    ensures file.reports == old(file.reports)
      + IndentReports(file.tokens, o, close, BaseIndent(file.tokens, o) + 4, close)
    ensures file.fixing ==> file.fixer.edits == old(file.fixer.edits) + IndentEdits(file.tokens, o, close, BaseIndent(file.tokens, o) + 4, close)
    ensures !file.fixing ==> file.fixer.edits == old(file.fixer.edits)
  {
    var base := ComputeBaseIndent(file.tokens, o);
    CheckLines(file, o, close, base + 4);
  }

  // ---------------------------------------------------------------------
  // checkMultilineFormatting

  /** The open parenthesis the rule looks at for the keyword at `p`: the first one at or after it. */
  function ParenAfter(ts: seq<Token>, p: nat): Option<nat> {
    FindNext(ts, {OpenParen}, p, |ts|, false)
  }

  /**
   * The open parenthesis of a header spread over several lines: the first
   * one after the keyword, when its closer lies on a later line.
   */
  function MultilineParen(ts: seq<Token>, p: nat): (r: Option<nat>)
    requires ValidStream(ts)
    ensures r.Some? ==>
      r == ParenAfter(ts, p) && r.value < ts[r.value].closer < |ts| && ts[r.value].line != ts[ts[r.value].closer].line
    ensures r.None? ==> forall o :: ParenAfter(ts, p) == Some(o) ==>
      o < ts[o].closer < |ts| && ts[o].line == ts[ts[o].closer].line
  {
    match ParenAfter(ts, p)
    case None => None
    case Some(o) =>
      assert LinksValid(ts, o);
      if ts[o].line == ts[ts[o].closer].line then None else Some(o)
  }

  /** The reports of the two checks of a multiline header whose open parenthesis is `o`. */
  function HeaderReports(ts: seq<Token>, o: nat): seq<Report>
    requires o < |ts| && o < ts[o].closer < |ts|
  {
    ParenReports(ts, o) + IndentReports(ts, o, ts[o].closer, BaseIndent(ts, o) + 4, ts[o].closer)
  }

  /** The edits of the two checks of a multiline header in fix mode. */
  function HeaderEdits(ts: seq<Token>, o: nat): seq<Edit>
    requires o < |ts| && o < ts[o].closer < |ts|
  {
    ParenEdits(ts, o) + IndentEdits(ts, o, ts[o].closer, BaseIndent(ts, o) + 4, ts[o].closer)
  }

  /** The reports of `checkMultilineFormatting` for the keyword at `p`. */
  function FormatReports(ts: seq<Token>, p: nat): seq<Report>
    requires ValidStream(ts)
  {
    match MultilineParen(ts, p)
    case None => []
    case Some(o) => HeaderReports(ts, o)
  }

  /** The edits of `checkMultilineFormatting` in fix mode for the keyword at `p`. */
  function FormatEdits(ts: seq<Token>, p: nat): seq<Edit>
    requires ValidStream(ts)
  {
    match MultilineParen(ts, p)
    case None => []
    case Some(o) => HeaderEdits(ts, o)
  }

  /** The two checks of a multiline header whose open parenthesis is `o`. */
  method CheckMultilineHeader(file: File, o: nat)
    requires o < |file.tokens| && o < file.tokens[o].closer < |file.tokens|
    modifies file, file.fixer
    ensures file.reports == old(file.reports) + HeaderReports(file.tokens, o)
    ensures file.fixing ==> file.fixer.edits == old(file.fixer.edits) + HeaderEdits(file.tokens, o)
    ensures !file.fixing ==> file.fixer.edits == old(file.fixer.edits)
  {
    var ts := file.tokens;
    var close := ts[o].closer;
    CheckOpenParenthesisPlacement(file, o);
    ghost var r1, e1 := file.reports, file.fixer.edits;
    CheckConditionalIndentation(file, o, close);
    var expected := BaseIndent(ts, o) + 4;
    AppendAssoc(old(file.reports), ParenReports(ts, o), IndentReports(ts, o, close, expected, close));
    if file.fixing {
      AppendAssoc(old(file.fixer.edits), ParenEdits(ts, o), IndentEdits(ts, o, close, expected, close));
    }
  }

  /** `checkMultilineFormatting`; also `process` of the sniff. */
  method CheckMultilineFormatting(file: File, p: nat)
    requires ValidStream(file.tokens)
    modifies file, file.fixer
    ensures file.reports == old(file.reports) + FormatReports(file.tokens, p)
    ensures file.fixing ==> file.fixer.edits == old(file.fixer.edits) + FormatEdits(file.tokens, p)
    ensures !file.fixing ==> file.fixer.edits == old(file.fixer.edits)
  {
    var ts := file.tokens;
    var openPtr := FindNext(ts, {OpenParen}, p, |ts|, false);
    if openPtr.None? {
      return;
    }
    var o := openPtr.value;
    assert LinksValid(ts, o);
    if ts[o].line == ts[ts[o].closer].line {
      return;
    }
    assert MultilineParen(ts, p) == Some(o);
    CheckMultilineHeader(file, o);
  }

  // ---------------------------------------------------------------------
  // Properties

  /**
   * Nothing is reported or edited when no open parenthesis follows the
   * keyword, or when it and its closer share a line.
   */
  lemma SingleLineHeaderUnchecked(ts: seq<Token>, p: nat)
    requires ValidStream(ts)
    requires match ParenAfter(ts, p)
      case None => true
      case Some(o) => ts[o].closer < |ts| && ts[o].line == ts[ts[o].closer].line
    ensures FormatReports(ts, p) == [] && FormatEdits(ts, p) == []
  {
  }

  /** Every report of the rule is one of its two codes and a fixable error. */
  lemma {:induction false} IndentReportsCodes(ts: seq<Token>, o: nat, close: nat, expected: nat, hi: nat)
    requires o < close < |ts| && hi <= close
    ensures forall r :: r in IndentReports(ts, o, close, expected, hi) ==>
      r.code == ConditionalIndentation && r.severity == Error && r.fixable && o < r.pos < close
    decreases hi
  {
    if hi > o + 1 {
      IndentReportsCodes(ts, o, close, expected, hi - 1);
    }
  }

  lemma FormatReportsCodes(ts: seq<Token>, p: nat)
    requires ValidStream(ts)
    ensures forall r :: r in FormatReports(ts, p) ==>
      r.code in {OpenParenthesisPlacement, ConditionalIndentation} && r.severity == Error && r.fixable
  {
    match MultilineParen(ts, p)
    case None =>
    case Some(o) =>
      var close := ts[o].closer;
      var paren, indent := ParenReports(ts, o), IndentReports(ts, o, close, BaseIndent(ts, o) + 4, close);
      assert FormatReports(ts, p) == paren + indent;
      IndentReportsCodes(ts, o, close, BaseIndent(ts, o) + 4, close);
      forall r: Report | r in paren + indent
        ensures r.code in {OpenParenthesisPlacement, ConditionalIndentation} && r.severity == Error && r.fixable
      {
        if r in paren {
          assert r == Report(Error, OpenParenthesisPlacement, o, [], true);
        } else {
          assert r in indent;
        }
      }
  }

  /** `(` and a newline, then a line indented by three tabs holding `$a`. */
  const TabLine: seq<Token> := [
    Token(OpenParen, "(", 1, 0, 0), Token(Whitespace, "\n", 1, 0, 0),
    Token(Whitespace, "\t\t\t", 2, 0, 0), Token(Variable, "$a", 2, 0, 0)]

  lemma TabLineBegin()
    ensures LineBegin(TabLine, 3) == 2
  {
  }

  lemma TabLineFirst()
    ensures FindNext(TabLine, {Whitespace}, 2, |TabLine|, true) == Some(3)
  {
  }

  lemma TabLineWidth()
    ensures Width(TabLine[2].content) == 12
  {
    assert ExpandTabs("\t\t\t") == "            ";
  }

  lemma TabLineBlanked()
    ensures Rendered(TabLine, [Replace(2, "")], 2) == ""
  {
    assert Rewrite([Replace(2, "")], 1, 2, "") == "";
  }

  lemma TabLineTrim()
    ensures TrimEdits(TabLine, 2, 3, 8) == [Replace(2, "")]
  {
  }

  /**
   * The trim counts a tab as one character although the measure counted
   * it as four: three tabs measure 12 against an expected 4, the
   * difference of 8 removes all three tabs, and the line is left with no
   * indent at all instead of 4 columns.
   */
  lemma TabTrimOvershoots()
    ensures Width(TabLine[2].content) == 12
    ensures IndentFix(TabLine, 3, 4, 12) == [Replace(2, "")]
    ensures Rendered(TabLine, IndentFix(TabLine, 3, 4, 12), 2) == ""
  {
    TabLineBegin();
    TabLineFirst();
    TabLineWidth();
    TabLineTrim();
    TabLineBlanked();
  }
}
