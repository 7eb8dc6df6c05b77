/**
 * The alternate-syntax rule (ConditionalAlternateSyntaxSniff): a control
 * structure written with a block colon (`if (...):` ... `endif;`) is
 * reported at its colon and, in fix mode, rewritten to braces, unless the
 * block holds a PHP closing tag `?>`.
 *
 * The guard chain and the closing-tag test are queries over the stream
 * (functions); the backward search for an `elseif`'s parent `if` and the
 * two fixers are loops (methods), each proved against a function.
 */
module AlternateSyntax {
  import opened Tokens
  import opened Text
  import opened Phpcs

  /** The keywords the rule is registered for. */
  const Keywords: set<Kind> := {If, ElseIf, While, For, Foreach}

  /** The end keywords `hasPhpClosingTags` searches for. */
  const EndKinds: set<Kind> := {EndIf, EndWhile, EndFor, EndForeach}

  // ---------------------------------------------------------------------
  // hasPhpClosingTags

  /**
   * True iff a `?>` lies between `p` and the first end keyword at or after
   * `p` (of any of the four kinds); false when there is no end keyword.
   */
  function HasPhpClosingTags(ts: seq<Token>, p: nat): (r: bool)
    ensures r <==> exists c, e :: p <= c < e < |ts| && ts[c].kind == CloseTag && ts[e].kind in EndKinds
                                  && (forall k :: p <= k < e ==> ts[k].kind !in EndKinds)
  {
    match FindNext(ts, EndKinds, p, |ts|, false)
    case None => false
    case Some(e) => FindNext(ts, {CloseTag}, p, e, false).Some?
  }

  // ---------------------------------------------------------------------
  // findParentIfStatement

  /** As many `if` as `endif` tokens lie strictly between `i` and `p`. */
  predicate Balanced(ts: seq<Token>, i: nat, p: nat)
    requires i < p <= |ts|
  {
    Count(ts, If, i + 1, p) == Count(ts, EndIf, i + 1, p)
  }

  /**
   * The largest `i <= cur` holding an `if` that is balanced with respect to
   * `p`: the `if` the downward scan from `cur` stops at.
   */
  function ParentIfFrom(ts: seq<Token>, cur: int, p: nat): (r: Option<nat>)
    requires cur < p <= |ts|
    ensures r.Some? ==> r.value <= cur && ts[r.value].kind == If && Balanced(ts, r.value, p)
    ensures r.Some? ==> forall k: nat :: r.value < k <= cur && ts[k].kind == If ==> !Balanced(ts, k, p)
    ensures r.None? ==> forall k: nat :: k <= cur && ts[k].kind == If ==> !Balanced(ts, k, p)
    decreases cur + 1
  {
    if cur < 0 then None
    else if ts[cur].kind == If && Balanced(ts, cur, p) then Some(cur)
    else ParentIfFrom(ts, cur - 1, p)
  }

  /**
   * The parent `if` of the token at `p`: the nearest `if` before `p` at
   * which the `if`s already passed equal the `endif`s passed, so that
   * balanced inner pairs are skipped.
   */
  function ParentIf(ts: seq<Token>, p: nat): Option<nat>
    requires p <= |ts|
  {
    ParentIfFrom(ts, p - 1, p)
  }

  /** `findParentIfStatement`: the backward scan with its two counters. */
  method FindParentIfStatement(ts: seq<Token>, p: nat) returns (r: Option<nat>)
    requires p <= |ts|
    ensures r == ParentIf(ts, p)
    ensures r.Some? ==> r.value < p && ts[r.value].kind == If
  {
    var cur: int := p - 1;
    var ifCount: nat := 0;
    var endifCount: nat := 0;
    while cur >= 0
      invariant -1 <= cur < p
      invariant ifCount == Count(ts, If, cur + 1, p)
      invariant endifCount == Count(ts, EndIf, cur + 1, p)
      invariant ParentIf(ts, p) == ParentIfFrom(ts, cur, p)
      decreases cur + 1
    {
      var token := ts[cur];
      if token.kind == If {
        if ifCount == endifCount {
          return Some(cur);
        }
        ifCount := ifCount + 1;
      } else if token.kind == EndIf {
        endifCount := endifCount + 1;
      }
      cur := cur - 1;
    }
    return None;
  }

  // ---------------------------------------------------------------------
  // checkAlternateSyntax: the guard chain

  /** An `elseif` is exempt iff it has a parent `if` with closing tags; anything else iff it has closing tags itself. */
  predicate Exempt(ts: seq<Token>, p: nat)
    requires p < |ts|
  {
    if ts[p].kind == ElseIf then
      match ParentIf(ts, p)
      case Some(q) => HasPhpClosingTags(ts, q)
      case None => false
    else HasPhpClosingTags(ts, p)
  }

  /**
   * The colon the rule reports for the keyword at `p`, if any: the first
   * `T_COLON` at or after `p`, provided no `;` and no `{` lies in
   * `[p, colon)` and the keyword is not exempt. The ternary guard is a
   * downward search from `p` to the colon, an empty range, so it never
   * stops the chain (`TernaryGuardNeverFires`).
   */
  function Violation(ts: seq<Token>, p: nat): (r: Option<nat>)
    requires p < |ts|
    ensures r.Some? <==>
      exists c :: p <= c < |ts| && ts[c].kind == Colon
        && (forall k :: p <= k < c ==> ts[k].kind != Colon && ts[k].kind != Semicolon && ts[k].kind != OpenCurly)
        && !Exempt(ts, p)
    ensures r.Some? ==> p <= r.value < |ts| && ts[r.value].kind == Colon
    ensures r.Some? ==> forall k :: p <= k < r.value ==> ts[k].kind != Colon
  {
    match FindNext(ts, {Colon}, p, |ts|, false)
    case None => None
    case Some(c) =>
      if FindPrevious(ts, {InlineThen}, p, c, false).Some? then None
      else if FindNext(ts, {Semicolon}, p, c, false).Some? then None
      else if FindNext(ts, {OpenCurly}, p, c, false).Some? then None
      else if Exempt(ts, p) then None
      else Some(c)
  }

  /** The report for the keyword at `p`: AlternateSyntax at the colon. */
  function Reports(ts: seq<Token>, p: nat): seq<Report>
    requires p < |ts|
  {
    match Violation(ts, p)
    case None => []
    case Some(c) => [Report(Error, AlternateSyntax, c, [], true)]
  }

  /** The edits fix mode records for the keyword at `p`. */
  function Edits(ts: seq<Token>, p: nat): seq<Edit>
    requires p < |ts|
  {
    match Violation(ts, p)
    case None => []
    case Some(c) => FixEdits(ts, p, c)
  }

  // ---------------------------------------------------------------------
  // fixAlternateSyntax and fixElseStatements

  /** The end keyword `fixAlternateSyntax` pairs a keyword with, by its lower-cased text; unknown text maps to `endif`. */
  function EndKindOf(text: string): Kind {
    var t := Lower(text);
    if t == "while" then EndWhile
    else if t == "for" then EndFor
    else if t == "foreach" then EndForeach
    else EndIf   // "if", "elseif" and anything else
  }

  /** The end keyword `fixAlternateSyntax` pairs the keyword at `p` with: the first one of its mapped kind at or after `p`. */
  function EndOf(ts: seq<Token>, p: nat): Option<nat>
    requires p < |ts|
  {
    FindNext(ts, {EndKindOf(ts[p].content)}, p, |ts|, false)
  }

  /** The two edits for one `else`/`elseif` at `q`, if a colon follows it before `end`. */
  function ElseStep(ts: seq<Token>, q: nat, end: nat): seq<Edit>
    requires q < |ts|
  {
    match FindNext(ts, {Colon}, q, end, false)
    case None => []
    case Some(c) => [Replace(q, if ts[q].kind == Else then "} else" else "} elseif"), Replace(c, " {")]
  }

  /** The edits for the `else`/`elseif` found first at or after `from`, and for every later one, before `end`. */
  function ElseEdits(ts: seq<Token>, from: nat, end: nat): seq<Edit>
    decreases if from <= |ts| then |ts| - from else 0, 2
  {
    Pending(ts, FindNext(ts, {Else, ElseIf}, from, end, false), end)
  }

  /** The edits still to come once the loop's search has returned `found`. */
  function Pending(ts: seq<Token>, found: Option<nat>, end: nat): seq<Edit>
    requires found.Some? ==> found.value < |ts|
    decreases if found.Some? then |ts| - found.value else 0, 1
  {
    match found
    case None => []
    case Some(q) => ElseStep(ts, q, end) + ElseEdits(ts, q + 1, end)
  }

  /** The edit that drops a `;` directly after the end keyword at `e`. */
  function SemicolonEdit(ts: seq<Token>, e: nat): seq<Edit> {
    match FindNext(ts, {Semicolon}, e, e + 2, false)
    case None => []
    case Some(s) => [Replace(s, "")]
  }

  /**
   * The edits of `fixAlternateSyntax` for the keyword at `p` with block
   * colon `colon`: none when no end keyword of the mapped kind follows.
   */
  function FixEdits(ts: seq<Token>, p: nat, colon: nat): seq<Edit>
    requires p < |ts|
  {
    match EndOf(ts, p)
    case None => []
    case Some(e) => [Replace(colon, " {")] + ElseEdits(ts, p + 1, e) + [Replace(e, "}")] + SemicolonEdit(ts, e)
  }

  /** One turn of the loop of `fixElseStatements`, for the `else`/`elseif` at `q`. */
  method FixElse(file: File, q: nat, end: nat)
    requires q < |file.tokens|
    modifies file.fixer
    ensures file.fixer.edits == old(file.fixer.edits) + ElseStep(file.tokens, q, end)
  {
    var ts := file.tokens;
    var colon := FindNext(ts, {Colon}, q, end, false);
    if colon.Some? {
      if ts[q].kind == Else {
        file.fixer.ReplaceToken(q, "} else");
      } else {
        file.fixer.ReplaceToken(q, "} elseif");
      }
      file.fixer.ReplaceToken(colon.value, " {");
    } else {
      assert old(file.fixer.edits) + [] == old(file.fixer.edits);
    }
  }

  /** `fixElseStatements`: the loop over the `else`/`elseif` tokens strictly between `start` and `end`. */
  method FixElseStatements(file: File, start: nat, end: nat)
    modifies file.fixer
    ensures file.fixer.edits == old(file.fixer.edits) + ElseEdits(file.tokens, start + 1, end)
  {
    var ts := file.tokens;
    var found := FindNext(ts, {Else, ElseIf}, start + 1, end, false);
    while found.Some?
      invariant found.Some? ==> found.value < |ts|
      invariant file.fixer.edits + Pending(ts, found, end) == old(file.fixer.edits) + ElseEdits(ts, start + 1, end)
      decreases if found.Some? then |ts| - found.value else 0
    {
      var elsePtr := found.value;
      ghost var before := file.fixer.edits;
      FixElse(file, elsePtr, end);
      AppendAssoc(before, ElseStep(ts, elsePtr, end), ElseEdits(ts, elsePtr + 1, end));
      found := FindNext(ts, {Else, ElseIf}, elsePtr + 1, end, false);
    }
    assert Pending(ts, found, end) == [];
    assert file.fixer.edits + [] == file.fixer.edits;
  }

  /** `fixAlternateSyntax` for the keyword at `p` and its block colon. */
  method FixAlternateSyntax(file: File, p: nat, colon: nat)
    requires p < |file.tokens|
    modifies file.fixer
    ensures file.fixer.edits == old(file.fixer.edits) + FixEdits(file.tokens, p, colon)
  {
    var ts := file.tokens;
    var endPtr := EndOf(ts, p);
    if endPtr.None? {
      return;
    }
    var e := endPtr.value;
    ghost var start := file.fixer.edits;
    file.fixer.ReplaceToken(colon, " {");
    FixElseStatements(file, p, e);
    file.fixer.ReplaceToken(e, "}");
    assert file.fixer.edits == start + [Replace(colon, " {")] + ElseEdits(ts, p + 1, e) + [Replace(e, "}")];
    var semicolon := FindNext(ts, {Semicolon}, e, e + 2, false);
    if semicolon.Some? {
      file.fixer.ReplaceToken(semicolon.value, "");
    }
    assert FixEdits(ts, p, colon) == [Replace(colon, " {")] + ElseEdits(ts, p + 1, e) + [Replace(e, "}")] + SemicolonEdit(ts, e);
  }

  /** `checkAlternateSyntax` for the keyword at `p`; also `process` of the sniff. */
  method CheckAlternateSyntax(file: File, p: nat)
    requires p < |file.tokens|
    modifies file, file.fixer
    ensures file.reports == old(file.reports) + Reports(file.tokens, p)
    ensures file.fixing ==> file.fixer.edits == old(file.fixer.edits) + Edits(file.tokens, p)
    ensures !file.fixing ==> file.fixer.edits == old(file.fixer.edits)
  {
    var ts := file.tokens;
    var colonPtr := FindNext(ts, {Colon}, p, |ts|, false);
    if colonPtr.None? {
      return;
    }
    var c := colonPtr.value;
    if FindPrevious(ts, {InlineThen}, p, c, false).Some? {
      return;
    }
    if FindNext(ts, {Semicolon}, p, c, false).Some? {
      return;
    }
    if FindNext(ts, {OpenCurly}, p, c, false).Some? {
      return;
    }
    if ts[p].kind == ElseIf {
      var parent := FindParentIfStatement(ts, p);
      if parent.Some? && HasPhpClosingTags(ts, parent.value) {
        return;
      }
    } else if HasPhpClosingTags(ts, p) {
      return;
    }
    var fix := file.AddFixableError(AlternateSyntax, c, []);
    if fix {
      FixAlternateSyntax(file, p, c);
    }
  }

  // ---------------------------------------------------------------------
  // Properties

  /** The ternary guard searches downward from the keyword to a colon after it: an empty range. */
  lemma TernaryGuardNeverFires(ts: seq<Token>, p: nat, c: nat)
    requires p < c < |ts|
    ensures FindPrevious(ts, {InlineThen}, p, c, false) == None
  {
  }

  /**
   * A keyword whose first `;` comes before its first `T_COLON` is never
   * reported: in particular a `for (...; ...; ...):` header.
   */
  lemma SemicolonBeforeColonNeverReported(ts: seq<Token>, p: nat, s: nat)
    requires p <= s < |ts| && ts[s].kind == Semicolon
    requires forall k :: p <= k <= s ==> ts[k].kind != Colon
    ensures Violation(ts, p) == None && Reports(ts, p) == [] && Edits(ts, p) == []
  {
  }

  /** Tokens after `p` that are not `T_COLON` (a ternary's `:` is `T_INLINE_ELSE`) never draw a report. */
  lemma NoColonNoReport(ts: seq<Token>, p: nat)
    requires p < |ts|
    requires forall k :: p <= k < |ts| ==> ts[k].kind != Colon
    ensures Reports(ts, p) == [] && Edits(ts, p) == []
  {
  }

  /** The text a fix gives an `else`, `elseif` or colon token. */
  predicate ElseRewrite(ts: seq<Token>, ed: Edit) {
    && ed.Replace? && ed.pos < |ts|
    && ((ts[ed.pos].kind == Else && ed.text == "} else")
        || (ts[ed.pos].kind == ElseIf && ed.text == "} elseif")
        || (ts[ed.pos].kind == Colon && ed.text == " {"))
  }

  /**
   * Every edit `fixElseStatements` records lies in `[from, end)` and turns
   * an `else` into `} else`, an `elseif` into `} elseif` or a colon into
   * ` {`: no other token, in particular no token of an elseif condition,
   * is touched.
   */
  lemma {:induction false} ElseEditsSound(ts: seq<Token>, from: nat, end: nat)
    ensures forall ed :: ed in ElseEdits(ts, from, end) ==> from <= ed.pos < Bound(ts, end) && ElseRewrite(ts, ed)
    decreases if from <= |ts| then |ts| - from else 0
  {
    var found := FindNext(ts, {Else, ElseIf}, from, end, false);
    if found.Some? {
      var q := found.value;
      ElseEditsSound(ts, q + 1, end);
    }
  }

  /**
   * Every `else`/`elseif` in `[from, end)` that has a colon after it before
   * `end` is rewritten, together with that first colon.
   */
  lemma {:induction false} ElseEditsComplete(ts: seq<Token>, from: nat, end: nat, q: nat)
    requires from <= q < Bound(ts, end) && (ts[q].kind == Else || ts[q].kind == ElseIf)
    requires FindNext(ts, {Colon}, q, end, false).Some?
    ensures Replace(q, if ts[q].kind == Else then "} else" else "} elseif") in ElseEdits(ts, from, end)
    ensures Replace(FindNext(ts, {Colon}, q, end, false).value, " {") in ElseEdits(ts, from, end)
    decreases q - from
  {
    var found := FindNext(ts, {Else, ElseIf}, from, end, false);
    var q' := found.value;
    assert ElseEdits(ts, from, end) == ElseStep(ts, q', end) + ElseEdits(ts, q' + 1, end);
    if q' < q {
      ElseEditsComplete(ts, q' + 1, end, q);
    }
  }

  /** The `;` edit: only the token right after the end keyword, and only if it is a `;`. */
  lemma SemicolonEditExact(ts: seq<Token>, e: nat)
    requires e < |ts| && ts[e].kind != Semicolon
    ensures SemicolonEdit(ts, e) == if e + 1 < |ts| && ts[e + 1].kind == Semicolon then [Replace(e + 1, "")] else []
  {
    var r := FindNext(ts, {Semicolon}, e, e + 2, false);
    if e + 1 < |ts| && ts[e + 1].kind == Semicolon {
      assert r == Some(e + 1);
    } else {
      assert r == None;
    }
  }

  /**
   * The fix pairs the keyword at `p` with the FIRST end keyword of its
   * mapped kind at or after `p` (not the nesting-matched one) and records
   * nothing when there is none. Otherwise it rewrites the block colon to
   * ` {`, that end keyword to `}`, the token right after it to "" when that
   * token is a `;`, and else/elseif tokens and their colons strictly
   * between; no other token changes.
   */
  lemma FixEditsShape(ts: seq<Token>, p: nat, colon: nat)
    requires p < |ts| && ts[p].kind in Keywords
    ensures EndOf(ts, p).None? ==> FixEdits(ts, p, colon) == []
    ensures EndOf(ts, p).Some? ==>
      var e := EndOf(ts, p).value;
      && p < e < |ts| && ts[e].kind == EndKindOf(ts[p].content)
      && (forall k :: p <= k < e ==> ts[k].kind != EndKindOf(ts[p].content))
      && Replace(colon, " {") in FixEdits(ts, p, colon)
      && Replace(e, "}") in FixEdits(ts, p, colon)
      && (forall ed :: ed in FixEdits(ts, p, colon) ==>
            || ed == Replace(colon, " {")
            || ed == Replace(e, "}")
            || (ed == Replace(e + 1, "") && e + 1 < |ts| && ts[e + 1].kind == Semicolon)
            || (p < ed.pos < e && ElseRewrite(ts, ed)))
  {
    var end := EndOf(ts, p);
    if end.Some? {
      var e := end.value;
      SemicolonEditExact(ts, e);
      ElseEditsSound(ts, p + 1, e);
    }
  }
}
