/**
 * The PHPDoc rule (RequiredPhpDocParamsSniff): a named function needs a
 * doc comment right before it (access and `static` modifiers may come in
 * between), the comment must mention `@param` and every parameter, and
 * when the body holds a `return` it must mention `@return`. The checks
 * are substring tests on the comment's text.
 */
module PhpDoc {
  import opened Tokens
  import opened Text
  import opened Phpcs

  // ---------------------------------------------------------------------
  // getFunctionParameters

  /** The contents of the variable tokens in `[lo, hi)`, in source order. */
  function Vars(ts: seq<Token>, lo: nat, hi: nat): seq<string>
    requires hi <= |ts|
    decreases hi
  {
    if hi <= lo then [] else Vars(ts, lo, hi - 1) + (if ts[hi - 1].kind == Variable then [ts[hi - 1].content] else [])
  }

  /** A stretch without variables adds nothing. */
  lemma {:induction false} VarsSkip(ts: seq<Token>, lo: nat, a: nat, b: nat)
    requires lo <= a <= b <= |ts|
    requires forall k :: a <= k < b ==> ts[k].kind != Variable
    ensures Vars(ts, lo, b) == Vars(ts, lo, a)
    decreases b
  {
    if a < b {
      VarsSkip(ts, lo, a, b - 1);
    }
  }

  /** The variables of `[lo, hi)` are those of `[lo, m)` followed by those of `[m, hi)`. */
  lemma {:induction false} VarsSplit(ts: seq<Token>, lo: nat, m: nat, hi: nat)
    requires lo <= m <= hi <= |ts|
    ensures Vars(ts, lo, hi) == Vars(ts, lo, m) + Vars(ts, m, hi)
    decreases hi
  {
    if m < hi {
      VarsSplit(ts, lo, m, hi - 1);
    }
  }

  /** A string is a parameter exactly when a variable token in range holds it. */
  lemma {:induction false} VarsExact(ts: seq<Token>, lo: nat, hi: nat, x: string)
    requires hi <= |ts|
    ensures x in Vars(ts, lo, hi) <==> exists k :: lo <= k < hi && ts[k].kind == Variable && ts[k].content == x
    decreases hi
  {
    if hi > lo {
      VarsExact(ts, lo, hi - 1, x);
      if ts[hi - 1].kind == Variable && ts[hi - 1].content == x {
        assert x in Vars(ts, lo, hi);
      }
    }
  }

  /** How many variables lie in `[lo, hi)`. */
  lemma {:induction false} VarsCount(ts: seq<Token>, lo: nat, hi: nat)
    requires lo <= hi <= |ts|
    ensures |Vars(ts, lo, hi)| == Count(ts, Variable, lo, hi)
    decreases hi - lo
  {
    if lo < hi {
      VarsSplit(ts, lo, lo + 1, hi);
      VarsCount(ts, lo + 1, hi);
      assert Vars(ts, lo, lo + 1) == Vars(ts, lo, lo) + (if ts[lo].kind == Variable then [ts[lo].content] else []);
    }
  }

  /**
   * The range `getFunctionParameters` searches: strictly inside the first
   * parenthesis after the keyword. With no parenthesis, `$tokens[false]`
   * is token 0 and its missing `parenthesis_closer` is null, so the search
   * runs from 1 to the end of the file.
   */
  function ParamRange(ts: seq<Token>, p: nat): (r: (nat, nat))
    requires ValidStream(ts)
    ensures r.1 <= |ts|
  {
    match FindNext(ts, {OpenParen}, p, |ts|, false)
    case Some(o) =>
      assert LinksValid(ts, o);
      (o + 1, ts[o].closer)
    case None =>
      if |ts| > 0 && ts[0].kind == OpenParen then
        assert LinksValid(ts, 0);
        (1, ts[0].closer)
      else (1, |ts|)
  }

  function Params(ts: seq<Token>, p: nat): seq<string>
    requires ValidStream(ts)
  {
    var (lo, hi) := ParamRange(ts, p);
    Vars(ts, lo, hi)
  }

  /** `getFunctionParameters`: one `findNext(T_VARIABLE, …)` after another. */
  method GetFunctionParameters(ts: seq<Token>, p: nat) returns (params: seq<string>)
    requires ValidStream(ts)
    ensures params == Params(ts, p)
  {
    var (lo, close) := ParamRange(ts, p);
    params := [];
    var ptr: nat := lo;
    if lo > close {
      // The range is empty and the first search already fails.
      assert Vars(ts, lo, close) == [];
      return;
    }
    var next := FindNext(ts, {Variable}, ptr, close, false);
    while next.Some?
      invariant lo <= ptr <= close
      invariant next == FindNext(ts, {Variable}, ptr, close, false)
      invariant params == Vars(ts, lo, ptr)
      decreases close - ptr
    {
      var v := next.value;
      VarsSkip(ts, lo, ptr, v);
      params := params + [ts[v].content];
      ptr := v + 1;
      next := FindNext(ts, {Variable}, ptr, close, false);
    }
    VarsSkip(ts, lo, ptr, close);
  }

  // ---------------------------------------------------------------------
  // checkParamTags and checkReturnTag

  /** A parameter counts as documented when the comment holds `@param` and, anywhere, the parameter's name. */
  predicate ParamDocumented(comment: string, param: string) {
    Contains(comment, "@param") && Contains(comment, param)
  }

  /** The MissingParamDoc errors for `params`, in order. */
  function ParamReports(p: nat, comment: string, params: seq<string>, name: string): seq<Report>
    decreases |params|
  {
    if params == [] then []
    else
      var last := params[|params| - 1];
      ParamReports(p, comment, params[..|params| - 1], name)
      + (if ParamDocumented(comment, last) then [] else [Report(Error, MissingParamDoc, p, [StrArg(name), StrArg(last)], false)])
  }

  /**
   * An undocumented parameter draws one error for each time it is listed;
   * a documented one never.
   */
  lemma {:induction false} ParamReportsCount(p: nat, comment: string, params: seq<string>, name: string, x: string)
    ensures multiset(ParamReports(p, comment, params, name))[Report(Error, MissingParamDoc, p, [StrArg(name), StrArg(x)], false)]
      == if ParamDocumented(comment, x) then 0 else multiset(params)[x]
    decreases |params|
  {
    if params != [] {
      var init, last := params[..|params| - 1], params[|params| - 1];
      ParamReportsCount(p, comment, init, name, x);
      ParamReportCount(p, comment, last, name, x);
      ParamReportsLast(p, comment, params, name);
    }
  }

  /** The errors of a list are those of all but its last parameter, then the last's. */
  lemma ParamReportsLast(p: nat, comment: string, params: seq<string>, name: string)
    requires params != []
    ensures multiset(params) == multiset(params[..|params| - 1]) + multiset{params[|params| - 1]}
    ensures var last := params[|params| - 1];
      multiset(ParamReports(p, comment, params, name))
      == multiset(ParamReports(p, comment, params[..|params| - 1], name))
         + multiset(if ParamDocumented(comment, last) then [] else [Report(Error, MissingParamDoc, p, [StrArg(name), StrArg(last)], false)])
  {
    assert params == params[..|params| - 1] + [params[|params| - 1]];
  }

  /** The error for one parameter `y`, counted for the parameter `x`. */
  lemma ParamReportCount(p: nat, comment: string, y: string, name: string, x: string)
    ensures multiset(if ParamDocumented(comment, y) then [] else [Report(Error, MissingParamDoc, p, [StrArg(name), StrArg(y)], false)])
              [Report(Error, MissingParamDoc, p, [StrArg(name), StrArg(x)], false)]
      == if y != x || ParamDocumented(comment, x) then 0 else 1
  {
    if y != x {
      assert [StrArg(name), StrArg(y)] != [StrArg(name), StrArg(x)];
    }
  }

  /** A report is present iff it names an undocumented parameter. */
  lemma {:induction false} ParamReportsExact(p: nat, comment: string, params: seq<string>, name: string, r: Report)
    ensures r in ParamReports(p, comment, params, name) <==>
      exists x :: x in params && !ParamDocumented(comment, x) && r == Report(Error, MissingParamDoc, p, [StrArg(name), StrArg(x)], false)
    decreases |params|
  {
    if params != [] {
      var last := params[|params| - 1];
      var init := params[..|params| - 1];
      ParamReportsExact(p, comment, init, name, r);
      assert params == init + [last];
      if r in ParamReports(p, comment, params, name) && r !in ParamReports(p, comment, init, name) {
        assert last in params;
      }
      if r !in ParamReports(p, comment, params, name) {
        forall x | x in params && !ParamDocumented(comment, x)
          ensures r != Report(Error, MissingParamDoc, p, [StrArg(name), StrArg(x)], false)
        {
          if x != last {
            assert x in init;
          }
        }
      }
    }
  }

  /** A short parameter name is satisfied by any longer one that contains it. */
  lemma PrefixNameSatisfies()
    ensures ParamDocumented("@param int $abc", "$a")
  {
    var c := "@param int $abc";
    assert c[0..6] == "@param" && OccursAt(c, "@param", 0);
    assert c[11..13] == "$a" && OccursAt(c, "$a", 11);
  }

  method CheckParamTags(file: File, p: nat, comment: string, params: seq<string>, name: string)
    modifies file
    ensures file.reports == old(file.reports) + ParamReports(p, comment, params, name)
  {
    var i := 0;
    while i < |params|
      invariant 0 <= i <= |params|
      invariant file.reports == old(file.reports) + ParamReports(p, comment, params[..i], name)
      decreases |params| - i
    {
      var param := params[i];
      assert params[..i + 1][..i] == params[..i] && params[..i + 1][i] == param;
      if !Contains(comment, "@param") || !Contains(comment, param) {
        file.AddError(MissingParamDoc, p, [StrArg(name), StrArg(param)]);
      }
      i := i + 1;
    }
    assert params[..|params|] == params;
  }

  /** The body of the function, `[brace, closer)`, holds a `return`. */
  predicate HasReturn(ts: seq<Token>, brace: nat)
    requires brace < |ts|
  {
    FindNext(ts, {Return}, brace, ts[brace].closer, false).Some?
  }

  /** The MissingReturnDoc error, if due. */
  function ReturnReports(ts: seq<Token>, p: nat, brace: nat, comment: string, name: string): seq<Report>
    requires brace < |ts|
  {
    if HasReturn(ts, brace) && !Contains(comment, "@return") then [Report(Error, MissingReturnDoc, p, [StrArg(name)], false)] else []
  }

  /** A MissingReturnDoc error comes exactly when a `return` lies in the body and the comment lacks `@return`. */
  lemma ReturnReportIff(ts: seq<Token>, p: nat, brace: nat, comment: string, name: string)
    requires brace < |ts|
    ensures ReturnReports(ts, p, brace, comment, name) != [] <==>
      (exists k :: brace <= k < Bound(ts, ts[brace].closer) && ts[k].kind == Return) && !Contains(comment, "@return")
  {
    var r := FindNext(ts, {Return}, brace, ts[brace].closer, false);
    if r.Some? {
      assert ts[r.value].kind == Return;
    }
  }

  method CheckReturnTag(file: File, p: nat, brace: nat, comment: string, name: string)
    requires brace < |file.tokens|
    modifies file
    ensures file.reports == old(file.reports) + ReturnReports(file.tokens, p, brace, comment, name)
  {
    var ts := file.tokens;
    var hasReturn := FindNext(ts, {Return}, brace, ts[brace].closer, false);
    if hasReturn.Some? && !Contains(comment, "@return") {
      file.AddError(MissingReturnDoc, p, [StrArg(name)]);
    }
  }

  // ---------------------------------------------------------------------
  // process

  /** The tokens allowed between a doc comment and its function. */
  const Modifiers: set<Kind> := {Whitespace, Public, Private, Protected, Static}

  /** The nearest token before `p` that is not whitespace or a modifier. */
  function CommentEnd(ts: seq<Token>, p: nat): Option<nat>
    requires p < |ts|
  {
    FindPrevious(ts, Modifiers, p - 1, 0, true)
  }

  /** The function is documented: the token found before it closes a doc comment. */
  predicate Documented(ts: seq<Token>, p: nat)
    requires p < |ts|
  {
    CommentEnd(ts, p).Some? && ts[CommentEnd(ts, p).value].kind == DocCommentClose
  }

  /** The text of the doc comment that ends at `e`, opener to close tag. */
  function CommentText(ts: seq<Token>, e: nat): string
    requires ValidStream(ts) && e < |ts| && ts[e].kind == DocCommentClose
  {
    assert LinksValid(ts, e);
    TextOf(ts, ts[e].opener, e + 1)
  }

  /** Names beginning with `_`, and so magic `__` names, are skipped. */
  predicate SkippedName(name: string) {
    |name| > 0 && name[0] == '_'
  }

  /** The errors of `process` for the function keyword at `p`. */
  function DocReports(ts: seq<Token>, p: nat): seq<Report>
    requires p < |ts| && ValidStream(ts)
  {
    match FindNext(ts, {OpenCurly}, p, |ts|, false)
    case None => []
    case Some(brace) =>
      match FindNext(ts, {Identifier}, p, |ts|, false)
      case None => []
      case Some(n) =>
        var name := ts[n].content;
        if SkippedName(name) then [] else CommentReports(ts, p, brace, name)
  }

  /** The errors for the function `name` at `p`, once it is known not to be skipped. */
  function CommentReports(ts: seq<Token>, p: nat, brace: nat, name: string): seq<Report>
    requires p < |ts| && brace < |ts| && ValidStream(ts)
  {
    if !Documented(ts, p) then [Report(Error, MissingPhpDoc, p, [StrArg(name)], false)]
    else
      var comment := CommentText(ts, CommentEnd(ts, p).value);
      ParamReports(p, comment, Params(ts, p), name) + ReturnReports(ts, p, brace, comment, name)
  }

  method Process(file: File, p: nat)
    requires p < |file.tokens| && ValidStream(file.tokens)
    modifies file
    ensures file.reports == old(file.reports) + DocReports(file.tokens, p)
  {
    var ts := file.tokens;
    var openBrace := FindNext(ts, {OpenCurly}, p, |ts|, false);
    if openBrace.None? {
      return;
    }
    var namePtr := FindNext(ts, {Identifier}, p, |ts|, false);
    if namePtr.None? {
      return;
    }
    var name := ts[namePtr.value].content;
    if OccursAt(name, "__", 0) || OccursAt(name, "_", 0) {
      return;
    }
    CheckComment(file, p, openBrace.value, name);
  }

  /** The part of `process` from the search for the doc comment on. */
  method CheckComment(file: File, p: nat, brace: nat, name: string)
    requires p < |file.tokens| && brace < |file.tokens| && ValidStream(file.tokens)
    modifies file
    ensures file.reports == old(file.reports) + CommentReports(file.tokens, p, brace, name)
  {
    var ts := file.tokens;
    var commentEnd := FindPrevious(ts, Modifiers, p - 1, 0, true);
    if commentEnd.None? || ts[commentEnd.value].kind != DocCommentClose {
      file.AddError(MissingPhpDoc, p, [StrArg(name)]);
      return;
    }
    var comment := CommentText(ts, commentEnd.value);
    var params := GetFunctionParameters(ts, p);
    CheckParamTags(file, p, comment, params, name);
    CheckReturnTag(file, p, brace, comment, name);
    AppendAssoc(old(file.reports), ParamReports(p, comment, params, name), ReturnReports(ts, p, brace, comment, name));
  }

  // ---------------------------------------------------------------------
  // Properties

  /** Without a `{` or a name after the keyword nothing is reported. */
  lemma NoBodyOrNameNoReport(ts: seq<Token>, p: nat)
    requires p < |ts| && ValidStream(ts)
    requires (forall k :: p <= k < |ts| ==> ts[k].kind != OpenCurly) || (forall k :: p <= k < |ts| ==> ts[k].kind != Identifier)
    ensures DocReports(ts, p) == []
  {
    var b := FindNext(ts, {OpenCurly}, p, |ts|, false);
    var n := FindNext(ts, {Identifier}, p, |ts|, false);
    if b.Some? {
      assert ts[b.value].kind == OpenCurly;
    }
    if n.Some? {
      assert ts[n.value].kind == Identifier;
    }
  }

  /**
   * An undocumented function with a body and a name that is not skipped
   * gets exactly one error, MissingPhpDoc, naming it; a documented one
   * never gets it.
   */
  lemma MissingDocAlone(ts: seq<Token>, p: nat)
    requires p < |ts| && ValidStream(ts)
    ensures forall r :: r in DocReports(ts, p) && r.code == MissingPhpDoc ==> !Documented(ts, p)
    ensures !Documented(ts, p) ==> |DocReports(ts, p)| <= 1
    ensures
      var n := FindNext(ts, {Identifier}, p, |ts|, false);
      FindNext(ts, {OpenCurly}, p, |ts|, false).Some? && n.Some? && !SkippedName(ts[n.value].content)
      && !Documented(ts, p)
      ==> DocReports(ts, p) == [Report(Error, MissingPhpDoc, p, [StrArg(ts[n.value].content)], false)]
  {
    match FindNext(ts, {OpenCurly}, p, |ts|, false)
    case None =>
    case Some(brace) =>
      match FindNext(ts, {Identifier}, p, |ts|, false)
      case None =>
      case Some(n) =>
        var name := ts[n].content;
        if !SkippedName(name) && Documented(ts, p) {
          var comment := CommentText(ts, CommentEnd(ts, p).value);
          ParamReportsCodes(p, comment, Params(ts, p), name);
        }
  }

  lemma {:induction false} ParamReportsCodes(p: nat, comment: string, params: seq<string>, name: string)
    ensures forall r :: r in ParamReports(p, comment, params, name) ==> r.code == MissingParamDoc && r.pos == p
  {
    forall r | r in ParamReports(p, comment, params, name)
      ensures r.code == MissingParamDoc && r.pos == p
    {
      ParamReportsExact(p, comment, params, name, r);
    }
  }

  /** The modifiers between the comment and the keyword do not hide the comment. */
  lemma ModifiersSkipped(ts: seq<Token>, e: nat, p: nat)
    requires e < p < |ts| && ts[e].kind == DocCommentClose
    requires forall k :: e < k < p ==> ts[k].kind in Modifiers
    ensures CommentEnd(ts, p) == Some(e)
  {
    FindPreviousStops(ts, Modifiers, p - 1, e);
  }

  lemma {:induction false} FindPreviousStops(ts: seq<Token>, kinds: set<Kind>, start: int, e: nat)
    requires e <= start < |ts| && ts[e].kind !in kinds
    requires forall k :: e < k <= start ==> ts[k].kind in kinds
    ensures FindPrevious(ts, kinds, start, 0, true) == Some(e)
    decreases start
  {
    if start > e {
      FindPreviousStops(ts, kinds, start - 1, e);
    }
  }
}
