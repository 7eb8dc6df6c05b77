/**
 * The token stream the sniffs scan, and the two search routines of the
 * host's `File` class that every sniff is written against.
 *
 * The host's tokenizer is not part of this model: a stream is any sequence
 * of tokens whose bracket and doc-comment links point inside it
 * (`ValidStream`). A token's position is its index in the sequence.
 */
module Tokens {

  datatype Option<+T> = None | Some(value: T)

  /** The token codes the sniffs distinguish; every other code is `Other`. */
  datatype Kind =
    | If | ElseIf | Else | While | For | Foreach
    | EndIf | EndWhile | EndFor | EndForeach
    | Colon          // T_COLON: the block colon of the alternate syntax
    | InlineThen     // T_INLINE_THEN: the `?` of a ternary
    | InlineElse     // T_INLINE_ELSE: the `:` of a ternary, a code of its own
    | Semicolon | OpenParen | CloseParen | OpenCurly | CloseCurly
    | OpenTag | CloseTag
    | Whitespace | Comment | DocCommentOpen | DocCommentClose
    | Function | Identifier | Variable | Return
    | Public | Private | Protected | Static
    | Echo | InlineHtml | ConstantString | DoubleQuotedString
    | Other

  /**
   * One token. `closer` is the index of the matching closer of an open
   * parenthesis (`parenthesis_closer`) or curly bracket (`bracket_closer`);
   * `opener` is the index of the opener of a doc-comment close tag
   * (`comment_opener`). Both are 0 and unused on every other token.
   */
  datatype Token = Token(kind: Kind, content: string, line: int, closer: nat, opener: nat)

  /** The links of the token at `i` are those the tokenizer establishes. */
  predicate LinksValid(ts: seq<Token>, i: nat)
    requires i < |ts|
  {
    && ((ts[i].kind == OpenParen || ts[i].kind == OpenCurly) ==> i < ts[i].closer < |ts|)
    && (ts[i].kind == DocCommentClose ==> ts[i].opener <= i)
  }

  predicate ValidStream(ts: seq<Token>) {
    forall i: nat | i < |ts| :: LinksValid(ts, i)
  }

  /** The end of a search range: `end`, capped at the number of tokens. */
  function Bound(ts: seq<Token>, end: nat): nat {
    if end < |ts| then end else |ts|
  }

  /** Whether a search for `kinds` (or, with `exclude`, for anything else) stops at `t`. */
  predicate Hit(t: Token, kinds: set<Kind>, exclude: bool) {
    (t.kind in kinds) != exclude
  }

  /**
   * `File::findNext($kinds, $start, $end, $exclude)`: the first index in
   * `[start, min(end, |ts|))` whose token the search stops at. A call
   * without `$end` passes `|ts|`.
   */
  function FindNext(ts: seq<Token>, kinds: set<Kind>, start: nat, end: nat, exclude: bool): (r: Option<nat>)
    ensures r.Some? ==> start <= r.value < Bound(ts, end) && Hit(ts[r.value], kinds, exclude)
    ensures r.Some? ==> forall k :: start <= k < r.value ==> !Hit(ts[k], kinds, exclude)
    ensures r.None? ==> forall k :: start <= k < Bound(ts, end) ==> !Hit(ts[k], kinds, exclude)
    decreases |ts| - start
  {
    if start >= Bound(ts, end) then None
    else if Hit(ts[start], kinds, exclude) then Some(start)
    else FindNext(ts, kinds, start + 1, end, exclude)
  }

  /**
   * `File::findPrevious($kinds, $start, $end, $exclude)`: scans DOWNWARD
   * from `start` to `end` inclusive and returns the first index whose token
   * the search stops at. A call without `$end` passes 0. When `start < end`
   * the range is empty.
   */
  function FindPrevious(ts: seq<Token>, kinds: set<Kind>, start: int, end: nat, exclude: bool): (r: Option<nat>)
    requires start < |ts|
    ensures r.Some? ==> end <= r.value <= start && Hit(ts[r.value], kinds, exclude)
    ensures r.Some? ==> forall k :: r.value < k <= start ==> !Hit(ts[k], kinds, exclude)
    ensures r.None? ==> forall k :: end <= k <= start ==> !Hit(ts[k], kinds, exclude)
    decreases start + 1
  {
    if start < end then None
    else if Hit(ts[start], kinds, exclude) then Some(start)
    else FindPrevious(ts, kinds, start - 1, end, exclude)
  }

  /** A downward search whose start lies below its end finds nothing. */
  lemma EmptyDownwardRange(ts: seq<Token>, kinds: set<Kind>, start: int, end: nat, exclude: bool)
    requires start < |ts| && start < end
    ensures FindPrevious(ts, kinds, start, end, exclude) == None
  {
  }

  /** Number of tokens of kind `k` in `[lo, hi)`. */
  function Count(ts: seq<Token>, k: Kind, lo: nat, hi: nat): nat
    requires lo <= hi <= |ts|
    decreases hi - lo
  {
    if lo == hi then 0 else (if ts[lo].kind == k then 1 else 0) + Count(ts, k, lo + 1, hi)
  }

  /** The text of the tokens in `[lo, hi)`, as `getTokensAsString` builds it. */
  function TextOf(ts: seq<Token>, lo: nat, hi: nat): string
    requires lo <= hi <= |ts|
    decreases hi - lo
  {
    if lo == hi then "" else ts[lo].content + TextOf(ts, lo + 1, hi)
  }

  /** Text built token by token from the left: one more token appends its content. */
  lemma {:induction false} TextOfAppend(ts: seq<Token>, lo: nat, hi: nat)
    requires lo <= hi < |ts|
    ensures TextOf(ts, lo, hi + 1) == TextOf(ts, lo, hi) + ts[hi].content
    decreases hi - lo
  {
    if lo < hi {
      TextOfAppend(ts, lo + 1, hi);
    }
  }
}
