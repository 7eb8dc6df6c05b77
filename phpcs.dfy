/**
 * The part of the host that the sniffs talk to: the `File` object that
 * collects reports, and its `fixer`, which records edits. Fix mode is a
 * boolean of the file: `addFixableError` returns it. Edits are recorded,
 * not applied; `Apply` gives the text they produce.
 */
module Phpcs {
  import opened Tokens
  import opened Text

  datatype Severity = Error | Warning

  /** The sniff codes the core reports under. */
  datatype Code =
    | AlternateSyntax | OpenParenthesisPlacement | ConditionalIndentation
    | InvalidBEMNaming
    | MissingPhpDoc | MissingParamDoc | MissingReturnDoc
    | ManualLinkBuilding | ManualUrlBuilding

  datatype Arg = IntArg(n: int) | StrArg(s: string)

  /** A report: severity, code, the token it is placed at, the message arguments. */
  datatype Report = Report(severity: Severity, code: Code, pos: nat, args: seq<Arg>, fixable: bool)

  /** `replaceToken(pos, text)` or `addContentBefore(pos, text)`. */
  datatype Edit = Replace(pos: nat, text: string) | AddBefore(pos: nat, text: string)

  class Fixer {
    /** Every edit recorded so far, in order. */
    var edits: seq<Edit>

    constructor ()
      ensures edits == []
    {
      edits := [];
    }

    method ReplaceToken(pos: nat, text: string)
      modifies this
      ensures edits == old(edits) + [Replace(pos, text)]
    {
      edits := edits + [Replace(pos, text)];
    }

    method AddContentBefore(pos: nat, text: string)
      modifies this
      ensures edits == old(edits) + [AddBefore(pos, text)]
    {
      edits := edits + [AddBefore(pos, text)];
    }
  }

  class File {
    const tokens: seq<Token>
    /** Whether the host runs in fix mode: what `addFixableError` returns. */
    const fixing: bool
    const fixer: Fixer
    /** Every report issued so far, in order. */
    var reports: seq<Report>

    constructor (tokens: seq<Token>, fixing: bool)
      ensures this.tokens == tokens && this.fixing == fixing
      ensures fresh(fixer) && fixer.edits == [] && reports == []
    {
      this.tokens := tokens;
      this.fixing := fixing;
      fixer := new Fixer();
      reports := [];
    }

    method AddError(code: Code, pos: nat, args: seq<Arg>)
      modifies this
      ensures reports == old(reports) + [Report(Error, code, pos, args, false)]
    {
      reports := reports + [Report(Error, code, pos, args, false)];
    }

    method AddFixableError(code: Code, pos: nat, args: seq<Arg>) returns (fix: bool)
      modifies this
      ensures reports == old(reports) + [Report(Error, code, pos, args, true)]
      ensures fix == fixing
    {
      reports := reports + [Report(Error, code, pos, args, true)];
      fix := fixing;
    }

    method AddWarning(code: Code, pos: nat, args: seq<Arg>)
      modifies this
      ensures reports == old(reports) + [Report(Warning, code, pos, args, false)]
    {
      reports := reports + [Report(Warning, code, pos, args, false)];
    }
  }

  /** One edit applied to the content `c` of token `i`: a replacement sets it, `addContentBefore` prefixes it. */
  function EditToken(e: Edit, i: nat, c: string): string {
    if e.pos != i then c
    else match e
      case Replace(_, t) => t
      case AddBefore(_, t) => t + c
  }

  /** The content of token `i` once `edits[k..]` are applied, in recorded order, to `c`. */
  function Rewrite(edits: seq<Edit>, k: nat, i: nat, c: string): string
    decreases |edits| - k
  {
    if k >= |edits| then c else Rewrite(edits, k + 1, i, EditToken(edits[k], i, c))
  }

  /** The content of token `i` after every edit. */
  function Rendered(ts: seq<Token>, edits: seq<Edit>, i: nat): string
    requires i < |ts|
  {
    Rewrite(edits, 0, i, ts[i].content)
  }

  /** The text of tokens `i..` after the edits. */
  function ApplyFrom(ts: seq<Token>, edits: seq<Edit>, i: nat): string
    decreases |ts| - i
  {
    if i >= |ts| then "" else Rendered(ts, edits, i) + ApplyFrom(ts, edits, i + 1)
  }

  /** The source text after the edits. */
  function Apply(ts: seq<Token>, edits: seq<Edit>): string {
    ApplyFrom(ts, edits, 0)
  }

  /** A token that no edit targets keeps its content. */
  lemma {:induction false} RewriteUntouched(edits: seq<Edit>, k: nat, i: nat, c: string)
    requires forall j :: k <= j < |edits| ==> edits[j].pos != i
    ensures Rewrite(edits, k, i, c) == c
    decreases |edits| - k
  {
    if k < |edits| {
      RewriteUntouched(edits, k + 1, i, c);
    }
  }

  /** A token no edit targets contributes its own content to the text. */
  lemma ApplyFromUntouched(ts: seq<Token>, edits: seq<Edit>, i: nat)
    requires i < |ts| && forall j :: 0 <= j < |edits| ==> edits[j].pos != i
    ensures ApplyFrom(ts, edits, i) == ts[i].content + ApplyFrom(ts, edits, i + 1)
  {
    RewriteUntouched(edits, 0, i, ts[i].content);
  }

  /** A stretch of tokens no edit targets reads as the source text of that stretch. */
  lemma {:induction false} ApplyFromUntouchedRange(ts: seq<Token>, edits: seq<Edit>, i: nat, j: nat)
    requires i <= j <= |ts|
    requires forall k :: 0 <= k < |edits| ==> edits[k].pos < i || j <= edits[k].pos
    ensures ApplyFrom(ts, edits, i) == TextOf(ts, i, j) + ApplyFrom(ts, edits, j)
    decreases j - i
  {
    if i < j {
      ApplyFromUntouched(ts, edits, i);
      ApplyFromUntouchedRange(ts, edits, i + 1, j);
      AppendAssoc(ts[i].content, TextOf(ts, i + 1, j), ApplyFrom(ts, edits, j));
    }
  }

  /** Applying `a ++ b` from position `k` of `a` is applying `a[k..]`, then `b`. */
  lemma {:induction false} RewriteAppend(a: seq<Edit>, b: seq<Edit>, k: nat, i: nat, c: string)
    requires k <= |a|
    ensures Rewrite(a + b, k, i, c) == Rewrite(b, 0, i, Rewrite(a, k, i, c))
    decreases |a| - k
  {
    if k < |a| {
      assert (a + b)[k] == a[k];
      RewriteAppend(a, b, k + 1, i, EditToken(a[k], i, c));
    } else {
      RewriteShift(a, b, 0, i, c);
    }
  }

  lemma {:induction false} RewriteShift(a: seq<Edit>, b: seq<Edit>, m: nat, i: nat, c: string)
    requires m <= |b|
    ensures Rewrite(a + b, |a| + m, i, c) == Rewrite(b, m, i, c)
    decreases |b| - m
  {
    if m < |b| {
      assert (a + b)[|a| + m] == b[m];
      RewriteShift(a, b, m + 1, i, EditToken(b[m], i, c));
    }
  }

  /** A token whose every edit blanks it, and that has at least one, reads as "". */
  lemma {:induction false} RewriteBlanked(edits: seq<Edit>, k: nat, i: nat, c: string)
    requires exists j :: k <= j < |edits| && edits[j] == Replace(i, "")
    requires forall j :: k <= j < |edits| && edits[j].pos == i ==> edits[j] == Replace(i, "")
    ensures Rewrite(edits, k, i, c) == ""
    decreases |edits| - k
  {
    if edits[k] == Replace(i, "") {
      if exists j :: k + 1 <= j < |edits| && edits[j] == Replace(i, "") {
        RewriteBlanked(edits, k + 1, i, "");
      } else {
        RewriteUntouched(edits, k + 1, i, "");
      }
    } else {
      RewriteBlanked(edits, k + 1, i, c);
    }
  }
}
