/**
 * ConditionalMultilineSniff: one sniff that runs the alternate-syntax rule
 * and then the multiline-header rule for the same keyword. Its helpers are
 * copies of those of the two separate sniffs, so both rules are the ones
 * defined in `AlternateSyntax` and `Indentation`.
 */
module ConditionalMultiline {
  import opened Tokens
  import opened Phpcs
  import opened AlternateSyntax
  import opened Indentation

  /** `process`: the alternate-syntax check, then the multiline check. */
  method Process(file: File, p: nat)
    requires p < |file.tokens| && ValidStream(file.tokens)
    modifies file, file.fixer
    ensures file.reports == old(file.reports) + Reports(file.tokens, p) + FormatReports(file.tokens, p)
    ensures file.fixing ==> file.fixer.edits == old(file.fixer.edits) + Edits(file.tokens, p) + FormatEdits(file.tokens, p)
    ensures !file.fixing ==> file.fixer.edits == old(file.fixer.edits)
  {
    CheckAlternateSyntax(file, p);
    CheckMultilineFormatting(file, p);
  }

  /** Every alternate-syntax report is an AlternateSyntax error at a colon. */
  lemma ReportsCode(ts: seq<Token>, p: nat)
    requires p < |ts|
    ensures forall r :: r in Reports(ts, p) ==> r.code == AlternateSyntax && r.severity == Error && ts[r.pos].kind == Colon
  {
  }

  /**
   * For a header that fits on one line (or has no parentheses), `process`
   * reports nothing but AlternateSyntax, and records only its edits.
   */
  lemma SingleLineOnlyAlternateSyntax(ts: seq<Token>, p: nat)
    requires p < |ts| && ValidStream(ts)
    requires match ParenAfter(ts, p)
      case None => true
      case Some(o) => ts[o].closer < |ts| && ts[o].line == ts[ts[o].closer].line
    ensures forall r :: r in Reports(ts, p) + FormatReports(ts, p) ==> r.code == AlternateSyntax
    ensures Edits(ts, p) + FormatEdits(ts, p) == Edits(ts, p)
  {
    SingleLineHeaderUnchecked(ts, p);
    assert Reports(ts, p) + FormatReports(ts, p) == Reports(ts, p);
    ReportsCode(ts, p);
  }

  /** Every report of `process` carries one of the three codes of the two rules. */
  lemma ProcessCodes(ts: seq<Token>, p: nat)
    requires p < |ts| && ValidStream(ts)
    ensures forall r :: r in Reports(ts, p) + FormatReports(ts, p) ==>
      r.code in {AlternateSyntax, OpenParenthesisPlacement, ConditionalIndentation}
  {
    ReportsCode(ts, p);
    FormatReportsCodes(ts, p);
  }
}
