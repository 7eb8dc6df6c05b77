/**
 * Before/after pairs of the alternate-syntax fix, on token streams as the
 * tokenizer splits the inputs, and the cases where the rule pairs keywords
 * the way its code does rather than by nesting.
 *
 * Each lemma either evaluates one search over a short stretch of a stream
 * or combines such facts by calling the lemmas that state them.
 */
module AlternateSyntaxExamples {
  import opened Tokens
  import opened Text
  import opened Phpcs
  import opened AlternateSyntax

  // ---------------------------------------------------------------------
  // `if ( true ):\n\techo "test";\nendif;`

  const SimpleIf: seq<Token> := [
    Token(If, "if", 1, 0, 0), Token(Whitespace, " ", 1, 0, 0), Token(OpenParen, "(", 1, 6, 0),
    Token(Whitespace, " ", 1, 0, 0), Token(Other, "true", 1, 0, 0), Token(Whitespace, " ", 1, 0, 0),
    Token(CloseParen, ")", 1, 0, 0), Token(Colon, ":", 1, 0, 0), Token(Whitespace, "\n", 1, 0, 0),
    Token(Whitespace, "\t", 2, 0, 0), Token(Echo, "echo", 2, 0, 0), Token(Whitespace, " ", 2, 0, 0),
    Token(ConstantString, "\"test\"", 2, 0, 0), Token(Semicolon, ";", 2, 0, 0), Token(Whitespace, "\n", 2, 0, 0),
    Token(EndIf, "endif", 3, 0, 0), Token(Semicolon, ";", 3, 0, 0)]

  const SimpleIfFix: seq<Edit> := [Replace(7, " {"), Replace(15, "}"), Replace(16, "")]

  lemma SimpleIfColon()
    ensures FindNext(SimpleIf, {Colon}, 0, |SimpleIf|, false) == Some(7)
  {
  }

  lemma SimpleIfNoSemicolon()
    ensures FindNext(SimpleIf, {Semicolon}, 0, 7, false) == None
  {
  }

  lemma SimpleIfNoCurly()
    ensures FindNext(SimpleIf, {OpenCurly}, 0, 7, false) == None
  {
  }

  lemma SimpleIfNoGuard()
    ensures FindNext(SimpleIf, {Semicolon}, 0, 7, false) == None
    ensures FindNext(SimpleIf, {OpenCurly}, 0, 7, false) == None
  {
    SimpleIfNoSemicolon();
    SimpleIfNoCurly();
  }

  lemma SimpleIfEndLate()
    ensures FindNext(SimpleIf, EndKinds, 8, |SimpleIf|, false) == Some(15)
  {
  }

  lemma SimpleIfEnd()
    ensures FindNext(SimpleIf, EndKinds, 0, |SimpleIf|, false) == Some(15)
  {
    SimpleIfEndLate();
  }

  lemma SimpleIfNoTagLate()
    ensures FindNext(SimpleIf, {CloseTag}, 8, 15, false) == None
  {
  }

  lemma SimpleIfNoTag()
    ensures FindNext(SimpleIf, {CloseTag}, 0, 15, false) == None
  {
    SimpleIfNoTagLate();
  }

  lemma SimpleIfNotExempt()
    ensures !Exempt(SimpleIf, 0)
  {
    SimpleIfEnd();
    SimpleIfNoTag();
  }

  lemma SimpleIfViolation()
    ensures Violation(SimpleIf, 0) == Some(7)
  {
    SimpleIfColon();
    SimpleIfNoGuard();
    SimpleIfNotExempt();
    TernaryGuardNeverFires(SimpleIf, 0, 7);
  }

  lemma SimpleIfEndIfLate()
    ensures FindNext(SimpleIf, {EndIf}, 8, |SimpleIf|, false) == Some(15)
  {
  }

  lemma SimpleIfEndIf()
    ensures EndOf(SimpleIf, 0) == Some(15)
  {
    assert EndKindOf("if") == EndIf;
    SimpleIfEndIfLate();
  }

  lemma SimpleIfNoElseLate()
    ensures FindNext(SimpleIf, {Else, ElseIf}, 8, 15, false) == None
  {
  }

  lemma SimpleIfNoElseAll()
    ensures FindNext(SimpleIf, {Else, ElseIf}, 1, 15, false) == None
  {
    SimpleIfNoElseLate();
  }

  lemma SimpleIfNoElse()
    ensures ElseEdits(SimpleIf, 1, 15) == []
  {
    SimpleIfNoElseAll();
  }

  lemma SimpleIfSemicolon()
    ensures SemicolonEdit(SimpleIf, 15) == [Replace(16, "")]
  {
  }

  lemma SimpleIfEdits()
    ensures FixEdits(SimpleIf, 0, 7) == SimpleIfFix
  {
    SimpleIfEndIf();
    SimpleIfNoElse();
    SimpleIfSemicolon();
  }

  lemma SimpleIfTail()
    ensures ApplyFrom(SimpleIf, SimpleIfFix, 12) == "\"test\";\n}"
  {
  }

  lemma SimpleIfMiddle()
    ensures ApplyFrom(SimpleIf, SimpleIfFix, 6) == ") {\n\techo " + ApplyFrom(SimpleIf, SimpleIfFix, 12)
  {
  }

  lemma SimpleIfHeadText()
    ensures TextOf(SimpleIf, 0, 6) == "if ( true "
  {
  }

  lemma SimpleIfHead()
    ensures ApplyFrom(SimpleIf, SimpleIfFix, 0) == "if ( true " + ApplyFrom(SimpleIf, SimpleIfFix, 6)
  {
    ApplyFromUntouchedRange(SimpleIf, SimpleIfFix, 0, 6);
    SimpleIfHeadText();
  }

  lemma SimpleIfText()
    ensures Apply(SimpleIf, SimpleIfFix) == "if ( true ) {\n\techo \"test\";\n}"
  {
    SimpleIfHead();
    SimpleIfMiddle();
    SimpleIfTail();
    AppendAssoc("if ( true ", ") {\n\techo ", "\"test\";\n}");
  }

  /** The simple `if`: reported at its colon; the fix gives the brace form and drops `endif;`. */
  lemma SimpleIfFixed()
    ensures Reports(SimpleIf, 0) == [Report(Error, AlternateSyntax, 7, [], true)]
    ensures Apply(SimpleIf, Edits(SimpleIf, 0)) == "if ( true ) {\n\techo \"test\";\n}"
  {
    SimpleIfViolation();
    SimpleIfEdits();
    SimpleIfText();
  }

  // ---------------------------------------------------------------------
  // `if($a):else:endif;`

  const IfElse: seq<Token> := [
    Token(If, "if", 1, 0, 0), Token(OpenParen, "(", 1, 3, 0), Token(Variable, "$a", 1, 0, 0),
    Token(CloseParen, ")", 1, 0, 0), Token(Colon, ":", 1, 0, 0),
    Token(Else, "else", 1, 0, 0), Token(Colon, ":", 1, 0, 0),
    Token(EndIf, "endif", 1, 0, 0), Token(Semicolon, ";", 1, 0, 0)]

  const IfElseFix: seq<Edit> :=
    [Replace(4, " {"), Replace(5, "} else"), Replace(6, " {"), Replace(7, "}"), Replace(8, "")]

  lemma IfElseColon()
    ensures FindNext(IfElse, {Colon}, 0, |IfElse|, false) == Some(4)
  {
  }

  lemma IfElseNoGuard()
    ensures FindNext(IfElse, {Semicolon}, 0, 4, false) == None
    ensures FindNext(IfElse, {OpenCurly}, 0, 4, false) == None
  {
  }

  lemma IfElseEnd()
    ensures FindNext(IfElse, EndKinds, 0, |IfElse|, false) == Some(7)
  {
  }

  lemma IfElseNoTag()
    ensures FindNext(IfElse, {CloseTag}, 0, 7, false) == None
  {
  }

  lemma IfElseNotExempt()
    ensures !Exempt(IfElse, 0)
  {
    IfElseEnd();
    IfElseNoTag();
  }

  lemma IfElseViolation()
    ensures Violation(IfElse, 0) == Some(4)
  {
    IfElseColon();
    IfElseNoGuard();
    IfElseNotExempt();
    TernaryGuardNeverFires(IfElse, 0, 4);
  }

  lemma IfElseEndIf()
    ensures EndOf(IfElse, 0) == Some(7)
  {
    assert EndKindOf("if") == EndIf;
  }

  lemma IfElseStep()
    ensures ElseStep(IfElse, 5, 7) == [Replace(5, "} else"), Replace(6, " {")]
  {
  }

  lemma IfElseFirstElse()
    ensures FindNext(IfElse, {Else, ElseIf}, 1, 7, false) == Some(5)
  {
  }

  lemma IfElseNoMoreElse()
    ensures ElseEdits(IfElse, 6, 7) == []
  {
  }

  lemma IfElseElseEdits()
    ensures ElseEdits(IfElse, 1, 7) == [Replace(5, "} else"), Replace(6, " {")]
  {
    IfElseFirstElse();
    IfElseStep();
    IfElseNoMoreElse();
  }

  lemma IfElseSemicolon()
    ensures SemicolonEdit(IfElse, 7) == [Replace(8, "")]
  {
  }

  lemma IfElseEdits()
    ensures FixEdits(IfElse, 0, 4) == IfElseFix
  {
    IfElseEndIf();
    IfElseElseEdits();
    IfElseSemicolon();
  }

  lemma IfElseHeadText()
    ensures TextOf(IfElse, 0, 4) == "if($a)"
  {
  }

  lemma IfElseBlocks()
    ensures ApplyFrom(IfElse, IfElseFix, 6) == " {}"
  {
  }

  lemma IfElseBraces()
    ensures ApplyFrom(IfElse, IfElseFix, 4) == " {} else" + ApplyFrom(IfElse, IfElseFix, 6)
  {
  }

  lemma IfElseText()
    ensures Apply(IfElse, IfElseFix) == "if($a) {} else {}"
  {
    ApplyFromUntouchedRange(IfElse, IfElseFix, 0, 4);
    IfElseHeadText();
    IfElseBraces();
    IfElseBlocks();
  }

  /** `if`/`else`: the `else` becomes `} else` and its colon ` {`. */
  lemma IfElseFixed()
    ensures Reports(IfElse, 0) == [Report(Error, AlternateSyntax, 4, [], true)]
    ensures Apply(IfElse, Edits(IfElse, 0)) == "if($a) {} else {}"
  {
    IfElseViolation();
    IfElseEdits();
    IfElseText();
  }

  // ---------------------------------------------------------------------
  // `if($a):elseif($b):else:endif;`

  const Chain: seq<Token> := [
    Token(If, "if", 1, 0, 0), Token(OpenParen, "(", 1, 3, 0), Token(Variable, "$a", 1, 0, 0),
    Token(CloseParen, ")", 1, 0, 0), Token(Colon, ":", 1, 0, 0),
    Token(ElseIf, "elseif", 1, 0, 0), Token(OpenParen, "(", 1, 8, 0), Token(Variable, "$b", 1, 0, 0),
    Token(CloseParen, ")", 1, 0, 0), Token(Colon, ":", 1, 0, 0),
    Token(Else, "else", 1, 0, 0), Token(Colon, ":", 1, 0, 0),
    Token(EndIf, "endif", 1, 0, 0), Token(Semicolon, ";", 1, 0, 0)]

  const ChainFix: seq<Edit> :=
    [Replace(4, " {"), Replace(5, "} elseif"), Replace(9, " {"),
     Replace(10, "} else"), Replace(11, " {"), Replace(12, "}"), Replace(13, "")]

  lemma ChainColon()
    ensures FindNext(Chain, {Colon}, 0, |Chain|, false) == Some(4)
  {
  }

  lemma ChainNoGuard()
    ensures FindNext(Chain, {Semicolon}, 0, 4, false) == None
    ensures FindNext(Chain, {OpenCurly}, 0, 4, false) == None
  {
  }

  lemma ChainEnd()
    ensures FindNext(Chain, EndKinds, 0, |Chain|, false) == Some(12)
  {
  }

  lemma ChainNoTag()
    ensures FindNext(Chain, {CloseTag}, 0, 12, false) == None
  {
  }

  lemma ChainViolation()
    ensures Violation(Chain, 0) == Some(4)
  {
    ChainColon();
    ChainNoGuard();
    ChainEnd();
    ChainNoTag();
    assert !Exempt(Chain, 0);
    TernaryGuardNeverFires(Chain, 0, 4);
  }

  lemma ChainEndIf()
    ensures EndOf(Chain, 0) == Some(12)
  {
    assert EndKindOf("if") == EndIf;
  }

  lemma ChainElseIfStep()
    ensures ElseStep(Chain, 5, 12) == [Replace(5, "} elseif"), Replace(9, " {")]
  {
  }

  lemma ChainElseStep()
    ensures ElseStep(Chain, 10, 12) == [Replace(10, "} else"), Replace(11, " {")]
  {
  }

  lemma ChainFirstElse()
    ensures FindNext(Chain, {Else, ElseIf}, 1, 12, false) == Some(5)
  {
  }

  lemma ChainSecondElse()
    ensures FindNext(Chain, {Else, ElseIf}, 6, 12, false) == Some(10)
  {
  }

  lemma ChainNoMoreElse()
    ensures ElseEdits(Chain, 11, 12) == []
  {
  }

  lemma ChainLastElse()
    ensures ElseEdits(Chain, 6, 12) == [Replace(10, "} else"), Replace(11, " {")]
  {
    ChainSecondElse();
    ChainElseStep();
    ChainNoMoreElse();
  }

  lemma ChainElseEdits()
    ensures ElseEdits(Chain, 1, 12) ==
      [Replace(5, "} elseif"), Replace(9, " {"), Replace(10, "} else"), Replace(11, " {")]
  {
    ChainFirstElse();
    ChainElseIfStep();
    ChainLastElse();
  }

  lemma ChainSemicolon()
    ensures SemicolonEdit(Chain, 12) == [Replace(13, "")]
  {
  }

  lemma ChainEdits()
    ensures FixEdits(Chain, 0, 4) == ChainFix
  {
    ChainEndIf();
    ChainElseEdits();
    ChainSemicolon();
    ChainFixParts();
  }

  lemma ChainFixParts()
    ensures [Replace(4, " {")] + [Replace(5, "} elseif"), Replace(9, " {"), Replace(10, "} else"), Replace(11, " {")]
      + [Replace(12, "}")] + [Replace(13, "")] == ChainFix
  {
  }

  lemma ChainHeadText()
    ensures TextOf(Chain, 0, 4) == "if($a)"
  {
  }

  lemma ChainConditionText()
    ensures TextOf(Chain, 6, 9) == "($b)"
  {
  }

  lemma ChainElseBlock()
    ensures ApplyFrom(Chain, ChainFix, 11) == " {}"
  {
  }

  lemma ChainElseBraces()
    ensures ApplyFrom(Chain, ChainFix, 9) == " {} else" + ApplyFrom(Chain, ChainFix, 11)
  {
  }

  lemma ChainElseIfBraces()
    ensures ApplyFrom(Chain, ChainFix, 4) == " {} elseif" + ApplyFrom(Chain, ChainFix, 6)
  {
  }

  lemma ChainTail()
    ensures ApplyFrom(Chain, ChainFix, 6) == "($b) {} else {}"
  {
    ApplyFromUntouchedRange(Chain, ChainFix, 6, 9);
    ChainConditionText();
    ChainElseBraces();
    ChainElseBlock();
  }

  lemma ChainText()
    ensures Apply(Chain, ChainFix) == "if($a) {} elseif($b) {} else {}"
  {
    ApplyFromUntouchedRange(Chain, ChainFix, 0, 4);
    ChainHeadText();
    ChainElseIfBraces();
    ChainTail();
    AppendAssoc("if($a)", " {} elseif", "($b) {} else {}");
    ChainTextParts();
  }

  lemma ChainTextParts()
    ensures "if($a)" + (" {} elseif" + "($b) {} else {}") == "if($a) {} elseif($b) {} else {}"
  {
  }

  /**
   * `if`/`elseif`/`else`: each branch keyword gains the `}` closing the
   * block before it, and each colon becomes ` {`.
   */
  lemma IfElseIfElseFixed()
    ensures Reports(Chain, 0) == [Report(Error, AlternateSyntax, 4, [], true)]
    ensures Apply(Chain, Edits(Chain, 0)) == "if($a) {} elseif($b) {} else {}"
  {
    ChainViolation();
    ChainEdits();
    ChainText();
  }

  // ---------------------------------------------------------------------
  // `if($a):?>\nHTML content\n<?php\nendif;`

  const WithTag: seq<Token> := [
    Token(If, "if", 1, 0, 0), Token(OpenParen, "(", 1, 3, 0), Token(Variable, "$a", 1, 0, 0),
    Token(CloseParen, ")", 1, 0, 0), Token(Colon, ":", 1, 0, 0),
    Token(CloseTag, "?>\n", 1, 0, 0), Token(InlineHtml, "HTML content\n", 2, 0, 0), Token(OpenTag, "<?php\n", 3, 0, 0),
    Token(EndIf, "endif", 4, 0, 0), Token(Semicolon, ";", 4, 0, 0)]

  lemma WithTagEnd()
    ensures FindNext(WithTag, EndKinds, 0, |WithTag|, false) == Some(8)
  {
  }

  lemma WithTagTag()
    ensures FindNext(WithTag, {CloseTag}, 0, 8, false) == Some(5)
  {
  }

  lemma WithTagExempt()
    ensures Exempt(WithTag, 0)
  {
    WithTagEnd();
    WithTagTag();
  }

  lemma WithTagColon()
    ensures FindNext(WithTag, {Colon}, 0, |WithTag|, false) == Some(4)
  {
  }

  lemma WithTagNoGuard()
    ensures FindNext(WithTag, {Semicolon}, 0, 4, false) == None
    ensures FindNext(WithTag, {OpenCurly}, 0, 4, false) == None
  {
  }

  /** A block holding `?>` is left alone: no report, no edit. */
  lemma WithTagAllowed()
    ensures Reports(WithTag, 0) == [] && Edits(WithTag, 0) == []
  {
    WithTagExempt();
    WithTagColon();
    WithTagNoGuard();
    TernaryGuardNeverFires(WithTag, 0, 4);
  }

  // ---------------------------------------------------------------------
  // `if($a):if($b):endif;elseif($c):endif;`

  const Nested: seq<Token> := [
    Token(If, "if", 1, 0, 0), Token(OpenParen, "(", 1, 3, 0), Token(Variable, "$a", 1, 0, 0),
    Token(CloseParen, ")", 1, 0, 0), Token(Colon, ":", 1, 0, 0),
    Token(If, "if", 1, 0, 0), Token(OpenParen, "(", 1, 8, 0), Token(Variable, "$b", 1, 0, 0),
    Token(CloseParen, ")", 1, 0, 0), Token(Colon, ":", 1, 0, 0),
    Token(EndIf, "endif", 1, 0, 0), Token(Semicolon, ";", 1, 0, 0),
    Token(ElseIf, "elseif", 1, 0, 0), Token(OpenParen, "(", 1, 15, 0), Token(Variable, "$c", 1, 0, 0),
    Token(CloseParen, ")", 1, 0, 0), Token(Colon, ":", 1, 0, 0),
    Token(EndIf, "endif", 1, 0, 0), Token(Semicolon, ";", 1, 0, 0)]

  lemma NestedInnerIfs()
    ensures Count(Nested, If, 6, 12) == 0
  {
  }

  lemma NestedInnerEndIfs()
    ensures Count(Nested, EndIf, 6, 12) == 1
  {
  }

  lemma NestedOuterIfs()
    ensures Count(Nested, If, 1, 12) == 1
  {
  }

  lemma NestedOuterEndIfs()
    ensures Count(Nested, EndIf, 1, 12) == 1
  {
    NestedInnerEndIfs();
    assert Count(Nested, EndIf, 4, 12) == Count(Nested, EndIf, 6, 12);
  }

  lemma NestedScanDown()
    ensures ParentIf(Nested, 12) == ParentIfFrom(Nested, 5, 12)
  {
  }

  lemma NestedScanPastInner()
    ensures ParentIfFrom(Nested, 5, 12) == ParentIfFrom(Nested, 4, 12)
  {
    NestedInnerIfs();
    NestedInnerEndIfs();
  }

  lemma NestedScanToOuter()
    ensures ParentIfFrom(Nested, 4, 12) == ParentIfFrom(Nested, 0, 12)
  {
  }

  lemma NestedScanAtOuter()
    ensures ParentIfFrom(Nested, 0, 12) == Some(0)
  {
    NestedOuterIfs();
    NestedOuterEndIfs();
  }

  /** The parent of the `elseif` skips the closed inner `if` and is the outer one. */
  lemma NestedElseIfParent()
    ensures ParentIf(Nested, 12) == Some(0)
  {
    NestedScanDown();
    NestedScanPastInner();
    NestedScanToOuter();
    NestedScanAtOuter();
  }

  lemma NestedFirstEndIf()
    ensures FindNext(Nested, {EndIf}, 0, |Nested|, false) == Some(10)
  {
    NestedFirstEndIfLate();
  }

  lemma NestedFirstEndIfLate()
    ensures FindNext(Nested, {EndIf}, 5, |Nested|, false) == Some(10)
  {
  }

  lemma NestedOuterEnd()
    ensures EndOf(Nested, 0) == Some(10)
  {
    assert EndKindOf("if") == EndIf;
    NestedFirstEndIf();
  }

  lemma NestedOuterNoElse()
    ensures FindNext(Nested, {Else, ElseIf}, 1, 10, false) == None
  {
  }

  lemma NestedSemicolon()
    ensures SemicolonEdit(Nested, 10) == [Replace(11, "")]
  {
  }

  /**
   * The fix of the outer `if` closes it at the INNER `endif` and removes
   * the `;` after it; the outer `endif` and the `elseif` keep their text.
   */
  lemma NestedOuterPairedWithInnerEndIf()
    ensures FixEdits(Nested, 0, 4) == [Replace(4, " {"), Replace(10, "}"), Replace(11, "")]
  {
    NestedOuterEnd();
    NestedOuterNoElse();
    NestedSemicolon();
  }
}
