# DemandDrive coding standard: a verified model of its sniffs

This project models the core of the DemandDrive PHP_CodeSniffer standard in
Dafny and proves properties of the model. The core is six sniffs. A sniff is
called for one token of a file's token stream. It records reports (errors or
warnings) on the file. In fix mode, it also records edits with the file's fixer.

- **ConditionalAlternateSyntaxSniff** (`alternate_syntax.dfy`)
  - Reports a control structure written with a block colon (`if (...):` … `endif;`) at its colon.
  - In fix mode, it rewrites the block to braces.
  - A block that holds a PHP closing tag `?>` is allowed.
  - An `elseif` is judged by its parent `if`, found by a backward scan that counts `if` and `endif`.
- **ConditionalIndentationSniff** (`indentation.dfy`)
  - When the parentheses after a control keyword span several lines, the first token after `(` must start a new line.
  - Every line inside must be indented four columns deeper than the line of the `(`. A tab counts as four columns.
  - Both rules are fixable.
- **ConditionalMultilineSniff** (`multiline.dfy`)
  - Runs the two rules above, one after the other.
  - Its private helpers are copies of those of the two separate sniffs, so the model defines each helper once.
- **BEM ClassNamingSniff** (`class_naming.dfy`)
  - Every class in a class attribute must be `block`, `block__element`, `block--modifier` or `block__element--modifier`.
  - A few names are exempt.
  - Inline HTML is searched for `class="…"` attributes. A string token is checked when one of the three tokens before it ends in `class=`.
- **RequiredPhpDocParamsSniff** (`phpdoc.dfy`)
  - A named function needs a doc comment. Access and `static` modifiers may stand between the comment and the function.
  - The comment must mention `@param` and every parameter name.
  - If the body holds a `return`, the comment must mention `@return`.
- **ArrayToLinkUsageSniff** (`array_to_link.dfy`)
  - An `<a … href=` tag whose text reads `$x['url']` (and perhaps `$x['title']`) draws a warning to use `array_to_link()`.
  - It checks inline HTML and the text of an `echo` statement.

Shared modules:

- `tokens.dfy` holds the token stream and the host's `findNext` / `findPrevious` searches.
- `phpcs.dfy` holds the host's `File` (reports, fix mode) and `Fixer` (recorded edits). `Apply` renders the recorded edits as text.
- `text.dfy` holds character classes and string helpers.

Each sniff has the same structure:

- Its loops are methods, proved against functions that give the reports or edits they record.
- The functions' properties are proved as lemmas.
- Example lemmas replay the repository's test inputs on small token streams.

## Model

| member | source | states |
|---|---|---|
| Tokens.FindNext | src/Standards/DemandDrive/Sniffs/Conditionals/ConditionalAlternateSyntaxSniff.php:55 | `findNext` returns the first token in `[start, min(end, len))` that matches (or, with `exclude`, does not match) the kinds. It returns none exactly when no token in that range does. |
| Tokens.FindPrevious | src/Standards/DemandDrive/Sniffs/Functions/RequiredPhpDocParamsSniff.php:62 | `findPrevious` scans down from `start` to `end` inclusive and returns the first hit. It returns none exactly when nothing in that range hits. |
| Tokens.EmptyDownwardRange | src/Standards/DemandDrive/Sniffs/Conditionals/ConditionalAlternateSyntaxSniff.php:61 | A downward search whose start lies below its end finds nothing. |
| Tokens.TextOfAppend | src/Standards/DemandDrive/Sniffs/Arrays/ArrayToLinkUsageSniff.php:88-90 | Extending a token range by one token appends that token's content to the text of the range. |
| Phpcs.File.AddError | src/Standards/DemandDrive/Sniffs/Functions/RequiredPhpDocParamsSniff.php:66 | `addError` appends one non-fixable error, with its code, position and arguments. |
| Phpcs.File.AddFixableError | src/Standards/DemandDrive/Sniffs/Conditionals/ConditionalAlternateSyntaxSniff.php:99 | `addFixableError` appends one fixable error and returns whether the file is in fix mode. |
| Phpcs.File.AddWarning | src/Standards/DemandDrive/Sniffs/BEM/ClassNamingSniff.php:83 | `addWarning` appends one warning. |
| Phpcs.Fixer.ReplaceToken | src/Standards/DemandDrive/Sniffs/Conditionals/ConditionalAlternateSyntaxSniff.php:200 | `replaceToken` records one replacement edit after the earlier ones. |
| Phpcs.Fixer.AddContentBefore | src/Standards/DemandDrive/Sniffs/Conditionals/ConditionalIndentationSniff.php:228 | `addContentBefore` records one prefixing edit after the earlier ones. |
| Text.SkipSpace | src/Standards/DemandDrive/Sniffs/Arrays/ArrayToLinkUsageSniff.php:65 | `\s*` is greedy: it skips exactly the maximal run of whitespace. |
| Text.ExpandTabs | src/Standards/DemandDrive/Sniffs/Conditionals/ConditionalIndentationSniff.php:134 | Replacing every tab by four spaces adds three characters per tab and leaves no tab. |
| Text.Spaces | src/Standards/DemandDrive/Sniffs/Conditionals/ConditionalIndentationSniff.php:227 | `str_repeat(' ', n)` is exactly `n` spaces. |
| AlternateSyntax.HasPhpClosingTags | src/Standards/DemandDrive/Sniffs/Conditionals/ConditionalAlternateSyntaxSniff.php:114-129 | True iff a `?>` lies between the keyword and the first end keyword (of any of the four kinds) after it. False when no end keyword follows. |
| AlternateSyntax.ParentIfFrom | src/Standards/DemandDrive/Sniffs/Conditionals/ConditionalAlternateSyntaxSniff.php:143-163 | The backward scan returns the nearest `if` whose `if`/`endif` counts up to the `elseif` balance. No nearer `if` balances. None means no `if` does. |
| AlternateSyntax.FindParentIfStatement | src/Standards/DemandDrive/Sniffs/Conditionals/ConditionalAlternateSyntaxSniff.php:139-164 | The loop computes that scan. Its result is an `if` before the `elseif`. |
| AlternateSyntax.Violation | src/Standards/DemandDrive/Sniffs/Conditionals/ConditionalAlternateSyntaxSniff.php:54-95 | A colon is reported iff a colon follows the keyword, no `;`, `{` or earlier colon lies before it, and the keyword is not exempt by closing tags. The reported colon is the first colon after the keyword. |
| AlternateSyntax.CheckAlternateSyntax | src/Standards/DemandDrive/Sniffs/Conditionals/ConditionalAlternateSyntaxSniff.php:51-104 | `checkAlternateSyntax` appends the reports of the guard chain. In fix mode it appends the fix edits; otherwise it records no edit. |
| AlternateSyntax.FixElse | src/Standards/DemandDrive/Sniffs/Conditionals/ConditionalAlternateSyntaxSniff.php:233-253 | One `else`/`elseif` with a colon before the end gets `} else` / `} elseif` and ` {`. Without such a colon, it gets nothing. |
| AlternateSyntax.FixElseStatements | src/Standards/DemandDrive/Sniffs/Conditionals/ConditionalAlternateSyntaxSniff.php:226-255 | The loop records the edits for every `else`/`elseif` between the keyword and the end keyword, in order. |
| AlternateSyntax.FixAlternateSyntax | src/Standards/DemandDrive/Sniffs/Conditionals/ConditionalAlternateSyntaxSniff.php:175-215 | `fixAlternateSyntax` records exactly the edits of `FixEdits`. |
| AlternateSyntax.TernaryGuardNeverFires | src/Standards/DemandDrive/Sniffs/Conditionals/ConditionalAlternateSyntaxSniff.php:60-65 | The ternary guard searches down from the keyword to the colon, an empty range, so it never stops the check. |
| AlternateSyntax.SemicolonBeforeColonNeverReported | src/Standards/DemandDrive/Sniffs/Conditionals/ConditionalAlternateSyntaxSniff.php:67-72 | A `;` before the first colon means no report and no edit. |
| AlternateSyntax.NoColonNoReport | src/Standards/DemandDrive/Sniffs/Conditionals/ConditionalAlternateSyntaxSniff.php:54-58 | With no colon after the keyword, there is no report and no edit. |
| AlternateSyntax.ElseEditsSound | src/Standards/DemandDrive/Sniffs/Conditionals/ConditionalAlternateSyntaxSniff.php:226-255 | Every else edit lies inside the block. Each one either turns an `else`/`elseif` into `} else`/`} elseif` or turns a colon into ` {`. |
| AlternateSyntax.ElseEditsComplete | src/Standards/DemandDrive/Sniffs/Conditionals/ConditionalAlternateSyntaxSniff.php:231-253 | Every `else`/`elseif` in the block that has a colon before the end is rewritten, and so is its colon. |
| AlternateSyntax.SemicolonEditExact | src/Standards/DemandDrive/Sniffs/Conditionals/ConditionalAlternateSyntaxSniff.php:208-212 | The `;` is removed exactly when it is the token right after the end keyword. |
| AlternateSyntax.FixEditsShape | src/Standards/DemandDrive/Sniffs/Conditionals/ConditionalAlternateSyntaxSniff.php:175-215 | No end keyword of the mapped kind means no edit. Otherwise the fix opens with ` {` at the colon, closes with `}` at the first such end keyword, and may drop a `;` after it. Every other edit is an else rewrite inside the block. |
| AlternateSyntaxExamples.SimpleIfFixed | tests/Conditionals/ConditionalMultilineSniffTest.php:96-97 | `if ( true ):` … `endif;` is reported at its colon, and the fix gives `if ( true ) {` … `}`, as the test expects. |
| AlternateSyntaxExamples.IfElseFixed | src/Standards/DemandDrive/Sniffs/Conditionals/ConditionalAlternateSyntaxSniff.php:226-255 | `if($a):else:endif;` is fixed to `if($a) {} else {}`. |
| AlternateSyntaxExamples.IfElseIfElseFixed | tests/Conditionals/ConditionalAlternateSyntaxSniffTest.php:55-68 | `if($a):elseif($b):else:endif;` draws one fixable error at its first colon and is fixed to `if($a) {} elseif($b) {} else {}`. |
| AlternateSyntaxExamples.WithTagAllowed | src/Standards/DemandDrive/Sniffs/Conditionals/ConditionalAlternateSyntaxSniff.php:91-95 | A block holding `?>` draws no report and no edit. |
| AlternateSyntaxExamples.NestedElseIfParent | src/Standards/DemandDrive/Sniffs/Conditionals/ConditionalAlternateSyntaxSniff.php:147-161 | The parent of an `elseif` skips a closed inner `if` and finds the outer one. |
| AlternateSyntaxExamples.NestedOuterPairedWithInnerEndIf | src/Standards/DemandDrive/Sniffs/Conditionals/ConditionalAlternateSyntaxSniff.php:190-191 | The fix pairs an outer `if` with the first `endif` after it, which is the inner block's one. |
| Indentation.LineStartFrom | src/Standards/DemandDrive/Sniffs/Conditionals/ConditionalIndentationSniff.php:122-127 | The downward scan returns one past the nearest token on an earlier line. It returns none when no such token exists. |
| Indentation.LineStart | src/Standards/DemandDrive/Sniffs/Conditionals/ConditionalIndentationSniff.php:119-127 | The start of the `(` line, when set, follows a token on an earlier line. |
| Indentation.RunEnd | src/Standards/DemandDrive/Sniffs/Conditionals/ConditionalIndentationSniff.php:131-139 | The measuring loop stops at the first non-whitespace token or at the bound. |
| Indentation.LeadWidthIsRunWidth | src/Standards/DemandDrive/Sniffs/Conditionals/ConditionalIndentationSniff.php:129-140 | The base indent is the width of the whitespace run that opens the line, with a tab as four columns. |
| Indentation.FindLineStart | src/Standards/DemandDrive/Sniffs/Conditionals/ConditionalIndentationSniff.php:122-127 | The `for` loop with `break` computes `LineStart`. |
| Indentation.MeasureLead | src/Standards/DemandDrive/Sniffs/Conditionals/ConditionalIndentationSniff.php:129-140 | The measuring loop computes the lead width. |
| Indentation.ComputeBaseIndent | src/Standards/DemandDrive/Sniffs/Conditionals/ConditionalIndentationSniff.php:117-140 | The two loops compute the base indent. It is 0 when no line start is found. |
| Indentation.Clear | src/Standards/DemandDrive/Sniffs/Conditionals/ConditionalIndentationSniff.php:231-235 | Every whitespace token between `(` and the next token is blanked, and nothing else is. |
| Indentation.ClearWhitespace | src/Standards/DemandDrive/Sniffs/Conditionals/ConditionalIndentationSniff.php:231-235 | The loop records exactly those blanking edits. |
| Indentation.FixOpenParenthesisPlacement | src/Standards/DemandDrive/Sniffs/Conditionals/ConditionalIndentationSniff.php:194-238 | The fix records the newline-and-indent prefix and then the blanking edits. |
| Indentation.OpenParenFixRenders | src/Standards/DemandDrive/Sniffs/Conditionals/ConditionalIndentationSniff.php:226-235 | After the fix, the next token reads newline, then base + 4 spaces, then its own text. Every whitespace token in between renders empty. |
| Indentation.ParenReports | src/Standards/DemandDrive/Sniffs/Conditionals/ConditionalIndentationSniff.php:85-103 | An OpenParenthesisPlacement error at `(` is reported iff the first non-whitespace token after it is on the same line. At most one such error is reported. |
| Indentation.CheckOpenParenthesisPlacement | src/Standards/DemandDrive/Sniffs/Conditionals/ConditionalIndentationSniff.php:85-103 | The check appends those reports. In fix mode it appends the fix edits; otherwise it records no edit. |
| Indentation.LineBackFrom | src/Standards/DemandDrive/Sniffs/Conditionals/ConditionalIndentationSniff.php:254-257 | The walk back stops at token 0 or at the first token on another line. Every token it passed is on the same line. |
| Indentation.LineBegin | src/Standards/DemandDrive/Sniffs/Conditionals/ConditionalIndentationSniff.php:253-258 | The line start lies after the stop of the walk back. It is at least 1, so token 0 is never part of the line. |
| Indentation.Blanks | src/Standards/DemandDrive/Sniffs/Conditionals/ConditionalIndentationSniff.php:281 | `[ \t]{1,n}` at the start takes the longest run of at most `n` spaces and tabs. |
| Indentation.TrimBlanks | src/Standards/DemandDrive/Sniffs/Conditionals/ConditionalIndentationSniff.php:281 | The trimmed content is a suffix of the token, with only blanks cut, and at most `n` of them. If fewer than `n` were cut, it does not start with a blank. |
| Indentation.FindLineBegin | src/Standards/DemandDrive/Sniffs/Conditionals/ConditionalIndentationSniff.php:253-258 | The `while` loop and the increment compute `LineBegin`. |
| Indentation.TrimIndentation | src/Standards/DemandDrive/Sniffs/Conditionals/ConditionalIndentationSniff.php:276-288 | The trimming loop records exactly `TrimEdits`. |
| Indentation.ResizeIndentation | src/Standards/DemandDrive/Sniffs/Conditionals/ConditionalIndentationSniff.php:267-289 | The line grows by one prefix of spaces, shrinks by the trim loop, or is left alone, as the difference says. |
| Indentation.FixIndentation | src/Standards/DemandDrive/Sniffs/Conditionals/ConditionalIndentationSniff.php:250-292 | `fixIndentation` records exactly `IndentFix`. |
| Indentation.TrimEditsBounded | src/Standards/DemandDrive/Sniffs/Conditionals/ConditionalIndentationSniff.php:276-286 | The trim loop removes at most the requested number of characters in total. |
| Indentation.TrimEditsShape | src/Standards/DemandDrive/Sniffs/Conditionals/ConditionalIndentationSniff.php:277-283 | Every trim edit replaces a whitespace token of the line with the token itself, minus some leading blanks. |
| Indentation.IndentFixNoDifference | src/Standards/DemandDrive/Sniffs/Conditionals/ConditionalIndentationSniff.php:267-291 | Equal expected and current indents give no edit. |
| Indentation.FirstContentFound | src/Standards/DemandDrive/Sniffs/Conditionals/ConditionalIndentationSniff.php:254-261 | The first content token of the line, counted from `line_start`, is the one the `findNext` call finds. |
| Indentation.IndentFixGrows | src/Standards/DemandDrive/Sniffs/Conditionals/ConditionalIndentationSniff.php:261-273 | A deficit adds exactly `expected - current` spaces, never a tab, before the first content token of the line, and nothing else. A line with no content token on it gets nothing. |
| Indentation.IndentFixShrinks | src/Standards/DemandDrive/Sniffs/Conditionals/ConditionalIndentationSniff.php:261-288 | An excess gives exactly the trim loop from `line_start` up to the first content token of the line, asked to remove `current - expected`. A line with no content token on it gets nothing. |
| Indentation.ContentLineHasFirst | src/Standards/DemandDrive/Sniffs/Conditionals/ConditionalIndentationSniff.php:254-261 | For a content token past token 0, the line has a first content token, at or before it. |
| Indentation.LineEditsGrow | src/Standards/DemandDrive/Sniffs/Conditionals/ConditionalIndentationSniff.php:167-178 | A line flagged for too little indent always gets the missing spaces before its first content token. |
| Indentation.LineEditsShrink | src/Standards/DemandDrive/Sniffs/Conditionals/ConditionalIndentationSniff.php:167-178 | A line flagged for too much indent always gets the trim loop up to its first content token. |
| Indentation.IndentFixOtherLine | src/Standards/DemandDrive/Sniffs/Conditionals/ConditionalIndentationSniff.php:261-264 | When the first non-whitespace token after the line start is on another line, nothing is fixed. |
| Indentation.IndentFixAddsWidth | src/Standards/DemandDrive/Sniffs/Conditionals/ConditionalIndentationSniff.php:272-273 | The added prefix renders before the token and widens it by exactly `d` columns. |
| Indentation.LineIndent | src/Standards/DemandDrive/Sniffs/Conditionals/ConditionalIndentationSniff.php:148-159 | The inner loop stops at the first non-whitespace token before the closer. It counts nothing on an empty range. |
| Indentation.LineCheck | src/Standards/DemandDrive/Sniffs/Conditionals/ConditionalIndentationSniff.php:146-167 | A line is flagged iff it starts a new line, has content before the closer, that content is not a comment and not on the closer's line, and its measured indent differs from the expected one. The flag points at that first content token. |
| Indentation.IndentReportSource | src/Standards/DemandDrive/Sniffs/Conditionals/ConditionalIndentationSniff.php:144-182 | Every indentation report comes from a flagged line inside the parentheses. |
| Indentation.IndentReportPresent | src/Standards/DemandDrive/Sniffs/Conditionals/ConditionalIndentationSniff.php:144-182 | Every flagged line inside the parentheses is reported. |
| Indentation.MeasureLine | src/Standards/DemandDrive/Sniffs/Conditionals/ConditionalIndentationSniff.php:148-159 | The inner `while` loop computes `LineIndent`. |
| Indentation.CheckLine | src/Standards/DemandDrive/Sniffs/Conditionals/ConditionalIndentationSniff.php:146-181 | One turn of the outer loop appends that line's report. In fix mode it also appends that line's fix. |
| Indentation.CheckLines | src/Standards/DemandDrive/Sniffs/Conditionals/ConditionalIndentationSniff.php:144-182 | The outer loop appends the reports of all lines strictly inside the parentheses, in order, and (in fix mode) their fixes. |
| Indentation.CheckConditionalIndentation | src/Standards/DemandDrive/Sniffs/Conditionals/ConditionalIndentationSniff.php:114-183 | `checkConditionalIndentation` checks every line against base indent + 4. |
| Indentation.MultilineParen | src/Standards/DemandDrive/Sniffs/Conditionals/ConditionalIndentationSniff.php:54-70 | The header is checked iff an open parenthesis follows the keyword and its closer is on another line. |
| Indentation.CheckMultilineHeader | src/Standards/DemandDrive/Sniffs/Conditionals/ConditionalIndentationSniff.php:72-74 | The placement check and then the indentation check append their reports and, in fix mode, their edits. |
| Indentation.CheckMultilineFormatting | src/Standards/DemandDrive/Sniffs/Conditionals/ConditionalIndentationSniff.php:51-75 | `checkMultilineFormatting` records exactly `FormatReports` and, in fix mode, `FormatEdits`. |
| Indentation.SingleLineHeaderUnchecked | src/Standards/DemandDrive/Sniffs/Conditionals/ConditionalIndentationSniff.php:63-70 | A single-line or missing header draws no report and no edit. |
| Indentation.IndentReportsCodes | src/Standards/DemandDrive/Sniffs/Conditionals/ConditionalIndentationSniff.php:167-174 | Indentation reports are fixable ConditionalIndentation errors strictly inside the parentheses. |
| Indentation.FormatReportsCodes | src/Standards/DemandDrive/Sniffs/Conditionals/ConditionalIndentationSniff.php:51-75 | The rule reports only fixable OpenParenthesisPlacement and ConditionalIndentation errors. |
| Indentation.TabTrimOvershoots | src/Standards/DemandDrive/Sniffs/Conditionals/ConditionalIndentationSniff.php:274-286 | Three tabs measure 12 columns against an expected 4. The trim is asked to remove 8 characters; only 3 are there, so it removes all three tabs and the line is left with no indent. |
| ConditionalMultiline.Process | src/Standards/DemandDrive/Sniffs/Conditionals/ConditionalMultilineSniff.php:39-47 | `process` appends the alternate-syntax reports, then the multiline reports. In fix mode the edits are appended in the same order. |
| ConditionalMultiline.ReportsCode | src/Standards/DemandDrive/Sniffs/Conditionals/ConditionalMultilineSniff.php:57-110 | Alternate-syntax reports are AlternateSyntax errors placed at a colon. |
| ConditionalMultiline.SingleLineOnlyAlternateSyntax | src/Standards/DemandDrive/Sniffs/Conditionals/ConditionalMultilineSniff.php:39-47 | With a single-line header, only alternate-syntax reports and edits come out. |
| ConditionalMultiline.ProcessCodes | src/Standards/DemandDrive/Sniffs/Conditionals/ConditionalMultilineSniff.php:39-47 | The sniff reports only its three codes. |
| ClassNaming.NameCharsFromAll | src/Standards/DemandDrive/Sniffs/BEM/ClassNamingSniff.php:196 | `[a-z0-9-]*$` holds from `k` iff every character from `k` on is in that class. |
| ClassNaming.NameAll | src/Standards/DemandDrive/Sniffs/BEM/ClassNamingSniff.php:196 | `^[a-z][a-z0-9-]*$`: a lower-case letter, then name characters. |
| ClassNaming.PairFromAt | src/Standards/DemandDrive/Sniffs/BEM/ClassNamingSniff.php:181-186 | A separator with a name on each side satisfies the two-part pattern. |
| ClassNaming.PairFromSplit | src/Standards/DemandDrive/Sniffs/BEM/ClassNamingSniff.php:181-186 | A string matching the two-part pattern splits at a separator into two names. |
| ClassNaming.JoinedName | src/Standards/DemandDrive/Sniffs/BEM/ClassNamingSniff.php:181 | Two names joined by `--` form a name, since `-` is a name character. |
| ClassNaming.BlockModifierIsName | src/Standards/DemandDrive/Sniffs/BEM/ClassNamingSniff.php:181-198 | Every `block--modifier` is already a simple block. |
| ClassNaming.ElementModifierIsElement | src/Standards/DemandDrive/Sniffs/BEM/ClassNamingSniff.php:186-191 | Every `block__element--modifier` already matches `block__element`. |
| ClassNaming.ValidBEMIff | src/Standards/DemandDrive/Sniffs/BEM/ClassNamingSniff.php:179-201 | `isValidBEMClass` holds iff the class is a name or `name__name`. |
| ClassNaming.ElementShape | src/Standards/DemandDrive/Sniffs/BEM/ClassNamingSniff.php:186 | `name__name` starts with a lower-case letter, holds only name characters and `_`, and every `_` is paired. |
| ClassNaming.ValidBEMShape | src/Standards/DemandDrive/Sniffs/BEM/ClassNamingSniff.php:179-201 | A valid class starts lower-case, uses only `[a-z0-9_-]`, and never holds a lone `_`. |
| ClassNaming.ValidUnderscoreAt | src/Standards/DemandDrive/Sniffs/BEM/ClassNamingSniff.php:179-201 | Every `_` in a valid class has another `_` next to it. |
| ClassNaming.BlockElementModifierName | tests/BEM/ClassNamingSniffTest.php:53 | `block-element-modifier` is accepted as a simple block, although the test lists it as invalid. |
| ClassNaming.BlockElementExample | src/Standards/DemandDrive/Sniffs/BEM/ClassNamingSniff.php:191 | `card__title--large` is valid. |
| ClassNaming.FirstNotLowerRejected | src/Standards/DemandDrive/Sniffs/BEM/ClassNamingSniff.php:179-201 | A class not starting with a lower-case letter is invalid. |
| ClassNaming.LoneUnderscoreRejected | src/Standards/DemandDrive/Sniffs/BEM/ClassNamingSniff.php:179-201 | A class with a lone `_` is invalid. |
| ClassNaming.InvalidExamples | tests/BEM/ClassNamingSniffTest.php:51-54 | `Block`, `123block` and `block_element` are invalid. |
| ClassNaming.RunLen | src/Standards/DemandDrive/Sniffs/BEM/ClassNamingSniff.php:58 | The run of non-whitespace that starts a string ends at whitespace or at the end. |
| ClassNaming.Words | src/Standards/DemandDrive/Sniffs/BEM/ClassNamingSniff.php:58-63 | `preg_split('/\s+/')` with empty pieces skipped yields only non-empty words without whitespace. |
| ClassNaming.RunLenOfWord | src/Standards/DemandDrive/Sniffs/BEM/ClassNamingSniff.php:58 | A word followed by whitespace or the end is one run. |
| ClassNaming.WordsOfJoin | src/Standards/DemandDrive/Sniffs/BEM/ClassNamingSniff.php:58 | Splitting words joined by single spaces gives the words back. |
| ClassNaming.NoSizeTail | src/Standards/DemandDrive/Sniffs/BEM/ClassNamingSniff.php:71 | The optional size part must begin with whitespace. |
| ClassNaming.ButtonFromWord | src/Standards/DemandDrive/Sniffs/BEM/ClassNamingSniff.php:71 | On a word, the button pattern with a given colour matches exactly that colour's name. |
| ClassNaming.ButtonWord | src/Standards/DemandDrive/Sniffs/BEM/ClassNamingSniff.php:71 | On a word, the button pattern matches only `btn-primary` and `btn-secondary`. |
| ClassNaming.ButtonWithSize | tests/BEM/ClassNamingSniffTest.php:32 | The button pattern accepts `btn-secondary btn-small`, although no split word can hold a space. |
| ClassNaming.ClassWarningsExact | src/Standards/DemandDrive/Sniffs/BEM/ClassNamingSniff.php:60-85 | A report is present iff it is an InvalidBEMNaming warning naming a listed class that is neither exempt nor valid. |
| ClassNaming.ClassWarningsCount | src/Standards/DemandDrive/Sniffs/BEM/ClassNamingSniff.php:60-85 | A class that is neither exempt nor valid is warned about once for each time it is listed; any other class never. |
| ClassNaming.ClassWarningsAppend | src/Standards/DemandDrive/Sniffs/BEM/ClassNamingSniff.php:60-85 | The warnings for two lists of classes are those of each list, in order. |
| ClassNaming.NoWarnings | src/Standards/DemandDrive/Sniffs/BEM/ClassNamingSniff.php:60-85 | Only exempt or valid classes means no warning. |
| ClassNaming.ExemptExamples | src/Standards/DemandDrive/Sniffs/BEM/ClassNamingSniff.php:61-78 | `container`, `btn-primary`, `btn-secondary`, `icon-arrow-left` and `0` draw no warning. |
| ClassNaming.BlockElementValid | tests/BEM/ClassNamingSniffTest.php:27 | `block__element` is valid. |
| ClassNaming.BlockFlagged | tests/BEM/ClassNamingSniffTest.php:51 | `Block` is neither exempt nor valid. |
| ClassNaming.WarningExample | src/Standards/DemandDrive/Sniffs/BEM/ClassNamingSniff.php:81-84 | `block__element Block` draws one warning, naming `Block`. |
| ClassNaming.WarnClasses | src/Standards/DemandDrive/Sniffs/BEM/ClassNamingSniff.php:60-85 | The `foreach` appends exactly `ClassWarnings`. |
| ClassNaming.LeadingQuotes | src/Standards/DemandDrive/Sniffs/BEM/ClassNamingSniff.php:50 | The leading run of quotes that `trim` cuts is maximal. |
| ClassNaming.TrailingQuotes | src/Standards/DemandDrive/Sniffs/BEM/ClassNamingSniff.php:50 | The trailing run of quotes that `trim` cuts is maximal. |
| ClassNaming.TrimQuotes | src/Standards/DemandDrive/Sniffs/BEM/ClassNamingSniff.php:50 | `trim($content, '"\'')` is a slice between quote-only ends, and it neither starts nor ends with a quote. |
| ClassNaming.MarkupSubsumed | src/Standards/DemandDrive/Sniffs/BEM/ClassNamingSniff.php:147-153 | The markup test comes down to `<`, `>` or `wp:`. |
| ClassNaming.IsClassAttribute | src/Standards/DemandDrive/Sniffs/BEM/ClassNamingSniff.php:142-170 | `isClassAttribute` holds iff the token holds no markup and one of the up to three tokens before it ends in an opened class attribute. |
| ClassNaming.ClassSuffixExamples | src/Standards/DemandDrive/Sniffs/BEM/ClassNamingSniff.php:163 | `class="`, ` class = '` and `class=` followed by a newline all end in an opened class attribute. The last works because `$` matches before a final newline. |
| ClassNaming.SkipToQuote | src/Standards/DemandDrive/Sniffs/BEM/ClassNamingSniff.php:99 | `[^"']*` stops at the first quote. |
| ClassNaming.MatchAt | src/Standards/DemandDrive/Sniffs/BEM/ClassNamingSniff.php:99 | A match at `i` starts with `class`; its value sits between an opening quote past `class` and the closing quote just before its end, and holds no quote. |
| ClassNaming.MatchAtSound | src/Standards/DemandDrive/Sniffs/BEM/ClassNamingSniff.php:99 | What `MatchAt` finds matches `class\s*=\s*["']([^"']*)["']` at `i`, with the `=` and the whitespace around it. |
| ClassNaming.MatchAtComplete | src/Standards/DemandDrive/Sniffs/BEM/ClassNamingSniff.php:99 | Any match of the pattern at `i` is the one `MatchAt` returns, with the same capture and end. |
| ClassNaming.ClassValuesFrom | src/Standards/DemandDrive/Sniffs/BEM/ClassNamingSniff.php:99 | Every value captured by `preg_match_all` is quote-free. |
| ClassNaming.ClassValuesSound | src/Standards/DemandDrive/Sniffs/BEM/ClassNamingSniff.php:99 | Every captured value is the capture of a match of the pattern at or after the start. |
| ClassNaming.ClassValuesLeftmost | src/Standards/DemandDrive/Sniffs/BEM/ClassNamingSniff.php:99 | The values start with the capture of the leftmost match and continue after its closing quote. |
| ClassNaming.ClassValuesNone | src/Standards/DemandDrive/Sniffs/BEM/ClassNamingSniff.php:99 | Text the pattern matches nowhere gives no values. |
| ClassNaming.ClassValueRoundTrip | src/Standards/DemandDrive/Sniffs/BEM/ClassNamingSniff.php:99 | `class="v"` yields exactly the value `v`. |
| ClassNaming.HtmlWarningsAppend | src/Standards/DemandDrive/Sniffs/BEM/ClassNamingSniff.php:100-130 | The warnings for values in order are those of each value's words in turn. |
| ClassNaming.CollectClasses | src/Standards/DemandDrive/Sniffs/BEM/ClassNamingSniff.php:100-104 | The outer loop gathers the words of every captured value, in order. |
| ClassNaming.ProcessHtmlContent | src/Standards/DemandDrive/Sniffs/BEM/ClassNamingSniff.php:97-132 | `processHtmlContent` appends the warnings for every class of every class attribute, in order. |
| ClassNaming.Process | src/Standards/DemandDrive/Sniffs/BEM/ClassNamingSniff.php:39-86 | `process` sends inline HTML to the attribute search. It checks a string's quote-trimmed words only when the string is a class attribute. |
| ClassNaming.NoAttributeNoWarning | src/Standards/DemandDrive/Sniffs/BEM/ClassNamingSniff.php:53-55 | A string with no opened class attribute in the three tokens before it draws no warning. |
| ClassNaming.ClassWarningsShape | src/Standards/DemandDrive/Sniffs/BEM/ClassNamingSniff.php:80-84 | Every warning is an InvalidBEMNaming warning at the token, naming a listed class that is neither exempt nor valid. |
| PhpDoc.VarsExact | src/Standards/DemandDrive/Sniffs/Functions/RequiredPhpDocParamsSniff.php:98-100 | A name is gathered iff a variable token with that name lies in the range. |
| PhpDoc.VarsCount | src/Standards/DemandDrive/Sniffs/Functions/RequiredPhpDocParamsSniff.php:98-100 | One name is gathered per variable token in the range. |
| PhpDoc.ParamRange | src/Standards/DemandDrive/Sniffs/Functions/RequiredPhpDocParamsSniff.php:92-93 | The search range ends within the file, including when there is no parenthesis. |
| PhpDoc.GetFunctionParameters | src/Standards/DemandDrive/Sniffs/Functions/RequiredPhpDocParamsSniff.php:90-103 | The `findNext` loop gathers the variables inside the parameter parentheses, in order. |
| PhpDoc.ParamReportsExact | src/Standards/DemandDrive/Sniffs/Functions/RequiredPhpDocParamsSniff.php:116-123 | A report is present iff it is a MissingParamDoc error for a listed parameter whose name or `@param` the comment lacks. |
| PhpDoc.ParamReportsCount | src/Standards/DemandDrive/Sniffs/Functions/RequiredPhpDocParamsSniff.php:116-123 | An undocumented parameter draws one MissingParamDoc error for each time it is listed; a documented one never. |
| PhpDoc.PrefixNameSatisfies | src/Standards/DemandDrive/Sniffs/Functions/RequiredPhpDocParamsSniff.php:118 | Any occurrence of the name counts, so `@param int $abc` documents `$a`. |
| PhpDoc.CheckParamTags | src/Standards/DemandDrive/Sniffs/Functions/RequiredPhpDocParamsSniff.php:116-123 | The `foreach` appends exactly `ParamReports`. |
| PhpDoc.ReturnReportIff | src/Standards/DemandDrive/Sniffs/Functions/RequiredPhpDocParamsSniff.php:135-148 | MissingReturnDoc is reported iff a `return` lies in the body range and the comment lacks `@return`. |
| PhpDoc.CheckReturnTag | src/Standards/DemandDrive/Sniffs/Functions/RequiredPhpDocParamsSniff.php:135-148 | `checkReturnTag` appends exactly `ReturnReports`. |
| PhpDoc.Process | src/Standards/DemandDrive/Sniffs/Functions/RequiredPhpDocParamsSniff.php:39-80 | `process` appends exactly `DocReports`: nothing without a brace, without a name, or for `_` names. Otherwise it reports a missing comment, or the param and return errors. |
| PhpDoc.CheckComment | src/Standards/DemandDrive/Sniffs/Functions/RequiredPhpDocParamsSniff.php:61-79 | The comment lookup and the two tag checks append exactly `CommentReports`. |
| PhpDoc.NoBodyOrNameNoReport | src/Standards/DemandDrive/Sniffs/Functions/RequiredPhpDocParamsSniff.php:42-52 | No `{` or no name after the keyword means no error. |
| PhpDoc.MissingDocAlone | src/Standards/DemandDrive/Sniffs/Functions/RequiredPhpDocParamsSniff.php:42-68 | MissingPhpDoc is reported only for undocumented functions, and alone; an undocumented function with a body and a name that is not skipped gets exactly that one error, naming it. |
| PhpDoc.ParamReportsCodes | src/Standards/DemandDrive/Sniffs/Functions/RequiredPhpDocParamsSniff.php:119-120 | Param reports are MissingParamDoc errors at the function keyword. |
| PhpDoc.ModifiersSkipped | src/Standards/DemandDrive/Sniffs/Functions/RequiredPhpDocParamsSniff.php:62-64 | Whitespace and modifiers between a doc-comment close and the function are skipped. |
| PhpDoc.FindPreviousStops | src/Standards/DemandDrive/Sniffs/Functions/RequiredPhpDocParamsSniff.php:62 | The excluding backward search stops at the first token not of the skipped kinds. |
| ArrayToLink.WordEnd | src/Standards/DemandDrive/Sniffs/Arrays/ArrayToLinkUsageSniff.php:115 | `\w+` takes the maximal run of word characters. |
| ArrayToLink.AnyPattern | src/Standards/DemandDrive/Sniffs/Arrays/ArrayToLinkUsageSniff.php:128-141 | The `foreach` with `break` finds a match iff some pattern of the list matches. |
| ArrayToLink.CheckForManualLinkBuilding | src/Standards/DemandDrive/Sniffs/Arrays/ArrayToLinkUsageSniff.php:107-151 | `check_for_manual_link_building` appends exactly `LinkWarnings`. |
| ArrayToLink.CheckHtmlContent | src/Standards/DemandDrive/Sniffs/Arrays/ArrayToLinkUsageSniff.php:63-68 | Content is checked only when it holds an anchor with `href`. |
| ArrayToLink.EchoContent | src/Standards/DemandDrive/Sniffs/Arrays/ArrayToLinkUsageSniff.php:87-90 | The `for` loop concatenates the tokens from the echo up to the statement's end. |
| ArrayToLink.CheckEchoStatement | src/Standards/DemandDrive/Sniffs/Arrays/ArrayToLinkUsageSniff.php:78-96 | `check_echo_statement` appends exactly `EchoWarnings`. |
| ArrayToLink.Process | src/Standards/DemandDrive/Sniffs/Arrays/ArrayToLinkUsageSniff.php:39-52 | `process` appends exactly the warnings for inline HTML or `echo`. |
| ArrayToLink.LinkWarningsTable | src/Standards/DemandDrive/Sniffs/Arrays/ArrayToLinkUsageSniff.php:107-151 | There is at most one warning. It is ManualLinkBuilding iff both URL and title patterns match, and ManualUrlBuilding iff only a URL pattern does. There is none when `array_to_link` appears or no URL pattern matches. |
| ArrayToLink.OtherTokensIgnored | src/Standards/DemandDrive/Sniffs/Arrays/ArrayToLinkUsageSniff.php:43-51 | Other tokens draw nothing. |
| ArrayToLink.UnterminatedEchoIgnored | src/Standards/DemandDrive/Sniffs/Arrays/ArrayToLinkUsageSniff.php:82-85 | An `echo` with no `;` or `?>` after it draws nothing. |
| ArrayToLink.EchoTextRange | src/Standards/DemandDrive/Sniffs/Arrays/ArrayToLinkUsageSniff.php:82-93 | The checked echo text runs from the echo to the first `;` or `?>`, excluded. |
| ArrayToLink.UrlExample | src/Standards/DemandDrive/Sniffs/Arrays/ArrayToLinkUsageSniff.php:115 | `$link['url']` matches the first URL pattern. |
| ArrayToLink.NamelessKeyRejected | src/Standards/DemandDrive/Sniffs/Arrays/ArrayToLinkUsageSniff.php:115 | `$['url']` does not match, since `\w+` needs a character. |
| ArrayToLink.AnchorExample | src/Standards/DemandDrive/Sniffs/Arrays/ArrayToLinkUsageSniff.php:65 | `<a href="#">` is an anchor with `href`. |

## Where the code and its tests differ

The model follows the code in each case below.

- Fixes insert spaces (`str_repeat( ' ', … )`), while the repository's indentation tests expect tabs in the fixed text (tests/Conditionals/ConditionalIndentationSniffTest.php:118-131).
- `block-element-modifier` is accepted as a simple block (`BlockElementModifierName`), although the class-naming test lists it as invalid.
- `btn-secondary btn-small` is listed as valid by the test. The button pattern accepts it (`ButtonWithSize`), but a class is one whitespace-free word, so the size part can never apply (`ButtonWord`).
- `fixAlternateSyntax` pairs a keyword with the first end keyword of its kind after it. A nested block's `endif` therefore closes the outer `if` (`NestedOuterPairedWithInnerEndIf`).
- The trim in `fixIndentation` counts a tab as one character, while the measure counts it as four. A tab-indented line can lose all of its indent (`TabTrimOvershoots`).
- tests/Conditionals/ConditionalAlternateSyntaxSniffTest.php:85-86 expects `for ( $i = 0; $i < 10; $i++ ):` to be fixed. The `;` guard at ConditionalAlternateSyntaxSniff.php:67-72 finds the semicolons inside the header before the colon, so the code never reports it (`SemicolonBeforeColonNeverReported`).

## Left out

- The host's tokenizer is not modelled. A token stream is any sequence whose bracket and doc-comment links point inside it (`ValidStream`). Token positions are indices.
- The fixer's changesets (`beginChangeset` / `endChangeset`) and conflicting-edit handling are not modelled. Edits are a flat list, rendered by `Apply` in recorded order.
- Message texts are not modelled. A report keeps its severity, code, position, arguments and whether it is fixable.
- The `$condition` string built in `fixElseStatements` (ConditionalAlternateSyntaxSniff.php:241-248) is never used, so its loop is not modelled.
- ControlStructureTemplatingSniff is not part of this model.
- The `register()` token lists are not modelled as methods. `ClassNaming.Process` takes its registered kinds as a precondition. The other sniffs accept any token, as their code does not depend on the kind beyond what is modelled.
- Regular expressions are modelled only for the fixed patterns the sniffs use, written out as predicates. Full PCRE is not modelled.
- `ClassNaming.ProcessHtmlContent` gathers every class first and then warns. The source warns inside its loops. The reports and their order are the same.
- `PhpDoc.ParamRange`: with no parenthesis after the keyword, PHP reads `$tokens[false]` as token 0. The model follows that lookup. The PHP notice it raises is not modelled.
- `Text.Lower` states only that it keeps the length. ASCII lower-casing is written out in its body, and case folding beyond ASCII is not modelled.
- Integers are unbounded. Token counts and widths in PHP are far below any overflow.
