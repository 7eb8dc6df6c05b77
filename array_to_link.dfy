/**
 * The link-field rule (ArrayToLinkUsageSniff): an `<a ... href=` tag whose
 * text reads `$x['url']` (and perhaps `$x['title']`) by hand draws a
 * warning that `array_to_link()` should be used. Inline HTML is checked
 * as it stands; an `echo` is checked on the text of its tokens up to the
 * statement's end.
 */
module ArrayToLink {
  import opened Tokens
  import opened Text
  import opened Phpcs

  // ---------------------------------------------------------------------
  // The patterns

  /** No `>` in `s[a..b]`. */
  predicate NoCloseAngle(s: string, a: nat, b: nat)
    requires a <= b <= |s|
  {
    forall k :: a <= k < b ==> s[k] != '>'
  }

  /** `href\s*=` at `j`: the spaces are skipped greedily and `=` must follow. */
  predicate HrefAt(s: string, j: nat) {
    OccursAt(s, "href", j) && SkipSpace(s, j + 4) < |s| && s[SkipSpace(s, j + 4)] == '='
  }

  /**
   * `<a\s+[^>]*href\s*=` at `i`. As `[^>]` also matches whitespace, the
   * `\s+` comes down to one whitespace character after `<a`.
   */
  predicate AnchorAt(s: string, i: nat) {
    OccursAt(s, "<a", i) && i + 2 < |s| && IsSpace(s[i + 2])
    && exists j: nat | i + 3 <= j <= |s| :: NoCloseAngle(s, i + 3, j) && HrefAt(s, j)
  }

  /** `preg_match('/<a\s+[^>]*href\s*=/', s)` */
  predicate AnchorWithHref(s: string) {
    exists i: nat | i <= |s| :: AnchorAt(s, i)
  }

  /** The end of the run of `\w` characters from `i`. */
  function WordEnd(s: string, i: nat): (r: nat)
    requires i <= |s|
    ensures i <= r <= |s|
    ensures forall k :: i <= k < r ==> IsWordChar(s[k])
    ensures r < |s| ==> !IsWordChar(s[r])
    decreases |s| - i
  {
    if i < |s| && IsWordChar(s[i]) then WordEnd(s, i + 1) else i
  }

  /**
   * `\$\w+<key>` at `i`. As `[` is not a word character, `\w+` must take
   * the whole run of word characters.
   */
  predicate KeyAt(s: string, i: nat, key: string) {
    i < |s| && s[i] == '$' && WordEnd(s, i + 1) > i + 1 && OccursAt(s, key, WordEnd(s, i + 1))
  }

  /** `preg_match('/\$\w+<key>/', s)` */
  predicate Matches(s: string, key: string) {
    exists i: nat | i < |s| :: KeyAt(s, i, key)
  }

  /** The array keys of the URL patterns, `['url']` and `["url"]`. */
  const UrlKeys: seq<string> := ["['url']", "[\"url\"]"]

  /** The array keys of the title patterns, `['title']` and `["title"]`. */
  const TitleKeys: seq<string> := ["['title']", "[\"title\"]"]

  predicate MatchesAny(s: string, keys: seq<string>) {
    exists key :: key in keys && Matches(s, key)
  }

  /** The `foreach` over the patterns, stopping at the first that matches. */
  method AnyPattern(content: string, keys: seq<string>) returns (found: bool)
    ensures found <==> MatchesAny(content, keys)
  {
    found := false;
    var i := 0;
    while i < |keys|
      invariant 0 <= i <= |keys|
      invariant forall k :: 0 <= k < i ==> !Matches(content, keys[k])
      decreases |keys| - i
    {
      if Matches(content, keys[i]) {
        found := true;
        break;
      }
      i := i + 1;
    }
  }

  // ---------------------------------------------------------------------
  // check_for_manual_link_building

  /** The decision table: URL and title, URL alone, or nothing. */
  function Decision(hasUrl: bool, hasTitle: bool): Option<Code> {
    if hasUrl && hasTitle then Some(ManualLinkBuilding)
    else if hasUrl then Some(ManualUrlBuilding)
    else None
  }

  /** The warnings of `check_for_manual_link_building` for `content`, placed at `p`. */
  function LinkWarnings(p: nat, content: string): seq<Report> {
    if Contains(content, "array_to_link") then []
    else match Decision(MatchesAny(content, UrlKeys), MatchesAny(content, TitleKeys))
      case Some(code) => [Report(Warning, code, p, [], false)]
      case None => []
  }

  method CheckForManualLinkBuilding(file: File, p: nat, content: string)
    modifies file
    ensures file.reports == old(file.reports) + LinkWarnings(p, content)
  {
    if Contains(content, "array_to_link") {
      return;
    }
    var hasUrl := AnyPattern(content, UrlKeys);
    var hasTitle := AnyPattern(content, TitleKeys);
    if hasUrl && hasTitle {
      file.AddWarning(ManualLinkBuilding, p, []);
    } else if hasUrl {
      file.AddWarning(ManualUrlBuilding, p, []);
    }
  }

  // ---------------------------------------------------------------------
  // check_html_content and check_echo_statement

  function HtmlWarnings(p: nat, content: string): seq<Report> {
    if AnchorWithHref(content) then LinkWarnings(p, content) else []
  }

  method CheckHtmlContent(file: File, p: nat, content: string)
    modifies file
    ensures file.reports == old(file.reports) + HtmlWarnings(p, content)
  {
    if AnchorWithHref(content) {
      CheckForManualLinkBuilding(file, p, content);
    }
  }

  /** The end of the echo statement: the first `;` or `?>` from the echo on. */
  function StatementEnd(ts: seq<Token>, p: nat): Option<nat> {
    FindNext(ts, {Semicolon, CloseTag}, p, |ts|, false)
  }

  /** The `for` loop gathering the text of the tokens in `[p, e)`. */
  method EchoContent(ts: seq<Token>, p: nat, e: nat) returns (text: string)
    requires p <= e <= |ts|
    ensures text == TextOf(ts, p, e)
  {
    text := "";
    var i := p;
    while i < e
      invariant p <= i <= e
      invariant text == TextOf(ts, p, i)
      decreases e - i
    {
      TextOfAppend(ts, p, i);
      text := text + ts[i].content;
      i := i + 1;
    }
  }

  function EchoWarnings(ts: seq<Token>, p: nat): seq<Report> {
    match StatementEnd(ts, p)
    case None => []
    case Some(e) => if e < p then [] else HtmlWarnings(p, TextOf(ts, p, e))
  }

  method CheckEchoStatement(file: File, p: nat)
    modifies file
    ensures file.reports == old(file.reports) + EchoWarnings(file.tokens, p)
  {
    var ts := file.tokens;
    var end := FindNext(ts, {Semicolon, CloseTag}, p, |ts|, false);
    if end.None? {
      return;
    }
    var content := EchoContent(ts, p, end.value);
    CheckHtmlContent(file, p, content);
  }

  // ---------------------------------------------------------------------
  // process

  /** The warnings of `process` for the token at `p`. */
  function ArrayToLinkWarnings(ts: seq<Token>, p: nat): seq<Report>
    requires p < |ts|
  {
    if ts[p].kind == InlineHtml then HtmlWarnings(p, ts[p].content)
    else if ts[p].kind == Echo then EchoWarnings(ts, p)
    else []
  }

  method Process(file: File, p: nat)
    requires p < |file.tokens|
    modifies file
    ensures file.reports == old(file.reports) + ArrayToLinkWarnings(file.tokens, p)
  {
    var ts := file.tokens;
    var content := ts[p].content;
    if ts[p].kind == InlineHtml {
      CheckHtmlContent(file, p, content);
    }
    if ts[p].kind == Echo {
      CheckEchoStatement(file, p);
    }
  }

  // ---------------------------------------------------------------------
  // Properties

  /**
   * The decision table: at most one warning; ManualLinkBuilding exactly
   * when both a URL and a title pattern match, ManualUrlBuilding exactly
   * when only a URL pattern does, and none when `array_to_link` appears.
   */
  lemma LinkWarningsTable(p: nat, content: string)
    ensures |LinkWarnings(p, content)| <= 1
    ensures Contains(content, "array_to_link") ==> LinkWarnings(p, content) == []
    ensures !Contains(content, "array_to_link") ==>
      ((LinkWarnings(p, content) == [Report(Warning, ManualLinkBuilding, p, [], false)]) <==>
       (MatchesAny(content, UrlKeys) && MatchesAny(content, TitleKeys)))
    ensures !Contains(content, "array_to_link") ==>
      ((LinkWarnings(p, content) == [Report(Warning, ManualUrlBuilding, p, [], false)]) <==>
       (MatchesAny(content, UrlKeys) && !MatchesAny(content, TitleKeys)))
    ensures LinkWarnings(p, content) == [] <==> Contains(content, "array_to_link") || !MatchesAny(content, UrlKeys)
  {
  }

  /** Tokens other than inline HTML and `echo` are never examined. */
  lemma OtherTokensIgnored(ts: seq<Token>, p: nat)
    requires p < |ts| && ts[p].kind != InlineHtml && ts[p].kind != Echo
    ensures ArrayToLinkWarnings(ts, p) == []
  {
  }

  /** An `echo` with no `;` or `?>` after it is not checked. */
  lemma UnterminatedEchoIgnored(ts: seq<Token>, p: nat)
    requires forall k :: p <= k < |ts| ==> ts[k].kind != Semicolon && ts[k].kind != CloseTag
    ensures EchoWarnings(ts, p) == []
  {
  }

  /** The echo text stops before the statement's end: it is the tokens from the echo up to the first `;` or `?>`. */
  lemma EchoTextRange(ts: seq<Token>, p: nat, e: nat)
    requires StatementEnd(ts, p) == Some(e)
    ensures p <= e < |ts| && ts[e].kind in {Semicolon, CloseTag}
    ensures forall k :: p <= k < e ==> ts[k].kind != Semicolon && ts[k].kind != CloseTag
    ensures EchoWarnings(ts, p) == HtmlWarnings(p, TextOf(ts, p, e))
  {
  }

  /** A word-character run after `$`, then the key: `$link['url']` matches the first URL pattern. */
  lemma UrlExample()
    ensures Matches("$link['url']", "['url']")
  {
    var s := "$link['url']";
    assert WordEnd(s, 5) == 5;
    assert WordEnd(s, 1) == 5;
    assert s[5..12] == "['url']";
    assert KeyAt(s, 0, "['url']");
  }

  /** A key needs a name: `$['url']` does not match. */
  lemma NamelessKeyRejected(s: string, i: nat, key: string)
    requires i + 1 < |s| && s[i] == '$' && s[i + 1] == '['
    ensures !KeyAt(s, i, key)
  {
  }

  /** `<a href=` opens an anchor with an href. */
  lemma AnchorExample()
    ensures AnchorWithHref("<a href=\"#\">")
  {
    var s := "<a href=\"#\">";
    assert s[0..2] == "<a" && s[3..7] == "href";
    assert SkipSpace(s, 7) == 7;
    assert NoCloseAngle(s, 3, 3) && HrefAt(s, 3);
    assert AnchorAt(s, 0);
  }
}
