/**
 * The BEM class-naming rule (ClassNamingSniff): every class named in a
 * class attribute must be a block, `block__element`, `block--modifier` or
 * `block__element--modifier`, where each part is a lower-case letter
 * followed by lower-case letters, digits and hyphens. A few names are
 * exempt. Strings are checked when a token just before them ends in
 * `class=`; inline HTML is searched for `class="..."` attributes.
 *
 * The fixed regular expressions of the source are written out as
 * predicates. A class is one word of `preg_split('/\s+/')`, so it holds no
 * whitespace and no newline: `$` before a final newline only matters for
 * the `class=` suffix test, where it is modelled.
 */
module ClassNaming {
  import opened Tokens
  import opened Text
  import opened Phpcs

  // ---------------------------------------------------------------------
  // isValidBEMClass

  /** `[a-z0-9-]` */
  predicate NameChar(c: char) {
    IsLower(c) || IsDigit(c) || c == '-'
  }

  /** All characters of `s` from `k` on are name characters. */
  function NameCharsFrom(s: string, k: nat): bool
    decreases |s| - k
  {
    k >= |s| || (NameChar(s[k]) && NameCharsFrom(s, k + 1))
  }

  lemma {:induction false} NameCharsFromAll(s: string, k: nat)
    ensures NameCharsFrom(s, k) <==> forall j :: k <= j < |s| ==> NameChar(s[j])
    decreases |s| - k
  {
    if k < |s| {
      NameCharsFromAll(s, k + 1);
    }
  }

  /** `^[a-z][a-z0-9-]*$`: one part of a BEM name. */
  predicate IsName(s: string) {
    |s| > 0 && IsLower(s[0]) && NameCharsFrom(s, 1)
  }

  /** A name is a lower-case letter followed by name characters; every character is a name character. */
  lemma NameAll(s: string)
    ensures IsName(s) <==> |s| > 0 && IsLower(s[0]) && forall j :: 1 <= j < |s| ==> NameChar(s[j])
    ensures IsName(s) ==> forall j :: 0 <= j < |s| ==> NameChar(s[j])
  {
    NameCharsFromAll(s, 1);
  }

  /** `^N<sep>N$` with the separator at `i` or later: the regex tries every split. */
  predicate PairFrom(s: string, sep: string, i: nat)
    decreases |s| - i
  {
    i + |sep| <= |s|
    && ((OccursAt(s, sep, i) && IsName(s[..i]) && IsName(s[i + |sep|..])) || PairFrom(s, sep, i + 1))
  }

  /** A split at `k` or later satisfies the search from `i`. */
  lemma {:induction false} PairFromAt(s: string, sep: string, i: nat, k: nat)
    requires i <= k && OccursAt(s, sep, k) && IsName(s[..k]) && IsName(s[k + |sep|..])
    ensures PairFrom(s, sep, i)
    decreases k - i
  {
    if i < k {
      PairFromAt(s, sep, i + 1, k);
    }
  }

  /** A successful search names its split. */
  lemma {:induction false} PairFromSplit(s: string, sep: string, i: nat) returns (k: nat)
    requires PairFrom(s, sep, i)
    ensures i <= k && OccursAt(s, sep, k) && IsName(s[..k]) && IsName(s[k + |sep|..])
    decreases |s| - i
  {
    if OccursAt(s, sep, i) && IsName(s[..i]) && IsName(s[i + |sep|..]) {
      k := i;
    } else {
      k := PairFromSplit(s, sep, i + 1);
    }
  }

  /** `^N--N$` */
  predicate BlockModifier(s: string) {
    PairFrom(s, "--", 0)
  }

  /** `^N__N$` */
  predicate BlockElement(s: string) {
    PairFrom(s, "__", 0)
  }

  /** `^N__N--N$` with the `__` at `i` or later. */
  predicate ElementModifierFrom(s: string, i: nat)
    decreases |s| - i
  {
    i + 2 <= |s|
    && ((OccursAt(s, "__", i) && IsName(s[..i]) && BlockModifier(s[i + 2..])) || ElementModifierFrom(s, i + 1))
  }

  /** `^N__N--N$` */
  predicate BlockElementModifier(s: string) {
    ElementModifierFrom(s, 0)
  }

  /** `isValidBEMClass`: the four patterns tried in the order of the source. */
  function IsValidBEMClass(s: string): bool {
    if BlockModifier(s) then true
    else if BlockElement(s) then true
    else if BlockElementModifier(s) then true
    else IsName(s)
  }

  /** Two names joined by `--` make one name, since a name may hold hyphens. */
  lemma JoinedName(s: string, i: nat)
    requires OccursAt(s, "--", i) && IsName(s[..i]) && IsName(s[i + 2..])
    ensures IsName(s)
  {
    NameAll(s[..i]);
    NameAll(s[i + 2..]);
    forall j | 1 <= j < |s|
      ensures NameChar(s[j])
    {
      if j < i {
        assert s[j] == s[..i][j];
      } else if j >= i + 2 {
        assert s[j] == s[i + 2..][j - i - 2];
      } else {
        assert s[j] == s[i..i + 2][j - i];
      }
    }
    assert s[0] == s[..i][0];
    NameAll(s);
  }

  lemma {:induction false} BlockModifierIsName(s: string, i: nat)
    requires PairFrom(s, "--", i)
    ensures IsName(s)
    decreases |s| - i
  {
    if OccursAt(s, "--", i) && IsName(s[..i]) && IsName(s[i + 2..]) {
      JoinedName(s, i);
    } else {
      BlockModifierIsName(s, i + 1);
    }
  }

  lemma {:induction false} ElementModifierIsElement(s: string, i: nat)
    requires ElementModifierFrom(s, i)
    ensures PairFrom(s, "__", i)
    decreases |s| - i
  {
    if OccursAt(s, "__", i) && IsName(s[..i]) && BlockModifier(s[i + 2..]) {
      BlockModifierIsName(s[i + 2..], 0);
    } else {
      ElementModifierIsElement(s, i + 1);
    }
  }

  /**
   * The four patterns accept exactly the names and the `N__N` strings: a
   * `--` part is absorbed by the name before it. So `block--modifier` and
   * `block-element-modifier` are simple names.
   */
  lemma ValidBEMIff(s: string)
    ensures IsValidBEMClass(s) <==> IsName(s) || BlockElement(s)
  {
    if BlockModifier(s) {
      BlockModifierIsName(s, 0);
    }
    if BlockElementModifier(s) {
      ElementModifierIsElement(s, 0);
    }
  }

  /** The underscore at `k` has an underscore beside it. */
  predicate UnderscorePaired(s: string, k: nat)
    requires k < |s|
  {
    (k > 0 && s[k - 1] == '_') || (k + 1 < |s| && s[k + 1] == '_')
  }

  /**
   * A valid class starts with a lower-case letter, holds only
   * `[a-z0-9_-]`, and its underscores only come as a `__` pair.
   */
  /** The shape of `N__N` split at `i`. */
  lemma ElementShape(s: string, i: nat)
    requires OccursAt(s, "__", i) && IsName(s[..i]) && IsName(s[i + 2..])
    ensures |s| > 0 && IsLower(s[0])
    ensures forall k :: 0 <= k < |s| ==> NameChar(s[k]) || s[k] == '_'
    ensures forall k :: 0 <= k < |s| && s[k] == '_' ==> UnderscorePaired(s, k)
  {
    NameAll(s[..i]);
    NameAll(s[i + 2..]);
    assert s[0] == s[..i][0];
    assert s[i] == s[i..i + 2][0] == '_' && s[i + 1] == s[i..i + 2][1] == '_';
    forall k | 0 <= k < i
      ensures NameChar(s[k])
    {
      assert s[k] == s[..i][k];
    }
    forall k | i + 2 <= k < |s|
      ensures NameChar(s[k])
    {
      assert s[k] == s[i + 2..][k - i - 2];
    }
  }

  lemma ValidBEMShape(s: string)
    requires IsValidBEMClass(s)
    ensures |s| > 0 && IsLower(s[0])
    ensures forall k :: 0 <= k < |s| ==> NameChar(s[k]) || s[k] == '_'
    ensures forall k :: 0 <= k < |s| && s[k] == '_' ==> UnderscorePaired(s, k)
  {
    ValidBEMIff(s);
    if IsName(s) {
      NameAll(s);
    } else {
      var i := PairFromSplit(s, "__", 0);
      ElementShape(s, i);
    }
  }

  lemma ValidUnderscoreAt(s: string, k: nat)
    requires IsValidBEMClass(s) && k < |s| && s[k] == '_'
    ensures (k > 0 && s[k - 1] == '_') || (k + 1 < |s| && s[k + 1] == '_')
  {
    ValidBEMShape(s);
    assert UnderscorePaired(s, k);
  }

  lemma BlockElementModifierName()
    ensures IsValidBEMClass("block-element-modifier")
  {
    assert NameCharsFrom("block-element-modifier", 15);
    assert NameCharsFrom("block-element-modifier", 8);
    assert IsName("block-element-modifier");
  }

  lemma BlockElementExample()
    ensures IsValidBEMClass("card__title--large")
  {
    var s := "card__title--large";
    assert s[..4] == "card" && s[6..] == "title--large";
    assert NameCharsFrom("title--large", 6);
    assert OccursAt(s, "__", 4) && IsName("card") && IsName("title--large");
    PairFromAt(s, "__", 0, 4);
    ValidBEMIff(s);
  }

  /** A class must start with a lower-case letter. */
  lemma FirstNotLowerRejected(s: string)
    requires |s| > 0 && !IsLower(s[0])
    ensures !IsValidBEMClass(s)
  {
    if IsValidBEMClass(s) {
      ValidBEMShape(s);
    }
  }

  /** An underscore with no underscore beside it is rejected. */
  lemma LoneUnderscoreRejected(s: string, k: nat)
    requires k < |s| && s[k] == '_'
    requires k == 0 || s[k - 1] != '_'
    requires k + 1 == |s| || s[k + 1] != '_'
    ensures !IsValidBEMClass(s)
  {
    if IsValidBEMClass(s) {
      ValidUnderscoreAt(s, k);
    }
  }

  /** Upper-case or digit-first names and single underscores are rejected. */
  lemma InvalidExamples()
    ensures !IsValidBEMClass("Block")
    ensures !IsValidBEMClass("123block")
    ensures !IsValidBEMClass("block_element")
  {
    FirstNotLowerRejected("Block");
    FirstNotLowerRejected("123block");
    LoneUnderscoreRejected("block_element", 5);
  }

  // ---------------------------------------------------------------------
  // Splitting a class list and the exemptions

  /** The length of the run of non-whitespace characters that starts `s`. */
  function RunLen(s: string): (r: nat)
    ensures r <= |s|
    ensures forall k :: 0 <= k < r ==> !IsSpace(s[k])
    ensures r < |s| ==> IsSpace(s[r])
  {
    if s == [] || IsSpace(s[0]) then 0 else 1 + RunLen(s[1..])
  }

  predicate IsWord(w: string) {
    |w| > 0 && forall k :: 0 <= k < |w| ==> !IsSpace(w[k])
  }

  /**
   * The non-empty pieces of `preg_split('/\s+/', s)`, in order: the empty
   * pieces before leading or after trailing whitespace are dropped, as the
   * `empty()` test of the source skips them.
   */
  function Words(s: string): (r: seq<string>)
    ensures forall w :: w in r ==> IsWord(w)
    decreases |s|
  {
    if s == [] then []
    else if IsSpace(s[0]) then Words(s[1..])
    else
      var n := RunLen(s);
      [s[..n]] + Words(s[n..])
  }

  /** Words separated by single spaces. */
  function Join(ws: seq<string>): string {
    if ws == [] then ""
    else if |ws| == 1 then ws[0]
    else ws[0] + " " + Join(ws[1..])
  }

  lemma {:induction false} RunLenOfWord(w: string, rest: string)
    requires IsWord(w) && (rest == [] || IsSpace(rest[0]))
    ensures RunLen(w + rest) == |w|
    decreases |w|
  {
    var s := w + rest;
    assert s[0] == w[0];
    if |w| > 1 {
      assert s[1..] == w[1..] + rest;
      RunLenOfWord(w[1..], rest);
    } else {
      assert s[1..] == rest;
    }
  }

  /** Splitting words joined by spaces gives the words back. */
  lemma {:induction false} WordsOfJoin(ws: seq<string>)
    requires forall w :: w in ws ==> IsWord(w)
    ensures Words(Join(ws)) == ws
  {
    if ws == [] {
    } else if |ws| == 1 {
      var w := ws[0];
      assert w + "" == w;
      RunLenOfWord(w, "");
      assert w[..|w|] == w && w[|w|..] == "";
    } else {
      var w := ws[0];
      var rest := " " + Join(ws[1..]);
      var s := w + rest;
      assert Join(ws) == s;
      RunLenOfWord(w, rest);
      assert s[..|w|] == w && s[|w|..] == rest;
      assert rest[1..] == Join(ws[1..]);
      WordsOfJoin(ws[1..]);
      assert ws == [w] + ws[1..];
    }
  }

  /** `\s+btn-<z>$`: whitespace, then the size name `z` to the end of `t`. */
  predicate SizeTail(t: string, z: string) {
    |z| < |t| && OccursAt(t, z, |t| - |z|) && AllSpace(t[..|t| - |z|])
  }

  /** `^<b>(\s+btn-(small|large))?` to the end of `s`. */
  predicate ButtonFrom(s: string, b: string) {
    OccursAt(s, b, 0) && (|b| == |s| || SizeTail(s[|b|..], "btn-small") || SizeTail(s[|b|..], "btn-large"))
  }

  predicate ButtonCore(s: string) {
    ButtonFrom(s, "btn-primary") || ButtonFrom(s, "btn-secondary")
  }

  /** `/^btn-(primary|secondary)(\s+btn-(small|large))?$/`, `$` also before a final newline. */
  predicate ButtonClass(s: string) {
    ButtonCore(s) || (|s| > 0 && s[|s| - 1] == '\n' && ButtonCore(s[..|s| - 1]))
  }

  /** A size part starts with whitespace. */
  lemma NoSizeTail(t: string, z: string)
    requires |t| > 0 && !IsSpace(t[0])
    ensures !SizeTail(t, z)
  {
    if |z| < |t| {
      assert t[..|t| - |z|][0] == t[0];
    }
  }

  lemma ButtonFromWord(w: string, b: string)
    requires IsWord(w)
    ensures ButtonFrom(w, b) <==> w == b
  {
    if |b| < |w| {
      assert w[|b|..][0] == w[|b|];
      NoSizeTail(w[|b|..], "btn-small");
      NoSizeTail(w[|b|..], "btn-large");
    }
    assert w[0..|w|] == w;
  }

  /** For a word, which holds no whitespace, the button pattern is just the two names. */
  lemma ButtonWord(w: string)
    requires IsWord(w)
    ensures ButtonClass(w) <==> w == "btn-primary" || w == "btn-secondary"
  {
    ButtonFromWord(w, "btn-primary");
    ButtonFromWord(w, "btn-secondary");
  }

  /** A size part is accepted after the button name when the attribute value is taken whole. */
  lemma ButtonWithSize()
    ensures ButtonClass("btn-secondary btn-small")
  {
    var s := "btn-secondary btn-small";
    assert s[0..13] == "btn-secondary";
    var t := s[13..];
    assert t == " btn-small";
    assert t[1..] == "btn-small" && t[..1] == " ";
    assert SizeTail(t, "btn-small");
  }

  /** All characters of `s` from `k` on are in `[a-z-]`. */
  function IconCharsFrom(s: string, k: nat): bool
    decreases |s| - k
  {
    k >= |s| || ((IsLower(s[k]) || s[k] == '-') && IconCharsFrom(s, k + 1))
  }

  /** `/^icon-[a-z-]+$/` on a word. */
  predicate IconClass(s: string) {
    |s| > 5 && OccursAt(s, "icon-", 0) && IconCharsFrom(s, 5)
  }

  /** The classes never warned about: `empty()` ("" and "0"), `container`, buttons and icons. */
  predicate Exempt(c: string) {
    c == "" || c == "0" || c == "container" || ButtonClass(c) || IconClass(c)
  }

  /** The warning for one class, if it is neither exempt nor valid. */
  function Warn(p: nat, c: string): seq<Report> {
    if Exempt(c) || IsValidBEMClass(c) then [] else [Report(Warning, InvalidBEMNaming, p, [StrArg(c)], false)]
  }

  /** The warnings for `cs`, in order, all placed at the token `p`. */
  function ClassWarnings(p: nat, cs: seq<string>): seq<Report>
    decreases |cs|
  {
    if cs == [] then [] else ClassWarnings(p, cs[..|cs| - 1]) + Warn(p, cs[|cs| - 1])
  }

  /** One warning per class that is neither exempt nor valid, and no other. */
  lemma {:induction false} ClassWarningsExact(p: nat, cs: seq<string>, r: Report)
    ensures r in ClassWarnings(p, cs) <==>
      exists c :: c in cs && !Exempt(c) && !IsValidBEMClass(c) && r == Report(Warning, InvalidBEMNaming, p, [StrArg(c)], false)
    decreases |cs|
  {
    if cs != [] {
      var last := cs[|cs| - 1];
      ClassWarningsExact(p, cs[..|cs| - 1], r);
      assert cs == cs[..|cs| - 1] + [last];
      if r in ClassWarnings(p, cs) {
        if r !in ClassWarnings(p, cs[..|cs| - 1]) {
          assert r in Warn(p, last);
          assert last in cs;
        }
      } else {
        forall c | c in cs && !Exempt(c) && !IsValidBEMClass(c)
          ensures r != Report(Warning, InvalidBEMNaming, p, [StrArg(c)], false)
        {
          if c != last {
            assert c in cs[..|cs| - 1];
          }
        }
      }
    }
  }

  /** Warnings keep the order of the classes: the list for `a + b` is that for `a`, then that for `b`. */
  /**
   * A class that is neither exempt nor valid is warned about once for
   * each time it is listed; any other class never.
   */
  lemma {:induction false} ClassWarningsCount(p: nat, cs: seq<string>, c: string)
    ensures multiset(ClassWarnings(p, cs))[Report(Warning, InvalidBEMNaming, p, [StrArg(c)], false)]
      == if Exempt(c) || IsValidBEMClass(c) then 0 else multiset(cs)[c]
    decreases |cs|
  {
    if cs != [] {
      var init, last := cs[..|cs| - 1], cs[|cs| - 1];
      ClassWarningsCount(p, init, c);
      WarnCount(p, last, c);
      ClassWarningsLast(p, cs);
    }
  }

  /** The warnings of a list are those of all but its last class, then the last's. */
  lemma ClassWarningsLast(p: nat, cs: seq<string>)
    requires cs != []
    ensures multiset(cs) == multiset(cs[..|cs| - 1]) + multiset{cs[|cs| - 1]}
    ensures multiset(ClassWarnings(p, cs)) == multiset(ClassWarnings(p, cs[..|cs| - 1])) + multiset(Warn(p, cs[|cs| - 1]))
  {
    assert cs == cs[..|cs| - 1] + [cs[|cs| - 1]];
  }

  /** The warnings for one class `d`, counted for the class `c`. */
  lemma WarnCount(p: nat, d: string, c: string)
    ensures multiset(Warn(p, d))[Report(Warning, InvalidBEMNaming, p, [StrArg(c)], false)]
      == if d != c || Exempt(c) || IsValidBEMClass(c) then 0 else 1
  {
    if d != c {
      assert [StrArg(d)] != [StrArg(c)];
    }
  }

  lemma {:induction false} ClassWarningsAppend(p: nat, a: seq<string>, b: seq<string>)
    ensures ClassWarnings(p, a + b) == ClassWarnings(p, a) + ClassWarnings(p, b)
    decreases |b|
  {
    if b == [] {
      assert a + b == a;
    } else {
      var b' := b[..|b| - 1];
      assert (a + b)[..|a + b| - 1] == a + b';
      assert (a + b)[|a + b| - 1] == b[|b| - 1];
      ClassWarningsAppend(p, a, b');
    }
  }

  /** No class is warned about when each is exempt or valid. */
  lemma {:induction false} NoWarnings(p: nat, cs: seq<string>)
    requires forall c :: c in cs ==> Exempt(c) || IsValidBEMClass(c)
    ensures ClassWarnings(p, cs) == []
  {
    if ClassWarnings(p, cs) != [] {
      var r := ClassWarnings(p, cs)[0];
      ClassWarningsExact(p, cs, r);
    }
  }

  /** The exempt names are never warned about, whatever their shape. */
  lemma ExemptExamples(p: nat)
    ensures ClassWarnings(p, ["container", "btn-primary", "btn-secondary", "icon-arrow-left", "0"]) == []
  {
    assert ButtonFrom("btn-primary", "btn-primary");
    assert ButtonFrom("btn-secondary", "btn-secondary");
    assert IconCharsFrom("icon-arrow-left", 10);
    assert IconClass("icon-arrow-left");
    NoWarnings(p, ["container", "btn-primary", "btn-secondary", "icon-arrow-left", "0"]);
  }

  lemma BlockElementValid()
    ensures IsValidBEMClass("block__element")
  {
    var s := "block__element";
    assert s[..5] == "block" && s[7..] == "element";
    assert OccursAt(s, "__", 5) && IsName("block") && IsName("element");
    PairFromAt(s, "__", 0, 5);
  }

  lemma BlockFlagged()
    ensures !Exempt("Block") && !IsValidBEMClass("Block")
  {
    FirstNotLowerRejected("Block");
    assert "Block"[|"Block"| - 1] != '\n';
    assert !OccursAt("Block", "btn-primary", 0) && !OccursAt("Block", "btn-secondary", 0);
    assert !OccursAt("Block", "icon-", 0);
  }

  /** `Block` draws one warning naming it; `block__element` draws none. */
  lemma WarningExample(p: nat)
    ensures ClassWarnings(p, ["block__element", "Block"]) == [Report(Warning, InvalidBEMNaming, p, [StrArg("Block")], false)]
  {
    BlockElementValid();
    BlockFlagged();
    assert ["block__element", "Block"][..1] == ["block__element"];
    assert ["block__element"][..0] == [];
  }

  /** The loop over the classes of `process` and `processHtmlContent`. */
  method WarnClasses(file: File, p: nat, classes: seq<string>)
    modifies file
    ensures file.reports == old(file.reports) + ClassWarnings(p, classes)
  {
    var i := 0;
    while i < |classes|
      invariant 0 <= i <= |classes|
      invariant file.reports == old(file.reports) + ClassWarnings(p, classes[..i])
      decreases |classes| - i
    {
      var c := classes[i];
      assert classes[..i + 1][..i] == classes[..i] && classes[..i + 1][i] == c;
      assert ClassWarnings(p, classes[..i + 1]) == ClassWarnings(p, classes[..i]) + Warn(p, c);
      if c == "" || c == "0" {
      } else if c == "container" {
      } else if ButtonClass(c) {
      } else if IconClass(c) {
      } else if !IsValidBEMClass(c) {
        file.AddWarning(InvalidBEMNaming, p, [StrArg(c)]);
      }
      i := i + 1;
    }
    assert classes[..|classes|] == classes;
  }

  // ---------------------------------------------------------------------
  // trim($content, '"\'')

  predicate IsQuote(c: char) {
    c == '"' || c == '\''
  }

  predicate AllQuotes(u: string) {
    forall k :: 0 <= k < |u| ==> IsQuote(u[k])
  }

  /** Only quotes come before `a` and from `b` on. */
  predicate QuoteEnds(s: string, a: int, b: int) {
    0 <= a <= b <= |s| && AllQuotes(s[..a]) && AllQuotes(s[b..])
  }

  predicate QuoteFree(v: string) {
    forall k :: 0 <= k < |v| ==> !IsQuote(v[k])
  }

  function LeadingQuotes(s: string): (r: nat)
    ensures r <= |s|
    ensures forall k :: 0 <= k < r ==> IsQuote(s[k])
    ensures r < |s| ==> !IsQuote(s[r])
  {
    if s == [] || !IsQuote(s[0]) then 0 else 1 + LeadingQuotes(s[1..])
  }

  function TrailingQuotes(s: string): (r: nat)
    ensures r <= |s|
    ensures forall k :: |s| - r <= k < |s| ==> IsQuote(s[k])
    ensures r < |s| ==> !IsQuote(s[|s| - 1 - r])
    decreases |s|
  {
    if s == [] || !IsQuote(s[|s| - 1]) then 0 else 1 + TrailingQuotes(s[..|s| - 1])
  }

  /** `trim(s, '"\'')`: the part of `s` left after stripping quotes at both ends. */
  function TrimQuotes(s: string): (r: string)
    ensures |r| <= |s|
    ensures r == [] || (!IsQuote(r[0]) && !IsQuote(r[|r| - 1]))
    ensures exists a, b :: QuoteEnds(s, a, b) && r == s[a..b]
  {
    var a := LeadingQuotes(s);
    var t := s[a..];
    var b := TrailingQuotes(t);
    var r := t[..|t| - b];
    assert r == s[a..|s| - b];
    assert AllQuotes(s[..a]);
    assert s[|s| - b..] == t[|t| - b..];
    assert AllQuotes(s[|s| - b..]);
    assert QuoteEnds(s, a, |s| - b);
    r
  }

  // ---------------------------------------------------------------------
  // isClassAttribute


  /** `\s*["']?` to the end of `u`. */
  predicate QuoteEnd(u: string) {
    AllSpace(u) || (|u| > 0 && IsQuote(u[|u| - 1]) && AllSpace(u[..|u| - 1]))
  }

  /** `\s*=\s*["']?` to the end of `t`. */
  predicate AssignCore(t: string) {
    exists a: nat | a < |t| :: AllSpace(t[..a]) && t[a] == '=' && QuoteEnd(t[a + 1..])
  }

  /** `\s*=\s*["']?$` on `t`: `$` matches at the end or before a final newline. */
  predicate AssignTail(t: string) {
    AssignCore(t) || (|t| > 0 && t[|t| - 1] == '\n' && AssignCore(t[..|t| - 1]))
  }

  /** `/class\s*=\s*["\']?$/`: the text ends with an opened class attribute. */
  predicate ClassSuffix(s: string) {
    exists i: nat | i <= |s| :: OccursAt(s, "class", i) && AssignTail(s[i + 5..])
  }

  /** The markup test of `isClassAttribute`. */
  predicate Markup(s: string) {
    Contains(s, "<!--") || Contains(s, "-->") || Contains(s, "wp:") || Contains(s, "<") || Contains(s, ">")
  }

  /** `<!--` and `-->` hold `<` and `>`: the markup test is just `<`, `>` or `wp:`. */
  lemma MarkupSubsumed(s: string)
    ensures Markup(s) <==> Contains(s, "<") || Contains(s, ">") || Contains(s, "wp:")
  {
    if Contains(s, "<!--") {
      var i: nat :| i <= |s| && OccursAt(s, "<!--", i);
      assert s[i..i + 1] == s[i..i + 4][..1];
      assert OccursAt(s, "<", i);
    }
    if Contains(s, "-->") {
      var i: nat :| i <= |s| && OccursAt(s, "-->", i);
      assert s[i + 2..i + 3] == s[i..i + 3][2..];
      assert OccursAt(s, ">", i + 2);
    }
  }

  /**
   * `isClassAttribute`: the token at `p` holds no markup and one of the
   * (up to) three tokens before it ends with an opened class attribute.
   */
  predicate ClassAttribute(ts: seq<Token>, p: nat)
    requires p < |ts|
  {
    !Markup(ts[p].content)
    && exists k: nat | p - 3 <= k < p :: ClassSuffix(ts[k].content)
  }

  method IsClassAttribute(ts: seq<Token>, p: nat) returns (r: bool)
    requires p < |ts|
    ensures r == ClassAttribute(ts, p)
  {
    var content := ts[p].content;
    if Contains(content, "<!--") || Contains(content, "-->") || Contains(content, "wp:")
       || Contains(content, "<") || Contains(content, ">") {
      return false;
    }
    var i: int := p - 3;
    while i < p
      invariant p - 3 <= i <= p
      invariant forall k: nat | p - 3 <= k < i :: !ClassSuffix(ts[k].content)
      decreases p - i
    {
      if i < 0 {
        i := i + 1;
        continue;
      }
      if ClassSuffix(ts[i].content) {
        return true;
      }
      i := i + 1;
    }
    return false;
  }

  lemma ClassSuffixExamples()
    ensures ClassSuffix("class=\"")
    ensures ClassSuffix(" class = '")
    ensures ClassSuffix("class=\n")
  {
    assert "class=\""[0..5] == "class" && OccursAt("class=\"", "class", 0);
    assert "class=\""[5..] == "=\"";
    assert AllSpace("=\""[..0]) && QuoteEnd("=\""[1..]);
    assert AssignCore("=\"");
    assert " class = '"[1..6] == "class" && OccursAt(" class = '", "class", 1);
    assert " class = '"[6..] == " = '";
    assert AllSpace(" = '"[..1]) && " = '"[2..] == " '" && QuoteEnd(" '");
    assert AssignCore(" = '");
    assert "class=\n"[0..5] == "class" && OccursAt("class=\n", "class", 0);
    assert "class=\n"[5..] == "=\n";
    assert AllSpace("=\n"[..0]) && "=\n"[1..] == "\n" && QuoteEnd("\n");
    assert AssignCore("=\n");
  }

  // ---------------------------------------------------------------------
  // processHtmlContent

  /** The index of the first quote at or after `i`, or `|s|`. */
  function SkipToQuote(s: string, i: nat): (r: nat)
    requires i <= |s|
    ensures i <= r <= |s|
    ensures forall k :: i <= k < r ==> !IsQuote(s[k])
    ensures r < |s| ==> IsQuote(s[r])
    decreases |s| - i
  {
    if i < |s| && !IsQuote(s[i]) then SkipToQuote(s, i + 1) else i
  }

  /** A match of `class\s*=\s*["']([^"']*)["']` found at `i`. */
  datatype Match = Match(value: string, end: nat)

  /**
   * The attribute pattern matches `s[i..end]`, with its opening quote at
   * `k`: `class`, whitespace, `=`, whitespace, a quote, a run without
   * quotes, and the closing quote at `end - 1`. The capture is
   * `s[k + 1..end - 1]`.
   */
  ghost predicate AttributeMatch(s: string, i: nat, k: nat, end: nat) {
    OccursAt(s, "class", i) && i + 5 < k < end - 1 < |s|
    && (exists e: nat :: SpacedEquals(s, i, e, k))
    && IsQuote(s[k]) && QuoteFree(s[k + 1..end - 1]) && IsQuote(s[end - 1])
  }

  /** After the `class` at `i`, `\s*=\s*` spans `[i + 5, k)`, with the `=` at `e`. */
  predicate SpacedEquals(s: string, i: nat, e: nat, k: nat) {
    i + 5 <= e < k <= |s| && AllSpace(s[i + 5..e]) && s[e] == '=' && AllSpace(s[e + 1..k])
  }

  /**
   * The match of the attribute pattern starting at `i`, if any: its
   * captured value and the index after its closing quote. Each part of the
   * pattern can only match one way, so no backtracking is needed.
   */
  function MatchAt(s: string, i: nat): (r: Option<Match>)
    ensures r.Some? ==> OccursAt(s, "class", i) && i + 5 < r.value.end <= |s| && QuoteFree(r.value.value)
    ensures r.Some? ==>
              OpenQuote(r.value) > i + 5 && IsQuote(s[OpenQuote(r.value)])
              && r.value.value == s[OpenQuote(r.value) + 1..r.value.end - 1] && IsQuote(s[r.value.end - 1])
  {
    if !(i + 5 <= |s| && s[i..i + 5] == "class") then None
    else
      var j := SkipSpace(s, i + 5);
      if j >= |s| || s[j] != '=' then None
      else
        var k := SkipSpace(s, j + 1);
        if k >= |s| || !IsQuote(s[k]) then None
        else
          var m := SkipToQuote(s, k + 1);
          if m >= |s| then None
          else
            Some(Match(s[k + 1..m], m + 1))
  }

  /** Where the opening quote of a match stands. */
  function OpenQuote(mt: Match): int {
    mt.end - |mt.value| - 2
  }

  /** What `MatchAt` finds is a match of the attribute pattern. */
  lemma MatchAtSound(s: string, i: nat)
    requires MatchAt(s, i).Some?
    ensures AttributeMatch(s, i, OpenQuote(MatchAt(s, i).value), MatchAt(s, i).value.end)
  {
    var j := SkipSpace(s, i + 5);
    var k := SkipSpace(s, j + 1);
    assert SpacedEquals(s, i, j, k);
  }

  /** Every match of the attribute pattern at `i` is the one `MatchAt` finds. */
  lemma MatchAtComplete(s: string, i: nat, k: nat, end: nat)
    requires AttributeMatch(s, i, k, end)
    ensures MatchAt(s, i) == Some(Match(s[k + 1..end - 1], end))
  {
    var e: nat :| SpacedEquals(s, i, e, k);
    SpacedEqualsSkips(s, i, e, k);
    QuoteFreeSkips(s, k + 1, end - 1);
    MatchAtFound(s, i, e, k, end - 1);
  }

  /** `MatchAt` finds the match whose `=` is at `e` and whose quotes are at `k` and `m`. */
  lemma MatchAtFound(s: string, i: nat, e: nat, k: nat, m: nat)
    requires OccursAt(s, "class", i) && e < k < m < |s|
    requires SkipSpace(s, i + 5) == e && s[e] == '='
    requires SkipSpace(s, e + 1) == k && IsQuote(s[k])
    requires SkipToQuote(s, k + 1) == m
    ensures MatchAt(s, i) == Some(Match(s[k + 1..m], m + 1))
  {
    assert s[i..i + 5] == "class";
  }

  /** `\s*=\s*` is matched by skipping whitespace on both sides of the `=`. */
  lemma SpacedEqualsSkips(s: string, i: nat, e: nat, k: nat)
    requires SpacedEquals(s, i, e, k) && k < |s| && !IsSpace(s[k])
    ensures SkipSpace(s, i + 5) == e && SkipSpace(s, e + 1) == k
  {
    forall j | i + 5 <= j < e ensures IsSpace(s[j]) {
      assert s[j] == s[i + 5..e][j - i - 5];
    }
    SkipSpaceRun(s, i + 5, e);
    forall j | e + 1 <= j < k ensures IsSpace(s[j]) {
      assert s[j] == s[e + 1..k][j - e - 1];
    }
    SkipSpaceRun(s, e + 1, k);
  }

  /** `[^"']*` over a quote-free `s[a..b]` stops at the quote at `b`. */
  lemma QuoteFreeSkips(s: string, a: nat, b: nat)
    requires a <= b < |s| && QuoteFree(s[a..b]) && IsQuote(s[b])
    ensures SkipToQuote(s, a) == b
  {
    forall j | a <= j < b ensures !IsQuote(s[j]) {
      assert s[j] == s[a..b][j - a];
    }
    SkipToQuoteRun(s, a, b);
  }

  /** `\s*` from `a` stops at `b` when `[a, b)` is whitespace and `s[b]` is not. */
  lemma {:induction false} SkipSpaceRun(s: string, a: nat, b: nat)
    requires a <= b < |s| && !IsSpace(s[b])
    requires forall j :: a <= j < b ==> IsSpace(s[j])
    ensures SkipSpace(s, a) == b
    decreases b - a
  {
    if a < b {
      SkipSpaceRun(s, a + 1, b);
    }
  }

  /** `[^"']*` from `a` stops at `b` when `[a, b)` holds no quote and `s[b]` is one. */
  lemma {:induction false} SkipToQuoteRun(s: string, a: nat, b: nat)
    requires a <= b < |s| && IsQuote(s[b])
    requires forall j :: a <= j < b ==> !IsQuote(s[j])
    ensures SkipToQuote(s, a) == b
    decreases b - a
  {
    if a < b {
      SkipToQuoteRun(s, a + 1, b);
    }
  }

  /** The captured values of `preg_match_all` from `i` on: leftmost matches, each search resuming after the last. */
  function ClassValuesFrom(s: string, i: nat): (r: seq<string>)
    ensures forall v :: v in r ==> QuoteFree(v)
    decreases |s| - i
  {
    if i >= |s| then []
    else match MatchAt(s, i)
      case Some(m) => [m.value] + ClassValuesFrom(s, m.end)
      case None => ClassValuesFrom(s, i + 1)
  }

  function ClassValues(s: string): seq<string> {
    ClassValuesFrom(s, 0)
  }

  /** Every captured value is the capture of a match of the attribute pattern at or after `i`. */
  lemma {:induction false} ClassValuesSound(s: string, i: nat, v: string)
    requires v in ClassValuesFrom(s, i)
    ensures exists c: nat, k: nat, end: nat :: i <= c && AttributeMatch(s, c, k, end) && v == s[k + 1..end - 1]
    decreases |s| - i
  {
    match MatchAt(s, i)
    case Some(mt) =>
      if v == mt.value {
        MatchAtSound(s, i);
      } else {
        ClassValuesSound(s, mt.end, v);
      }
    case None =>
      ClassValuesSound(s, i + 1, v);
  }

  /**
   * `preg_match_all` takes the leftmost match: when the pattern first
   * matches at `c`, the values are its capture, then those found after
   * its closing quote.
   */
  lemma {:induction false} ClassValuesLeftmost(s: string, i: nat, c: nat, k: nat, end: nat)
    requires i <= c && AttributeMatch(s, c, k, end)
    requires forall j :: i <= j < c ==> MatchAt(s, j).None?
    ensures ClassValuesFrom(s, i) == [s[k + 1..end - 1]] + ClassValuesFrom(s, end)
    decreases c - i
  {
    if i < c {
      ClassValuesLeftmost(s, i + 1, c, k, end);
    } else {
      MatchAtComplete(s, c, k, end);
    }
  }

  /** Text where the pattern matches nowhere from `i` on gives no values. */
  lemma {:induction false} ClassValuesNone(s: string, i: nat)
    requires forall c: nat, k: nat, end: nat :: i <= c ==> !AttributeMatch(s, c, k, end)
    ensures ClassValuesFrom(s, i) == []
    decreases |s| - i
  {
    if i < |s| {
      match MatchAt(s, i)
      case Some(mt) =>
        MatchAtSound(s, i);
        assert false;
      case None =>
        ClassValuesNone(s, i + 1);
    }
  }

  /** An attribute written `class="v"` gives back exactly `v`, for any `v` without quotes. */
  lemma ClassValueRoundTrip(v: string)
    requires QuoteFree(v)
    ensures ClassValues("class=\"" + v + "\"") == [v]
  {
    var s := "class=\"" + v + "\"";
    assert s[0..5] == "class";
    assert SkipSpace(s, 5) == 5;
    assert s[5] == '=';
    assert SkipSpace(s, 6) == 6;
    assert IsQuote(s[6]);
    SkipToQuoteOver(s, 7, v);
    assert s[7..7 + |v|] == v;
    assert MatchAt(s, 0) == Some(Match(v, |s|));
    assert ClassValuesFrom(s, |s|) == [];
    assert ClassValuesFrom(s, 0) == [v] + ClassValuesFrom(s, |s|);
  }

  lemma SkipToQuoteOver(s: string, i: nat, v: string)
    requires i + |v| < |s| && s[i..i + |v|] == v && IsQuote(s[i + |v|])
    requires QuoteFree(v)
    ensures SkipToQuote(s, i) == i + |v|
  {
    forall k | i <= k < i + |v|
      ensures !IsQuote(s[k])
    {
      assert s[k] == s[i..i + |v|][k - i];
    }
  }

  /** The classes of the captured values `vs`: the words of each, value by value. */
  function HtmlClasses(vs: seq<string>): seq<string>
    decreases |vs|
  {
    if vs == [] then [] else HtmlClasses(vs[..|vs| - 1]) + Words(vs[|vs| - 1])
  }

  /** The warnings of `processHtmlContent` for the captured values `vs`. */
  function HtmlWarnings(p: nat, vs: seq<string>): seq<Report> {
    ClassWarnings(p, HtmlClasses(vs))
  }

  /** The warnings for several values are those for each value in turn. */
  lemma HtmlWarningsAppend(p: nat, vs: seq<string>, v: string)
    ensures HtmlWarnings(p, vs + [v]) == HtmlWarnings(p, vs) + ClassWarnings(p, Words(v))
  {
    assert (vs + [v])[..|vs|] == vs;
    ClassWarningsAppend(p, HtmlClasses(vs), Words(v));
  }

  /** The outer loop of `processHtmlContent`: the words of every captured value, in order. */
  method CollectClasses(values: seq<string>) returns (classes: seq<string>)
    ensures classes == HtmlClasses(values)
  {
    classes := [];
    var i := 0;
    while i < |values|
      invariant 0 <= i <= |values|
      invariant classes == HtmlClasses(values[..i])
      decreases |values| - i
    {
      assert values[..i + 1][..i] == values[..i] && values[..i + 1][i] == values[i];
      classes := classes + Words(values[i]);
      i := i + 1;
    }
    assert values[..|values|] == values;
  }

  method ProcessHtmlContent(file: File, p: nat, content: string)
    modifies file
    ensures file.reports == old(file.reports) + HtmlWarnings(p, ClassValues(content))
  {
    var classes := CollectClasses(ClassValues(content));
    WarnClasses(file, p, classes);
  }

  // ---------------------------------------------------------------------
  // process

  /** The token kinds the sniff is registered for. */
  const Registered: set<Kind> := {ConstantString, DoubleQuotedString, InlineHtml}

  /** The warnings of `process` for the token at `p`. */
  function NamingWarnings(ts: seq<Token>, p: nat): seq<Report>
    requires p < |ts|
  {
    if ts[p].kind == InlineHtml then HtmlWarnings(p, ClassValues(ts[p].content))
    else if ClassAttribute(ts, p) then ClassWarnings(p, Words(TrimQuotes(ts[p].content)))
    else []
  }

  method Process(file: File, p: nat)
    requires p < |file.tokens| && file.tokens[p].kind in Registered
    modifies file
    ensures file.reports == old(file.reports) + NamingWarnings(file.tokens, p)
  {
    var ts := file.tokens;
    var content := ts[p].content;
    if ts[p].kind == InlineHtml {
      ProcessHtmlContent(file, p, content);
      return;
    }
    content := TrimQuotes(content);
    var isAttribute := IsClassAttribute(ts, p);
    if !isAttribute {
      return;
    }
    WarnClasses(file, p, Words(content));
  }

  /** A string token is never warned about unless a token just before it opens a class attribute. */
  lemma NoAttributeNoWarning(ts: seq<Token>, p: nat)
    requires p < |ts| && ts[p].kind != InlineHtml
    requires forall k: nat | p - 3 <= k < p :: !ClassSuffix(ts[k].content)
    ensures NamingWarnings(ts, p) == []
  {
  }

  /** Every warning of the rule is an InvalidBEMNaming warning at the token, naming an invalid class. */
  lemma {:induction false} ClassWarningsShape(p: nat, cs: seq<string>)
    ensures forall r :: r in ClassWarnings(p, cs) ==>
      r.code == InvalidBEMNaming && r.severity == Warning && r.pos == p
      && exists c :: c in cs && r.args == [StrArg(c)] && !IsValidBEMClass(c) && !Exempt(c)
  {
    forall r | r in ClassWarnings(p, cs)
      ensures r.code == InvalidBEMNaming && r.severity == Warning && r.pos == p
      ensures exists c :: c in cs && r.args == [StrArg(c)] && !IsValidBEMClass(c) && !Exempt(c)
    {
      ClassWarningsExact(p, cs, r);
    }
  }
}
