/**
 * The five tests of test/index.js as lemmas about the model, then a few edge cases of
 * index.js pinned on small inputs. Each test lemma states the tree the highlighter returns
 * for the test's document. Where the test expects `i(classes, text)`, the model returns that
 * marker inside an array after an empty string: React renders the two alike, and rendering
 * is not part of this model.
 */
module TestExpectations {
  import opened Wrappers
  import opened JsString
  import opened MatchEngine
  import opened Tokens
  import opened Composer
  import opened TreeRewrite
  import opened Examples

  /** With one token, `checkAndReplace` is that token's `checkToken` on the string. */
  lemma OneToken(s: string, t: Token, classNameAll: Option<string>, sensitiveSearchAll: bool, m: Matcher)
    requires WellBehaved(m, t.token, FinalSensitiveSearch(sensitiveSearchAll, t.sensitiveSearch))
    ensures TokensWellBehaved(m, [t], sensitiveSearchAll)
    ensures CheckAndReplace(s, [t], classNameAll, sensitiveSearchAll, m) == ApplyToken(Str(s), t, classNameAll, sensitiveSearchAll, m)
  {
    assert Reduce(Str(s), [t], classNameAll, sensitiveSearchAll, m)
        == Reduce(ApplyToken(Str(s), t, classNameAll, sensitiveSearchAll, m), [], classNameAll, sensitiveSearchAll, m);
  }

  /** A text shorter than a literal pattern is left as it is. */
  lemma {:induction false} ShortTextUnchanged(pattern: string, caseSensitive: bool, text: string, classes: seq<string>)
    requires pattern != "" && |text| < |pattern|
    ensures WellBehaved(LiteralMatcher(), pattern, caseSensitive)
    ensures CheckToken(Str(text), LiteralMatcher(), pattern, classes, caseSensitive) == Str(text)
  {
    LiteralWellBehaved(pattern, caseSensitive);
    assert LiteralMatches(pattern, caseSensitive, text) == [];
  }

  /**
   * Under the `^b` engine a text starting with a matching "b" (and not followed by another)
   * becomes an empty run, a marker around that first letter, and the rest of the text.
   */
  lemma {:induction false} FirstLetterMarked(text: string, caseSensitive: bool, classes: seq<string>)
    requires |text| >= 2
    requires text[0] == 'b' || (!caseSensitive && text[0] == 'B')
    requires text[1] != 'b' && (caseSensitive || text[1] != 'B')
    ensures WellBehaved(StartMatcher(), "^b", caseSensitive)
    ensures CheckToken(Str(text), StartMatcher(), "^b", classes, caseSensitive)
         == Frags([Plain(""), Mark(classes, text[..1]), Plain(text[1..])])
  {
    StartWellBehaved("^b", caseSensitive);
    var m := StartMatcher();
    var one := text[..1];
    assert Matches(m, "^b", caseSensitive, text) == [one];
    assert IndexOf(text, one) == 0 by { assert OccursAt(text, one, 0); }
    assert Matches(m, "^b", caseSensitive, text[0 + |one|..]) == [] by {
      assert text[1..][0] == text[1];
    }
    CheckTokenOneMatch(m, "^b", caseSensitive, classes, text, one, 0);
    assert text[..0] == "";
  }

  /** A string leaf under the `^b` engine that does not start with a matching "b" is left as it is. */
  lemma NoLeadingB(text: string, caseSensitive: bool, classes: seq<string>)
    requires |text| > 0 && text[0] != 'b' && (caseSensitive || text[0] != 'B')
    ensures WellBehaved(StartMatcher(), "^b", caseSensitive)
    ensures CheckToken(Str(text), StartMatcher(), "^b", classes, caseSensitive) == Str(text)
  {
    StartWellBehaved("^b", caseSensitive);
  }

  lemma {:induction false} BuZZIsBuzz()
    ensures SameText("buZZ", "buzz", false) && SameText("buzz", "buzz", false) && SameText("buzz", "buzz", true)
  {
    var a := "buZZ";
    assert Lower(a[2]) == 'z' && Lower(a[3]) == 'z';
  }

  lemma {:induction false} FooIsFoo()
    ensures SameText("foo", "foo", false)
  {
  }

  /** A text as long as a literal pattern that it does not match is left as it is. */
  lemma {:induction false} OtherTextUnchanged(pattern: string, caseSensitive: bool, text: string, classes: seq<string>)
    requires pattern != "" && |text| == |pattern| && !SameText(text, pattern, caseSensitive)
    ensures WellBehaved(LiteralMatcher(), pattern, caseSensitive)
    ensures CheckToken(Str(text), LiteralMatcher(), pattern, classes, caseSensitive) == Str(text)
  {
    LiteralWellBehaved(pattern, caseSensitive);
    assert text[..|pattern|] == text;
    assert LiteralMatches(pattern, caseSensitive, text[1..]) == [];
    assert LiteralMatches(pattern, caseSensitive, text) == [];
  }

  /** What the literal engine with the pattern "buzz" makes of each string leaf of the document. */
  lemma BuzzOnLeaves(sensitiveSearch: bool, classes: seq<string>)
    ensures WellBehaved(LiteralMatcher(), "buzz", sensitiveSearch)
    ensures CheckToken(Str("foo"), LiteralMatcher(), "buzz", classes, sensitiveSearch) == Str("foo")
    ensures CheckToken(Str("Bar"), LiteralMatcher(), "buzz", classes, sensitiveSearch) == Str("Bar")
    ensures CheckToken(Str("BAZ"), LiteralMatcher(), "buzz", classes, sensitiveSearch) == Str("BAZ")
    ensures CheckToken(Str("buzz"), LiteralMatcher(), "buzz", classes, sensitiveSearch) == Frags([Plain(""), Mark(classes, "buzz")])
    ensures CheckToken(Str("buZZ"), LiteralMatcher(), "buzz", classes, sensitiveSearch)
         == if sensitiveSearch then Str("buZZ") else Frags([Plain(""), Mark(classes, "buZZ")])
  {
    LiteralWellBehaved("buzz", sensitiveSearch);
    ShortTextUnchanged("buzz", sensitiveSearch, "foo", classes);
    ShortTextUnchanged("buzz", sensitiveSearch, "Bar", classes);
    ShortTextUnchanged("buzz", sensitiveSearch, "BAZ", classes);
    BuZZIsBuzz();
    WholeTextMarked("buzz", sensitiveSearch, "buzz", classes);
    if sensitiveSearch {
      var s := "buZZ";
      assert !SameText(s, "buzz", true) by { assert s[2] != "buzz"[2]; }
      OtherTextUnchanged("buzz", true, s, classes);
    } else {
      WholeTextMarked("buzz", false, "buZZ", classes);
    }
  }

  /** With one token, a leaf of the document is that token's `checkToken` on the string. */
  lemma LeafOfOneToken(options: HighlighterOptions, t: Token, m: Matcher, s: string)
    requires WellBehaved(m, t.token, FinalSensitiveSearch(options.sensitiveSearch.GetOr(false), t.sensitiveSearch))
    ensures TokensWellBehaved(m, [t], options.sensitiveSearch.GetOr(false))
    ensures LeafOf(options, [t], m, s)
         == LeafNode(CheckToken(Str(s), m, t.token, ClassList(t.className, options.className),
                                FinalSensitiveSearch(options.sensitiveSearch.GetOr(false), t.sensitiveSearch)))
  {
    OneToken(s, t, options.className, options.sensitiveSearch.GetOr(false), m);
  }

  /** The node of a leaf matched whole. */
  lemma WholeNode(classes: seq<string>, text: string)
    ensures LeafNode(Frags([Plain(""), Mark(classes, text)])) == Whole(classes, text)
  {
    var n := LeafNode(Frags([Plain(""), Mark(classes, text)]));
    assert n.items == [Text(""), Elem("i", classes, [Text(text)])];
  }

  /** The model's rendering of a leaf whose first match is its first letter: empty run, marker, rest. */
  function Split(classes: seq<string>, first: string, rest: string): Node
  {
    Group([Text(""), Elem("i", classes, [Text(first)]), Text(rest)])
  }

  lemma SplitNode(classes: seq<string>, first: string, rest: string)
    ensures LeafNode(Frags([Plain(""), Mark(classes, first), Plain(rest)])) == Split(classes, first, rest)
  {
    var n := LeafNode(Frags([Plain(""), Mark(classes, first), Plain(rest)]));
    assert n.items == [Text(""), Elem("i", classes, [Text(first)]), Text(rest)];
  }

  /** What the tests expect from a one-token "buzz" highlighter: "buzz" marked, and "buZZ" too unless case matters. */
  function BuzzExpected(classes: seq<string>, caseSensitive: bool): Node
  {
    Document(Text("foo"), Text("Bar"), Text("BAZ"),
             if caseSensitive then Text("buZZ") else Whole(classes, "buZZ"),
             Whole(classes, "buzz"), Text("foo"))
  }

  /** A one-token highlighter for "buzz" on the document of the tests. */
  lemma BuzzDocument(options: HighlighterOptions, t: Token)
    requires t.token == "buzz"
    ensures TokensWellBehaved(LiteralMatcher(), [t], options.sensitiveSearch.GetOr(false))
    ensures Highlight(options, [t], LiteralMatcher(), Original())
         == BuzzExpected(ClassList(t.className, options.className),
                         FinalSensitiveSearch(options.sensitiveSearch.GetOr(false), t.sensitiveSearch))
  {
    var m := LiteralMatcher();
    var cs := FinalSensitiveSearch(options.sensitiveSearch.GetOr(false), t.sensitiveSearch);
    var classes := ClassList(t.className, options.className);
    LiteralWellBehaved("buzz", cs);
    LeafOfOneToken(options, t, m, "foo");
    LeafOfOneToken(options, t, m, "Bar");
    LeafOfOneToken(options, t, m, "BAZ");
    LeafOfOneToken(options, t, m, "buZZ");
    LeafOfOneToken(options, t, m, "buzz");
    BuzzOnLeaves(cs, classes);
    WholeNode(classes, "buzz");
    WholeNode(classes, "buZZ");
    HighlightDocument(options, [t], m, "foo", "Bar", "BAZ", "buZZ", "buzz", "foo");
  }

  lemma NoPipe(s: string)
    requires |s| > 0 && s[|s| - 1] != '|'
    ensures StripTrailingPipe(s) == s
  {
  }

  /** test/index.js, "it can highlight": the default highlighter marks "buZZ" and "buzz". */
  lemma ItCanHighlight()
    ensures StripTrailingPipe("buzz") == "buzz"
    ensures WellBehaved(LiteralMatcher(), "buzz", false)
    ensures DefaultHighlighter(Original(), "buzz", LiteralMatcher()) == BuzzExpected(["highlight"], false)
  {
    NoPipe("buzz");
    LiteralWellBehaved("buzz", false);
    BuzzDocument(HighlighterOptions(None, None), DefaultToken("buzz"));
  }

  /** "it can highlight case-sensitive", set on the highlighter: only "buzz" is marked. */
  lemma ItCanHighlightCaseSensitiveHighlighter()
    ensures TokensWellBehaved(LiteralMatcher(), [DefaultToken("buzz")], true)
    ensures Highlight(HighlighterOptions(None, Some(true)), [DefaultToken("buzz")], LiteralMatcher(), Original())
         == BuzzExpected(["highlight"], true)
  {
    NoPipe("buzz");
    BuzzDocument(HighlighterOptions(None, Some(true)), DefaultToken("buzz"));
  }

  /** The token for "buzz" made case-sensitive by `tokenFactory`. */
  function SensitiveBuzz(): Token
  {
    TokenFactory(TokenOptions(None, Some(true)), "buzz")
  }

  /** "it can highlight case-sensitive", set on the token: only "buzz" is marked. */
  lemma ItCanHighlightCaseSensitiveToken()
    ensures TokensWellBehaved(LiteralMatcher(), [SensitiveBuzz()], false)
    ensures Highlight(HighlighterOptions(None, None), [SensitiveBuzz()], LiteralMatcher(), Original())
         == BuzzExpected(["highlight"], true)
  {
    NoPipe("buzz");
    BuzzDocument(HighlighterOptions(None, None), SensitiveBuzz());
  }

  /** The token for "buzz" with the class name "special". */
  function SpecialBuzz(): Token
  {
    TokenFactory(TokenOptions(Some("special"), None), "buzz")
  }

  /** "it can highlight with custom class names": the token's class name replaces "highlight". */
  lemma ItCanHighlightWithTokenClassName()
    ensures TokensWellBehaved(LiteralMatcher(), [SpecialBuzz()], false)
    ensures Highlight(HighlighterOptions(None, None), [SpecialBuzz()], LiteralMatcher(), Original())
         == BuzzExpected(["special"], false)
  {
    NoPipe("buzz");
    BuzzDocument(HighlighterOptions(None, None), SpecialBuzz());
  }

  /** The highlighter's class name is added after the token's own. */
  lemma ItCanHighlightWithBothClassNames()
    ensures TokensWellBehaved(LiteralMatcher(), [SpecialBuzz()], false)
    ensures Highlight(HighlighterOptions(Some("all-special"), None), [SpecialBuzz()], LiteralMatcher(), Original())
         == BuzzExpected(["special", "all-special"], false)
  {
    NoPipe("buzz");
    BuzzDocument(HighlighterOptions(Some("all-special"), None), SpecialBuzz());
  }

  /** The highlighter's class name is added after the default "highlight". */
  lemma ItCanHighlightWithHighlighterClassName()
    ensures TokensWellBehaved(LiteralMatcher(), [DefaultToken("buzz")], false)
    ensures Highlight(HighlighterOptions(Some("all-special"), None), [DefaultToken("buzz")], LiteralMatcher(), Original())
         == BuzzExpected(["highlight", "all-special"], false)
  {
    NoPipe("buzz");
    BuzzDocument(HighlighterOptions(Some("all-special"), None), DefaultToken("buzz"));
  }

  /** With two tokens, `checkAndReplace` applies the first, then the second to what the first returned. */
  lemma TwoTokens(s: string, t1: Token, t2: Token, classNameAll: Option<string>, sensitiveSearchAll: bool, m: Matcher)
    requires WellBehaved(m, t1.token, FinalSensitiveSearch(sensitiveSearchAll, t1.sensitiveSearch))
    requires WellBehaved(m, t2.token, FinalSensitiveSearch(sensitiveSearchAll, t2.sensitiveSearch))
    ensures TokensWellBehaved(m, [t1, t2], sensitiveSearchAll)
    ensures CheckAndReplace(s, [t1, t2], classNameAll, sensitiveSearchAll, m)
         == ApplyToken(ApplyToken(Str(s), t1, classNameAll, sensitiveSearchAll, m), t2, classNameAll, sensitiveSearchAll, m)
  {
    var first := ApplyToken(Str(s), t1, classNameAll, sensitiveSearchAll, m);
    assert [t1, t2][1..] == [t2];
    assert Reduce(first, [t2], classNameAll, sensitiveSearchAll, m)
        == Reduce(ApplyToken(first, t2, classNameAll, sensitiveSearchAll, m), [], classNameAll, sensitiveSearchAll, m);
  }

  /** What the tests expect from the tokens "buzz" (default class) and "foo" (class "special"). */
  function MultipleExpected(): Node
  {
    Document(Whole(["special"], "foo"), Text("Bar"), Text("BAZ"),
             Whole(["highlight"], "buZZ"), Whole(["highlight"], "buzz"), Whole(["special"], "foo"))
  }

  /** The second token of the multiple-token test: "foo" with the class "special". */
  function SpecialFoo(): Token
  {
    TokenFactory(TokenOptions(Some("special"), None), "foo")
  }

  /** Under the tokens "buzz", then "foo" with class "special", a leaf is `checkToken` of both in turn. */
  lemma BuzzThenFoo(s: string)
    ensures StripTrailingPipe("buzz") == "buzz" && StripTrailingPipe("foo") == "foo"
    ensures WellBehaved(LiteralMatcher(), "buzz", false) && WellBehaved(LiteralMatcher(), "foo", false)
    ensures TokensWellBehaved(LiteralMatcher(), [DefaultToken("buzz"), SpecialFoo()], false)
    ensures LeafOf(HighlighterOptions(None, None), [DefaultToken("buzz"), SpecialFoo()], LiteralMatcher(), s)
         == LeafNode(CheckToken(CheckToken(Str(s), LiteralMatcher(), "buzz", ["highlight"], false),
                                LiteralMatcher(), "foo", ["special"], false))
  {
    NoPipe("buzz");
    NoPipe("foo");
    LiteralWellBehaved("buzz", false);
    LiteralWellBehaved("foo", false);
    TwoTokens(s, DefaultToken("buzz"), SpecialFoo(), None, false, LiteralMatcher());
  }

  /** The leaves "Bar" and "BAZ" match neither token. */
  lemma NeitherTokenMatches(s: string)
    requires s == "Bar" || s == "BAZ"
    ensures WellBehaved(LiteralMatcher(), "buzz", false) && WellBehaved(LiteralMatcher(), "foo", false)
    ensures CheckToken(CheckToken(Str(s), LiteralMatcher(), "buzz", ["highlight"], false), LiteralMatcher(), "foo", ["special"], false)
         == Str(s)
  {
    ShortTextUnchanged("buzz", false, s, ["highlight"]);
    assert !SameText(s, "foo", false) by { assert Lower(s[0]) != Lower("foo"[0]); }
    OtherTextUnchanged("foo", false, s, ["special"]);
  }

  /** The leaf "foo" is left by the first token and marked whole by the second. */
  lemma OnlyFooMatches()
    ensures WellBehaved(LiteralMatcher(), "buzz", false) && WellBehaved(LiteralMatcher(), "foo", false)
    ensures CheckToken(CheckToken(Str("foo"), LiteralMatcher(), "buzz", ["highlight"], false), LiteralMatcher(), "foo", ["special"], false)
         == Frags([Plain(""), Mark(["special"], "foo")])
  {
    ShortTextUnchanged("buzz", false, "foo", ["highlight"]);
    FooIsFoo();
    WholeTextMarked("foo", false, "foo", ["special"]);
  }

  /** The leaves "buZZ" and "buzz" are marked whole by the first token, and the second leaves the array alone. */
  lemma OnlyBuzzMatches(s: string)
    requires s == "buZZ" || s == "buzz"
    ensures WellBehaved(LiteralMatcher(), "buzz", false) && WellBehaved(LiteralMatcher(), "foo", false)
    ensures CheckToken(CheckToken(Str(s), LiteralMatcher(), "buzz", ["highlight"], false), LiteralMatcher(), "foo", ["special"], false)
         == Frags([Plain(""), Mark(["highlight"], s)])
  {
    LiteralWellBehaved("foo", false);
    BuZZIsBuzz();
    WholeTextMarked("buzz", false, s, ["highlight"]);
  }

  /**
   * "it can accept multiple tokens": "foo" is marked with "special" and "buzz" and "buZZ"
   * with "highlight"; the leaves "buZZ" and "buzz" are split by the first token already.
   */
  lemma ItCanAcceptMultipleTokens()
    ensures TokensWellBehaved(LiteralMatcher(), [DefaultToken("buzz"), SpecialFoo()], false)
    ensures Highlight(HighlighterOptions(None, None), [DefaultToken("buzz"), SpecialFoo()], LiteralMatcher(), Original())
         == MultipleExpected()
  {
    BuzzThenFoo("foo");
    BuzzThenFoo("Bar");
    BuzzThenFoo("BAZ");
    BuzzThenFoo("buZZ");
    BuzzThenFoo("buzz");
    OnlyFooMatches();
    NeitherTokenMatches("Bar");
    NeitherTokenMatches("BAZ");
    OnlyBuzzMatches("buZZ");
    OnlyBuzzMatches("buzz");
    WholeNode(["special"], "foo");
    WholeNode(["highlight"], "buZZ");
    WholeNode(["highlight"], "buzz");
    HighlightDocument(HighlighterOptions(None, None), [DefaultToken("buzz"), SpecialFoo()], LiteralMatcher(),
                      "foo", "Bar", "BAZ", "buZZ", "buzz", "foo");
  }

  /** What the `^b` engine makes of the leaves starting with a lower-case "b", and of "foo". */
  lemma StartOnLowerLeaves(caseSensitive: bool, classes: seq<string>)
    ensures WellBehaved(StartMatcher(), "^b", caseSensitive)
    ensures CheckToken(Str("foo"), StartMatcher(), "^b", classes, caseSensitive) == Str("foo")
    ensures CheckToken(Str("buZZ"), StartMatcher(), "^b", classes, caseSensitive) == Frags([Plain(""), Mark(classes, "b"), Plain("uZZ")])
    ensures CheckToken(Str("buzz"), StartMatcher(), "^b", classes, caseSensitive) == Frags([Plain(""), Mark(classes, "b"), Plain("uzz")])
  {
    StartWellBehaved("^b", caseSensitive);
    NoLeadingB("foo", caseSensitive, classes);
    FirstLetterMarked("buZZ", caseSensitive, classes);
    assert "buZZ"[..1] == "b" && "buZZ"[1..] == "uZZ";
    FirstLetterMarked("buzz", caseSensitive, classes);
    assert "buzz"[..1] == "b" && "buzz"[1..] == "uzz";
  }

  /** What the `^b` engine makes of the leaves starting with a capital "B": split only when case does not matter. */
  lemma StartOnUpperLeaves(caseSensitive: bool, classes: seq<string>)
    ensures WellBehaved(StartMatcher(), "^b", caseSensitive)
    ensures CheckToken(Str("Bar"), StartMatcher(), "^b", classes, caseSensitive)
         == if caseSensitive then Str("Bar") else Frags([Plain(""), Mark(classes, "B"), Plain("ar")])
    ensures CheckToken(Str("BAZ"), StartMatcher(), "^b", classes, caseSensitive)
         == if caseSensitive then Str("BAZ") else Frags([Plain(""), Mark(classes, "B"), Plain("AZ")])
  {
    StartWellBehaved("^b", caseSensitive);
    if caseSensitive {
      NoLeadingB("Bar", true, classes);
      NoLeadingB("BAZ", true, classes);
    } else {
      FirstLetterMarked("Bar", false, classes);
      assert "Bar"[..1] == "B" && "Bar"[1..] == "ar";
      FirstLetterMarked("BAZ", false, classes);
      assert "BAZ"[..1] == "B" && "BAZ"[1..] == "AZ";
    }
  }

  /** What the tests expect from the token `^b`: each leaf starting with a matching "b" has that letter marked. */
  function StartExpected(classes: seq<string>, caseSensitive: bool): Node
  {
    Document(Text("foo"),
             if caseSensitive then Text("Bar") else Split(classes, "B", "ar"),
             if caseSensitive then Text("BAZ") else Split(classes, "B", "AZ"),
             Split(classes, "b", "uZZ"), Split(classes, "b", "uzz"), Text("foo"))
  }

  /** A one-token highlighter for `^b` on the document of the tests. */
  lemma StartDocument(options: HighlighterOptions, t: Token)
    requires t.token == "^b"
    ensures TokensWellBehaved(StartMatcher(), [t], options.sensitiveSearch.GetOr(false))
    ensures Highlight(options, [t], StartMatcher(), Original())
         == StartExpected(ClassList(t.className, options.className),
                          FinalSensitiveSearch(options.sensitiveSearch.GetOr(false), t.sensitiveSearch))
  {
    var m := StartMatcher();
    var cs := FinalSensitiveSearch(options.sensitiveSearch.GetOr(false), t.sensitiveSearch);
    var classes := ClassList(t.className, options.className);
    StartWellBehaved("^b", cs);
    LeafOfOneToken(options, t, m, "foo");
    LeafOfOneToken(options, t, m, "Bar");
    LeafOfOneToken(options, t, m, "BAZ");
    LeafOfOneToken(options, t, m, "buZZ");
    LeafOfOneToken(options, t, m, "buzz");
    StartOnLowerLeaves(cs, classes);
    StartOnUpperLeaves(cs, classes);
    SplitNode(classes, "B", "ar");
    SplitNode(classes, "B", "AZ");
    SplitNode(classes, "b", "uZZ");
    SplitNode(classes, "b", "uzz");
    HighlightDocument(options, [t], m, "foo", "Bar", "BAZ", "buZZ", "buzz", "foo");
  }

  /** "it can match with RegEx": the pattern `^b` marks the first letter of "Bar", "BAZ", "buZZ" and "buzz". */
  lemma ItCanMatchWithRegEx()
    ensures TokensWellBehaved(StartMatcher(), [DefaultToken("^b")], false)
    ensures Highlight(HighlighterOptions(None, None), [DefaultToken("^b")], StartMatcher(), Original())
         == StartExpected(["highlight"], false)
  {
    NoPipe("^b");
    StartDocument(HighlighterOptions(None, None), DefaultToken("^b"));
  }

  /** The token for `^b` made case-sensitive by `tokenFactory`. */
  function SensitiveStart(): Token
  {
    TokenFactory(TokenOptions(None, Some(true)), "^b")
  }

  /** Case-sensitively, `^b` marks only the first letter of "buZZ" and "buzz". */
  lemma ItCanMatchWithRegExCaseSensitive()
    ensures TokensWellBehaved(StartMatcher(), [SensitiveStart()], false)
    ensures Highlight(HighlighterOptions(None, None), [SensitiveStart()], StartMatcher(), Original())
         == StartExpected(["highlight"], true)
  {
    NoPipe("^b");
    StartDocument(HighlighterOptions(None, None), SensitiveStart());
  }

  /** A pattern that does not compile leaves every string leaf as it is. */
  lemma InvalidPatternLeavesText(s: string, classes: seq<string>, caseSensitive: bool)
    ensures WellBehaved(FailingMatcher(), "(", caseSensitive)
    ensures CheckToken(Str(s), FailingMatcher(), "(", classes, caseSensitive) == Str(s)
  {
    FailingWellBehaved("(", caseSensitive);
  }

  /** The lookbehind engine on "bab" finds one "b": the one after the "a". */
  lemma BabMatches()
    ensures AfterA("bab") == ["b"]
  {
    var s := "bab";
    assert s[1..] == "ab" && "ab"[2..] == "";
    assert AfterA("ab") == ["b"];
  }

  /**
   * `indexOf` relocates a match: the lookbehind engine finds only the "b" after the "a" in
   * "bab", but the first marker goes around the first "b" of the text, with nothing before it.
   */
  lemma LookbehindRelocated(classes: seq<string>)
    ensures AfterA("bab") == ["b"]
    ensures WellBehaved(LookbehindMatcher(), "(?<=a)b", false)
    ensures var r := CheckToken(Str("bab"), LookbehindMatcher(), "(?<=a)b", classes, false);
      r.Frags? && |r.fragments| >= 2 && r.fragments[0] == Plain("") && r.fragments[1] == Mark(classes, "b")
  {
    LookbehindWellBehaved("(?<=a)b", false);
    BabMatches();
    BabFirstOccurrence();
    CheckTokenFirstPass("bab", LookbehindMatcher(), "(?<=a)b", classes, false);
  }

  lemma BabFirstOccurrence()
    ensures IndexOf("bab", "b") == 0 && "bab"[..0] == ""
  {
    assert OccursAt("bab", "b", 0);
  }

  /** The literal "b" in "ab": the leaf becomes the run "a" and a marker around "b". */
  lemma BInAb(classes: seq<string>)
    ensures WellBehaved(LiteralMatcher(), "b", false)
    ensures CheckToken(Str("ab"), LiteralMatcher(), "b", classes, false) == Frags([Plain("a"), Mark(classes, "b")])
  {
    LiteralWellBehaved("b", false);
    var s := "ab";
    assert s[..1] == "a" && s[1..] == "b" && s[1 + 1..] == "";
    assert !SameText(s[..1], "b", false) by { assert Lower(s[0]) != Lower("b"[0]); }
    assert LiteralMatches("b", false, s[1..]) == ["b"] by {
      assert SameText("b", "b", false);
      LiteralWhole("b", false, "b");
    }
    assert LiteralMatches("b", false, s) == ["b"];
    assert IndexOf(s, "b") == 1 by {
      assert OccursAt(s, "b", 1) && !OccursAt(s, "b", 0);
    }
    CheckTokenOneMatch(LiteralMatcher(), "b", false, classes, s, "b", 1);
  }

  /**
   * Once a token has split a leaf, later tokens leave it alone: on "ab" with the tokens "b",
   * then "a", only "b" is marked, although "a" alone would split the leaf.
   */
  lemma SplitLeafStaysFrozen()
    ensures StripTrailingPipe("b") == "b" && StripTrailingPipe("a") == "a"
    ensures TokensWellBehaved(LiteralMatcher(), [DefaultToken("a")], false)
    ensures CheckAndReplace("ab", [DefaultToken("a")], None, false, LiteralMatcher()).Frags?
    ensures TokensWellBehaved(LiteralMatcher(), [DefaultToken("b"), DefaultToken("a")], false)
    ensures CheckAndReplace("ab", [DefaultToken("b"), DefaultToken("a")], None, false, LiteralMatcher())
         == Frags([Plain("a"), Mark(["highlight"], "b")])
  {
    NoPipe("b");
    NoPipe("a");
    var m := LiteralMatcher();
    LiteralWellBehaved("a", false);
    OneToken("ab", DefaultToken("a"), None, false, m);
    assert "ab"[..1] == "a" && SameText("a", "a", false);
    assert LiteralMatches("a", false, "ab") != [];
    BInAb(["highlight"]);
    TwoTokens("ab", DefaultToken("b"), DefaultToken("a"), None, false, m);
  }

  /** `tokenFactory` strips one trailing pipe only: "foo|" gives "foo", "foo||" gives "foo|". */
  lemma TrailingPipeExamples()
    ensures DefaultToken("foo|").token == "foo"
    ensures DefaultToken("foo||").token == "foo|"
    ensures DefaultToken("foo").token == "foo"
    ensures DefaultToken("").token == ""
  {
    assert "foo|"[..3] == "foo";
    assert "foo||"[..4] == "foo|";
    NoPipe("foo");
  }
}
