/**
 * The expectations of test/index.js, stated on the model. The regular-expression engine is
 * replaced by small engines that give the same answers on these inputs: a literal search
 * for plain-word patterns, and a start-of-text search for the pattern `^b`.
 */
module Examples {
  import opened Wrappers
  import opened JsString
  import opened MatchEngine
  import opened Tokens
  import opened Composer
  import opened TreeRewrite

  /** ASCII lower case, the folding the `i` flag does on these texts. */
  function Lower(c: char): char
  {
    if 'A' <= c <= 'Z' then (c as int + 32) as char else c
  }

  /** `a` matches the literal `b`, ignoring ASCII case unless `caseSensitive`. */
  predicate SameText(a: string, b: string, caseSensitive: bool)
  {
    |a| == |b| && forall i :: 0 <= i < |a| ==> if caseSensitive then a[i] == b[i] else Lower(a[i]) == Lower(b[i])
  }

  /**
   * The matches of a global search for a literal pattern: scanning from the left, every
   * window that equals the pattern is taken and the scan resumes after it.
   */
  function LiteralMatches(pattern: string, caseSensitive: bool, text: string): (ms: seq<string>)
    ensures forall j :: 0 <= j < |ms| ==> SameText(ms[j], pattern, caseSensitive) && |ms[j]| == |pattern|
    ensures pattern != "" ==> WellFormedMatches(ms, text)
    decreases |text|
  {
    if pattern == "" || |text| < |pattern| then []
    else if SameText(text[..|pattern|], pattern, caseSensitive) then
      var rest := LiteralMatches(pattern, caseSensitive, text[|pattern|..]);
      var ms := [text[..|pattern|]] + rest;
      assert ms[1..] == rest && OccursAt(text, ms[0], 0) && text[0 + |ms[0]|..] == text[|pattern|..];
      if pattern != "" then LocatableAt(ms, text, 0); ms else ms
    else
      var rest := LiteralMatches(pattern, caseSensitive, text[1..]);
      LocatablePrepend(rest, text[..1], text[1..]);
      assert text[..1] + text[1..] == text;
      rest
  }

  /** A literal engine: every pattern compiles. */
  function LiteralMatcher(): Matcher
  {
    (pattern, caseSensitive, text) => Some(LiteralMatches(pattern, caseSensitive, text))
  }

  lemma LiteralWellBehaved(pattern: string, caseSensitive: bool)
    requires pattern != ""
    ensures WellBehaved(LiteralMatcher(), pattern, caseSensitive)
  {
    forall text ensures WellFormedMatches(LiteralMatches(pattern, caseSensitive, text), text) { }
  }

  /** An engine answering like JavaScript's `/^b/gm` (`/^b/igm` when not case-sensitive) on one-line texts. */
  function StartMatcher(): Matcher
  {
    (pattern, caseSensitive, text) =>
      if |text| > 0 && (text[0] == 'b' || (!caseSensitive && text[0] == 'B')) then Some([text[..1]]) else Some([])
  }

  lemma StartWellBehaved(pattern: string, caseSensitive: bool)
    ensures WellBehaved(StartMatcher(), pattern, caseSensitive)
  {
    forall text | StartMatcher()(pattern, caseSensitive, text).value != []
      ensures WellFormedMatches(StartMatcher()(pattern, caseSensitive, text).value, text)
    {
      var ms := [text[..1]];
      assert OccursAt(text, ms[0], 0) && ms[1..] == [];
      LocatableAt(ms, text, 0);
    }
  }

  /** A literal engine on which the pattern "(" does not compile, as `new RegExp('(')` throws. */
  function FailingMatcher(): Matcher
  {
    (pattern, caseSensitive, text) => if pattern == "(" then None else Some(LiteralMatches(pattern, caseSensitive, text))
  }

  lemma FailingWellBehaved(pattern: string, caseSensitive: bool)
    requires pattern != ""
    ensures WellBehaved(FailingMatcher(), pattern, caseSensitive)
  {
    forall text | pattern != "(" ensures WellFormedMatches(LiteralMatches(pattern, caseSensitive, text), text) { }
  }

  /**
   * An engine answering like JavaScript's `/(?<=a)b/gm`: each "b" right after an "a". Its
   * match strings all read "b", which `indexOf` may find earlier than the engine did.
   */
  function AfterA(text: string): (ms: seq<string>)
    ensures forall j :: 0 <= j < |ms| ==> ms[j] == "b"
    ensures WellFormedMatches(ms, text)
    decreases |text|
  {
    if |text| < 2 then []
    else if text[0] == 'a' && text[1] == 'b' then
      var rest := AfterA(text[2..]);
      var ms := ["b"] + rest;
      assert ms[1..] == rest && OccursAt(text, ms[0], 1) && text[1 + |ms[0]|..] == text[2..];
      LocatableAt(ms, text, 1);
      ms
    else
      var rest := AfterA(text[1..]);
      LocatablePrepend(rest, text[..1], text[1..]);
      assert text[..1] + text[1..] == text;
      rest
  }

  function LookbehindMatcher(): Matcher
  {
    (pattern, caseSensitive, text) => Some(AfterA(text))
  }

  lemma LookbehindWellBehaved(pattern: string, caseSensitive: bool)
    ensures WellBehaved(LookbehindMatcher(), pattern, caseSensitive)
  {
    forall text ensures WellFormedMatches(AfterA(text), text) { }
  }

  /**
   * A search that finds a single match: `go` emits the text before the first occurrence of
   * the match and a marker around it, then searches again what follows.
   */
  lemma GoOneMatch(m: Matcher, pattern: string, caseSensitive: bool, classes: seq<string>,
                   newText: seq<Fragment>, rest: string, isFirst: bool, found: string, k: int)
    requires WellBehaved(m, pattern, caseSensitive)
    requires Matches(m, pattern, caseSensitive, rest) == [found]
    requires IndexOf(rest, found) == k
    ensures 0 <= k && k + |found| <= |rest|
    ensures Go(m, pattern, caseSensitive, classes, newText, rest, isFirst)
         == Go(m, pattern, caseSensitive, classes, newText + [Plain(rest[..k]), Mark(classes, found)], rest[k + |found|..], false)
  {
    var p := Progress(newText, rest);
    assert Pass([found], p, classes) == Pass([], Step(p, found, classes), classes);
    assert rest[k..k + |found|] == found;
  }

  /** A later search that finds nothing: the fragments so far, then the tail when it is non-empty. */
  lemma GoNoMoreMatches(m: Matcher, pattern: string, caseSensitive: bool, classes: seq<string>,
                        newText: seq<Fragment>, rest: string)
    requires WellBehaved(m, pattern, caseSensitive)
    requires Matches(m, pattern, caseSensitive, rest) == []
    ensures Go(m, pattern, caseSensitive, classes, newText, rest, false)
         == Frags(if rest == "" then newText else newText + [Plain(rest)])
  {
  }

  /**
   * A string leaf on which the first search finds a single match and the search after it
   * finds nothing: the text before the match, the marker, and the tail when it is non-empty.
   */
  lemma CheckTokenOneMatch(m: Matcher, pattern: string, caseSensitive: bool, classes: seq<string>,
                           s: string, found: string, k: int)
    requires WellBehaved(m, pattern, caseSensitive)
    requires Matches(m, pattern, caseSensitive, s) == [found]
    requires IndexOf(s, found) == k
    requires 0 <= k && k + |found| <= |s|
    requires Matches(m, pattern, caseSensitive, s[k + |found|..]) == []
    ensures CheckToken(Str(s), m, pattern, classes, caseSensitive)
         == Frags([Plain(s[..k]), Mark(classes, found)] + (if k + |found| == |s| then [] else [Plain(s[k + |found|..])]))
  {
    GoOneMatch(m, pattern, caseSensitive, classes, [], s, true, found, k);
    GoNoMoreMatches(m, pattern, caseSensitive, classes, [Plain(s[..k]), Mark(classes, found)], s[k + |found|..]);
  }

  /** A text that matches a literal pattern whole is its own single match. */
  lemma LiteralWhole(pattern: string, caseSensitive: bool, text: string)
    requires pattern != "" && SameText(text, pattern, caseSensitive)
    ensures LiteralMatches(pattern, caseSensitive, text) == [text]
    ensures LiteralMatches(pattern, caseSensitive, text[|text|..]) == []
  {
    assert text[..|pattern|] == text && text[|pattern|..] == "";
  }

  /** A whole-text literal match: the leaf becomes an empty plain run and one marker around the text. */
  lemma {:induction false} WholeTextMarked(pattern: string, caseSensitive: bool, text: string, classes: seq<string>)
    requires pattern != "" && SameText(text, pattern, caseSensitive)
    ensures WellBehaved(LiteralMatcher(), pattern, caseSensitive)
    ensures CheckToken(Str(text), LiteralMatcher(), pattern, classes, caseSensitive) == Frags([Plain(""), Mark(classes, text)])
  {
    LiteralWellBehaved(pattern, caseSensitive);
    LiteralWhole(pattern, caseSensitive, text);
    assert IndexOf(text, text) == 0 by { assert OccursAt(text, text, 0); }
    CheckTokenOneMatch(LiteralMatcher(), pattern, caseSensitive, classes, text, text, 0);
    assert text[..0] == "";
  }

  // The document of test/index.js: a list whose items hold "foo", "Bar", "BAZ", "buZZ",
  // then "buzz" beside a div around a span around "foo", then a div around the number 1.

  function Li(children: seq<Node>): Node { Elem("li", [], children) }

  /** That document with its six string leaves given as parameters, in document order. */
  function Document(foo: Node, bar: Node, baz: Node, buZZ: Node, buzz: Node, spanFoo: Node): Node
  {
    Elem("ul", [], [
      Li([foo]), Li([bar]), Li([baz]), Li([buZZ]),
      Li([buzz, Elem("div", [], [Elem("span", [], [spanFoo])])]),
      Li([Elem("div", [], [Number(1)])])])
  }

  function Original(): Node
  {
    Document(Text("foo"), Text("Bar"), Text("BAZ"), Text("buZZ"), Text("buzz"), Text("foo"))
  }

  /** The model's rendering of a text matched whole: the empty leading run, then the marker. */
  function Whole(classes: seq<string>, text: string): Node
  {
    Group([Text(""), Elem("i", classes, [Text(text)])])
  }

  /** What the highlighter makes of one string leaf. */
  function LeafOf(options: HighlighterOptions, tokens: seq<Token>, m: Matcher, s: string): Node
    requires TokensWellBehaved(m, tokens, options.sensitiveSearch.GetOr(false))
  {
    LeafNode(CheckAndReplace(s, tokens, options.className, options.sensitiveSearch.GetOr(false), m))
  }

  /** An element is highlighted child by child. */
  lemma HighlightElem(options: HighlighterOptions, tokens: seq<Token>, m: Matcher, tag: string, children: seq<Node>, rs: seq<Node>)
    requires TokensWellBehaved(m, tokens, options.sensitiveSearch.GetOr(false))
    requires |rs| == |children| && forall i :: 0 <= i < |children| ==> Highlight(options, tokens, m, children[i]) == rs[i]
    ensures Highlight(options, tokens, m, Elem(tag, [], children)) == Elem(tag, [], rs)
  {
    assert HighlightAll(options, tokens, m, children) == rs;
  }

  /** A list item around one string leaf. */
  lemma HighlightTextItem(options: HighlighterOptions, tokens: seq<Token>, m: Matcher, s: string)
    requires TokensWellBehaved(m, tokens, options.sensitiveSearch.GetOr(false))
    ensures Highlight(options, tokens, m, Li([Text(s)])) == Li([LeafOf(options, tokens, m, s)])
  {
    HighlightElem(options, tokens, m, "li", [Text(s)], [LeafOf(options, tokens, m, s)]);
  }

  /** The fifth item: a string leaf beside a div around a span around another string leaf. */
  lemma HighlightNestedItem(options: HighlighterOptions, tokens: seq<Token>, m: Matcher, s: string, inner: string)
    requires TokensWellBehaved(m, tokens, options.sensitiveSearch.GetOr(false))
    ensures Highlight(options, tokens, m, Li([Text(s), Elem("div", [], [Elem("span", [], [Text(inner)])])]))
         == Li([LeafOf(options, tokens, m, s), Elem("div", [], [Elem("span", [], [LeafOf(options, tokens, m, inner)])])])
  {
    var o, ts := options, tokens;
    var leaf, innerLeaf := LeafOf(o, ts, m, s), LeafOf(o, ts, m, inner);
    HighlightElem(o, ts, m, "span", [Text(inner)], [innerLeaf]);
    var span := Elem("span", [], [innerLeaf]);
    HighlightElem(o, ts, m, "div", [Elem("span", [], [Text(inner)])], [span]);
    HighlightElem(o, ts, m, "li", [Text(s), Elem("div", [], [Elem("span", [], [Text(inner)])])], [leaf, Elem("div", [], [span])]);
  }

  /** The last item: a div around a number, which no highlighter changes. */
  lemma HighlightNumberItem(options: HighlighterOptions, tokens: seq<Token>, m: Matcher)
    requires TokensWellBehaved(m, tokens, options.sensitiveSearch.GetOr(false))
    ensures Highlight(options, tokens, m, Li([Elem("div", [], [Number(1)])])) == Li([Elem("div", [], [Number(1)])])
  {
    HighlightElem(options, tokens, m, "div", [Number(1)], [Number(1)]);
    HighlightElem(options, tokens, m, "li", [Elem("div", [], [Number(1)])], [Elem("div", [], [Number(1)])]);
  }

  /** Highlighting the document visits exactly its six string leaves and keeps everything else. */
  lemma HighlightDocument(options: HighlighterOptions, tokens: seq<Token>, m: Matcher,
                          a: string, b: string, c: string, d: string, e: string, f: string)
    requires TokensWellBehaved(m, tokens, options.sensitiveSearch.GetOr(false))
    ensures Highlight(options, tokens, m, Document(Text(a), Text(b), Text(c), Text(d), Text(e), Text(f)))
         == Document(LeafOf(options, tokens, m, a), LeafOf(options, tokens, m, b),
                     LeafOf(options, tokens, m, c), LeafOf(options, tokens, m, d),
                     LeafOf(options, tokens, m, e), LeafOf(options, tokens, m, f))
  {
    var o, ts := options, tokens;
    HighlightTextItem(o, ts, m, a);
    HighlightTextItem(o, ts, m, b);
    HighlightTextItem(o, ts, m, c);
    HighlightTextItem(o, ts, m, d);
    HighlightNestedItem(o, ts, m, e, f);
    HighlightNumberItem(o, ts, m);
    var items := [Li([Text(a)]), Li([Text(b)]), Li([Text(c)]), Li([Text(d)]),
                  Li([Text(e), Elem("div", [], [Elem("span", [], [Text(f)])])]),
                  Li([Elem("div", [], [Number(1)])])];
    var rs := [Li([LeafOf(o, ts, m, a)]), Li([LeafOf(o, ts, m, b)]), Li([LeafOf(o, ts, m, c)]), Li([LeafOf(o, ts, m, d)]),
               Li([LeafOf(o, ts, m, e), Elem("div", [], [Elem("span", [], [LeafOf(o, ts, m, f)])])]),
               Li([Elem("div", [], [Number(1)])])];
    HighlightElem(o, ts, m, "ul", items, rs);
  }
}
