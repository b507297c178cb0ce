/**
 * `highlighterFactory` and `defaultHighlighter` of index.js (lines 27-39 and 101): the
 * composer lifted over a document tree. Every string leaf is replaced by what the composer
 * makes of it; every other node keeps its place, and elements keep their tag and classes.
 */
module TreeRewrite {
  import opened Wrappers
  import opened MatchEngine
  import opened Tokens
  import opened Composer

  /**
   * A document node: a string leaf, a non-string leaf (the number in `div('', 1)`), an
   * element with its tag, class names and children, or an array of nodes.
   */
  datatype Node =
    | Text(s: string)
    | Number(n: int)
    | Elem(tag: string, classes: seq<string>, children: seq<Node>)
    | Group(items: seq<Node>)

  /** The options object given to `highlighterFactory`; `className` defaults to null, `sensitiveSearch` to false. */
  datatype HighlighterOptions = HighlighterOptions(className: Option<string>, sensitiveSearch: Option<bool>)

  /** A fragment as a node: a plain run is a string, a marker is an `i` element around the match. */
  function FragmentNode(f: Fragment): (n: Node)
    ensures f.Plain? ==> n == Text(f.text)
    ensures f.Mark? ==> n == Elem("i", f.classes, [Text(f.text)])
  {
    match f
    case Plain(t) => Text(t)
    case Mark(c, t) => Elem("i", c, [Text(t)])
  }

  /** What the `Text` visitor returns in place of a string leaf: the string, or the array of fragments. */
  function LeafNode(l: Leaf): (n: Node)
    ensures l.Str? ==> n == Text(l.s)
    ensures l.Frags? ==> n.Group? && |n.items| == |l.fragments|
    ensures l.Frags? ==> forall i :: 0 <= i < |l.fragments| ==> n.items[i] == FragmentNode(l.fragments[i])
  {
    match l
    case Str(s) => Text(s)
    case Frags(fs) => Group(seq(|fs|, i requires 0 <= i < |fs| => FragmentNode(fs[i])))
  }

  /** The text of a tree: its string leaves read left to right. */
  function TextOf(t: Node): string
    decreases t, 1
  {
    match t
    case Text(s) => s
    case Number(_) => ""
    case Elem(_, _, children) => TextOfAll(children)
    case Group(items) => TextOfAll(items)
  }

  function TextOfAll(ts: seq<Node>): string
    decreases ts, 0
  {
    if ts == [] then "" else TextOfAll(ts[..|ts| - 1]) + TextOf(ts[|ts| - 1])
  }

  /** The tree has no string leaf. */
  predicate NoText(t: Node)
    decreases t
  {
    match t
    case Text(_) => false
    case Number(_) => true
    case Elem(_, _, children) => forall i :: 0 <= i < |children| ==> NoText(children[i])
    case Group(items) => forall i :: 0 <= i < |items| ==> NoText(items[i])
  }

  /**
   * `highlighterFactory(options)(tokens)(container)`: the traversal's `Text` visitor replaces a
   * string leaf by `checkAndReplace` of it and returns every other leaf as it is; elements and
   * arrays keep their shape and their children are visited in turn.
   */
  function Highlight(options: HighlighterOptions, tokens: seq<Token>, m: Matcher, t: Node): (r: Node)
    requires TokensWellBehaved(m, tokens, options.sensitiveSearch.GetOr(false))
    ensures t.Text? ==> r == LeafNode(CheckAndReplace(t.s, tokens, options.className, options.sensitiveSearch.GetOr(false), m))
    ensures t.Number? ==> r == t
    ensures t.Elem? ==> r.Elem? && r.tag == t.tag && r.classes == t.classes && |r.children| == |t.children|
    ensures t.Group? ==> r.Group? && |r.items| == |t.items|
    decreases t, 1
  {
    match t
    case Text(s) => LeafNode(CheckAndReplace(s, tokens, options.className, options.sensitiveSearch.GetOr(false), m))
    case Number(_) => t
    case Elem(tag, classes, children) => Elem(tag, classes, HighlightAll(options, tokens, m, children))
    case Group(items) => Group(HighlightAll(options, tokens, m, items))
  }

  /** The visitor applied to each node of a child list, in place. */
  function HighlightAll(options: HighlighterOptions, tokens: seq<Token>, m: Matcher, ts: seq<Node>): (rs: seq<Node>)
    requires TokensWellBehaved(m, tokens, options.sensitiveSearch.GetOr(false))
    ensures |rs| == |ts|
    ensures forall i :: 0 <= i < |ts| ==> rs[i] == Highlight(options, tokens, m, ts[i])
    decreases ts, 0
  {
    if ts == [] then [] else [Highlight(options, tokens, m, ts[0])] + HighlightAll(options, tokens, m, ts[1..])
  }

  /** `defaultHighlighter(dom, text)`: one default token for `text`, default highlighter options. */
  function DefaultHighlighter(dom: Node, text: string, m: Matcher): (r: Node)
    requires WellBehaved(m, StripTrailingPipe(text), false)
    ensures TextOf(r) == TextOf(dom)
  {
    var tokens := [DefaultToken(text)];
    assert TokensWellBehaved(m, tokens, false);
    HighlightPreservesText(HighlighterOptions(None, None), tokens, m, dom);
    Highlight(HighlighterOptions(None, None), tokens, m, dom)
  }

  /** The text of a fragment array read as nodes is the text of the fragments. */
  lemma {:induction false} FragmentsText(fs: seq<Fragment>)
    ensures TextOf(LeafNode(Frags(fs))) == Flatten(fs)
    decreases |fs|
  {
    var n := LeafNode(Frags(fs));
    if fs != [] {
      var init := fs[..|fs| - 1];
      FragmentsText(init);
      assert n.items[..|fs| - 1] == LeafNode(Frags(init)).items;
      var last := FragmentNode(fs[|fs| - 1]);
      assert TextOf(last) == fs[|fs| - 1].text by {
        var one := [Text(fs[|fs| - 1].text)];
        assert one[..0] == [];
        assert TextOfAll(one) == fs[|fs| - 1].text;
      }
    }
  }

  /** Highlighting never changes the text of the document: it only regroups it. */
  lemma {:induction false} HighlightPreservesText(options: HighlighterOptions, tokens: seq<Token>, m: Matcher, t: Node)
    requires TokensWellBehaved(m, tokens, options.sensitiveSearch.GetOr(false))
    ensures TextOf(Highlight(options, tokens, m, t)) == TextOf(t)
    decreases t, 1
  {
    match t
    case Text(s) =>
      var l := CheckAndReplace(s, tokens, options.className, options.sensitiveSearch.GetOr(false), m);
      if l.Frags? {
        FragmentsText(l.fragments);
      }
    case Number(_) =>
    case Elem(_, _, children) =>
      HighlightAllPreservesText(options, tokens, m, children);
    case Group(items) =>
      HighlightAllPreservesText(options, tokens, m, items);
  }

  lemma {:induction false} HighlightAllPreservesText(options: HighlighterOptions, tokens: seq<Token>, m: Matcher, ts: seq<Node>)
    requires TokensWellBehaved(m, tokens, options.sensitiveSearch.GetOr(false))
    ensures TextOfAll(HighlightAll(options, tokens, m, ts)) == TextOfAll(ts)
    decreases ts, 0
  {
    if ts != [] {
      var rs := HighlightAll(options, tokens, m, ts);
      var init := ts[..|ts| - 1];
      HighlightAllPreservesText(options, tokens, m, init);
      HighlightPreservesText(options, tokens, m, ts[|ts| - 1]);
      assert rs[..|rs| - 1] == HighlightAll(options, tokens, m, init);
    }
  }

  /** A tree without string leaves comes back unchanged, whatever the tokens. */
  lemma {:induction false} HighlightNoTextIsIdentity(options: HighlighterOptions, tokens: seq<Token>, m: Matcher, t: Node)
    requires TokensWellBehaved(m, tokens, options.sensitiveSearch.GetOr(false))
    requires NoText(t)
    ensures Highlight(options, tokens, m, t) == t
    decreases t
  {
    match t
    case Number(_) =>
    case Elem(tag, classes, children) =>
      forall i | 0 <= i < |children| ensures Highlight(options, tokens, m, children[i]) == children[i] {
        HighlightNoTextIsIdentity(options, tokens, m, children[i]);
      }
      assert HighlightAll(options, tokens, m, children) == children;
    case Group(items) =>
      forall i | 0 <= i < |items| ensures Highlight(options, tokens, m, items[i]) == items[i] {
        HighlightNoTextIsIdentity(options, tokens, m, items[i]);
      }
      assert HighlightAll(options, tokens, m, items) == items;
  }

  /** With no tokens, every node comes back unchanged. */
  lemma {:induction false} HighlightNoTokensIsIdentity(options: HighlighterOptions, m: Matcher, t: Node)
    ensures Highlight(options, [], m, t) == t
    decreases t
  {
    match t
    case Text(s) =>
    case Number(_) =>
    case Elem(tag, classes, children) =>
      forall i | 0 <= i < |children| ensures Highlight(options, [], m, children[i]) == children[i] {
        HighlightNoTokensIsIdentity(options, m, children[i]);
      }
      assert HighlightAll(options, [], m, children) == children;
    case Group(items) =>
      forall i | 0 <= i < |items| ensures Highlight(options, [], m, items[i]) == items[i] {
        HighlightNoTokensIsIdentity(options, m, items[i]);
      }
      assert HighlightAll(options, [], m, items) == items;
  }

  /**
   * On a string leaf, `defaultHighlighter` is `checkToken` with the pattern stripped of one
   * trailing pipe, the class list ["highlight"] and case-insensitive search.
   */
  lemma DefaultHighlighterOnLeaf(s: string, text: string, m: Matcher)
    requires WellBehaved(m, StripTrailingPipe(text), false)
    ensures DefaultHighlighter(Text(s), text, m) == LeafNode(CheckToken(Str(s), m, StripTrailingPipe(text), ["highlight"], false))
  {
    var tokens := [DefaultToken(text)];
    assert TokensWellBehaved(m, tokens, false);
    assert Reduce(Str(s), tokens, None, false, m) == Reduce(ApplyToken(Str(s), tokens[0], None, false, m), [], None, false, m);
  }
}
