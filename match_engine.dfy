/**
 * The single-token splitter `checkToken` of index.js (lines 68-98) and its inner `go`.
 *
 * The regular-expression engine (`new RegExp(token, flags)` followed by `text.match(...)`)
 * is a parameter: a `Matcher` maps a pattern, the case-sensitivity flag and a text to the
 * list of matched strings, or to `None` when compiling the pattern throws.
 */
module MatchEngine {
  import opened Wrappers
  import opened JsString

  /** One piece of a split text leaf: a plain run, or a matched run wrapped in a marker with class names. */
  datatype Fragment = Plain(text: string) | Mark(classes: seq<string>, text: string)

  /**
   * The value `checkAndReplace` threads from token to token: the leaf's string while no token
   * has split it, the fragment array once one has.
   */
  datatype Leaf = Str(s: string) | Frags(fragments: seq<Fragment>)

  /** The engine: (pattern, case-sensitive, text) to the matches of a global search, `None` when the pattern does not compile. */
  type Matcher = (string, bool, string) -> Option<seq<string>>

  /** The text of a fragment array read left to right. */
  function Flatten(fs: seq<Fragment>): string
  {
    if fs == [] then "" else Flatten(fs[..|fs| - 1]) + fs[|fs| - 1].text
  }

  /** The text a leaf stands for. */
  function LeafText(l: Leaf): string
  {
    match l
    case Str(s) => s
    case Frags(fs) => Flatten(fs)
  }

  /**
   * What any global search returns: non-empty strings lying in `text` in order, without
   * overlap (stated in the equivalent form `Locatable`, see `JsString.InOrderIffLocatable`).
   */
  predicate WellFormedMatches(ms: seq<string>, text: string)
  {
    && (forall j :: 0 <= j < |ms| ==> ms[j] != "")
    && Locatable(ms, text)
  }

  /**
   * The engine keeps that promise for this pattern and flag on every text. Patterns that can
   * match the empty string break it: a pass that finds only empty matches (`a*` at the end of
   * any text) makes `go` recurse without progress until the stack overflows, and a pass that
   * mixes empty and non-empty matches (`(?=a)|b` on "ab") ends normally with empty markers.
   */
  ghost predicate WellBehaved(m: Matcher, pattern: string, caseSensitive: bool)
  {
    forall text :: m(pattern, caseSensitive, text).Some? ==> WellFormedMatches(m(pattern, caseSensitive, text).value, text)
  }

  /** The `matches` of `go`: the engine's list, or the empty list when the RegExp constructor throws. */
  function Matches(m: Matcher, pattern: string, caseSensitive: bool, text: string): (ms: seq<string>)
    ensures m(pattern, caseSensitive, text).None? ==> ms == []
    ensures WellBehaved(m, pattern, caseSensitive) ==> WellFormedMatches(ms, text)
  {
    match m(pattern, caseSensitive, text)
    case None => []
    case Some(ms) => ms
  }

  /**
   * Fragments in the order a pass emits them: (plain run, marker) pairs, each marker holding a
   * non-empty match and carrying `classes`.
   */
  ghost predicate Pairs(fs: seq<Fragment>, classes: seq<string>)
    decreases |fs|
  {
    || fs == []
    || (&& |fs| >= 2
        && fs[|fs| - 2].Plain?
        && fs[|fs| - 1].Mark? && fs[|fs| - 1].classes == classes && fs[|fs| - 1].text != ""
        && Pairs(fs[..|fs| - 2], classes))
  }

  /**
   * The shape of a split leaf: at least one (plain run, marker) pair, then a trailing plain
   * run only when that run is non-empty.
   */
  ghost predicate Highlighted(fs: seq<Fragment>, classes: seq<string>)
  {
    && |fs| >= 2
    && (|| Pairs(fs, classes)
        || (fs[|fs| - 1].Plain? && fs[|fs| - 1].text != "" && Pairs(fs[..|fs| - 1], classes)))
  }

  /** The accumulator pair `[finalText, remainingText]` of the reduce over matches. */
  datatype Progress = Progress(out: seq<Fragment>, rest: string)

  /**
   * One step of that reduce (index.js:84-92): cut the remaining text at the first literal
   * occurrence of `match`, emit the text before it (even when empty) and a marker around it.
   */
  function Step(p: Progress, found: string, classes: seq<string>): (r: Progress)
    requires IndexOf(p.rest, found) >= 0
    ensures |r.out| == |p.out| + 2 && r.out[..|p.out|] == p.out
    ensures r.out[|p.out|].Plain? && r.out[|p.out| + 1] == Mark(classes, found)
    ensures p.rest == r.out[|p.out|].text + found + r.rest
    ensures forall i :: 0 <= i < |r.out[|p.out|].text| ==> !OccursAt(p.rest, found, i)
  {
    var foundIndex := IndexOf(p.rest, found);
    var begin := p.rest[..foundIndex];
    var matched := p.rest[foundIndex..foundIndex + |found|];
    Progress(p.out + [Plain(begin), Mark(classes, matched)], p.rest[foundIndex + |found|..])
  }

  /**
   * The whole reduce over one pass's matches (index.js:84-92), a left fold of `Step`. Every
   * match is non-empty, so the remaining text loses at least one character per match: this is
   * what makes the recursion of `go` terminate.
   */
  function Pass(ms: seq<string>, p: Progress, classes: seq<string>): (r: Progress)
    requires WellFormedMatches(ms, p.rest)
    ensures |r.rest| + |ms| <= |p.rest|
    decreases |ms|
  {
    if ms == [] then p
    else Pass(ms[1..], Step(p, ms[0], classes), classes)
  }

  /** Appending a (plain run, marker) pair keeps the alternation and adds the pair's text. */
  lemma AppendPair(out: seq<Fragment>, begin: string, found: string, classes: seq<string>)
    requires found != "" && Pairs(out, classes)
    ensures Flatten(out + [Plain(begin), Mark(classes, found)]) == Flatten(out) + begin + found
    ensures Pairs(out + [Plain(begin), Mark(classes, found)], classes)
  {
    var init := out + [Plain(begin)];
    var fs := init + [Mark(classes, found)];
    assert out + [Plain(begin), Mark(classes, found)] == fs;
    assert fs[..|fs| - 1] == init;
    assert init[..|init| - 1] == out;
    assert fs[..|fs| - 2] == out;
  }

  /** One step keeps the text and the alternation. */
  lemma StepKeepsShape(p: Progress, found: string, classes: seq<string>)
    requires IndexOf(p.rest, found) >= 0 && found != ""
    requires Pairs(p.out, classes)
    ensures var q := Step(p, found, classes);
      Flatten(q.out) + q.rest == Flatten(p.out) + p.rest && Pairs(q.out, classes)
  {
    var q := Step(p, found, classes);
    var begin := q.out[|p.out|].text;
    assert q.out == p.out + [Plain(begin), Mark(classes, found)];
    AppendPair(p.out, begin, found, classes);
    Regroup(Flatten(p.out), begin, found, q.rest);
  }

  /** Concatenation regroups: the four pieces of a step read as before-text plus what follows. */
  lemma Regroup(a: string, b: string, c: string, d: string)
    ensures a + b + c + d == a + (b + c + d)
  {
  }

  /** A pass keeps the text: what it emitted plus what remains is what there was. */
  lemma {:induction false} PassKeepsText(ms: seq<string>, p: Progress, classes: seq<string>)
    requires WellFormedMatches(ms, p.rest) && Pairs(p.out, classes)
    ensures var r := Pass(ms, p, classes);
      Flatten(r.out) + r.rest == Flatten(p.out) + p.rest && Pairs(r.out, classes)
    decreases |ms|
  {
    if ms != [] {
      StepKeepsShape(p, ms[0], classes);
      StepLocatable(ms, p, classes);
      PassKeepsText(ms[1..], Step(p, ms[0], classes), classes);
    }
  }

  /**
   * The shape of a pass: it appends two fragments per match to what was emitted before, and
   * the marker of the j-th pair holds exactly the j-th match.
   */
  lemma {:induction false} PassShape(ms: seq<string>, p: Progress, classes: seq<string>)
    requires WellFormedMatches(ms, p.rest)
    ensures var r := Pass(ms, p, classes);
      && |r.out| == |p.out| + 2 * |ms| && r.out[..|p.out|] == p.out
      && forall j :: 0 <= j < |ms| ==> r.out[|p.out| + 2 * j + 1] == Mark(classes, ms[j])
    decreases |ms|
  {
    if ms != [] {
      var q := Step(p, ms[0], classes);
      StepLocatable(ms, p, classes);
      PassShape(ms[1..], q, classes);
      PassReindex(ms[0], ms[1..], p.out, q.out, Pass(ms[1..], q, classes).out, classes);
      assert ms == [ms[0]] + ms[1..];
    }
  }

  /** After the first step, the later matches lie in order in what remains. */
  lemma StepLocatable(ms: seq<string>, p: Progress, classes: seq<string>)
    requires WellFormedMatches(ms, p.rest) && ms != []
    ensures WellFormedMatches(ms[1..], Step(p, ms[0], classes).rest)
    ensures Pass(ms, p, classes) == Pass(ms[1..], Step(p, ms[0], classes), classes)
  {
  }

  /** The markers of the later matches sit two places further on once the first step is done. */
  lemma PassReindex(first: string, tail: seq<string>, p: seq<Fragment>, q: seq<Fragment>, r: seq<Fragment>, classes: seq<string>)
    requires |q| == |p| + 2 && q[..|p|] == p && q[|p| + 1] == Mark(classes, first)
    requires |r| == |q| + 2 * |tail| && r[..|q|] == q
    requires forall j :: 0 <= j < |tail| ==> r[|q| + 2 * j + 1] == Mark(classes, tail[j])
    ensures |r| == |p| + 2 * |[first] + tail| && r[..|p|] == p
    ensures forall j :: 0 <= j < |[first] + tail| ==> r[|p| + 2 * j + 1] == Mark(classes, ([first] + tail)[j])
  {
    var ms := [first] + tail;
    forall j | 0 <= j < |ms| ensures r[|p| + 2 * j + 1] == Mark(classes, ms[j]) {
      if j == 0 {
        assert r[|p| + 1] == r[..|q|][|p| + 1];
      } else {
        assert ms[j] == tail[j - 1];
        assert r[|p| + 2 * j + 1] == r[|q| + 2 * (j - 1) + 1];
      }
    }
    assert r[..|p|] == r[..|q|][..|p|];
  }

  /**
   * `go` (index.js:69-95): search the remaining text; with no match, the first pass returns
   * the text itself and a later pass returns the fragments so far plus the tail when it is
   * non-empty; otherwise run the pass and search again what is left of the text. The result
   * stays a string exactly when the first search finds nothing.
   */
  function Go(m: Matcher, pattern: string, caseSensitive: bool, classes: seq<string>,
              newText: seq<Fragment>, remainingText: string, isFirst: bool): (r: Leaf)
    requires WellBehaved(m, pattern, caseSensitive)
    ensures r.Str? <==> isFirst && Matches(m, pattern, caseSensitive, remainingText) == []
    ensures r.Str? ==> r.s == remainingText
    decreases |remainingText|
  {
    var matches := Matches(m, pattern, caseSensitive, remainingText);
    if |matches| == 0 then
      if isFirst then Str(remainingText)
      else if remainingText != "" then Frags(newText + [Plain(remainingText)])
      else Frags(newText)
    else
      var next := Pass(matches, Progress(newText, remainingText), classes);
      Go(m, pattern, caseSensitive, classes, next.out, next.rest, false)
  }

  /** What `go` returns keeps the text it was given: the fragments so far, then the remaining text. */
  lemma {:induction false} GoKeepsText(m: Matcher, pattern: string, caseSensitive: bool, classes: seq<string>,
                                       newText: seq<Fragment>, remainingText: string, isFirst: bool)
    requires WellBehaved(m, pattern, caseSensitive)
    requires isFirst ==> newText == []
    requires Pairs(newText, classes)
    ensures LeafText(Go(m, pattern, caseSensitive, classes, newText, remainingText, isFirst)) == Flatten(newText) + remainingText
    decreases |remainingText|
  {
    var matches := Matches(m, pattern, caseSensitive, remainingText);
    if |matches| == 0 {
      if !isFirst && remainingText != "" {
        var fs := newText + [Plain(remainingText)];
        assert fs[..|fs| - 1] == newText;
      }
    } else {
      var p := Progress(newText, remainingText);
      var next := Pass(matches, p, classes);
      PassKeepsText(matches, p, classes);
      GoKeepsText(m, pattern, caseSensitive, classes, next.out, next.rest, false);
    }
  }

  /**
   * An array returned by `go` starts with the fragments `go` was given and has the shape of a
   * split leaf: (plain run, marker) pairs, then a plain tail only when it is non-empty.
   */
  lemma {:induction false} GoShape(m: Matcher, pattern: string, caseSensitive: bool, classes: seq<string>,
                                   newText: seq<Fragment>, remainingText: string, isFirst: bool)
    requires WellBehaved(m, pattern, caseSensitive)
    requires !isFirst ==> |newText| >= 2
    requires Pairs(newText, classes)
    ensures var r := Go(m, pattern, caseSensitive, classes, newText, remainingText, isFirst);
      r.Frags? ==> && Highlighted(r.fragments, classes)
                   && |r.fragments| >= |newText| && r.fragments[..|newText|] == newText
    decreases |remainingText|
  {
    var matches := Matches(m, pattern, caseSensitive, remainingText);
    if |matches| == 0 {
      if !isFirst {
        TailShape(newText, remainingText, classes);
      }
    } else {
      var p := Progress(newText, remainingText);
      var next := Pass(matches, p, classes);
      PassKeepsText(matches, p, classes);
      PassShape(matches, p, classes);
      GoShape(m, pattern, caseSensitive, classes, next.out, next.rest, false);
      var r := Go(m, pattern, caseSensitive, classes, next.out, next.rest, false);
      PrefixOfPrefix(newText, next.out, r.fragments);
    }
  }

  /** The array a later pass returns when the search finds nothing more. */
  lemma TailShape(newText: seq<Fragment>, remainingText: string, classes: seq<string>)
    requires |newText| >= 2 && Pairs(newText, classes)
    ensures var fs := if remainingText != "" then newText + [Plain(remainingText)] else newText;
      Highlighted(fs, classes) && |fs| >= |newText| && fs[..|newText|] == newText
  {
    var fs := newText + [Plain(remainingText)];
    assert fs[..|fs| - 1] == newText;
  }

  /** A prefix of a prefix is a prefix: fragments kept by one pass are kept by the whole search. */
  lemma PrefixOfPrefix(a: seq<Fragment>, b: seq<Fragment>, c: seq<Fragment>)
    requires |b| >= |a| && b[..|a|] == a
    requires |c| >= |b| && c[..|b|] == b
    ensures c[..|a|] == a
  {
    assert c[..|a|] == c[..|b|][..|a|];
  }

  /**
   * `checkToken` (index.js:68-98). A string leaf is split by `go`; a leaf that is already a
   * fragment array comes back as it is, because arrays have no `.match`: the TypeError is
   * caught, the match list is empty, and the first pass returns its input.
   */
  function CheckToken(nodeValue: Leaf, m: Matcher, token: string, classes: seq<string>, sensitiveSearch: bool): (r: Leaf)
    requires WellBehaved(m, token, sensitiveSearch)
    ensures LeafText(r) == LeafText(nodeValue)
    ensures nodeValue.Frags? ==> r == nodeValue
    ensures nodeValue.Str? ==> (r.Str? <==> Matches(m, token, sensitiveSearch, nodeValue.s) == [])
    ensures r.Str? ==> r == nodeValue
    ensures nodeValue.Str? && r.Frags? ==> Highlighted(r.fragments, classes)
  {
    match nodeValue
    case Frags(_) => nodeValue
    case Str(s) =>
      GoKeepsText(m, token, sensitiveSearch, classes, [], s, true);
      GoShape(m, token, sensitiveSearch, classes, [], s, true);
      Go(m, token, sensitiveSearch, classes, [], s, true)
  }

  /**
   * The first pass over a string leaf: when the engine finds matches, the leaf is split, the
   * i-th marker holds exactly the i-th match, and the leading plain run is the text before the
   * first literal occurrence of the first match.
   */
  lemma {:induction false} CheckTokenFirstPass(s: string, m: Matcher, token: string, classes: seq<string>, sensitiveSearch: bool)
    requires WellBehaved(m, token, sensitiveSearch)
    requires Matches(m, token, sensitiveSearch, s) != []
    ensures var ms := Matches(m, token, sensitiveSearch, s);
      var r := CheckToken(Str(s), m, token, classes, sensitiveSearch);
      && r.Frags?
      && |r.fragments| >= 2 * |ms|
      && (forall j :: 0 <= j < |ms| ==> r.fragments[2 * j + 1] == Mark(classes, ms[j]))
      && r.fragments[0] == Plain(s[..IndexOf(s, ms[0])])
  {
    var ms := Matches(m, token, sensitiveSearch, s);
    var p := Progress([], s);
    var next := Pass(ms, p, classes);
    CheckTokenStartsWithPass(s, m, token, classes, sensitiveSearch);
    PassShape(ms, p, classes);
    PassFirstRun(ms, p, classes);
    var r := CheckToken(Str(s), m, token, classes, sensitiveSearch);
    forall j | 0 <= j < |ms| ensures r.fragments[2 * j + 1] == Mark(classes, ms[j]) {
      assert r.fragments[2 * j + 1] == r.fragments[..|next.out|][2 * j + 1];
    }
    assert r.fragments[0] == r.fragments[..|next.out|][0];
  }

  /** A string leaf with matches comes back as an array that starts with what the first pass emitted. */
  lemma CheckTokenStartsWithPass(s: string, m: Matcher, token: string, classes: seq<string>, sensitiveSearch: bool)
    requires WellBehaved(m, token, sensitiveSearch)
    requires Matches(m, token, sensitiveSearch, s) != []
    ensures var next := Pass(Matches(m, token, sensitiveSearch, s), Progress([], s), classes);
      var r := CheckToken(Str(s), m, token, classes, sensitiveSearch);
      r.Frags? && |r.fragments| >= |next.out| && r.fragments[..|next.out|] == next.out
  {
    var ms := Matches(m, token, sensitiveSearch, s);
    var p := Progress([], s);
    var next := Pass(ms, p, classes);
    PassKeepsText(ms, p, classes);
    PassShape(ms, p, classes);
    GoShape(m, token, sensitiveSearch, classes, next.out, next.rest, false);
    assert CheckToken(Str(s), m, token, classes, sensitiveSearch) == Go(m, token, sensitiveSearch, classes, next.out, next.rest, false);
  }

  /** The first run a pass emits is the text before the first literal occurrence of the first match. */
  lemma PassFirstRun(ms: seq<string>, p: Progress, classes: seq<string>)
    requires WellFormedMatches(ms, p.rest) && ms != []
    ensures var r := Pass(ms, p, classes);
      |r.out| > |p.out| && r.out[|p.out|] == Plain(p.rest[..IndexOf(p.rest, ms[0])])
  {
    var q := Step(p, ms[0], classes);
    StepLocatable(ms, p, classes);
    PassShape(ms[1..], q, classes);
    var r := Pass(ms, p, classes);
    assert r.out[|p.out|] == r.out[..|q.out|][|p.out|];
  }
}
