/**
 * `checkAndReplace` of index.js (lines 50-57): the tokens are applied one after another to a
 * text leaf, each through `checkToken`, starting from the leaf's string.
 */
module Composer {
  import opened Wrappers
  import opened MatchEngine
  import opened Tokens

  /** JavaScript truthiness of the highlighter-wide class name: `null`, undefined and "" are falsy. */
  predicate Truthy(classNameAll: Option<string>)
  {
    classNameAll.Some? && classNameAll.value != ""
  }

  /** The class list of a token's markers: its own class name, then the highlighter-wide one when that is truthy. */
  function ClassList(className: string, classNameAll: Option<string>): (r: seq<string>)
    ensures 1 <= |r| <= 2 && r[0] == className
    ensures |r| == 2 <==> Truthy(classNameAll)
    ensures |r| == 2 ==> r[1] == classNameAll.value
  {
    if Truthy(classNameAll) then [className, classNameAll.value] else [className]
  }

  /** `sensitiveSearchAll ? sensitiveSearchAll : sensitiveSearch`: a highlighter-wide `true` overrides the token. */
  function FinalSensitiveSearch(sensitiveSearchAll: bool, sensitiveSearch: bool): (r: bool)
    ensures sensitiveSearchAll ==> r
    ensures !sensitiveSearchAll ==> r == sensitiveSearch
  {
    if sensitiveSearchAll then sensitiveSearchAll else sensitiveSearch
  }

  /** The engine keeps its promise for every token, under the flag the token is searched with. */
  ghost predicate TokensWellBehaved(m: Matcher, tokens: seq<Token>, sensitiveSearchAll: bool)
  {
    forall j :: 0 <= j < |tokens| ==> WellBehaved(m, tokens[j].token, FinalSensitiveSearch(sensitiveSearchAll, tokens[j].sensitiveSearch))
  }

  /** The body of the reduce: one token applied to the value built so far. */
  function ApplyToken(newText: Leaf, t: Token, classNameAll: Option<string>, sensitiveSearchAll: bool, m: Matcher): (r: Leaf)
    requires WellBehaved(m, t.token, FinalSensitiveSearch(sensitiveSearchAll, t.sensitiveSearch))
    ensures LeafText(r) == LeafText(newText)
    ensures newText.Frags? ==> r == newText
    ensures r.Str? ==> r == newText
    ensures newText.Str? && r.Frags? ==> Highlighted(r.fragments, ClassList(t.className, classNameAll))
  {
    CheckToken(newText, m, t.token, ClassList(t.className, classNameAll),
               FinalSensitiveSearch(sensitiveSearchAll, t.sensitiveSearch))
  }

  /** `tokens.reduce(..., newText)`: the tokens applied in list order. */
  function Reduce(newText: Leaf, tokens: seq<Token>, classNameAll: Option<string>, sensitiveSearchAll: bool, m: Matcher): (r: Leaf)
    requires TokensWellBehaved(m, tokens, sensitiveSearchAll)
    ensures LeafText(r) == LeafText(newText)
    ensures r.Str? ==> r == newText
    decreases |tokens|
  {
    if tokens == [] then newText
    else Reduce(ApplyToken(newText, tokens[0], classNameAll, sensitiveSearchAll, m), tokens[1..], classNameAll, sensitiveSearchAll, m)
  }

  /**
   * `checkAndReplace(node, tokens, classNameAll, sensitiveSearchAll)`: the text of the result
   * is the leaf's text, and when no token splits it the leaf comes back as the same string.
   */
  function CheckAndReplace(node: string, tokens: seq<Token>, classNameAll: Option<string>, sensitiveSearchAll: bool, m: Matcher): (r: Leaf)
    requires TokensWellBehaved(m, tokens, sensitiveSearchAll)
    ensures LeafText(r) == node
    ensures r.Str? ==> r == Str(node)
  {
    Reduce(Str(node), tokens, classNameAll, sensitiveSearchAll, m)
  }

  /** Once a token has split the leaf into an array, no later token changes it. */
  lemma {:induction false} SplitLeafIsFrozen(fs: seq<Fragment>, tokens: seq<Token>, classNameAll: Option<string>, sensitiveSearchAll: bool, m: Matcher)
    requires TokensWellBehaved(m, tokens, sensitiveSearchAll)
    ensures Reduce(Frags(fs), tokens, classNameAll, sensitiveSearchAll, m) == Frags(fs)
    decreases |tokens|
  {
    if tokens != [] {
      SplitLeafIsFrozen(fs, tokens[1..], classNameAll, sensitiveSearchAll, m);
    }
  }

  /** Tokens are applied in list order: reducing over `a + b` is reducing over `a`, then over `b`. */
  lemma {:induction false} ReduceConcat(newText: Leaf, a: seq<Token>, b: seq<Token>, classNameAll: Option<string>, sensitiveSearchAll: bool, m: Matcher)
    requires TokensWellBehaved(m, a + b, sensitiveSearchAll)
    ensures TokensWellBehaved(m, a, sensitiveSearchAll) && TokensWellBehaved(m, b, sensitiveSearchAll)
    ensures Reduce(newText, a + b, classNameAll, sensitiveSearchAll, m)
         == Reduce(Reduce(newText, a, classNameAll, sensitiveSearchAll, m), b, classNameAll, sensitiveSearchAll, m)
    decreases |a|
  {
    assert forall j :: 0 <= j < |a| ==> a[j] == (a + b)[j];
    assert forall j :: 0 <= j < |b| ==> b[j] == (a + b)[|a| + j];
    if a != [] {
      assert (a + b)[0] == a[0] && (a + b)[1..] == a[1..] + b;
      var next := ApplyToken(newText, a[0], classNameAll, sensitiveSearchAll, m);
      ReduceConcat(next, a[1..], b, classNameAll, sensitiveSearchAll, m);
      assert Reduce(newText, a + b, classNameAll, sensitiveSearchAll, m) == Reduce(next, a[1..] + b, classNameAll, sensitiveSearchAll, m);
      assert Reduce(newText, a, classNameAll, sensitiveSearchAll, m) == Reduce(next, a[1..], classNameAll, sensitiveSearchAll, m);
    } else {
      assert a + b == b;
    }
  }

  /** The leaf stays the same string exactly when no token, applied to the string on its own, splits it. */
  lemma {:induction false} StaysStringIffNoTokenSplits(node: string, tokens: seq<Token>, classNameAll: Option<string>, sensitiveSearchAll: bool, m: Matcher)
    requires TokensWellBehaved(m, tokens, sensitiveSearchAll)
    ensures CheckAndReplace(node, tokens, classNameAll, sensitiveSearchAll, m).Str?
        <==> forall j :: 0 <= j < |tokens| ==> ApplyToken(Str(node), tokens[j], classNameAll, sensitiveSearchAll, m).Str?
    decreases |tokens|
  {
    if tokens != [] {
      var first := ApplyToken(Str(node), tokens[0], classNameAll, sensitiveSearchAll, m);
      assert TokensWellBehaved(m, tokens[1..], sensitiveSearchAll) by {
        assert forall j :: 0 <= j < |tokens[1..]| ==> tokens[1..][j] == tokens[j + 1];
      }
      if first.Frags? {
        SplitLeafIsFrozen(first.fragments, tokens[1..], classNameAll, sensitiveSearchAll, m);
      } else {
        StaysStringIffNoTokenSplits(node, tokens[1..], classNameAll, sensitiveSearchAll, m);
        assert forall j :: 1 <= j < |tokens| ==> tokens[j] == tokens[1..][j - 1];
      }
    }
  }

  /**
   * The first token that splits the leaf decides the result: once the leaf is split, the
   * result is what the first splitting token makes of the string, every earlier token having
   * left it a string, and its markers carry that token's class list.
   */
  lemma {:induction false} FirstSplittingTokenWins(node: string, tokens: seq<Token>, classNameAll: Option<string>, sensitiveSearchAll: bool, m: Matcher)
    requires TokensWellBehaved(m, tokens, sensitiveSearchAll)
    ensures var r := CheckAndReplace(node, tokens, classNameAll, sensitiveSearchAll, m);
      r.Frags? ==>
        exists k :: (&& 0 <= k < |tokens|
                     && (forall j :: 0 <= j < k ==> ApplyToken(Str(node), tokens[j], classNameAll, sensitiveSearchAll, m).Str?)
                     && r == ApplyToken(Str(node), tokens[k], classNameAll, sensitiveSearchAll, m)
                     && Highlighted(r.fragments, ClassList(tokens[k].className, classNameAll)))
    decreases |tokens|
  {
    if tokens != [] {
      var first := ApplyToken(Str(node), tokens[0], classNameAll, sensitiveSearchAll, m);
      assert TokensWellBehaved(m, tokens[1..], sensitiveSearchAll) by {
        assert forall j :: 0 <= j < |tokens[1..]| ==> tokens[1..][j] == tokens[j + 1];
      }
      if first.Frags? {
        SplitLeafIsFrozen(first.fragments, tokens[1..], classNameAll, sensitiveSearchAll, m);
        assert CheckAndReplace(node, tokens, classNameAll, sensitiveSearchAll, m) == first;
      } else {
        FirstSplittingTokenWins(node, tokens[1..], classNameAll, sensitiveSearchAll, m);
        var r := CheckAndReplace(node, tokens, classNameAll, sensitiveSearchAll, m);
        if r.Frags? {
          var k :| 0 <= k < |tokens[1..]|
            && (forall j :: 0 <= j < k ==> ApplyToken(Str(node), tokens[1..][j], classNameAll, sensitiveSearchAll, m).Str?)
            && r == ApplyToken(Str(node), tokens[1..][k], classNameAll, sensitiveSearchAll, m)
            && Highlighted(r.fragments, ClassList(tokens[1..][k].className, classNameAll));
          assert forall j :: 1 <= j < k + 1 ==> tokens[j] == tokens[1..][j - 1];
          assert forall j :: 0 <= j < k + 1 ==> ApplyToken(Str(node), tokens[j], classNameAll, sensitiveSearchAll, m).Str?;
          assert tokens[k + 1] == tokens[1..][k];
        }
      }
    }
  }
}
