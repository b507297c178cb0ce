# react-highlighter, modelled in Dafny

react-highlighter walks a React element tree and, in every string leaf, wraps the parts
that match a search token in an `i` element carrying CSS classes. A *token* is a pattern
(a regular expression in source form), a class name and a case-sensitivity flag
(`tokenFactory`, `defaultToken`). A *highlighter* (`highlighterFactory`) takes global
options, a list of tokens and a tree, and replaces each string leaf by what
`checkAndReplace` makes of it: the tokens are applied in list order, each through
`checkToken`, which splits the string into plain runs and markers. `defaultHighlighter`
is the one-token shortcut.

The model is made of pure functions, as the library is: `go` is tail recursion, the two
`reduce` calls are folds, and nothing is updated in place.

- `JsString` models `String.prototype.indexOf`. It also shows that relocating each match
  by its first occurrence, as `go` does, succeeds exactly when the matches lie in the
  text in order and do not overlap.
- `MatchEngine` models `checkToken` and `go`.
  - The regular-expression engine is a parameter, a `Matcher`. It returns the list of
    matches, or `None` when the `RegExp` constructor throws.
  - `Step` and `Pass` are the inner reduce.
  - `Leaf` is the value the composer threads from token to token: a string, or an array
    of fragments.
- `Tokens` models `tokenFactory` and `defaultToken`.
- `Composer` models `checkAndReplace`.
- `TreeRewrite` models `highlighterFactory` and `defaultHighlighter`. It works on a small
  `Node` type: a string leaf, a number, an element, or an array.
- `Examples` and `TestExpectations` state the five tests of `test/index.js` as lemmas,
  plus a few edge cases. They use small engines that give the same answers as the test
  patterns on the test texts.

A later token never searches a leaf that an earlier token has split. The split leaf is an
array, which reaches `checkToken` as `nodeValue` (index.js:55) and becomes `go`'s
`remainingText` (index.js:97). Then `remainingText.match(...)` at index.js:73 throws a
`TypeError`, the `catch` at index.js:74-76 makes the match list empty, and the first pass
returns the array unchanged (index.js:78). The model follows this (`MatchEngine.CheckToken`,
`Composer.SplitLeafIsFrozen`, `TestExpectations.SplitLeafStaysFrozen`).

## Model

| member | source | states |
|---|---|---|
| `JsString.IndexOf` | index.js:85 | the result is -1 or a position where the match occurs, and no occurrence starts before it (so -1 means the match does not occur at all) |
| `JsString.FirstOccurrenceKeepsOrder` | index.js:85-90 | when the matches lie in the text in order, the first one is found by `indexOf`, and the rest lie in order in the text after that first occurrence |
| `JsString.InOrderIffLocatable` | index.js:84-92 | cutting the text at each match's first occurrence in turn succeeds exactly when the matches lie in the text in order without overlap (both directions) |
| `MatchEngine.Matches` | index.js:72-76 | a pattern that does not compile gives the empty list; under a well-behaved engine the list is non-empty strings lying in the text in order |
| `MatchEngine.Step` | index.js:85-91 | one reduce step appends exactly two fragments, a plain run then a marker with the match and the class list; the old remaining text is that run, then the match, then the new remaining text; the match does not occur anywhere inside the run |
| `MatchEngine.Pass` | index.js:84-92 | the remaining text loses at least one character per match, which makes `go` terminate |
| `MatchEngine.PassKeepsText` | index.js:84-92 | after a pass, the emitted fragments' text plus the remaining text equals the text before it, and fragments still alternate plain run, marker |
| `MatchEngine.PassShape` | index.js:84-92 | a pass appends two fragments per match after the earlier fragments, unchanged, and the j-th marker holds exactly the j-th match |
| `MatchEngine.PassFirstRun` | index.js:85-89 | the first run a pass emits is the text before the first occurrence of the first match, even when empty |
| `MatchEngine.Go` | index.js:69-95 | the result is a string exactly when this is the first search and it finds nothing, and that string is the remaining text |
| `MatchEngine.GoKeepsText` | index.js:69-95 | the result's text is the fragments' text so far, followed by the remaining text |
| `MatchEngine.GoShape` | index.js:77-94 | an array result starts with the fragments given; it is at least one (plain run, marker) pair, with a trailing plain run only when that run is non-empty |
| `MatchEngine.CheckToken` | index.js:68-98 | text is kept; an array comes back unchanged (arrays have no `.match`, the TypeError is caught); a string stays a string exactly when the engine finds nothing; a split result has the split-leaf shape |
| `MatchEngine.CheckTokenStartsWithPass` | index.js:94-97 | a string with matches comes back as an array that starts with the first pass's output |
| `MatchEngine.CheckTokenFirstPass` | index.js:84-97 | a string with matches is split; the i-th marker holds the i-th match; the leading run is the text before the first occurrence of the first match |
| `Tokens.StripTrailingPipe` | index.js:16 | exactly one trailing pipe is removed when there is one, and otherwise the text is unchanged |
| `Tokens.StripTrailingPipeKeepsPrefix` | index.js:16 | what is kept is a prefix of the text, at most one character shorter; a pipe left at the end means the text ended in two |
| `Tokens.TokenFactory` | index.js:12-19 | the pattern is stripped of one trailing pipe; the class name defaults to "highlight" and case sensitivity to false, and given values are kept |
| `Tokens.DefaultToken` | index.js:100 | the token has the stripped pattern, class "highlight", and case-insensitive search |
| `Composer.ClassList` | index.js:52 | the token's class first; the highlighter-wide class second, present exactly when it is truthy (not null, not undefined, not "") |
| `Composer.FinalSensitiveSearch` | index.js:53 | a highlighter-wide `true` forces case-sensitive search; otherwise the token's own flag decides |
| `Composer.ApplyToken` | index.js:51-55 | one reduce step keeps the text; an array passes through; a string result is the input itself; a split result carries the token's class list |
| `Composer.Reduce` | index.js:51-56 | folding the tokens keeps the text, and a string result is the starting value |
| `Composer.CheckAndReplace` | index.js:50-57 | the result's text is the leaf's text, and a string result is the leaf itself |
| `Composer.SplitLeafIsFrozen` | index.js:51-56 | once the value is an array, no later token changes it |
| `Composer.ReduceConcat` | index.js:51-56 | tokens apply in list order: reducing over a + b is reducing over a, then over b |
| `Composer.StaysStringIffNoTokenSplits` | index.js:50-57 | the leaf stays the same string exactly when no token, applied to the string alone, splits it |
| `Composer.FirstSplittingTokenWins` | index.js:50-57 | a split result is exactly what the first splitting token makes of the string; every earlier token left it a string; its markers carry that token's class list |
| `TreeRewrite.Highlight` | index.js:30-38 | a string leaf becomes the composer's result; a number comes back unchanged; elements and arrays keep tag, classes and child count |
| `TreeRewrite.HighlightAll` | index.js:31-38 | every child is visited in place: the i-th result is the i-th child highlighted |
| `TreeRewrite.DefaultHighlighter` | index.js:101 | the default highlighter never changes the document's text |
| `TreeRewrite.HighlightPreservesText` | index.js:27-39 | highlighting keeps the text of the tree, read leaf by leaf |
| `TreeRewrite.HighlightAllPreservesText` | index.js:31-38 | highlighting a child list keeps its text |
| `TreeRewrite.HighlightNoTextIsIdentity` | index.js:32-37 | a tree without string leaves comes back unchanged, whatever the tokens |
| `TreeRewrite.HighlightNoTokensIsIdentity` | index.js:50-57 | with no tokens, every tree comes back unchanged |
| `TreeRewrite.DefaultHighlighterOnLeaf` | index.js:100-101 | on a string leaf, the default highlighter is `checkToken` with the stripped pattern, the class list ["highlight"] and case-insensitive search |
| `Examples.GoOneMatch` | index.js:84-94 | a search with a single match emits the text before it and a marker, then searches again what follows |
| `Examples.CheckTokenOneMatch` | index.js:77-97 | one match, then no more: the result is the run before the match, the marker, and the tail when non-empty |
| `Examples.HighlightDocument` | test/index.js:16-26 | on the test document, exactly the six string leaves are rewritten and everything else is kept |
| `TestExpectations.ItCanHighlight` | test/index.js:28-46 | `defaultHighlighter(original, 'buzz')` marks "buZZ" and "buzz" with "highlight" |
| `TestExpectations.ItCanHighlightCaseSensitiveHighlighter` | test/index.js:51-65 | with `sensitiveSearch: true` on the highlighter, only "buzz" is marked |
| `TestExpectations.ItCanHighlightCaseSensitiveToken` | test/index.js:67-70 | with `sensitiveSearch: true` on the token, only "buzz" is marked |
| `TestExpectations.ItCanHighlightWithTokenClassName` | test/index.js:76-90 | the token's class "special" replaces "highlight" |
| `TestExpectations.ItCanHighlightWithBothClassNames` | test/index.js:92-105 | the highlighter's class "all-special" follows the token's "special" |
| `TestExpectations.ItCanHighlightWithHighlighterClassName` | test/index.js:107-121 | "all-special" follows the default "highlight" |
| `TestExpectations.ItCanAcceptMultipleTokens` | test/index.js:124-144 | "foo" is marked "special", and "buZZ" and "buzz" are marked "highlight" |
| `TestExpectations.ItCanMatchWithRegEx` | test/index.js:149-164 | `^b` marks the first letter of "Bar", "BAZ", "buZZ" and "buzz", and keeps the rest as a plain run |
| `TestExpectations.ItCanMatchWithRegExCaseSensitive` | test/index.js:166-181 | case-sensitively, `^b` marks only the first letter of "buZZ" and "buzz" |
| `TestExpectations.InvalidPatternLeavesText` | index.js:72-78 | a pattern whose `RegExp` constructor throws leaves the string as it is |
| `TestExpectations.LookbehindRelocated` | index.js:85-89 | an engine that matched a later "b" still gets its marker placed around the first "b" of the text, as `indexOf` finds it |
| `TestExpectations.SplitLeafStaysFrozen` | index.js:51-56 | on "ab" with tokens "b" then "a", only "b" is marked, although "a" alone splits the leaf |
| `TestExpectations.TrailingPipeExamples` | index.js:16 | "foo\|" becomes "foo", "foo\|\|" becomes "foo\|", and "foo" and "" are kept |

## Left out

- Texts are modelled as sequences of Unicode characters (Dafny `string`), not as the UTF-16 code units that JavaScript strings are made of. `match`, `indexOf`, `substring`, `substr` and `.length` (index.js:73 and 85-90) count code units, and the flags `gm`/`igm` (index.js:70) have no `u`, so a pattern can match half of a surrogate pair (`\uD83D` on an emoji) and split one character between a marker and a plain run. Such matches are not represented: a `Matcher` returns whole characters.
- Regular-expression semantics: the engine is the `Matcher` parameter. The example engines are a literal search with ASCII case folding, a start-of-text search for `^b`, a literal search on which "(" does not compile, and a lookbehind-like engine. They agree with JavaScript only on the texts they are used with.
- MatchEngine.Go: it requires a well-behaved engine, one whose matches are all non-empty and lie in the text in order. The source puts no such condition on its callers. A real global search always meets the order part. A pattern that can match the empty string is excluded. In the source, a pass that finds only empty matches makes `go` recurse without progress until the stack overflows (`a*` does this on every text, at its end). A pass that mixes empty and non-empty matches can end normally with empty markers in the output (`(?=a)|b` on "ab"). The model describes neither. `CheckToken`, `ApplyToken`, `Reduce`, `CheckAndReplace`, `Highlight`, `HighlightAll` and `DefaultHighlighter` carry the same requirement.
- MatchEngine.Step: `indexOf` returning -1 cannot happen under that requirement. The source's `substring`/`substr` behaviour for a negative index is not modelled.
- react-traverse and react-hyperscript are represented by the `Node` datatype. Element props other than class names, such as `key`, are not modelled. An array returned in place of a string leaf is a `Group` node.
- The class list is modelled as a list of names. Its formatting into the selector string `.a .b` that hyperscript parses (index.js:83) is not modelled.
- Rendering (`ReactDOMServer.renderToString` in the tests) is not modelled. Where a test expects a bare `i(...)`, the model gives an array of an empty string then that element, which renders the same. Where a test expects `[i(...), 'ar']`, the model has an empty string in front.
- Currying (`tokenFactory(options)(text)`, `highlighterFactory(options)(tokens)(tree)`) is modelled as functions taking all arguments at once.
- Option values that are neither booleans nor strings: `sensitiveSearch` is a `bool` and class names are strings; `undefined` is `None`. `className: null` on the highlighter is `None`, like its default.
- The tests' `domsRenderEqually` helper and the `tape` harness are not part of this model.
