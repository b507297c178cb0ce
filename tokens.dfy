/** `tokenFactory` and `defaultToken` of index.js (lines 12-19 and 100). */
module Tokens {
  import opened Wrappers

  /** A search token: the pattern, the class name of its markers, and whether it matches case-sensitively. */
  datatype Token = Token(token: string, className: string, sensitiveSearch: bool)

  /** The options object given to `tokenFactory`; `None` stands for a property left undefined. */
  datatype TokenOptions = TokenOptions(className: Option<string>, sensitiveSearch: Option<bool>)

  /** The class name a token gets when none is given. */
  const DefaultClassName: string := "highlight"

  /** The text ends in a pipe character. */
  predicate EndsWithPipe(s: string)
  {
    |s| > 0 && s[|s| - 1] == '|'
  }

  /**
   * `highlightText.replace(/\|$/, '')`: without the `g` flag the pattern is replaced once, and
   * without the `m` flag `$` matches only at the very end, so exactly one final pipe goes.
   */
  function StripTrailingPipe(s: string): (r: string)
    ensures EndsWithPipe(s) ==> r + "|" == s
    ensures !EndsWithPipe(s) ==> r == s
  {
    if EndsWithPipe(s) then s[..|s| - 1] else s
  }

  /** Only the last character can go: what is kept is the text up to it, and every other pipe stays. */
  lemma StripTrailingPipeKeepsPrefix(s: string)
    ensures var r := StripTrailingPipe(s);
      && |s| - 1 <= |r| <= |s|
      && r == s[..|r|]
      && (forall i :: 0 <= i < |r| ==> r[i] == s[i])
      && (EndsWithPipe(r) ==> EndsWithPipe(s) && |s| >= 2 && s[|s| - 2] == '|')
  {
    var r := StripTrailingPipe(s);
    if EndsWithPipe(s) {
      assert r == s[..|s| - 1];
    }
  }

  /**
   * `tokenFactory(options)(highlightText)`: the pattern with one trailing pipe removed, the
   * class name defaulting to "highlight" and case sensitivity defaulting to false.
   */
  function TokenFactory(options: TokenOptions, highlightText: string): (t: Token)
    ensures t.token == StripTrailingPipe(highlightText)
    ensures options.className.None? ==> t.className == DefaultClassName
    ensures options.className.Some? ==> t.className == options.className.value
    ensures options.sensitiveSearch.None? ==> !t.sensitiveSearch
    ensures options.sensitiveSearch.Some? ==> t.sensitiveSearch == options.sensitiveSearch.value
  {
    Token(StripTrailingPipe(highlightText),
          options.className.GetOr(DefaultClassName),
          options.sensitiveSearch.GetOr(false))
  }

  /** `defaultToken`: `tokenFactory({})`, every option left to its default. */
  function DefaultToken(highlightText: string): (t: Token)
    ensures t == Token(StripTrailingPipe(highlightText), "highlight", false)
  {
    TokenFactory(TokenOptions(None, None), highlightText)
  }
}
