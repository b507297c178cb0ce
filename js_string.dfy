/**
 * The JavaScript string search the highlighter leans on: `String.prototype.indexOf`,
 * and what it means for a list of matches to lie in a text one after another.
 */
module JsString {

  /** `sub` occurs in `s` starting at position `i`. */
  predicate OccursAt(s: string, sub: string, i: int)
  {
    0 <= i && i + |sub| <= |s| && s[i..i + |sub|] == sub
  }

  /** `s.indexOf(sub)`: the position of the first occurrence of `sub` in `s`, or -1 when there is none. */
  function IndexOf(s: string, sub: string): (r: int)
    ensures -1 <= r
    ensures r >= 0 ==> OccursAt(s, sub, r)
    ensures forall i :: 0 <= i && (r < 0 || i < r) ==> !OccursAt(s, sub, i)
    decreases |s|
  {
    if |sub| > |s| then -1
    else if s[..|sub|] == sub then 0
    else
      var r := IndexOf(s[1..], sub);
      OccursAtShift(s, sub);
      if r < 0 then -1 else r + 1
  }

  /** Past the first character, an occurrence in `s` is an occurrence in `s[1..]`, one place earlier. */
  lemma OccursAtShift(s: string, sub: string)
    requires |s| > 0
    ensures forall i :: 1 <= i ==> (OccursAt(s, sub, i) <==> OccursAt(s[1..], sub, i - 1))
  {
    forall i | 1 <= i
      ensures OccursAt(s, sub, i) <==> OccursAt(s[1..], sub, i - 1)
    {
      if i + |sub| <= |s| {
        var here, there := s[i..i + |sub|], s[1..][i - 1..i - 1 + |sub|];
        forall k | 0 <= k < |sub| ensures here[k] == there[k] {
          assert s[1..][i - 1 + k] == s[i + k];
        }
        assert here == there;
      }
    }
  }

  /**
   * The strings of `ms` occur in `s` in list order and do not overlap: `s` can be cut as
   * x0 + ms[0] + x1 + ms[1] + ... + ms[n-1] + xn. This is what a global regular-expression
   * search promises about the list it returns.
   */
  ghost predicate OccursInOrder(ms: seq<string>, s: string)
    decreases |ms|
  {
    ms == [] || exists i :: OccursAt(s, ms[0], i) && OccursInOrder(ms[1..], s[i + |ms[0]|..])
  }

  /** Text put in front does not disturb matches that occur in order. */
  lemma OccursInOrderPrepend(ms: seq<string>, p: string, s: string)
    requires OccursInOrder(ms, s)
    ensures OccursInOrder(ms, p + s)
  {
    if ms != [] {
      var m := ms[0];
      var i :| OccursAt(s, m, i) && OccursInOrder(ms[1..], s[i + |m|..]);
      assert (p + s)[|p| + i..|p| + i + |m|] == s[i..i + |m|];
      assert (p + s)[|p| + i + |m|..] == s[i + |m|..];
      assert OccursAt(p + s, m, |p| + i);
    }
  }

  /**
   * The matches can be found one after another by `indexOf`, each in the text left after the
   * previous one: the form in which the splitter consumes them.
   */
  predicate Locatable(ms: seq<string>, s: string)
    decreases |ms|
  {
    ms == [] || (IndexOf(s, ms[0]) >= 0 && Locatable(ms[1..], s[IndexOf(s, ms[0]) + |ms[0]|..]))
  }

  /**
   * Re-locating the first match at its first literal occurrence (`indexOf`), rather than where
   * the search found it, still leaves the remaining matches in order in what follows it.
   */
  lemma FirstOccurrenceKeepsOrder(ms: seq<string>, s: string)
    requires ms != [] && OccursInOrder(ms, s)
    ensures IndexOf(s, ms[0]) >= 0
    ensures OccursInOrder(ms[1..], s[IndexOf(s, ms[0]) + |ms[0]|..])
  {
    var m := ms[0];
    var i :| OccursAt(s, m, i) && OccursInOrder(ms[1..], s[i + |m|..]);
    var k := IndexOf(s, m);
    assert k >= 0 && k <= i;
    assert s[k + |m|..] == s[k + |m|..i + |m|] + s[i + |m|..];
    OccursInOrderPrepend(ms[1..], s[k + |m|..i + |m|], s[i + |m|..]);
  }

  /**
   * Matches lying in order are exactly the matches `indexOf` finds one after another: the
   * first literal occurrence never lies past the one the search found.
   */
  lemma {:induction false} InOrderIffLocatable(ms: seq<string>, s: string)
    ensures OccursInOrder(ms, s) <==> Locatable(ms, s)
    decreases |ms|
  {
    if ms != [] {
      var k := IndexOf(s, ms[0]);
      if OccursInOrder(ms, s) {
        FirstOccurrenceKeepsOrder(ms, s);
        InOrderIffLocatable(ms[1..], s[k + |ms[0]|..]);
      }
      if Locatable(ms, s) {
        InOrderIffLocatable(ms[1..], s[k + |ms[0]|..]);
        assert OccursAt(s, ms[0], k);
      }
    }
  }

  /** Any occurrence of the first string, followed by a locatable rest, makes the list locatable. */
  lemma LocatableAt(ms: seq<string>, s: string, i: int)
    requires ms != [] && OccursAt(s, ms[0], i)
    requires Locatable(ms[1..], s[i + |ms[0]|..])
    ensures Locatable(ms, s)
  {
    InOrderIffLocatable(ms[1..], s[i + |ms[0]|..]);
    InOrderIffLocatable(ms, s);
  }

  /** Text added in front never makes a locatable list unlocatable. */
  lemma LocatablePrepend(ms: seq<string>, p: string, s: string)
    requires Locatable(ms, s)
    ensures Locatable(ms, p + s)
  {
    InOrderIffLocatable(ms, s);
    OccursInOrderPrepend(ms, p, s);
    InOrderIffLocatable(ms, p + s);
  }
}
