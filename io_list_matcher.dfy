/**
 * The `ListMatcher` of `io.github.nik9000.mapmatcher`: immutable, so `item`
 * copies the matcher list and returns a new matcher, and the receiver is a
 * value that never changes.
 */
module IoListMatcher {
  import opened Values
  import opened Hamcrest
  import S = Structure
  import E = Engine

  datatype ListMatcher = ListMatcher(matchers: seq<S.Matcher>)
  {
    /** The matcher this value is, in the shared tree. */
    function AsMatcher(): (m: S.Matcher)
      ensures m.ListM? && m.items == matchers
    {
      S.ListM(matchers)
    }

    /** `item(valueMatcher)`: a new matcher expecting one more element. */
    function Item(valueMatcher: S.Matcher): (r: ListMatcher)
      ensures |r.matchers| == |matchers| + 1
      ensures r.matchers[..|matchers|] == matchers && r.matchers[|matchers|] == valueMatcher
    {
      ListMatcher(matchers + [valueMatcher])
    }

    /** `item(value)`: a new matcher expecting one more element equal to `value`. */
    function ItemValue(value: Value): (r: ListMatcher)
      ensures r.matchers == matchers + [S.Leaf(EqualTo(value))]
    {
      Item(S.Leaf(EqualTo(value)))
    }

    /** `keyWidth(item)`. */
    method KeyWidth(vs: seq<Value>) returns (w: int)
      ensures w == S.ListKeyWidth(AsMatcher(), vs)
    {
      w := E.ListKeyWidth(AsMatcher(), vs);
    }

    /** `matchesSafely(item)`. */
    method MatchesSafely(lib: Library, vs: seq<Value>) returns (b: bool)
      ensures b == S.ListMatchesSafely(lib, AsMatcher(), vs)
    {
      b := E.ListMatchesSafely(lib, AsMatcher(), vs);
    }

    /** `describeTo(description)`: the description at the width over an empty list. */
    method DescribeTo(lib: Library, d: Description)
      modifies d
      ensures d.text == old(d.text) + S.Describe(lib, AsMatcher())
    {
      E.DescribeInto(lib, AsMatcher(), d);
    }

    /** `describeMismatchSafely(item, description)`: the report at the width over the item. */
    method DescribeMismatchSafely(lib: Library, vs: seq<Value>, d: Description)
      modifies d
      ensures d.text == old(d.text) + S.ListMismatch(lib, AsMatcher(), S.ListKeyWidth(AsMatcher(), vs), vs)
    {
      var w := E.ListKeyWidth(AsMatcher(), vs);
      E.ListDescribePotentialMismatch(lib, AsMatcher(), w, vs, d);
    }
  }

  /** `matchesList()`: the matcher for the empty list. */
  function MatchesList(): (r: ListMatcher)
    ensures |r.matchers| == 0
  {
    ListMatcher([])
  }

  /** Built from `matchesList()` alone, a matcher accepts exactly the empty list. */
  lemma MatchesListAcceptsOnlyEmpty(lib: Library, v: Value)
    ensures S.Matches(lib, MatchesList().AsMatcher(), v) <==> v == ListV([])
  {
  }

  /**
   * One more `item` accepts exactly the lists one longer whose front the old
   * matcher accepts and whose last element the new matcher accepts.
   */
  lemma ItemExtendsMatch(lib: Library, lm: ListMatcher, x: S.Matcher, vs: seq<Value>)
    ensures S.ListMatchesSafely(lib, lm.Item(x).AsMatcher(), vs)
      <==> |vs| == |lm.matchers| + 1
           && S.ListMatchesSafely(lib, lm.AsMatcher(), vs[..|lm.matchers|])
           && S.Matches(lib, x, vs[|lm.matchers|])
  {
    var ms := lm.matchers;
    var longer := lm.Item(x).matchers;
    if |vs| == |ms| + 1 {
      forall i | 0 <= i < |ms| ensures longer[i] == ms[i] && vs[..|ms|][i] == vs[i] {
      }
    }
  }

  /**
   * `item(value)` accepts exactly the lists one longer whose front the old
   * matcher accepts and whose last element `equalTo(value)` accepts.
   */
  lemma ItemValueExtendsMatch(lib: Library, lm: ListMatcher, value: Value, vs: seq<Value>)
    ensures S.ListMatchesSafely(lib, lm.ItemValue(value).AsMatcher(), vs)
      <==> |vs| == |lm.matchers| + 1
           && S.ListMatchesSafely(lib, lm.AsMatcher(), vs[..|lm.matchers|])
           && lib.matches(EqualTo(value), vs[|lm.matchers|])
  {
    ItemExtendsMatch(lib, lm, S.Leaf(EqualTo(value)), vs);
  }

  /** `item` never changes the matcher it is called on: extending one matcher
   *  twice gives two independent matchers sharing only the prefix. */
  lemma ItemBranches(lm: ListMatcher, x: S.Matcher, y: S.Matcher)
    requires x != y
    ensures lm.Item(x).matchers[..|lm.matchers|] == lm.Item(y).matchers[..|lm.matchers|] == lm.matchers
    ensures lm.Item(x) != lm.Item(y)
  {
    assert lm.Item(x).matchers[|lm.matchers|] != lm.Item(y).matchers[|lm.matchers|];
  }
}
