/**
 * The mutable `ListMatcher` of `com.github.nik9000.mapmatcher`: an
 * `ArrayList` of matchers that `item` extends in place and returns.
 */
module ComListMatcher {
  import opened Values
  import opened Hamcrest
  import S = Structure
  import E = Engine
  import M = ComMapMatcher

  class ListMatcher {
    /** `matchers`: one matcher per expected position. */
    var matchers: seq<S.Matcher>

    /** `matchesList()`. */
    constructor ()
      ensures matchers == []
    {
      matchers := [];
    }

    /** The matcher this object currently is, as a value. */
    function AsMatcher(): (m: S.Matcher)
      reads this
      ensures m.ListM? && m.items == matchers
    {
      S.ListM(matchers)
    }

    /** `item(valueMatcher)`: expect one more element; returns the receiver. */
    method Item(valueMatcher: S.Matcher) returns (self: ListMatcher)
      modifies this
      ensures matchers == old(matchers) + [valueMatcher]
      ensures self == this
    {
      matchers := matchers + [valueMatcher];
      self := this;
    }

    /** `item(value)`: expect the value itself, through `equalTo`. */
    method ItemValue(value: Value) returns (self: ListMatcher)
      modifies this
      ensures matchers == old(matchers) + [S.Leaf(EqualTo(value))]
      ensures self == this
    {
      self := Item(S.Leaf(EqualTo(value)));
    }

    /** `keyWidth(item)`. */
    method KeyWidth(vs: seq<Value>) returns (w: int)
      ensures w == S.ListKeyWidth(AsMatcher(), vs)
    {
      w := E.ListKeyWidth(AsMatcher(), vs);
    }

    /** `matchesSafely(item)`. */
    method MatchesSafely(lib: Library, vs: seq<Value>) returns (b: bool)
      ensures b == S.ListMatchesSafely(lib, AsMatcher(), vs)
    {
      b := E.ListMatchesSafely(lib, AsMatcher(), vs);
    }

    /** `describeTo(description)`: the description at the width over an empty list. */
    method DescribeTo(lib: Library, d: Description)
      modifies d
      ensures d.text == old(d.text) + S.Describe(lib, AsMatcher())
    {
      E.DescribeInto(lib, AsMatcher(), d);
    }

    /** `describeMismatchSafely(item, description)`: the report at the width over the item. */
    method DescribeMismatchSafely(lib: Library, vs: seq<Value>, d: Description)
      modifies d
      ensures d.text == old(d.text) + S.ListMismatch(lib, AsMatcher(), S.ListKeyWidth(AsMatcher(), vs), vs)
    {
      var w := E.ListKeyWidth(AsMatcher(), vs);
      E.ListDescribePotentialMismatch(lib, AsMatcher(), w, vs, d);
    }
  }

  /** `assertList(reason, actual, matcher)`: despite its name it takes a map
   *  and a `MapMatcher`, and is `MapMatcher.assertThat`. */
  method AssertList(lib: Library, reason: string, actual: seq<(string, Value)>, matcher: M.MapMatcher)
    returns (failure: Option<string>)
    ensures failure.None? <==> S.MapMatchesSafely(lib, matcher.AsMatcher(), actual)
    ensures failure.Some? ==>
      failure.value == reason + "Expected "
        + S.MapMismatch(lib, matcher.AsMatcher(), S.MapKeyWidth(matcher.AsMatcher(), actual), actual)
  {
    failure := M.AssertThat(lib, reason, MapV(actual), matcher.AsMatcher());
  }

  /**
   * `item` mutates and returns its receiver: a matcher built from a shared
   * prefix is that prefix, so extending one "branch" extends the other too.
   */
  method ItemSharesReceiver(a: S.Matcher, b: S.Matcher, c: S.Matcher)
    returns (base: ListMatcher, left: ListMatcher, right: ListMatcher)
    ensures base == left && left == right
    ensures base.matchers == [a, b, c]
  {
    base := new ListMatcher();
    var _ := base.Item(a);
    left := base.Item(b);
    right := base.Item(c);
  }
}
