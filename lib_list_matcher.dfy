/**
 * The mutable `ListMatcher` of package `mapmatcher`: the same class as the
 * one in `com.github.nik9000.mapmatcher` without `assertList`. `item`
 * extends its `ArrayList` in place and returns the receiver. The class
 * repeats module ComListMatcher's on purpose, as the repository repeats it
 * in two packages.
 */
module LibListMatcher {
  import opened Values
  import opened Hamcrest
  import S = Structure
  import E = Engine

  class ListMatcher {
    /** `matchers`: one matcher per expected position. */
    var matchers: seq<S.Matcher>

    /** `matchesList()`. */
    constructor ()
      ensures matchers == []
    {
      matchers := [];
    }

    /** The matcher this object currently is, as a value. */
    function AsMatcher(): (m: S.Matcher)
      reads this
      ensures m.ListM? && m.items == matchers
    {
      S.ListM(matchers)
    }

    /** `item(valueMatcher)`: expect one more element; returns the receiver. */
    method Item(valueMatcher: S.Matcher) returns (self: ListMatcher)
      modifies this
      ensures matchers == old(matchers) + [valueMatcher]
      ensures self == this
    {
      matchers := matchers + [valueMatcher];
      self := this;
    }

    /** `item(value)`: expect the value itself, through `equalTo`. */
    method ItemValue(value: Value) returns (self: ListMatcher)
      modifies this
      ensures matchers == old(matchers) + [S.Leaf(EqualTo(value))]
      ensures self == this
    {
      self := Item(S.Leaf(EqualTo(value)));
    }

    /** `keyWidth(item)`. */
    method KeyWidth(vs: seq<Value>) returns (w: int)
      ensures w == S.ListKeyWidth(AsMatcher(), vs)
    {
      w := E.ListKeyWidth(AsMatcher(), vs);
    }

    /** `matchesSafely(item)`. */
    method MatchesSafely(lib: Library, vs: seq<Value>) returns (b: bool)
      ensures b == S.ListMatchesSafely(lib, AsMatcher(), vs)
    {
      b := E.ListMatchesSafely(lib, AsMatcher(), vs);
    }

    /** `describeTo(description)`: the description at the width over an empty list. */
    method DescribeTo(lib: Library, d: Description)
      modifies d
      ensures d.text == old(d.text) + S.Describe(lib, AsMatcher())
    {
      E.DescribeInto(lib, AsMatcher(), d);
    }

    /** `describeMismatchSafely(item, description)`: the report at the width over the item. */
    method DescribeMismatchSafely(lib: Library, vs: seq<Value>, d: Description)
      modifies d
      ensures d.text == old(d.text) + S.ListMismatch(lib, AsMatcher(), S.ListKeyWidth(AsMatcher(), vs), vs)
    {
      var w := E.ListKeyWidth(AsMatcher(), vs);
      E.ListDescribePotentialMismatch(lib, AsMatcher(), w, vs, d);
    }
  }
}
