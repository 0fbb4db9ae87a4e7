/**
 * `com.github.nik9000.mapmatcher.MapMatcher` as an object: a mutable
 * `LinkedHashMap` of key to matcher that `entry` extends in place, and the
 * operations that run the shared algorithms of module Engine over it.
 */
module ComMapMatcher {
  import opened Text
  import opened Values
  import opened Hamcrest
  import S = Structure
  import E = Engine

  /** `LinkedHashMap.put(k, v)`: an existing key keeps its place and takes
   *  the new value; a new key goes last. */
  function Put<T>(kv: seq<(string, T)>, k: string, v: T): (r: seq<(string, T)>)
    ensures KeySet(r) == KeySet(kv) + {k}
  {
    if |kv| == 0 then
      KeySetCons((k, v), kv);
      assert [(k, v)] + kv == [(k, v)];
      [(k, v)]
    else if kv[0].0 == k then
      KeySetCons(kv[0], kv[1..]);
      KeySetCons((k, v), kv[1..]);
      assert kv == [kv[0]] + kv[1..];
      [(k, v)] + kv[1..]
    else
      var rest := Put(kv[1..], k, v);
      KeySetCons(kv[0], kv[1..]);
      KeySetCons(kv[0], rest);
      assert kv == [kv[0]] + kv[1..];
      [kv[0]] + rest
  }

  /** A fresh key is appended at the end of the insertion order. */
  lemma {:induction false} PutFresh<T>(kv: seq<(string, T)>, k: string, v: T)
    requires k !in KeySet(kv)
    ensures Put(kv, k, v) == kv + [(k, v)]
  {
    if |kv| > 0 {
      assert kv[0].0 in KeySet(kv);
      assert KeySet(kv[1..]) <= KeySet(kv) by {
        forall x | x in KeySet(kv[1..]) ensures x in KeySet(kv) {
          var i :| 0 <= i < |kv[1..]| && kv[1..][i].0 == x;
          assert kv[i + 1].0 == x;
        }
      }
      PutFresh(kv[1..], k, v);
      assert kv == [kv[0]] + kv[1..];
    }
  }

  /** An existing key keeps its position: only the value stored at that
   *  position changes, and the map keeps distinct keys. */
  lemma {:induction false} PutExisting<T>(kv: seq<(string, T)>, i: int, v: T)
    requires DistinctKeys(kv) && 0 <= i < |kv|
    ensures Put(kv, kv[i].0, v) == kv[i := (kv[i].0, v)]
    ensures DistinctKeys(Put(kv, kv[i].0, v))
  {
    if i > 0 {
      assert kv[0].0 != kv[i].0;
      PutExisting(kv[1..], i - 1, v);
      assert kv[1..][i - 1 := (kv[i].0, v)] == kv[i := (kv[i].0, v)][1..];
    } else {
      assert [(kv[0].0, v)] + kv[1..] == kv[0 := (kv[0].0, v)];
    }
  }

  /** What `entry` hands back: the receiver for chaining, or the
   *  `IllegalArgumentException` it throws for a key it already had. */
  datatype EntryResult =
    | Chained(self: MapMatcher)
    | AlreadyHad(message: string)

  class MapMatcher {
    /** `matchers`: each key with its matcher, in insertion order. */
    var matchers: seq<(string, S.Matcher)>

    /** The `LinkedHashMap` holds each key once. */
    ghost predicate Valid()
      reads this
    {
      DistinctKeys(matchers)
    }

    /** `matchesMap()`. */
    constructor ()
      ensures matchers == [] && Valid()
    {
      matchers := [];
    }

    /** The matcher this object currently is, as a value. */
    function AsMatcher(): (m: S.Matcher)
      reads this
      ensures m.MapM? && m.entries == matchers
    {
      S.MapM(matchers)
    }

    /**
     * `entry(key, valueMatcher)`: `put` first, then throw if the key was
     * already there, so the old matcher has been replaced when the exception
     * leaves. Either way the receiver itself has changed.
     */
    method Entry(lib: Library, key: string, valueMatcher: S.Matcher) returns (r: EntryResult)
      requires Valid()
      modifies this
      ensures Valid()
      ensures key !in KeySet(old(matchers)) ==> matchers == old(matchers) + [(key, valueMatcher)] && r == Chained(this)
      ensures key in KeySet(old(matchers)) ==>
        exists i :: 0 <= i < |old(matchers)| && old(matchers)[i].0 == key
          && matchers == old(matchers)[i := (key, valueMatcher)]
          && r == AlreadyHad("Already had an entry for [" + key + "]: " + S.Describe(lib, old(matchers)[i].1))
    {
      var previous := Lookup(matchers, key);
      if previous.None? {
        PutFresh(matchers, key, valueMatcher);
      } else {
        ghost var i :| 0 <= i < |matchers| && matchers[i] == (key, previous.value);
        PutExisting(matchers, i, valueMatcher);
      }
      matchers := Put(matchers, key, valueMatcher);
      if previous.Some? {
        var d := new Description();
        E.DescribeInto(lib, previous.value, d);
        return AlreadyHad("Already had an entry for [" + key + "]: " + d.text);
      }
      return Chained(this);
    }

    /** `entry(key, value)`: `entry(key, equalTo(value))`. */
    method EntryValue(lib: Library, key: string, value: Value) returns (r: EntryResult)
      requires Valid()
      modifies this
      ensures Valid()
      ensures key !in KeySet(old(matchers)) ==>
        matchers == old(matchers) + [(key, S.Leaf(EqualTo(value)))] && r == Chained(this)
      ensures key in KeySet(old(matchers)) ==>
        exists i :: 0 <= i < |old(matchers)| && old(matchers)[i].0 == key
          && matchers == old(matchers)[i := (key, S.Leaf(EqualTo(value)))]
          && r == AlreadyHad("Already had an entry for [" + key + "]: " + S.Describe(lib, old(matchers)[i].1))
    {
      r := Entry(lib, key, S.Leaf(EqualTo(value)));
    }

    /** `keyWidth(item)`. */
    method KeyWidth(kv: seq<(string, Value)>) returns (w: int)
      ensures w == S.MapKeyWidth(AsMatcher(), kv)
    {
      w := E.MapKeyWidth(AsMatcher(), kv);
    }

    /** `matchesSafely(item)`. */
    method MatchesSafely(lib: Library, kv: seq<(string, Value)>) returns (b: bool)
      ensures b == S.MapMatchesSafely(lib, AsMatcher(), kv)
    {
      b := E.MapMatchesSafely(lib, AsMatcher(), kv);
    }

    /** `describeTo(description)`: the description at the width over an empty map. */
    method DescribeTo(lib: Library, d: Description)
      modifies d
      ensures d.text == old(d.text) + S.Describe(lib, AsMatcher())
    {
      E.DescribeInto(lib, AsMatcher(), d);
    }

    /** `describeMismatchSafely(item, description)`: the report at the width over the item. */
    method DescribeMismatchSafely(lib: Library, kv: seq<(string, Value)>, d: Description)
      modifies d
      ensures d.text == old(d.text) + S.MapMismatch(lib, AsMatcher(), S.MapKeyWidth(AsMatcher(), kv), kv)
    {
      var w := E.MapKeyWidth(AsMatcher(), kv);
      E.MapDescribePotentialMismatch(lib, AsMatcher(), w, kv, d);
    }
  }

  /**
   * `assertThat(reason, actual, matcher)`: nothing when the matcher matches;
   * otherwise the `AssertionError` message, `reason`, `Expected ` and the
   * matcher's mismatch report.
   */
  method AssertThat(lib: Library, reason: string, actual: Value, matcher: S.Matcher) returns (failure: Option<string>)
    ensures failure.None? <==> S.Matches(lib, matcher, actual)
    ensures failure.Some? ==> failure.value == reason + "Expected " + S.DescribeMismatch(lib, matcher, actual)
  {
    var ok := E.Matches(lib, matcher, actual);
    if ok {
      return None;
    }
    var d := new Description();
    d.AppendText(reason);
    d.AppendText("Expected ");
    E.DescribeMismatchInto(lib, matcher, actual, d);
    AppendAssoc(reason, "Expected ", S.DescribeMismatch(lib, matcher, actual));
    return Some(d.text);
  }

  /**
   * `entry` mutates and returns its receiver, so a second `entry` made
   * through the first one's result changes the original as well: the two
   * names denote one matcher.
   */
  method EntryChainsOnReceiver(lib: Library, p: Predicate, q: Predicate) returns (original: MapMatcher, extended: MapMatcher)
    ensures original == extended
    ensures original.matchers == [("a", S.Leaf(p)), ("b", S.Leaf(q))]
  {
    original := new MapMatcher();
    var first := original.Entry(lib, "a", S.Leaf(p));
    assert first == Chained(original);
    assert "b" !in KeySet(original.matchers);
    var second := first.self.Entry(lib, "b", S.Leaf(q));
    extended := second.self;
  }
}
