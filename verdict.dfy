/**
 * How the verdict of `matches` relates to the report `describeMismatch`
 * writes: the report flags a problem (a missing entry, an unexpected entry
 * or element, a failing leaf, a mistyped value, or one of these inside a
 * nested report) exactly when the value does not match, as long as no
 * container matcher in the tree is empty. An empty one prints only
 * `an empty map` / `an empty list` and hides what the value holds.
 */
module Verdict {
  import opened Text
  import opened Values
  import opened Hamcrest
  import opened Structure

  /** The report of `m` against `v` flags a problem somewhere. */
  ghost predicate Flagged(lib: Library, m: Matcher, v: Value)
    decreases m, 1
  {
    match m
    case Leaf(p) => !lib.matches(p, v)
    case MapM(_) => !v.MapV? || MapFlagged(lib, m, v.entries)
    case ListM(_) => !v.ListV? || ListFlagged(lib, m, v.items)
  }

  /** The lines of a non-empty map report: a missing line, an unexpected
   *  line, or an entry whose outcome is flagged. */
  ghost predicate MapFlagged(lib: Library, m: Matcher, kv: seq<(string, Value)>)
    requires m.MapM?
    decreases m, 0
  {
    var es := m.entries;
    |es| > 0 &&
      ((exists i :: 0 <= i < |es| && es[i].0 !in KeySet(kv))
       || (exists j :: 0 <= j < |kv| && kv[j].0 !in KeySet(es))
       || (exists i :: 0 <= i < |es| && es[i].0 in KeySet(kv) && EntryFlagged(lib, es[i].1, Get(kv, es[i].0))))
  }

  /** The lines of a non-empty list report: missing positions, unexpected
   *  elements, or a position whose outcome is flagged. */
  ghost predicate ListFlagged(lib: Library, m: Matcher, vs: seq<Value>)
    requires m.ListM?
    decreases m, 0
  {
    var ms := m.items;
    |ms| > 0 &&
      (|vs| != |ms| || exists i :: 0 <= i < |ms| && i < |vs| && EntryFlagged(lib, ms[i], vs[i]))
  }

  /** `describeEntryValue`: a nested report of the same kind of container is
   *  flagged by its own lines; anything else by `expected … but …`. */
  ghost predicate EntryFlagged(lib: Library, sub: Matcher, v: Value)
    decreases sub, 2
  {
    if (v.MapV? && sub.MapM?) || (v.ListV? && sub.ListM?) then Flagged(lib, sub, v)
    else !Matches(lib, sub, v)
  }

  /** No map or list matcher anywhere in the tree is empty. */
  ghost predicate NoEmptyContainers(m: Matcher)
  {
    match m
    case Leaf(_) => true
    case MapM(es) => |es| > 0 && forall i :: 0 <= i < |es| ==> NoEmptyContainers(es[i].1)
    case ListM(ms) => |ms| > 0 && forall i :: 0 <= i < |ms| ==> NoEmptyContainers(ms[i])
  }

  /** The value stored under a key of a valid map is itself valid. */
  lemma GetValid(kv: seq<(string, Value)>, k: string)
    requires ValidValue(MapV(kv))
    ensures ValidValue(Get(kv, k))
  {
    if k in KeySet(kv) {
      var i :| 0 <= i < |kv| && kv[i].0 == k;
      assert Get(kv, k) == kv[i].1;
    }
  }

  /** Two maps whose keys cover each other and are distinct have the same size. */
  lemma {:induction false} SameKeysSameSize(es: seq<(string, Matcher)>, kv: seq<(string, Value)>)
    requires DistinctKeys(es) && DistinctKeys(kv)
    requires forall i :: 0 <= i < |es| ==> es[i].0 in KeySet(kv)
    requires forall j :: 0 <= j < |kv| ==> kv[j].0 in KeySet(es)
    ensures KeySet(kv) == KeySet(es) && |kv| == |es|
  {
    DistinctKeySetSize(es);
    DistinctKeySetSize(kv);
  }

  /**
   * `matches(v)` holds exactly when the report `describeMismatch(v)` would
   * flag nothing, for a tree without empty containers whose maps, and those
   * of the value, have distinct keys.
   */
  lemma {:induction false} MatchesIffUnflagged(lib: Library, m: Matcher, v: Value)
    requires WellFormed(m) && NoEmptyContainers(m) && ValidValue(v)
    ensures Matches(lib, m, v) <==> !Flagged(lib, m, v)
    decreases m, 1
  {
    match m
    case Leaf(_) =>
    case MapM(_) =>
      if v.MapV? {
        MapMatchesIffUnflagged(lib, m, v.entries);
      }
    case ListM(_) =>
      if v.ListV? {
        ListMatchesIffUnflagged(lib, m, v.items);
      }
  }

  lemma {:induction false} EntryMatchesIffUnflagged(lib: Library, sub: Matcher, v: Value)
    requires WellFormed(sub) && NoEmptyContainers(sub) && ValidValue(v)
    ensures Matches(lib, sub, v) <==> !EntryFlagged(lib, sub, v)
    decreases sub, 2
  {
    if (v.MapV? && sub.MapM?) || (v.ListV? && sub.ListM?) {
      MatchesIffUnflagged(lib, sub, v);
    }
  }

  lemma {:induction false} MapMatchesIffUnflagged(lib: Library, m: Matcher, kv: seq<(string, Value)>)
    requires m.MapM? && WellFormed(m) && NoEmptyContainers(m) && ValidValue(MapV(kv))
    ensures MapMatchesSafely(lib, m, kv) <==> !MapFlagged(lib, m, kv)
    decreases m, 0
  {
    var es := m.entries;
    forall i | 0 <= i < |es|
      ensures Matches(lib, es[i].1, Get(kv, es[i].0)) <==> !EntryFlagged(lib, es[i].1, Get(kv, es[i].0))
    {
      GetValid(kv, es[i].0);
      EntryMatchesIffUnflagged(lib, es[i].1, Get(kv, es[i].0));
    }
    if !MapFlagged(lib, m, kv) {
      SameKeysSameSize(es, kv);
    }
    if MapMatchesSafely(lib, m, kv) {
      forall j | 0 <= j < |kv| ensures kv[j].0 in KeySet(es) {
        assert kv[j].0 in KeySet(kv);
      }
    }
  }

  lemma {:induction false} ListMatchesIffUnflagged(lib: Library, m: Matcher, vs: seq<Value>)
    requires m.ListM? && WellFormed(m) && NoEmptyContainers(m) && ValidValue(ListV(vs))
    ensures ListMatchesSafely(lib, m, vs) <==> !ListFlagged(lib, m, vs)
    decreases m, 0
  {
    var ms := m.items;
    forall i | 0 <= i < |ms| && i < |vs|
      ensures Matches(lib, ms[i], vs[i]) <==> !EntryFlagged(lib, ms[i], vs[i])
    {
      EntryMatchesIffUnflagged(lib, ms[i], vs[i]);
    }
  }

  /**
   * An empty `MapMatcher` hides what the item holds: against a map with one
   * entry it does not match, yet both its description and its mismatch
   * report are just `an empty map`.
   */
  lemma EmptyMapMatcherHidesEntries(lib: Library, key: string, value: Value)
    ensures var m := MapM([]);
            var v := MapV([(key, value)]);
            && !Matches(lib, m, v)
            && DescribeMismatch(lib, m, v) == "an empty map"
            && Describe(lib, m) == "an empty map"
  {
  }

  /** The same for an empty `ListMatcher` against a list with one element. */
  lemma EmptyListMatcherHidesElements(lib: Library, value: Value)
    ensures var m := ListM([]);
            var v := ListV([value]);
            && !Matches(lib, m, v)
            && DescribeMismatch(lib, m, v) == "an empty list"
            && Describe(lib, m) == "an empty list"
  {
  }
}
