/**
 * What the width look-ahead computes: `keyWidth` is the maximum of the
 * candidates `MapMatcher.keyWidth` and `ListMatcher.keyWidth` visit, so it is
 * at least every key the level prints and at least every nested container's
 * own width less `INDENT`.
 */
module Widths {
  import opened Text
  import opened Values
  import opened Structure

  /** `KeysWidth` is the longest of the keys, or 0 when there are none. */
  lemma {:induction false} KeysWidthIsMax(ks: seq<string>)
    ensures 0 <= KeysWidth(ks)
    ensures forall i :: 0 <= i < |ks| ==> |ks[i]| <= KeysWidth(ks)
    ensures KeysWidth(ks) == 0 || exists i :: 0 <= i < |ks| && KeysWidth(ks) == |ks[i]|
  {
    if |ks| > 0 {
      var init := ks[..|ks| - 1];
      KeysWidthIsMax(init);
      assert forall i :: 0 <= i < |init| ==> init[i] == ks[i];
    }
  }

  /** The first loop of `MapMatcher.keyWidth`: the longest of the first `n` item keys. */
  lemma {:induction false} ItemKeysWidthIsMax(kv: seq<(string, Value)>, n: nat)
    requires n <= |kv|
    ensures 0 <= ItemKeysWidth(kv, n)
    ensures forall j :: 0 <= j < n ==> |kv[j].0| <= ItemKeysWidth(kv, n)
    ensures ItemKeysWidth(kv, n) == 0 || exists j :: 0 <= j < n && ItemKeysWidth(kv, n) == |kv[j].0|
  {
    if n > 0 {
      ItemKeysWidthIsMax(kv, n - 1);
    }
  }

  /** The candidate entry `i` of a map matcher offers: its key's length, or
   *  the nested matcher's width over the paired sub-value less `INDENT`. */
  ghost predicate MapCandidate(m: Matcher, kv: seq<(string, Value)>, i: int, w: int)
    requires m.MapM? && 0 <= i < |m.entries|
  {
    w == |m.entries[i].0| || w == MaxKeyWidthForMatcher(Get(kv, m.entries[i].0), m.entries[i].1)
  }

  /** The second loop of `MapMatcher.keyWidth` after `n` matcher entries. */
  lemma {:induction false} MapWidthOverIsMax(m: Matcher, kv: seq<(string, Value)>, n: nat)
    requires m.MapM? && n <= |m.entries|
    ensures ItemKeysWidth(kv, |kv|) <= MapWidthOver(m, kv, n)
    ensures forall i :: 0 <= i < n ==>
      |m.entries[i].0| <= MapWidthOver(m, kv, n)
      && MaxKeyWidthForMatcher(Get(kv, m.entries[i].0), m.entries[i].1) <= MapWidthOver(m, kv, n)
    ensures MapWidthOver(m, kv, n) == ItemKeysWidth(kv, |kv|)
      || exists i :: 0 <= i < n && MapCandidate(m, kv, i, MapWidthOver(m, kv, n))
  {
    if n > 0 {
      MapWidthOverIsMax(m, kv, n - 1);
      var w := MapWidthOver(m, kv, n);
      if w != MapWidthOver(m, kv, n - 1) {
        assert MapCandidate(m, kv, n - 1, w);
      }
    }
  }

  /**
   * `MapMatcher.keyWidth(item)` is the maximum of 0, every item key's
   * length, every matcher key's length and every nested matcher's width over
   * its sub-value less `INDENT`: it bounds them all and is one of them.
   */
  lemma MapKeyWidthIsMax(m: Matcher, kv: seq<(string, Value)>)
    requires m.MapM?
    ensures 0 <= MapKeyWidth(m, kv)
    ensures forall j :: 0 <= j < |kv| ==> |kv[j].0| <= MapKeyWidth(m, kv)
    ensures forall i :: 0 <= i < |m.entries| ==>
      |m.entries[i].0| <= MapKeyWidth(m, kv)
      && MaxKeyWidthForMatcher(Get(kv, m.entries[i].0), m.entries[i].1) <= MapKeyWidth(m, kv)
    ensures MapKeyWidth(m, kv) == 0
      || (exists j :: 0 <= j < |kv| && MapKeyWidth(m, kv) == |kv[j].0|)
      || (exists i :: 0 <= i < |m.entries| && MapCandidate(m, kv, i, MapKeyWidth(m, kv)))
  {
    ItemKeysWidthIsMax(kv, |kv|);
    MapWidthOverIsMax(m, kv, |m.entries|);
  }

  /** The candidate position `i` of a list matcher offers: the nested
   *  matcher's width over the element there (`null` past the end) less `INDENT`. */
  ghost predicate ListCandidate(m: Matcher, vs: seq<Value>, i: int, w: int)
    requires m.ListM? && 0 <= i < |m.items|
  {
    w == MaxKeyWidthForMatcher(ElementOrNull(vs, i), m.items[i])
  }

  lemma {:induction false} ListWidthOverIsMax(m: Matcher, vs: seq<Value>, n: nat)
    requires m.ListM? && n <= |m.items|
    ensures |Decimal(|m.items|)| <= ListWidthOver(m, vs, n)
    ensures forall i :: 0 <= i < n ==>
      MaxKeyWidthForMatcher(ElementOrNull(vs, i), m.items[i]) <= ListWidthOver(m, vs, n)
    ensures ListWidthOver(m, vs, n) == |Decimal(|m.items|)|
      || exists i :: 0 <= i < n && ListCandidate(m, vs, i, ListWidthOver(m, vs, n))
  {
    if n > 0 {
      ListWidthOverIsMax(m, vs, n - 1);
      var w := ListWidthOver(m, vs, n);
      if w != ListWidthOver(m, vs, n - 1) {
        assert ListCandidate(m, vs, n - 1, w);
      }
    }
  }

  /**
   * `ListMatcher.keyWidth(item)` is the maximum of the digit count of the
   * matcher's size and every nested matcher's width over the element at the
   * same position (`null` past the item's end) less `INDENT`.
   */
  lemma ListKeyWidthIsMax(m: Matcher, vs: seq<Value>)
    requires m.ListM?
    ensures |Decimal(|m.items|)| <= ListKeyWidth(m, vs)
    ensures forall i :: 0 <= i < |m.items| ==>
      MaxKeyWidthForMatcher(ElementOrNull(vs, i), m.items[i]) <= ListKeyWidth(m, vs)
    ensures ListKeyWidth(m, vs) == |Decimal(|m.items|)|
      || exists i :: 0 <= i < |m.items| && ListCandidate(m, vs, i, ListKeyWidth(m, vs))
  {
    ListWidthOverIsMax(m, vs, |m.items|);
  }

  /** A nested container's width over any value is its width over the
   *  value's entries or elements, an absent or mistyped value counting as empty. */
  lemma NestedWidth(v: Value, sub: Matcher)
    requires !sub.Leaf?
    ensures MaxKeyWidthForMatcher(v, sub) == KeyWidth(sub, v) - INDENT
  {
  }

  /** The widest key a map mismatch pads to never exceeds the map's `keyWidth`. */
  lemma LocalMapWidthWithin(m: Matcher, kv: seq<(string, Value)>)
    requires m.MapM?
    ensures LocalMapWidth(m.entries, kv) <= MapKeyWidth(m, kv)
  {
    MapKeyWidthIsMax(m, kv);
    KeysWidthIsMax(Keys(m.entries));
    KeysWidthIsMax(Keys(kv));
  }

  /**
   * A container nested under map entry `i` never needs more than the parent's
   * width plus `INDENT`: rendering it at `keyWidth + INDENT` leaves room for
   * its own keys.
   */
  lemma MapNestedWithin(m: Matcher, kv: seq<(string, Value)>, i: int)
    requires m.MapM? && 0 <= i < |m.entries| && !m.entries[i].1.Leaf?
    ensures KeyWidth(m.entries[i].1, Get(kv, m.entries[i].0)) <= MapKeyWidth(m, kv) + INDENT
  {
    MapKeyWidthIsMax(m, kv);
    NestedWidth(Get(kv, m.entries[i].0), m.entries[i].1);
  }

  /** The same for the container at position `i` of a list matcher. */
  lemma ListNestedWithin(m: Matcher, vs: seq<Value>, i: int)
    requires m.ListM? && 0 <= i < |m.items| && !m.items[i].Leaf?
    ensures KeyWidth(m.items[i], ElementOrNull(vs, i)) <= ListKeyWidth(m, vs) + INDENT
  {
    ListKeyWidthIsMax(m, vs);
    NestedWidth(ElementOrNull(vs, i), m.items[i]);
  }
}
