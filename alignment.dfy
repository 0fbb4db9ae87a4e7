/**
 * The alignment the width look-ahead exists for: in a mismatch report every
 * label of one container has the same width, so the `:` after the labels
 * line up, and a container nested under an entry is indented by `INDENT`
 * more than its parent.
 */
module Alignment {
  import opened Text
  import opened Values
  import opened Structure
  import opened Widths

  /** The width of the label `describeEntry` prints for `key` once it has been
   *  padded to the level's widest key `local` and then to `width`. */
  function LabelWidth(key: string, local: int, width: int): (r: int)
    ensures r == Max(width, Max(local, |key|))
  {
    |PadLeft(PadLeft(key, local), width)|
  }

  /**
   * Every label a mismatch report of `m` against `v` prints at this level is
   * exactly `width` wide, and every report nested under one of its entries is
   * aligned at `width + INDENT`.
   */
  ghost predicate Aligned(m: Matcher, width: int, v: Value)
    decreases m, 1
  {
    match m
    case Leaf(_) => true
    case MapM(_) => v.MapV? ==> MapAligned(m, width, v.entries)
    case ListM(_) => v.ListV? ==> ListAligned(m, width, v.items)
  }

  ghost predicate MapAligned(m: Matcher, width: int, kv: seq<(string, Value)>)
    requires m.MapM?
    decreases m, 0
  {
    var es := m.entries;
    var local := LocalMapWidth(es, kv);
    |es| > 0 ==>
      && (forall i :: 0 <= i < |es| ==> LabelWidth(es[i].0, local, width) == width)
      && (forall j :: 0 <= j < |kv| ==> LabelWidth(kv[j].0, local, width) == width)
      && (forall i :: 0 <= i < |es| && es[i].0 in KeySet(kv) ==> Aligned(es[i].1, width + INDENT, Get(kv, es[i].0)))
  }

  ghost predicate ListAligned(m: Matcher, width: int, vs: seq<Value>)
    requires m.ListM?
    decreases m, 0
  {
    var ms := m.items;
    var local := LocalListWidth(m, vs);
    |ms| > 0 ==>
      && (forall i :: 0 <= i < Max(|ms|, |vs|) ==> LabelWidth(Decimal(i), local, width) == width)
      && (forall i :: 0 <= i < |ms| && i < |vs| ==> Aligned(ms[i], width + INDENT, vs[i]))
  }

  /**
   * Along the report, no list in the value needs more digits for its indices
   * than its matcher's size has: the case `ListMatcher.keyWidth` accounts for.
   */
  ghost predicate ListsNoLonger(m: Matcher, v: Value)
    decreases m, 1
  {
    match m
    case Leaf(_) => true
    case MapM(es) =>
      v.MapV? ==> forall i :: 0 <= i < |es| && es[i].0 in KeySet(v.entries) ==>
        ListsNoLonger(es[i].1, Get(v.entries, es[i].0))
    case ListM(ms) =>
      v.ListV? ==>
        && |Decimal(|v.items|)| <= |Decimal(|ms|)|
        && forall i :: 0 <= i < |ms| && i < |v.items| ==> ListsNoLonger(ms[i], v.items[i])
  }

  /**
   * Rendered at any width at least its `keyWidth`, a report is aligned at
   * every level, provided no list in the value is longer, in digits, than its
   * matcher.
   */
  lemma {:induction false} AlignedAtKeyWidth(m: Matcher, width: int, v: Value)
    requires ListsNoLonger(m, v)
    requires !m.Leaf? ==> KeyWidth(m, v) <= width
    ensures Aligned(m, width, v)
    decreases m, 1
  {
    match m
    case Leaf(_) =>
    case MapM(_) =>
      if v.MapV? {
        MapAlignedAtKeyWidth(m, width, v.entries);
      }
    case ListM(_) =>
      if v.ListV? {
        ListAlignedAtKeyWidth(m, width, v.items);
      }
  }

  lemma {:induction false} MapAlignedAtKeyWidth(m: Matcher, width: int, kv: seq<(string, Value)>)
    requires m.MapM?
    requires ListsNoLonger(m, MapV(kv))
    requires MapKeyWidth(m, kv) <= width
    ensures MapAligned(m, width, kv)
    decreases m, 0
  {
    var es := m.entries;
    var local := LocalMapWidth(es, kv);
    LocalMapWidthWithin(m, kv);
    KeysWidthIsMax(Keys(es));
    KeysWidthIsMax(Keys(kv));
    forall i | 0 <= i < |es| && es[i].0 in KeySet(kv)
      ensures Aligned(es[i].1, width + INDENT, Get(kv, es[i].0))
    {
      if !es[i].1.Leaf? {
        MapNestedWithin(m, kv, i);
      }
      AlignedAtKeyWidth(es[i].1, width + INDENT, Get(kv, es[i].0));
    }
  }

  lemma {:induction false} ListAlignedAtKeyWidth(m: Matcher, width: int, vs: seq<Value>)
    requires m.ListM?
    requires ListsNoLonger(m, ListV(vs))
    requires ListKeyWidth(m, vs) <= width
    ensures ListAligned(m, width, vs)
    decreases m, 0
  {
    var ms := m.items;
    ListLabelsAligned(m, width, vs);
    forall i | 0 <= i < |ms| && i < |vs|
      ensures Aligned(ms[i], width + INDENT, vs[i])
    {
      assert ElementOrNull(vs, i) == vs[i];
      if !ms[i].Leaf? {
        ListNestedWithin(m, vs, i);
      }
      AlignedAtKeyWidth(ms[i], width + INDENT, vs[i]);
    }
  }

  /** The index labels of one list level all print exactly `width` wide. */
  lemma ListLabelsAligned(m: Matcher, width: int, vs: seq<Value>)
    requires m.ListM?
    requires |Decimal(|vs|)| <= |Decimal(|m.items|)|
    requires ListKeyWidth(m, vs) <= width
    ensures forall i :: 0 <= i < Max(|m.items|, |vs|) ==> LabelWidth(Decimal(i), LocalListWidth(m, vs), width) == width
  {
    var ms := m.items;
    ListKeyWidthIsMax(m, vs);
    assert LocalListWidth(m, vs) <= width by {
      if |vs| <= |ms| {
        DecimalLengthMonotone(|vs|, |ms|);
      }
    }
    forall i | 0 <= i < Max(|ms|, |vs|)
      ensures LabelWidth(Decimal(i), LocalListWidth(m, vs), width) == width
    {
      DecimalLengthMonotone(i, Max(|ms|, |vs|));
    }
  }

  /** `describeMismatchSafely` renders at the container's own `keyWidth`, so
   *  the whole report is aligned. */
  lemma MismatchReportAligned(m: Matcher, v: Value)
    requires ListsNoLonger(m, v)
    ensures Aligned(m, KeyWidth(m, v), v)
  {
    AlignedAtKeyWidth(m, KeyWidth(m, v), v);
  }

  /**
   * Without that proviso the labels of a list can be wider than its
   * `keyWidth`: one matcher against ten elements gives `keyWidth` 1, yet all
   * ten indices are padded to two digits. They still line up with each
   * other, but they overflow the level's width.
   */
  lemma LongListOverflowsKeyWidth(p: Hamcrest.Predicate)
    ensures var m := ListM([Leaf(p)]);
            var vs: seq<Value> := seq(10, _ => Null);
            && KeyWidth(m, ListV(vs)) == 1
            && (forall i :: 0 <= i < 10 ==> LabelWidth(Decimal(i), LocalListWidth(m, vs), KeyWidth(m, ListV(vs))) == 2)
            && !Aligned(m, KeyWidth(m, ListV(vs)), ListV(vs))
  {
    var m := ListM([Leaf(p)]);
    var vs: seq<Value> := seq(10, _ => Null);
    assert ListWidthOver(m, vs, 0) == 1;
    assert MaxKeyWidthForMatcher(ElementOrNull(vs, 0), Leaf(p)) == 0;
    assert ListWidthOver(m, vs, 1) == 1;
    assert LocalListWidth(m, vs) == 2;
    forall i | 0 <= i < 10
      ensures LabelWidth(Decimal(i), 2, 1) == 2
    {
      DecimalLengthMonotone(i, 9);
    }
  }

  /** The width of `{b: p}` over `{b: null}`: `b`'s length. */
  lemma NestedStepWidth(p: Hamcrest.Predicate)
    ensures MapKeyWidth(MapM([("b", Leaf(p))]), [("b", Null)]) == 1
  {
    var inner := MapM([("b", Leaf(p))]);
    var kv: seq<(string, Value)> := [("b", Null)];
    assert ItemKeysWidth(kv, 0) == 0;
    assert MapWidthOver(inner, kv, 0) == 1;
    assert MaxKeyWidthForMatcher(Get(kv, "b"), Leaf(p)) == 0;
    assert MapWidthOver(inner, kv, 1) == 1;
  }

  /**
   * Where the overflow shows: a list of one map matcher against ten elements
   * has `keyWidth` 1, so the map under position 0 is rendered at
   * `1 + INDENT`. The list's labels are two wide, so the nested `b` lands
   * only one column deeper than them rather than `INDENT` deeper.
   */
  lemma NestedOneColumnDeeper(p: Hamcrest.Predicate)
    ensures var inner := MapM([("b", Leaf(p))]);
            var m := ListM([inner]);
            var vs: seq<Value> := [MapV([("b", Null)])] + seq(9, _ => Null);
            && KeyWidth(m, ListV(vs)) == 1
            && (forall i :: 0 <= i < 10 ==> LabelWidth(Decimal(i), LocalListWidth(m, vs), KeyWidth(m, ListV(vs))) == 2)
            && LabelWidth("b", LocalMapWidth(inner.entries, [("b", Null)]), KeyWidth(m, ListV(vs)) + INDENT) == 3
  {
    var inner := MapM([("b", Leaf(p))]);
    var m := ListM([inner]);
    var vs: seq<Value> := [MapV([("b", Null)])] + seq(9, _ => Null);
    NestedStepWidth(p);
    assert ElementOrNull(vs, 0) == MapV([("b", Null)]);
    assert MaxKeyWidthForMatcher(ElementOrNull(vs, 0), inner) == -1;
    assert ListWidthOver(m, vs, 0) == 1;
    assert ListWidthOver(m, vs, 1) == 1;
    assert LocalListWidth(m, vs) == 2;
    forall i | 0 <= i < 10
      ensures LabelWidth(Decimal(i), 2, 1) == 2
    {
      DecimalLengthMonotone(i, 9);
    }
    assert KeysWidth(Keys(inner.entries)) == 1;
    var kv: seq<(string, Value)> := [("b", Null)];
    assert KeysWidth(Keys(kv)) == 1;
  }

  // The `EmbeddedStep` lemmas below are steps of `EmbeddedDescriptionNotIndented`
  // for its one example, split so that each stays small for the solver.

  /** The width over an empty map of a map matcher with the one key `bar`. */
  lemma EmbeddedStepBarWidth(p: Hamcrest.Predicate)
    ensures MapKeyWidth(MapM([("bar", Leaf(p))]), []) == 3
  {
    var inner := MapM([("bar", Leaf(p))]);
    var none: seq<(string, Value)> := [];
    assert MapWidthOver(inner, none, 0) == 0;
    assert MaxKeyWidthForMatcher(Get(none, "bar"), Leaf(p)) == 0;
    assert MapWidthOver(inner, none, 1) == 3;
  }

  /** Its description, as `appendDescriptionOf` writes it. */
  lemma EmbeddedStepBarDescription(lib: Hamcrest.Library, p: Hamcrest.Predicate)
    ensures Describe(lib, MapM([("bar", Leaf(p))])) == "a map containing\nbar: " + lib.describe(p)
  {
    var inner := MapM([("bar", Leaf(p))]);
    EmbeddedStepBarWidth(p);
    assert PadLeft("bar", 3) == "bar";
    var lines := MapDescribedLines(lib, inner, 3);
    assert EntryHead(3, "bar") == "\nbar: ";
    assert NestedDescription(lib, 3, Leaf(p)) == lib.describe(p);
    assert lines[0] == DescribeMatcher(lib, 3, "bar", Leaf(p));
    assert lines[0] == EntryHead(3, "bar") + lib.describe(p);
    assert lines[..0] == [];
    assert Concat(lines) == Concat(lines[..0]) + lines[0];
  }

  /** The width of `{foo: {bar: …}}` over an empty map: `foo`'s length. */
  lemma EmbeddedStepFooWidth(p: Hamcrest.Predicate)
    ensures MapKeyWidth(MapM([("foo", MapM([("bar", Leaf(p))]))]), []) == 3
  {
    var inner := MapM([("bar", Leaf(p))]);
    var m := MapM([("foo", inner)]);
    var none: seq<(string, Value)> := [];
    EmbeddedStepBarWidth(p);
    assert MaxKeyWidthForMatcher(Get(none, "foo"), inner) == 1;
    assert MapWidthOver(m, none, 0) == 0;
    assert MapWidthOver(m, none, 1) == 3;
  }

  /** The one entry line of that report: `foo` is missing, and the nested
   *  matcher's description is embedded whole. */
  lemma EmbeddedStepFooEntryLine(lib: Hamcrest.Library, p: Hamcrest.Predicate)
    ensures Concat(MapEntryLines(lib, MapM([("foo", MapM([("bar", Leaf(p))]))]), 3, 3, []))
            == "\nfoo: " + ("expected " + ("a map containing\nbar: " + lib.describe(p)) + " but was <missing>")
  {
    var inner := MapM([("bar", Leaf(p))]);
    var m := MapM([("foo", inner)]);
    var none: seq<(string, Value)> := [];
    EmbeddedStepBarDescription(lib, p);
    assert PadLeft("foo", 3) == "foo";
    assert EntryHead(3, "foo") == "\nfoo: ";
    var entryLines := MapEntryLines(lib, m, 3, 3, none);
    assert entryLines[..0] == [];
    assert "foo" !in KeySet(none);
    assert entryLines[0] == MapEntryLine(lib, 3, 3, ("foo", inner), none);
    assert entryLines[0] == EntryHead(3, "foo") + MissingText(lib, inner);
    assert Concat(entryLines) == Concat(entryLines[..0]) + entryLines[0];
  }

  /** Its report against an empty map: one `<missing>` line embedding the description. */
  lemma EmbeddedStepFooReport(lib: Hamcrest.Library, p: Hamcrest.Predicate)
    ensures DescribeMismatch(lib, MapM([("foo", MapM([("bar", Leaf(p))]))]), MapV([]))
            == "a map containing" + ("\nfoo: " + ("expected " + ("a map containing\nbar: " + lib.describe(p)) + " but was <missing>"))
  {
    var m := MapM([("foo", MapM([("bar", Leaf(p))]))]);
    var none: seq<(string, Value)> := [];
    EmbeddedStepFooWidth(p);
    EmbeddedStepFooEntryLine(lib, p);
    assert Keys(none) == [];
    assert KeysWidth(Keys(m.entries)) == 3;
    assert LocalMapWidth(m.entries, none) == 3;
    assert UnexpectedKeyLines(lib, 3, 3, m.entries, none) == [];
  }

  /** Regrouping the pieces of that report into one literal around the description. */
  lemma EmbeddedStepFooReportText(x: string)
    ensures "a map containing" + ("\nfoo: " + ("expected " + ("a map containing\nbar: " + x) + " but was <missing>"))
            == "a map containing\nfoo: expected a map containing\nbar: " + x + " but was <missing>"
  {
    var a := "a map containing";
    var b := "\nfoo: ";
    var c := "expected ";
    var d := "a map containing\nbar: ";
    var e := " but was <missing>";
    assert c + (d + x) + e == (c + d) + x + e;
    assert b + ((c + d) + x + e) == (b + c + d) + x + e;
    assert a + ((b + c + d) + x + e) == (a + b + c + d) + x + e;
    assert a + b + c + d == "a map containing\nfoo: expected a map containing\nbar: ";
  }

  /** The labels of that report have the width 3. */
  lemma EmbeddedStepFooAligned(p: Hamcrest.Predicate)
    ensures Aligned(MapM([("foo", MapM([("bar", Leaf(p))]))]), 3, MapV([]))
  {
    var m := MapM([("foo", MapM([("bar", Leaf(p))]))]);
    var none: seq<(string, Value)> := [];
    assert Keys(none) == [];
    assert KeysWidth(Keys(m.entries)) == 3;
    assert LabelWidth("foo", LocalMapWidth(m.entries, none), 3) == 3;
  }

  /**
   * `Aligned` covers the recursively rendered report only. A description
   * embedded through `appendDescriptionOf` (the `<missing>` text, or the
   * wrong-type branch of `describeEntryValue`) restarts at the nested
   * matcher's own width: here `bar` lands in `foo`'s column rather than
   * `INDENT` deeper, although the report is `Aligned`.
   */
  lemma EmbeddedDescriptionNotIndented(lib: Hamcrest.Library, p: Hamcrest.Predicate)
    ensures var m := MapM([("foo", MapM([("bar", Leaf(p))]))]);
            var v := MapV([]);
            && KeyWidth(m, v) == 3
            && Aligned(m, KeyWidth(m, v), v)
            && DescribeMismatch(lib, m, v)
               == "a map containing\nfoo: expected a map containing\nbar: " + lib.describe(p) + " but was <missing>"
  {
    EmbeddedStepFooWidth(p);
    EmbeddedStepFooReport(lib, p);
    EmbeddedStepFooReportText(lib.describe(p));
    EmbeddedStepFooAligned(p);
  }
}
