/**
 * The matchers' algorithms as the Java code runs them: loops that keep a
 * running maximum or return early, and `describe*` helpers that append to a
 * shared `Description` one piece at a time. Each is proved to compute the
 * function of module Structure that specifies it. The map-level methods are
 * those of `com.github.nik9000.mapmatcher.MapMatcher`; the list-level ones
 * are the code the three `ListMatcher` copies have in common. Each copy
 * calls the static helpers of its own package's `MapMatcher`; only the
 * `com.github.nik9000.mapmatcher` helpers are modelled, and they stand in
 * for the other two packages' helpers.
 */
module Engine {
  import opened Text
  import opened Values
  import opened Hamcrest
  import S = Structure

  // ------------------------------------------------------------------ widths

  /** `MapMatcher.keyWidth(item)`. */
  method MapKeyWidth(m: S.Matcher, kv: seq<(string, Value)>) returns (max: int)
    requires m.MapM?
    ensures max == S.MapKeyWidth(m, kv)
    decreases m, 1
  {
    max := 0;
    var i := 0;
    while i < |kv|
      invariant 0 <= i <= |kv|
      invariant max == S.ItemKeysWidth(kv, i)
    {
      max := Max(max, |kv[i].0|);
      i := i + 1;
    }
    var j := 0;
    while j < |m.entries|
      invariant 0 <= j <= |m.entries|
      invariant max == S.MapWidthOver(m, kv, j)
    {
      var e := m.entries[j];
      max := Max(max, |e.0|);
      var nested := MaxKeyWidthForMatcher(Get(kv, e.0), e.1);
      max := Max(max, nested);
      j := j + 1;
    }
  }

  /** `MapMatcher.maxKeyWidthForMatcher(item, matcher)`. */
  method MaxKeyWidthForMatcher(v: Value, sub: S.Matcher) returns (w: int)
    ensures w == S.MaxKeyWidthForMatcher(v, sub)
    decreases sub, 2
  {
    match sub
    case MapM(_) =>
      w := MapKeyWidth(sub, S.SubMap(v));
      w := w - S.INDENT;
    case ListM(_) =>
      w := ListKeyWidth(sub, S.SubList(v));
      w := w - S.INDENT;
    case Leaf(_) =>
      w := 0;
  }

  /** `ListMatcher.keyWidth(item)`: the element iterator runs alongside the
   *  matcher iterator and yields `null` once it is exhausted. */
  method ListKeyWidth(m: S.Matcher, vs: seq<Value>) returns (max: int)
    requires m.ListM?
    ensures max == S.ListKeyWidth(m, vs)
    decreases m, 1
  {
    max := |Decimal(|m.items|)|;
    var i := 0;
    while i < |m.items|
      invariant 0 <= i <= |m.items|
      invariant max == S.ListWidthOver(m, vs, i)
    {
      var value := if i < |vs| then vs[i] else Null;
      var nested := MaxKeyWidthForMatcher(value, m.items[i]);
      max := Max(max, nested);
      i := i + 1;
    }
  }

  // ---------------------------------------------------------------- matching

  /** `Matcher.matches(v)`; for the containers `TypeSafeMatcher` checks the
   *  type before calling `matchesSafely`. */
  method Matches(lib: Library, m: S.Matcher, v: Value) returns (b: bool)
    ensures b == S.Matches(lib, m, v)
    decreases m, 1
  {
    match m
    case Leaf(p) =>
      b := lib.matches(p, v);
    case MapM(_) =>
      if v.MapV? {
        b := MapMatchesSafely(lib, m, v.entries);
      } else {
        b := false;
      }
    case ListM(_) =>
      if v.ListV? {
        b := ListMatchesSafely(lib, m, v.items);
      } else {
        b := false;
      }
  }

  /** `MapMatcher.matchesSafely(item)`: size, then key set, then each entry
   *  in insertion order, returning at the first failure. */
  method MapMatchesSafely(lib: Library, m: S.Matcher, kv: seq<(string, Value)>) returns (b: bool)
    requires m.MapM?
    ensures b == S.MapMatchesSafely(lib, m, kv)
    decreases m, 0
  {
    if |kv| != |m.entries| {
      return false;
    }
    if KeySet(kv) != KeySet(m.entries) {
      return false;
    }
    var i := 0;
    while i < |m.entries|
      invariant 0 <= i <= |m.entries|
      invariant forall k :: 0 <= k < i ==>
        m.entries[k].0 in KeySet(kv) && S.Matches(lib, m.entries[k].1, Get(kv, m.entries[k].0))
    {
      var e := m.entries[i];
      if e.0 !in KeySet(kv) {
        return false;
      }
      var ok := Matches(lib, e.1, Get(kv, e.0));
      if !ok {
        return false;
      }
      i := i + 1;
    }
    return true;
  }

  /** `ListMatcher.matchesSafely(item)`: length, then each position in order. */
  method ListMatchesSafely(lib: Library, m: S.Matcher, vs: seq<Value>) returns (b: bool)
    requires m.ListM?
    ensures b == S.ListMatchesSafely(lib, m, vs)
    decreases m, 0
  {
    if |vs| != |m.items| {
      return false;
    }
    var i := 0;
    while i < |m.items|
      invariant 0 <= i <= |m.items|
      invariant forall k :: 0 <= k < i ==> S.Matches(lib, m.items[k], vs[k])
    {
      var ok := Matches(lib, m.items[i], vs[i]);
      if !ok {
        return false;
      }
      i := i + 1;
    }
    return true;
  }

  // -------------------------------------------------------------- describeTo

  /** `matcher.describeTo(d)` as `appendDescriptionOf` calls it. */
  method DescribeInto(lib: Library, m: S.Matcher, d: Description)
    modifies d
    ensures d.text == old(d.text) + S.Describe(lib, m)
  {
    match m
    case Leaf(p) =>
      d.AppendText(lib.describe(p));
    case MapM(_) =>
      var w := MapKeyWidth(m, []);
      MapDescribeTo(lib, m, w, d);
    case ListM(_) =>
      var w := ListKeyWidth(m, []);
      ListDescribeTo(lib, m, w, d);
  }

  /** `MapMatcher.describeTo(keyWidth, d)`. */
  method MapDescribeTo(lib: Library, m: S.Matcher, width: int, d: Description)
    requires m.MapM?
    modifies d
    ensures d.text == old(d.text) + S.MapDescribeTo(lib, m, width)
    decreases m, 1
  {
    if |m.entries| == 0 {
      d.AppendText("an empty map");
      return;
    }
    d.AppendText("a map containing");
    ghost var start := d.text;
    ghost var lines := S.MapDescribedLines(lib, m, width);
    var i := 0;
    while i < |m.entries|
      invariant 0 <= i <= |m.entries|
      invariant d.text == start + Concat(lines[..i])
    {
      DescribeMatcher(lib, width, m.entries[i].0, m.entries[i].1, d);
      ConcatStep(lines, i);
      AppendAssoc(start, Concat(lines[..i]), lines[i]);
      i := i + 1;
    }
    assert lines[..i] == lines;
    AppendAssoc(old(d.text), "a map containing", Concat(lines));
  }

  /** `ListMatcher.describeTo(keyWidth, d)`: labels are the indices 0, 1, ... */
  method ListDescribeTo(lib: Library, m: S.Matcher, width: int, d: Description)
    requires m.ListM?
    modifies d
    ensures d.text == old(d.text) + S.ListDescribeTo(lib, m, width)
    decreases m, 1
  {
    if |m.items| == 0 {
      d.AppendText("an empty list");
      return;
    }
    d.AppendText("a list containing");
    ghost var start := d.text;
    ghost var lines := S.ListDescribedLines(lib, m, width);
    var index := 0;
    while index < |m.items|
      invariant 0 <= index <= |m.items|
      invariant d.text == start + Concat(lines[..index])
    {
      DescribeMatcher(lib, width, Decimal(index), m.items[index], d);
      ConcatStep(lines, index);
      AppendAssoc(start, Concat(lines[..index]), lines[index]);
      index := index + 1;
    }
    assert lines[..index] == lines;
    AppendAssoc(old(d.text), "a list containing", Concat(lines));
  }

  /** `MapMatcher.describeMatcher(keyWidth, key, matcher, d)`. */
  method DescribeMatcher(lib: Library, width: int, key: string, sub: S.Matcher, d: Description)
    modifies d
    ensures d.text == old(d.text) + S.DescribeMatcher(lib, width, key, sub)
    decreases sub, 3
  {
    DescribeEntry(width, key, d);
    match sub {
      case MapM(_) =>
        MapDescribeTo(lib, sub, width + S.INDENT, d);
      case ListM(_) =>
        ListDescribeTo(lib, sub, width + S.INDENT, d);
      case Leaf(p) =>
        d.AppendText(lib.describe(p));
    }
    AppendAssoc(old(d.text), S.EntryHead(width, key), S.NestedDescription(lib, width, sub));
  }

  // ------------------------------------------------- describePotentialMismatch

  /** `matcher.describeMismatch(v, d)`: for a container, `describeMismatchSafely`
   *  computes the width and renders; a wrong type is `TypeSafeMatcher`'s text. */
  method DescribeMismatchInto(lib: Library, m: S.Matcher, v: Value, d: Description)
    modifies d
    ensures d.text == old(d.text) + S.DescribeMismatch(lib, m, v)
    decreases m, 2
  {
    match m
    case Leaf(p) =>
      d.AppendText(lib.describeMismatch(p, v));
    case MapM(_) =>
      if v.MapV? {
        var w := MapKeyWidth(m, v.entries);
        MapDescribePotentialMismatch(lib, m, w, v.entries, d);
      } else {
        d.AppendText(lib.typeMismatch(v));
      }
    case ListM(_) =>
      if v.ListV? {
        var w := ListKeyWidth(m, v.items);
        ListDescribePotentialMismatch(lib, m, w, v.items, d);
      } else {
        d.AppendText(lib.typeMismatch(v));
      }
  }

  /** `MapMatcher.describeEntry(keyWidth, key, d)`. */
  method DescribeEntry(width: int, key: string, d: Description)
    modifies d
    ensures d.text == old(d.text) + S.EntryHead(width, key)
  {
    ghost var before := d.text;
    d.AppendText("\n" + PadLeft(key, width));
    d.AppendText(": ");
    AppendAssoc(before, "\n" + PadLeft(key, width), ": ");
  }

  /** `MapMatcher.describeEntryMissing(matcher, d)`. */
  method DescribeEntryMissing(lib: Library, sub: S.Matcher, d: Description)
    modifies d
    ensures d.text == old(d.text) + S.MissingText(lib, sub)
  {
    ghost var before := d.text;
    d.AppendText("expected ");
    DescribeInto(lib, sub, d);
    d.AppendText(" but was <missing>");
    AppendAssoc(before, "expected ", S.Describe(lib, sub));
    AppendAssoc(before, "expected " + S.Describe(lib, sub), " but was <missing>");
  }

  /** `MapMatcher.describeEntryUnexepected(value, d)`. */
  method DescribeEntryUnexpected(lib: Library, v: Value, d: Description)
    modifies d
    ensures d.text == old(d.text) + S.UnexpectedText(lib, v)
  {
    d.AppendText("<unexpected> but was ");
    d.AppendText(lib.appendValue(v));
  }

  /** `MapMatcher.describeEntryValue(keyWidth, matcher, v, d)`. */
  method DescribeEntryValue(lib: Library, width: int, sub: S.Matcher, v: Value, d: Description)
    modifies d
    ensures d.text == old(d.text) + S.EntryValueText(lib, width, sub, v)
    decreases sub, 3
  {
    if v.MapV? && sub.MapM? {
      MapDescribePotentialMismatch(lib, sub, width + S.INDENT, v.entries, d);
      return;
    }
    if v.ListV? && sub.ListM? {
      ListDescribePotentialMismatch(lib, sub, width + S.INDENT, v.items, d);
      return;
    }
    var ok := Matches(lib, sub, v);
    if !ok {
      ghost var before := d.text;
      d.AppendText("expected ");
      DescribeInto(lib, sub, d);
      d.AppendText(" but ");
      DescribeMismatchInto(lib, sub, v, d);
      ghost var expected := "expected " + S.Describe(lib, sub);
      AppendAssoc(before, "expected ", S.Describe(lib, sub));
      AppendAssoc(before, expected, " but ");
      AppendAssoc(before, expected + " but ", S.DescribeMismatch(lib, sub, v));
      return;
    }
    d.AppendText(lib.appendValue(v));
  }

  /** `MapMatcher.describePotentialMismatch(keyWidth, item, d)`: the matcher's
   *  entries in insertion order, then the item's extra keys in its order. */
  method MapDescribePotentialMismatch(lib: Library, m: S.Matcher, width: int, kv: seq<(string, Value)>,
                                      d: Description)
    requires m.MapM?
    modifies d
    ensures d.text == old(d.text) + S.MapMismatch(lib, m, width, kv)
    decreases m, 1
  {
    if |m.entries| == 0 {
      d.AppendText("an empty map");
      return;
    }
    d.AppendText("a map containing");
    var maxKeyWidth := S.LocalMapWidth(m.entries, kv);
    DescribeMapEntries(lib, m, width, maxKeyWidth, kv, d);
    DescribeUnexpectedKeys(lib, width, maxKeyWidth, m.entries, kv, d);
    ghost var lines := Concat(S.MapEntryLines(lib, m, width, maxKeyWidth, kv));
    ghost var extra := Concat(S.UnexpectedKeyLines(lib, width, maxKeyWidth, m.entries, kv));
    AppendAssoc(old(d.text), "a map containing", lines);
    AppendAssoc(old(d.text), "a map containing" + lines, extra);
  }

  /** The loop of `MapMatcher.describePotentialMismatch` over the matcher's entries. */
  method DescribeMapEntries(lib: Library, m: S.Matcher, width: int, maxKeyWidth: int, kv: seq<(string, Value)>,
                            d: Description)
    requires m.MapM?
    modifies d
    ensures d.text == old(d.text) + Concat(S.MapEntryLines(lib, m, width, maxKeyWidth, kv))
    decreases m, 0
  {
    ghost var lines := S.MapEntryLines(lib, m, width, maxKeyWidth, kv);
    var i := 0;
    while i < |m.entries|
      invariant 0 <= i <= |m.entries|
      invariant d.text == old(d.text) + Concat(lines[..i])
    {
      DescribeMapEntry(lib, width, maxKeyWidth, m.entries[i], kv, d);
      ConcatStep(lines, i);
      AppendAssoc(old(d.text), Concat(lines[..i]), lines[i]);
      i := i + 1;
    }
    assert lines[..i] == lines;
  }

  /** The loop of `MapMatcher.describePotentialMismatch` over the item's entries:
   *  a line for each key the matcher lacks. */
  method DescribeUnexpectedKeys(lib: Library, width: int, maxKeyWidth: int, es: seq<(string, S.Matcher)>,
                                kv: seq<(string, Value)>, d: Description)
    modifies d
    ensures d.text == old(d.text) + Concat(S.UnexpectedKeyLines(lib, width, maxKeyWidth, es, kv))
  {
    ghost var lines := S.UnexpectedKeyLines(lib, width, maxKeyWidth, es, kv);
    var j := 0;
    while j < |kv|
      invariant 0 <= j <= |kv|
      invariant d.text == old(d.text) + Concat(lines[..j])
    {
      DescribeUnexpectedKey(lib, width, maxKeyWidth, es, kv[j], d);
      ConcatStep(lines, j);
      AppendAssoc(old(d.text), Concat(lines[..j]), lines[j]);
      j := j + 1;
    }
    assert lines[..j] == lines;
  }

  /** One pass of the loop over the item's entries. */
  method DescribeUnexpectedKey(lib: Library, width: int, maxKeyWidth: int, es: seq<(string, S.Matcher)>,
                               e: (string, Value), d: Description)
    modifies d
    ensures d.text == old(d.text) + S.UnexpectedKeyLine(lib, width, maxKeyWidth, es, e)
  {
    if e.0 !in KeySet(es) {
      DescribeEntry(width, PadLeft(e.0, maxKeyWidth), d);
      DescribeEntryUnexpected(lib, e.1, d);
      AppendAssoc(old(d.text), S.EntryHead(width, PadLeft(e.0, maxKeyWidth)), S.UnexpectedText(lib, e.1));
    }
  }

  /** One pass of the entry loop of `MapMatcher.describePotentialMismatch`. */
  method DescribeMapEntry(lib: Library, width: int, maxKeyWidth: int, e: (string, S.Matcher),
                          kv: seq<(string, Value)>, d: Description)
    modifies d
    ensures d.text == old(d.text) + S.MapEntryLine(lib, width, maxKeyWidth, e, kv)
    decreases e.1, 4
  {
    ghost var before := d.text;
    DescribeEntry(width, PadLeft(e.0, maxKeyWidth), d);
    ghost var outcome: string;
    if e.0 !in KeySet(kv) {
      DescribeEntryMissing(lib, e.1, d);
      outcome := S.MissingText(lib, e.1);
    } else {
      DescribeEntryValue(lib, width, e.1, Get(kv, e.0), d);
      outcome := S.EntryValueText(lib, width, e.1, Get(kv, e.0));
    }
    AppendAssoc(before, S.EntryHead(width, PadLeft(e.0, maxKeyWidth)), outcome);
  }

  /** `ListMatcher.describePotentialMismatch(keyWidth, item, d)`: one line per
   *  matcher position, then one per extra element, indices running on. */
  method ListDescribePotentialMismatch(lib: Library, m: S.Matcher, width: int, vs: seq<Value>, d: Description)
    requires m.ListM?
    modifies d
    ensures d.text == old(d.text) + S.ListMismatch(lib, m, width, vs)
    decreases m, 1
  {
    if |m.items| == 0 {
      d.AppendText("an empty list");
      return;
    }
    d.AppendText("a list containing");
    var maxKeyWidth := |Decimal(Max(|vs|, |m.items|))|;
    DescribeListEntries(lib, m, width, maxKeyWidth, vs, d);
    DescribeUnexpectedElements(lib, width, maxKeyWidth, |m.items|, vs, d);
    ghost var lines := Concat(S.ListEntryLines(lib, m, width, maxKeyWidth, vs));
    ghost var extra := Concat(S.ListUnexpectedLines(lib, width, maxKeyWidth, |m.items|, vs));
    AppendAssoc(old(d.text), "a list containing", lines);
    AppendAssoc(old(d.text), "a list containing" + lines, extra);
  }

  /** The loop of `ListMatcher.describePotentialMismatch` over the matcher's positions. */
  method DescribeListEntries(lib: Library, m: S.Matcher, width: int, maxKeyWidth: int, vs: seq<Value>,
                             d: Description)
    requires m.ListM?
    modifies d
    ensures d.text == old(d.text) + Concat(S.ListEntryLines(lib, m, width, maxKeyWidth, vs))
    decreases m, 0
  {
    ghost var lines := S.ListEntryLines(lib, m, width, maxKeyWidth, vs);
    var index := 0;
    while index < |m.items|
      invariant 0 <= index <= |m.items|
      invariant d.text == old(d.text) + Concat(lines[..index])
    {
      DescribeListEntry(lib, width, maxKeyWidth, index, m.items[index], vs, d);
      ConcatStep(lines, index);
      AppendAssoc(old(d.text), Concat(lines[..index]), lines[index]);
      index := index + 1;
    }
    assert lines[..index] == lines;
  }

  /** The loop of `ListMatcher.describePotentialMismatch` over the elements past
   *  the matcher's end, whose indices continue from `from`. */
  method DescribeUnexpectedElements(lib: Library, width: int, maxKeyWidth: int, from: nat, vs: seq<Value>,
                                    d: Description)
    modifies d
    ensures d.text == old(d.text) + Concat(S.ListUnexpectedLines(lib, width, maxKeyWidth, from, vs))
  {
    ghost var lines := S.ListUnexpectedLines(lib, width, maxKeyWidth, from, vs);
    var index := from;
    while index < |vs|
      invariant from <= index
      invariant index - from <= |lines|
      invariant index < |vs| ==> index - from < |lines|
      invariant d.text == old(d.text) + Concat(lines[..index - from])
    {
      DescribeEntry(width, PadLeft(Decimal(index), maxKeyWidth), d);
      DescribeEntryUnexpected(lib, vs[index], d);
      AppendAssoc(old(d.text) + Concat(lines[..index - from]), S.EntryHead(width, PadLeft(Decimal(index), maxKeyWidth)),
                  S.UnexpectedText(lib, vs[index]));
      ConcatStep(lines, index - from);
      AppendAssoc(old(d.text), Concat(lines[..index - from]), lines[index - from]);
      index := index + 1;
    }
    assert lines[..index - from] == lines;
  }

  /** One pass of the first loop of `ListMatcher.describePotentialMismatch`. */
  method DescribeListEntry(lib: Library, width: int, maxKeyWidth: int, index: nat, sub: S.Matcher,
                           vs: seq<Value>, d: Description)
    modifies d
    ensures d.text == old(d.text) + S.ListEntryLine(lib, width, maxKeyWidth, index, sub, vs)
    decreases sub, 4
  {
    ghost var before := d.text;
    DescribeEntry(width, PadLeft(Decimal(index), maxKeyWidth), d);
    ghost var outcome: string;
    if index >= |vs| {
      DescribeEntryMissing(lib, sub, d);
      outcome := S.MissingText(lib, sub);
    } else {
      DescribeEntryValue(lib, width, sub, vs[index], d);
      outcome := S.EntryValueText(lib, width, sub, vs[index]);
    }
    AppendAssoc(before, S.EntryHead(width, PadLeft(Decimal(index), maxKeyWidth)), outcome);
  }
}
