/**
 * The matcher tree and what the matchers compute over it, as functions:
 * `matchesSafely`, the width look-ahead (`keyWidth`,
 * `maxKeyWidthForMatcher`) and the two renderings (`describeTo` and
 * `describePotentialMismatch`). The methods of module Engine append the
 * same text to a `Description` step by step and are proved to produce
 * exactly these values.
 */
module Structure {
  import opened Text
  import opened Values
  import opened Hamcrest

  /** `MapMatcher.INDENT`: how much deeper a nested container is rendered. */
  const INDENT := 2

  /** A `MapMatcher` (keyed children in insertion order), a `ListMatcher`
   *  (positional children) or any other Hamcrest matcher. */
  datatype Matcher =
    | Leaf(p: Predicate)
    | MapM(entries: seq<(string, Matcher)>)
    | ListM(items: seq<Matcher>)

  /** Every `MapMatcher` in the tree has distinct keys: its `LinkedHashMap`
   *  cannot hold a key twice. */
  ghost predicate WellFormed(m: Matcher)
  {
    match m
    case Leaf(_) => true
    case MapM(es) => DistinctKeys(es) && forall i :: 0 <= i < |es| ==> WellFormed(es[i].1)
    case ListM(ms) => forall i :: 0 <= i < |ms| ==> WellFormed(ms[i])
  }

  // ---------------------------------------------------------------- matching

  /** `Matcher.matches(v)`. The container matchers are `TypeSafeMatcher`s:
   *  a value of the wrong type (or `null`) never matches. */
  predicate Matches(lib: Library, m: Matcher, v: Value)
    decreases m, 1, 0
  {
    match m
    case Leaf(p) => lib.matches(p, v)
    case MapM(_) => v.MapV? && MapMatchesSafely(lib, m, v.entries)
    case ListM(_) => v.ListV? && ListMatchesSafely(lib, m, v.items)
  }

  /** `MapMatcher.matchesSafely`: same size, same key set, and every entry's
   *  matcher accepts the value stored under its key. */
  predicate MapMatchesSafely(lib: Library, m: Matcher, kv: seq<(string, Value)>)
    requires m.MapM?
    decreases m, 0, 0
  {
    && |kv| == |m.entries|
    && KeySet(kv) == KeySet(m.entries)
    && forall i :: 0 <= i < |m.entries| ==>
         m.entries[i].0 in KeySet(kv) && Matches(lib, m.entries[i].1, Get(kv, m.entries[i].0))
  }

  /** `ListMatcher.matchesSafely`: same length and pairwise matches. */
  predicate ListMatchesSafely(lib: Library, m: Matcher, vs: seq<Value>)
    requires m.ListM?
    decreases m, 0, 0
  {
    && |vs| == |m.items|
    && forall i :: 0 <= i < |m.items| ==> Matches(lib, m.items[i], vs[i])
  }

  // ------------------------------------------------------------------ widths

  /** The longest of the first `n` keys of the item (0 for none). */
  function ItemKeysWidth(kv: seq<(string, Value)>, n: nat): int
    requires n <= |kv|
  {
    if n == 0 then 0 else Max(ItemKeysWidth(kv, n - 1), |kv[n - 1].0|)
  }

  /** `MapMatcher.keyWidth(item)` after the item's keys and the first `n`
   *  entries of the matcher have been looked at. */
  function MapWidthOver(m: Matcher, kv: seq<(string, Value)>, n: nat): int
    requires m.MapM? && n <= |m.entries|
    decreases m, 0, n
  {
    if n == 0 then ItemKeysWidth(kv, |kv|)
    else
      var e := m.entries[n - 1];
      Max(Max(MapWidthOver(m, kv, n - 1), |e.0|), MaxKeyWidthForMatcher(Get(kv, e.0), e.1))
  }

  /** `MapMatcher.keyWidth(item)`. */
  function MapKeyWidth(m: Matcher, kv: seq<(string, Value)>): int
    requires m.MapM?
    decreases m, 1, 0
  {
    MapWidthOver(m, kv, |m.entries|)
  }

  /** `ListMatcher.keyWidth(item)` after the first `n` positions; the
   *  element paired with a position past the item's end is `null`. */
  function ListWidthOver(m: Matcher, vs: seq<Value>, n: nat): int
    requires m.ListM? && n <= |m.items|
    decreases m, 0, n
  {
    if n == 0 then |Decimal(|m.items|)|
    else Max(ListWidthOver(m, vs, n - 1), MaxKeyWidthForMatcher(ElementOrNull(vs, n - 1), m.items[n - 1]))
  }

  /** `ListMatcher.keyWidth(item)`. */
  function ListKeyWidth(m: Matcher, vs: seq<Value>): int
    requires m.ListM?
    decreases m, 1, 0
  {
    ListWidthOver(m, vs, |m.items|)
  }

  function ElementOrNull(vs: seq<Value>, i: nat): Value
  {
    if i < |vs| then vs[i] else Null
  }

  /** The entries of `v` when it is a map, else none (`Map.of()`). */
  function SubMap(v: Value): seq<(string, Value)>
  {
    if v.MapV? then v.entries else []
  }

  /** The elements of `v` when it is a list, else none (`List.of()`). */
  function SubList(v: Value): seq<Value>
  {
    if v.ListV? then v.items else []
  }

  /** `MapMatcher.maxKeyWidthForMatcher(item, matcher)`: a nested container
   *  contributes its own width over the paired sub-value, less `INDENT`. */
  function MaxKeyWidthForMatcher(v: Value, sub: Matcher): int
    decreases sub, 2, 0
  {
    match sub
    case MapM(_) => MapKeyWidth(sub, SubMap(v)) - INDENT
    case ListM(_) => ListKeyWidth(sub, SubList(v)) - INDENT
    case Leaf(_) => 0
  }

  /** The width a container matcher renders `v` at when it is the outermost
   *  one (`describeMismatchSafely`, `describeTo(Description)`). */
  function KeyWidth(m: Matcher, v: Value): int
  {
    match m
    case MapM(_) => MapKeyWidth(m, SubMap(v))
    case ListM(_) => ListKeyWidth(m, SubList(v))
    case Leaf(_) => 0
  }

  // ----------------------------------------------------------- shared pieces

  /** `describeEntry` / the head of `describeMatcher`: a new line, the key
   *  right-justified to `width`, and `": "`. */
  function EntryHead(width: int, key: string): string
  {
    "\n" + PadLeft(key, width) + ": "
  }

  /** The widest key a map mismatch prints: every key of the matcher and of
   *  the item (the `maxKeyWidth` stream). */
  function LocalMapWidth(es: seq<(string, Matcher)>, kv: seq<(string, Value)>): int
  {
    Max(KeysWidth(Keys(es)), KeysWidth(Keys(kv)))
  }

  function KeysWidth(ks: seq<string>): int
  {
    if |ks| == 0 then 0 else Max(KeysWidth(ks[..|ks| - 1]), |ks[|ks| - 1]|)
  }

  /** The digit count list labels are padded to (`maxKeyWidth` of a list). */
  function LocalListWidth(m: Matcher, vs: seq<Value>): int
    requires m.ListM?
  {
    |Decimal(Max(|vs|, |m.items|))|
  }

  // -------------------------------------------------------------- describeTo

  /** `matcher.describeTo(Description)`, i.e. `appendDescriptionOf(matcher)`:
   *  a container starts afresh at its own width over an empty item. */
  function Describe(lib: Library, m: Matcher): string
  {
    match m
    case Leaf(p) => lib.describe(p)
    case MapM(_) => MapDescribeTo(lib, m, MapKeyWidth(m, []))
    case ListM(_) => ListDescribeTo(lib, m, ListKeyWidth(m, []))
  }

  /** `MapMatcher.describeTo(keyWidth, d)`. */
  function MapDescribeTo(lib: Library, m: Matcher, width: int): (r: string)
    requires m.MapM?
    ensures r == "an empty map" <==> |m.entries| == 0
    ensures |m.entries| > 0 ==> |"a map containing"| <= |r| && r[..|"a map containing"|] == "a map containing"
    decreases m, 1, 0
  {
    if |m.entries| == 0 then "an empty map"
    else "a map containing" + Concat(MapDescribedLines(lib, m, width))
  }

  /** The lines `describeTo` writes, one per entry of the matcher. */
  function MapDescribedLines(lib: Library, m: Matcher, width: int): (r: seq<string>)
    requires m.MapM?
    ensures |r| == |m.entries|
    ensures forall i :: 0 <= i < |r| ==> r[i] == DescribeMatcher(lib, width, m.entries[i].0, m.entries[i].1)
    decreases m, 0, 0
  {
    seq(|m.entries|, i requires 0 <= i < |m.entries| => DescribeMatcher(lib, width, m.entries[i].0, m.entries[i].1))
  }

  /** `ListMatcher.describeTo(keyWidth, d)`. */
  function ListDescribeTo(lib: Library, m: Matcher, width: int): (r: string)
    requires m.ListM?
    ensures r == "an empty list" <==> |m.items| == 0
    ensures |m.items| > 0 ==> |"a list containing"| <= |r| && r[..|"a list containing"|] == "a list containing"
    decreases m, 1, 0
  {
    if |m.items| == 0 then "an empty list"
    else "a list containing" + Concat(ListDescribedLines(lib, m, width))
  }

  /** The lines `describeTo` writes, one per position, labelled by index. */
  function ListDescribedLines(lib: Library, m: Matcher, width: int): (r: seq<string>)
    requires m.ListM?
    ensures |r| == |m.items|
    ensures forall i :: 0 <= i < |r| ==> r[i] == DescribeMatcher(lib, width, Decimal(i), m.items[i])
    decreases m, 0, 0
  {
    seq(|m.items|, i requires 0 <= i < |m.items| => DescribeMatcher(lib, width, Decimal(i), m.items[i]))
  }

  /** `MapMatcher.describeMatcher(keyWidth, key, matcher, d)`: nested
   *  containers continue at `keyWidth + INDENT`. */
  function DescribeMatcher(lib: Library, width: int, key: string, sub: Matcher): string
    decreases sub, 3, 0
  {
    EntryHead(width, key) + NestedDescription(lib, width, sub)
  }

  /** What `describeMatcher` writes after the key: a nested container at
   *  `keyWidth + INDENT`, or the leaf's own description. */
  function NestedDescription(lib: Library, width: int, sub: Matcher): string
    decreases sub, 2, 0
  {
    match sub
    case MapM(_) => MapDescribeTo(lib, sub, width + INDENT)
    case ListM(_) => ListDescribeTo(lib, sub, width + INDENT)
    case Leaf(p) => lib.describe(p)
  }

  // ------------------------------------------------- describePotentialMismatch

  /** `describeEntryMissing`. */
  function MissingText(lib: Library, sub: Matcher): string
  {
    "expected " + Describe(lib, sub) + " but was <missing>"
  }

  /** `describeEntryUnexepected`. */
  function UnexpectedText(lib: Library, v: Value): string
  {
    "<unexpected> but was " + lib.appendValue(v)
  }

  /** `matcher.describeMismatch(v, d)`. */
  function DescribeMismatch(lib: Library, m: Matcher, v: Value): string
    decreases m, 2, 0
  {
    match m
    case Leaf(p) => lib.describeMismatch(p, v)
    case MapM(_) =>
      if v.MapV? then MapMismatch(lib, m, MapKeyWidth(m, v.entries), v.entries) else lib.typeMismatch(v)
    case ListM(_) =>
      if v.ListV? then ListMismatch(lib, m, ListKeyWidth(m, v.items), v.items) else lib.typeMismatch(v)
  }

  /** `describeEntryValue(keyWidth, matcher, v, d)`: recurse when the matcher
   *  and the value are the same kind of container, else explain a failure,
   *  else print the value. */
  function EntryValueText(lib: Library, width: int, sub: Matcher, v: Value): string
    decreases sub, 3, 0
  {
    if v.MapV? && sub.MapM? then MapMismatch(lib, sub, width + INDENT, v.entries)
    else if v.ListV? && sub.ListM? then ListMismatch(lib, sub, width + INDENT, v.items)
    else if !Matches(lib, sub, v) then "expected " + Describe(lib, sub) + " but " + DescribeMismatch(lib, sub, v)
    else lib.appendValue(v)
  }

  /** `MapMatcher.describePotentialMismatch(keyWidth, item, d)`. */
  function MapMismatch(lib: Library, m: Matcher, width: int, kv: seq<(string, Value)>): (r: string)
    requires m.MapM?
    ensures r == "an empty map" <==> |m.entries| == 0
    ensures |m.entries| > 0 ==> |"a map containing"| <= |r| && r[..|"a map containing"|] == "a map containing"
    decreases m, 1, 0
  {
    if |m.entries| == 0 then "an empty map"
    else
      var local := LocalMapWidth(m.entries, kv);
      "a map containing"
      + Concat(MapEntryLines(lib, m, width, local, kv))
      + Concat(UnexpectedKeyLines(lib, width, local, m.entries, kv))
  }

  /** The lines for the entries of the matcher, in insertion order. */
  function MapEntryLines(lib: Library, m: Matcher, width: int, local: int, kv: seq<(string, Value)>): (r: seq<string>)
    requires m.MapM?
    ensures |r| == |m.entries|
    ensures forall i :: 0 <= i < |r| ==> r[i] == MapEntryLine(lib, width, local, m.entries[i], kv)
    decreases m, 0, 0
  {
    seq(|m.entries|, i requires 0 <= i < |m.entries| => MapEntryLine(lib, width, local, m.entries[i], kv))
  }

  /** The line for one entry of the matcher: missing, or its value's outcome. */
  function MapEntryLine(lib: Library, width: int, local: int, e: (string, Matcher), kv: seq<(string, Value)>): string
    decreases e.1, 4, 0
  {
    EntryHead(width, PadLeft(e.0, local))
    + if e.0 !in KeySet(kv) then MissingText(lib, e.1) else EntryValueText(lib, width, e.1, Get(kv, e.0))
  }

  /** The lines for the item's entries, in its order; empty for a key the matcher has. */
  function UnexpectedKeyLines(lib: Library, width: int, local: int, es: seq<(string, Matcher)>,
                              kv: seq<(string, Value)>): (r: seq<string>)
    ensures |r| == |kv|
    ensures forall i :: 0 <= i < |r| ==> r[i] == UnexpectedKeyLine(lib, width, local, es, kv[i])
  {
    seq(|kv|, i requires 0 <= i < |kv| => UnexpectedKeyLine(lib, width, local, es, kv[i]))
  }

  /** The line for one item entry: nothing when the matcher has its key. */
  function UnexpectedKeyLine(lib: Library, width: int, local: int, es: seq<(string, Matcher)>,
                             e: (string, Value)): string
  {
    if e.0 in KeySet(es) then "" else EntryHead(width, PadLeft(e.0, local)) + UnexpectedText(lib, e.1)
  }

  /** `ListMatcher.describePotentialMismatch(keyWidth, item, d)`. */
  function ListMismatch(lib: Library, m: Matcher, width: int, vs: seq<Value>): (r: string)
    requires m.ListM?
    ensures r == "an empty list" <==> |m.items| == 0
    ensures |m.items| > 0 ==> |"a list containing"| <= |r| && r[..|"a list containing"|] == "a list containing"
    decreases m, 1, 0
  {
    if |m.items| == 0 then "an empty list"
    else
      var local := LocalListWidth(m, vs);
      "a list containing"
      + Concat(ListEntryLines(lib, m, width, local, vs))
      + Concat(ListUnexpectedLines(lib, width, local, |m.items|, vs))
  }

  /** The lines for the positions of the matcher. */
  function ListEntryLines(lib: Library, m: Matcher, width: int, local: int, vs: seq<Value>): (r: seq<string>)
    requires m.ListM?
    ensures |r| == |m.items|
    ensures forall i :: 0 <= i < |r| ==> r[i] == ListEntryLine(lib, width, local, i, m.items[i], vs)
    decreases m, 0, 0
  {
    seq(|m.items|, i requires 0 <= i < |m.items| => ListEntryLine(lib, width, local, i, m.items[i], vs))
  }

  /** The line for position `index`: missing past the item's end, else the outcome. */
  function ListEntryLine(lib: Library, width: int, local: int, index: nat, sub: Matcher, vs: seq<Value>): string
    decreases sub, 4, 0
  {
    EntryHead(width, PadLeft(Decimal(index), local))
    + if index >= |vs| then MissingText(lib, sub) else EntryValueText(lib, width, sub, vs[index])
  }

  /** The lines for the elements of the item from position `start` on. */
  function ListUnexpectedLines(lib: Library, width: int, local: int, start: nat, vs: seq<Value>): (r: seq<string>)
    ensures |r| == if |vs| <= start then 0 else |vs| - start
    ensures forall i :: 0 <= i < |r| ==> r[i] == ListUnexpectedLine(lib, width, local, start + i, vs[start + i])
  {
    if |vs| <= start then []
    else seq(|vs| - start, i requires 0 <= i < |vs| - start => ListUnexpectedLine(lib, width, local, start + i, vs[start + i]))
  }

  /** The line for an element past the matcher's end. */
  function ListUnexpectedLine(lib: Library, width: int, local: int, index: nat, v: Value): string
  {
    EntryHead(width, PadLeft(Decimal(index), local)) + UnexpectedText(lib, v)
  }
}
