# mapmatcher, modelled in Dafny

mapmatcher is a Hamcrest matcher library for nested Java maps and lists.
It reports every difference at once. A `MapMatcher` holds a key for each
expected entry, and each key has a child matcher. A `ListMatcher` holds one
child matcher per expected position. A child is either another
`MapMatcher`/`ListMatcher` or any other Hamcrest matcher (a leaf).

This project models the matcher core in three passes:

- **Matching.** `matchesSafely` holds when the map has exactly the matcher's
  key set, or the list has exactly the matcher's length, and every child
  accepts the value at its key or position.
- **Width.** `keyWidth` and `maxKeyWidthForMatcher` look ahead through the
  expected tree and the actual value together. They pick the column width
  every label of a container is padded to. A nested container contributes
  its own width less `INDENT` (2).
- **Rendering.** `describeTo` and `describePotentialMismatch` append text
  to a Hamcrest `Description`. They write `a map containing` or
  `a list containing`. Then come one line per matcher entry, then one
  `<unexpected>` line per extra key or element. Each line is a new line,
  the label right-justified to the width, `: ` and the outcome. Nested
  containers are rendered at the width plus `INDENT`.

Layout:

- `Structure` states each pass as functions over a matcher tree
  (`Leaf | MapM | ListM`) and a value tree (`Scalar | Null | MapV | ListV`).
- `Engine` holds the Java loops and the step-by-step appends to a
  `Description`. Each is proved to compute exactly its `Structure` function.
- The builders are:
  - `ComMapMatcher.MapMatcher`: a class whose `LinkedHashMap` is an
    association list that `Entry` updates in place;
  - `ComListMatcher.ListMatcher` and `LibListMatcher.ListMatcher`: classes
    for the two mutable list copies;
  - `IoListMatcher.ListMatcher`: a value, because its `item` is
    copy-on-write.
- `Widths`, `Alignment`, `Verdict` and `Report` prove what the passes
  promise:
  - the width is the maximum of its candidates;
  - labels line up;
  - the report flags a problem exactly when the value does not match;
  - the `<unexpected>` blocks are empty exactly when nothing is extra.

Hamcrest itself is a parameter, `Hamcrest.Library`. It supplies:

- a leaf's `matches`, `describeTo` and `describeMismatch`;
- `appendValue`;
- `TypeSafeMatcher`'s text for a value of the wrong type.

The three `ListMatcher` copies run the same algorithm. They differ in
how `item` builds the matcher, and the `com` copy adds `assertList`. Each copy calls the static helpers of the
`MapMatcher` in its own package. The model assumes that those helpers are
the ones of `lib/src/main/java/com/github/nik9000/mapmatcher/MapMatcher.java`,
the only `MapMatcher` it models, for all three copies.

## Model

| member | source | states |
|---|---|---|
| Text.PadLeftShape | lib/src/main/java/com/github/nik9000/mapmatcher/MapMatcher.java:200-203 | `%<w>s` right-justifies: the key is unchanged at the end and preceded by blanks only |
| Text.PadLeftTwice | lib/src/main/java/com/github/nik9000/mapmatcher/MapMatcher.java:182-185 | padding a key first to one width and then to another gives the same string as one padding to the larger width |
| Text.DecimalRoundTrip | lib/src/main/java/com/github/nik9000/mapmatcher/ListMatcher.java:142 | the index label `Integer.toString(i)` reads back as `i`, so labels are unambiguous |
| Text.DecimalLengthMonotone | lib/src/main/java/com/github/nik9000/mapmatcher/ListMatcher.java:135 | a larger size never has fewer digits, so `max(item.size, matchers.size)` bounds every index label |
| Values.Lookup | lib/src/main/java/com/github/nik9000/mapmatcher/MapMatcher.java:156-159 | `containsKey`/`get`: absent exactly when the key is not in the key set; otherwise the value stored under that key |
| Values.Get | lib/src/main/java/com/github/nik9000/mapmatcher/MapMatcher.java:105 | `item.get(key)` is `null` for an absent key and the stored value otherwise |
| Values.DistinctKeySetSize | lib/src/main/java/com/github/nik9000/mapmatcher/MapMatcher.java:149-152 | a map's key set has as many members as the map has entries |
| Values.KeySetCons | lib/src/main/java/com/github/nik9000/mapmatcher/MapMatcher.java:152 | the key set of an entry followed by a map is that key plus the map's key set |
| Structure.MapDescribeTo | lib/src/main/java/com/github/nik9000/mapmatcher/MapMatcher.java:122-131 | the description is `an empty map` exactly when there are no entries; otherwise it begins with `a map containing` |
| Structure.MapDescribedLines | lib/src/main/java/com/github/nik9000/mapmatcher/MapMatcher.java:128-130 | one `describeMatcher` line per entry, in insertion order |
| Structure.ListDescribeTo | lib/src/main/java/com/github/nik9000/mapmatcher/ListMatcher.java:97-107 | the description is `an empty list` exactly when there are no positions; otherwise it begins with `a list containing` |
| Structure.ListDescribedLines | lib/src/main/java/com/github/nik9000/mapmatcher/ListMatcher.java:103-106 | one line per position, and line `i` is labelled with the index `i` |
| Structure.MapMismatch | lib/src/main/java/com/github/nik9000/mapmatcher/MapMatcher.java:172-198 | the report is `an empty map` exactly when the matcher has no entries, whatever the item; otherwise it begins with `a map containing` |
| Structure.MapEntryLines | lib/src/main/java/com/github/nik9000/mapmatcher/MapMatcher.java:184-191 | one line per matcher entry in insertion order, `<missing>` for an absent key, else the value's outcome |
| Structure.UnexpectedKeyLines | lib/src/main/java/com/github/nik9000/mapmatcher/MapMatcher.java:192-197 | one slot per item entry in the item's order, holding an `<unexpected>` line only for a key the matcher lacks |
| Structure.ListMismatch | lib/src/main/java/com/github/nik9000/mapmatcher/ListMatcher.java:129-153 | the report is `an empty list` exactly when the matcher has no positions, whatever the item; otherwise it begins with `a list containing` |
| Structure.ListEntryLines | lib/src/main/java/com/github/nik9000/mapmatcher/ListMatcher.java:141-148 | one line per matcher position `i`, labelled `i`, `<missing>` past the item's end, else the element's outcome |
| Structure.ListUnexpectedLines | lib/src/main/java/com/github/nik9000/mapmatcher/ListMatcher.java:149-152 | one `<unexpected>` line per element past the matcher's end, indices continuing from the matcher's size |
| Engine.MapKeyWidth | lib/src/main/java/com/github/nik9000/mapmatcher/MapMatcher.java:98-108 | the two loops compute exactly the width function `Structure.MapKeyWidth` |
| Engine.MaxKeyWidthForMatcher | lib/src/main/java/com/github/nik9000/mapmatcher/MapMatcher.java:110-120 | a nested container's width over the sub-value (empty when absent or mistyped) less `INDENT`; 0 for a leaf; computes exactly `Structure.MaxKeyWidthForMatcher` |
| Engine.ListKeyWidth | lib/src/main/java/com/github/nik9000/mapmatcher/ListMatcher.java:87-95 | the iterator loop, pairing `null` past the item's end, computes exactly `Structure.ListKeyWidth` |
| Engine.Matches | lib/src/main/java/com/github/nik9000/mapmatcher/MapMatcher.java:147-148 | `matches` is the leaf's verdict, or for a container a value of the right type that `matchesSafely` accepts; computes exactly `Structure.Matches` |
| Engine.MapMatchesSafely | lib/src/main/java/com/github/nik9000/mapmatcher/MapMatcher.java:147-165 | the early-return loop decides exactly: equal sizes, equal key sets, every entry's matcher accepts the stored value; computes exactly `Structure.MapMatchesSafely` |
| Engine.ListMatchesSafely | lib/src/main/java/com/github/nik9000/mapmatcher/ListMatcher.java:109-122 | the early-return loop decides exactly: equal lengths and pairwise matches; computes exactly `Structure.ListMatchesSafely` |
| Engine.DescribeInto | lib/src/main/java/com/github/nik9000/mapmatcher/MapMatcher.java:93-96 | `describeTo(Description)` appends the description at the width over an empty item; appends exactly `Structure.Describe` |
| Engine.MapDescribeTo | lib/src/main/java/com/github/nik9000/mapmatcher/MapMatcher.java:122-131 | the loop appends exactly `Structure.MapDescribeTo` |
| Engine.ListDescribeTo | lib/src/main/java/com/github/nik9000/mapmatcher/ListMatcher.java:97-107 | the indexed loop appends exactly `Structure.ListDescribeTo` |
| Engine.DescribeMatcher | lib/src/main/java/com/github/nik9000/mapmatcher/MapMatcher.java:133-145 | appends the label line and then the nested container at `width + INDENT`, or the leaf's description; appends exactly `Structure.DescribeMatcher` |
| Engine.DescribeMismatchInto | lib/src/main/java/com/github/nik9000/mapmatcher/MapMatcher.java:167-170 | `describeMismatch` renders a container at its own `keyWidth` over the item, and a mistyped value with `TypeSafeMatcher`'s text; appends exactly `Structure.DescribeMismatch` |
| Engine.DescribeEntry | lib/src/main/java/com/github/nik9000/mapmatcher/MapMatcher.java:200-203 | appends a new line, the key right-justified to the width, and `: `; appends exactly `Structure.EntryHead` |
| Engine.DescribeEntryMissing | lib/src/main/java/com/github/nik9000/mapmatcher/MapMatcher.java:205-208 | appends `expected <description> but was <missing>`; appends exactly `Structure.MissingText` |
| Engine.DescribeEntryUnexpected | lib/src/main/java/com/github/nik9000/mapmatcher/MapMatcher.java:210-213 | appends `<unexpected> but was <value>`; appends exactly `Structure.UnexpectedText` |
| Engine.DescribeEntryValue | lib/src/main/java/com/github/nik9000/mapmatcher/MapMatcher.java:215-230 | recurses at `width + INDENT` for a same-kind container, else `expected … but …` for a failure, else the value; appends exactly `Structure.EntryValueText` |
| Engine.MapDescribePotentialMismatch | lib/src/main/java/com/github/nik9000/mapmatcher/MapMatcher.java:172-198 | appends exactly `Structure.MapMismatch`: the entry lines, then the unexpected lines |
| Engine.DescribeMapEntries | lib/src/main/java/com/github/nik9000/mapmatcher/MapMatcher.java:184-191 | the first loop appends the entry lines in insertion order; appends exactly `Structure.MapEntryLines` |
| Engine.DescribeMapEntry | lib/src/main/java/com/github/nik9000/mapmatcher/MapMatcher.java:185-190 | one entry's line: `<missing>` when the item lacks the key, else the value's outcome; appends exactly `Structure.MapEntryLine` |
| Engine.DescribeUnexpectedKeys | lib/src/main/java/com/github/nik9000/mapmatcher/MapMatcher.java:192-197 | the second loop appends the unexpected lines in the item's order; appends exactly `Structure.UnexpectedKeyLines` |
| Engine.DescribeUnexpectedKey | lib/src/main/java/com/github/nik9000/mapmatcher/MapMatcher.java:193-196 | nothing for a key the matcher has, otherwise one `<unexpected>` line; appends exactly `Structure.UnexpectedKeyLine` |
| Engine.ListDescribePotentialMismatch | lib/src/main/java/com/github/nik9000/mapmatcher/ListMatcher.java:129-153 | appends exactly `Structure.ListMismatch`: the position lines, then the extra elements |
| Engine.DescribeListEntries | lib/src/main/java/com/github/nik9000/mapmatcher/ListMatcher.java:138-148 | the first loop appends one line per matcher position; appends exactly `Structure.ListEntryLines` |
| Engine.DescribeListEntry | lib/src/main/java/com/github/nik9000/mapmatcher/ListMatcher.java:142-147 | position `i`'s line: `<missing>` past the item's end, else the element's outcome; appends exactly `Structure.ListEntryLine` |
| Engine.DescribeUnexpectedElements | lib/src/main/java/com/github/nik9000/mapmatcher/ListMatcher.java:149-152 | the second loop appends one `<unexpected>` line per remaining element, indices running on; appends exactly `Structure.ListUnexpectedLines` |
| Widths.KeysWidthIsMax | lib/src/main/java/com/github/nik9000/mapmatcher/MapMatcher.java:178-181 | the widest key is at least every key's length and is one of them (0 for none) |
| Widths.ItemKeysWidthIsMax | lib/src/main/java/com/github/nik9000/mapmatcher/MapMatcher.java:99-102 | the first loop's maximum bounds every item key seen and is one of them, or 0 |
| Widths.MapWidthOverIsMax | lib/src/main/java/com/github/nik9000/mapmatcher/MapMatcher.java:103-106 | after `n` entries the maximum bounds every candidate so far and is one of them |
| Widths.MapKeyWidthIsMax | lib/src/main/java/com/github/nik9000/mapmatcher/MapMatcher.java:98-120 | `keyWidth` is the maximum of 0, the item's key lengths, the matcher's key lengths and each nested width less 2 |
| Widths.ListWidthOverIsMax | lib/src/main/java/com/github/nik9000/mapmatcher/ListMatcher.java:88-93 | after `n` positions the maximum bounds the size's digit count and every nested candidate so far, and is one of them |
| Widths.ListKeyWidthIsMax | lib/src/main/java/com/github/nik9000/mapmatcher/ListMatcher.java:87-95 | `keyWidth` is the maximum of the size's digit count and each nested width less 2, pairing `null` past the end |
| Widths.LocalMapWidthWithin | lib/src/main/java/com/github/nik9000/mapmatcher/MapMatcher.java:178-181 | the local maximum key length never exceeds `keyWidth` |
| Widths.MapNestedWithin | lib/src/main/java/com/github/nik9000/mapmatcher/MapMatcher.java:105 | a nested container's own width is at most the parent's `keyWidth + INDENT` |
| Widths.ListNestedWithin | lib/src/main/java/com/github/nik9000/mapmatcher/ListMatcher.java:92 | the same for the container at a list position |
| Alignment.LabelWidth | lib/src/main/java/com/github/nik9000/mapmatcher/MapMatcher.java:182-185 | a label padded to the local width and then to `keyWidth` is as wide as the largest of the two and the key |
| Alignment.AlignedAtKeyWidth | lib/src/main/java/com/github/nik9000/mapmatcher/MapMatcher.java:215-222 | rendered at any width at least its `keyWidth`, every label of the recursively rendered report has exactly its level's width, nested levels `INDENT` deeper; lists must be no longer in digits than their matchers |
| Alignment.EmbeddedDescriptionNotIndented | lib/src/main/java/com/github/nik9000/mapmatcher/MapMatcher.java:205-208 | for `{foo: {bar: p}}` against `{}` the report is aligned, yet the embedded description puts `bar` in `foo`'s column rather than `INDENT` deeper |
| Alignment.MapAlignedAtKeyWidth | lib/src/main/java/com/github/nik9000/mapmatcher/MapMatcher.java:178-190 | the same for one map level: matcher and item keys all print exactly `width` wide |
| Alignment.ListAlignedAtKeyWidth | lib/src/main/java/com/github/nik9000/mapmatcher/ListMatcher.java:135-147 | the same for one list level: every index label prints exactly `width` wide |
| Alignment.MismatchReportAligned | lib/src/main/java/com/github/nik9000/mapmatcher/MapMatcher.java:167-170 | `describeMismatchSafely` renders at the container's own `keyWidth`, so the recursively rendered report is aligned, when no list in the value has more digits in its length than its matcher's size; embedded descriptions excepted |
| Alignment.LongListOverflowsKeyWidth | lib/src/main/java/com/github/nik9000/mapmatcher/ListMatcher.java:87-95 | without the proviso, one matcher against ten elements has `keyWidth` 1 but all ten labels are two wide, so the labels overflow the level's width (they still line up with each other) |
| Alignment.NestedOneColumnDeeper | lib/src/main/java/com/github/nik9000/mapmatcher/ListMatcher.java:87-95 | one map matcher against a ten-element list has `keyWidth` 1: the list labels are two wide, yet the nested map is rendered at `1 + INDENT`, so its label `b` sits one column deeper than the list's labels instead of `INDENT` deeper |
| Verdict.MatchesIffUnflagged | lib/src/main/java/com/github/nik9000/mapmatcher/MapMatcher.java:147-198 | `matches` holds exactly when the mismatch report flags nothing, for trees without empty containers and with distinct keys |
| Verdict.EntryMatchesIffUnflagged | lib/src/main/java/com/github/nik9000/mapmatcher/MapMatcher.java:215-230 | the same for one entry's outcome in `describeEntryValue` |
| Verdict.MapMatchesIffUnflagged | lib/src/main/java/com/github/nik9000/mapmatcher/MapMatcher.java:147-165 | a map matches exactly when no key is missing, none is unexpected and no present entry's outcome is flagged |
| Verdict.ListMatchesIffUnflagged | lib/src/main/java/com/github/nik9000/mapmatcher/ListMatcher.java:109-122 | a list matches exactly when the lengths agree and no position's outcome is flagged |
| Verdict.SameKeysSameSize | lib/src/main/java/com/github/nik9000/mapmatcher/MapMatcher.java:149-154 | maps whose keys cover each other have equal key sets and equal sizes |
| Verdict.EmptyMapMatcherHidesEntries | lib/src/main/java/com/github/nik9000/mapmatcher/MapMatcher.java:172-176 | an empty map matcher rejects a one-entry map yet both its description and its report are just `an empty map` |
| Verdict.EmptyListMatcherHidesElements | mapmatcher/src/main/java/io/github/nik9000/mapmatcher/ListMatcher.java:116-120 | an empty list matcher rejects a one-element list yet both texts are just `an empty list` |
| Report.ConcatEmptyIff | lib/src/main/java/com/github/nik9000/mapmatcher/MapMatcher.java:192-197 | lines written in a row give no text exactly when every line is empty |
| Report.UnexpectedKeyLineIff | lib/src/main/java/com/github/nik9000/mapmatcher/MapMatcher.java:193-196 | an item entry yields a line exactly when the matcher lacks its key |
| Report.NoUnexpectedKeyLinesIff | lib/src/main/java/com/github/nik9000/mapmatcher/MapMatcher.java:192-197 | the map's unexpected block is empty exactly when every item key is a matcher key |
| Report.NoUnexpectedElementLinesIff | lib/src/main/java/com/github/nik9000/mapmatcher/ListMatcher.java:149-152 | the list's unexpected block is empty exactly when the item is no longer than the matcher |
| ComMapMatcher.Put | lib/src/main/java/com/github/nik9000/mapmatcher/MapMatcher.java:82 | `LinkedHashMap.put` leaves the key set as the old one plus the key |
| ComMapMatcher.PutFresh | lib/src/main/java/com/github/nik9000/mapmatcher/MapMatcher.java:82 | a fresh key goes last in insertion order |
| ComMapMatcher.PutExisting | lib/src/main/java/com/github/nik9000/mapmatcher/MapMatcher.java:82 | an existing key keeps its position and only its value changes; keys stay distinct |
| ComMapMatcher.MapMatcher.constructor | lib/src/main/java/com/github/nik9000/mapmatcher/MapMatcher.java:30-32 | `matchesMap()` starts with no entries |
| ComMapMatcher.MapMatcher.Entry | lib/src/main/java/com/github/nik9000/mapmatcher/MapMatcher.java:81-87 | a fresh key is appended and the receiver is returned; an existing key is replaced in place before `Already had an entry for [key]: <old description>` is thrown |
| ComMapMatcher.MapMatcher.EntryValue | lib/src/main/java/com/github/nik9000/mapmatcher/MapMatcher.java:72-74 | `entry(key, value)` is `entry(key, equalTo(value))`: a new key goes last and the receiver is returned; an existing key keeps its place and takes `equalTo(value)`, and the result is the `Already had an entry for [key]: ` message with the old matcher's description |
| ComMapMatcher.MapMatcher.KeyWidth | lib/src/main/java/com/github/nik9000/mapmatcher/MapMatcher.java:98-108 | the receiver's `keyWidth` over its current entries |
| ComMapMatcher.MapMatcher.MatchesSafely | lib/src/main/java/com/github/nik9000/mapmatcher/MapMatcher.java:147-165 | the receiver's `matchesSafely` over its current entries |
| ComMapMatcher.MapMatcher.DescribeTo | lib/src/main/java/com/github/nik9000/mapmatcher/MapMatcher.java:93-96 | appends the receiver's description |
| ComMapMatcher.MapMatcher.DescribeMismatchSafely | lib/src/main/java/com/github/nik9000/mapmatcher/MapMatcher.java:167-170 | appends the report at the receiver's `keyWidth` over the item |
| ComMapMatcher.AssertThat | lib/src/main/java/com/github/nik9000/mapmatcher/MapMatcher.java:50-60 | no failure exactly when the matcher matches; otherwise the message is `reason + "Expected " + mismatch report` |
| ComMapMatcher.EntryChainsOnReceiver | lib/src/main/java/com/github/nik9000/mapmatcher/MapMatcher.java:81-87 | chained `entry` calls all change and return the one original matcher |
| ComListMatcher.ListMatcher.constructor | lib/src/main/java/com/github/nik9000/mapmatcher/ListMatcher.java:34-36 | `matchesList()` starts with no positions |
| ComListMatcher.ListMatcher.Item | lib/src/main/java/com/github/nik9000/mapmatcher/ListMatcher.java:73-76 | appends the matcher to the receiver and returns the receiver |
| ComListMatcher.ListMatcher.ItemValue | lib/src/main/java/com/github/nik9000/mapmatcher/ListMatcher.java:64-66 | `item(value)` appends `equalTo(value)` |
| ComListMatcher.ListMatcher.KeyWidth | lib/src/main/java/com/github/nik9000/mapmatcher/ListMatcher.java:87-95 | the receiver's `keyWidth` over its current positions |
| ComListMatcher.ListMatcher.MatchesSafely | lib/src/main/java/com/github/nik9000/mapmatcher/ListMatcher.java:109-122 | the receiver's `matchesSafely` over its current positions |
| ComListMatcher.ListMatcher.DescribeTo | lib/src/main/java/com/github/nik9000/mapmatcher/ListMatcher.java:82-85 | appends the receiver's description |
| ComListMatcher.ListMatcher.DescribeMismatchSafely | lib/src/main/java/com/github/nik9000/mapmatcher/ListMatcher.java:124-127 | appends the report at the receiver's `keyWidth` over the item |
| ComListMatcher.AssertList | lib/src/main/java/com/github/nik9000/mapmatcher/ListMatcher.java:42-52 | `assertList` takes a map and a `MapMatcher`: no failure exactly when it matches, else `reason + "Expected " + report` |
| ComListMatcher.ItemSharesReceiver | lib/src/main/java/com/github/nik9000/mapmatcher/ListMatcher.java:73-76 | matchers extended from one base are that base: both "branches" end up in it |
| LibListMatcher.ListMatcher.constructor | lib/src/main/java/mapmatcher/ListMatcher.java:25-32 | `matchesList()` starts with no positions |
| LibListMatcher.ListMatcher.Item | lib/src/main/java/mapmatcher/ListMatcher.java:38-41 | appends the matcher to the receiver and returns the receiver |
| LibListMatcher.ListMatcher.ItemValue | lib/src/main/java/mapmatcher/ListMatcher.java:34-36 | `item(value)` appends `equalTo(value)` and returns the receiver |
| LibListMatcher.ListMatcher.KeyWidth | lib/src/main/java/mapmatcher/ListMatcher.java:48-56 | the receiver's `keyWidth`: the same loop as the `com` copy, computing `Structure.ListKeyWidth` |
| LibListMatcher.ListMatcher.MatchesSafely | lib/src/main/java/mapmatcher/ListMatcher.java:70-83 | the receiver's `matchesSafely`: equal lengths and pairwise matches |
| LibListMatcher.ListMatcher.DescribeTo | lib/src/main/java/mapmatcher/ListMatcher.java:43-68 | appends `an empty list`, or `a list containing` and one indexed line per position |
| LibListMatcher.ListMatcher.DescribeMismatchSafely | lib/src/main/java/mapmatcher/ListMatcher.java:85-114 | appends the report at the receiver's `keyWidth`: position lines, then extra elements |
| IoListMatcher.ListMatcher.Item | mapmatcher/src/main/java/io/github/nik9000/mapmatcher/ListMatcher.java:57-61 | a new matcher: the old positions unchanged, then the new one |
| IoListMatcher.ListMatcher.ItemValue | mapmatcher/src/main/java/io/github/nik9000/mapmatcher/ListMatcher.java:48-50 | a new matcher: the old positions unchanged, then `equalTo(value)` |
| IoListMatcher.ListMatcher.KeyWidth | mapmatcher/src/main/java/io/github/nik9000/mapmatcher/ListMatcher.java:73-82 | the matcher's `keyWidth`: the same loop as the `com` copy, computing `Structure.ListKeyWidth` |
| IoListMatcher.ListMatcher.MatchesSafely | mapmatcher/src/main/java/io/github/nik9000/mapmatcher/ListMatcher.java:96-109 | the matcher's `matchesSafely`: equal lengths and pairwise matches |
| IoListMatcher.ListMatcher.DescribeTo | mapmatcher/src/main/java/io/github/nik9000/mapmatcher/ListMatcher.java:68-94 | appends `an empty list`, or `a list containing` and one indexed line per position |
| IoListMatcher.ListMatcher.DescribeMismatchSafely | mapmatcher/src/main/java/io/github/nik9000/mapmatcher/ListMatcher.java:111-140 | appends the report at the matcher's `keyWidth`: position lines, then extra elements |
| IoListMatcher.MatchesList | mapmatcher/src/main/java/io/github/nik9000/mapmatcher/ListMatcher.java:33-35 | `matchesList()` has no positions |
| IoListMatcher.MatchesListAcceptsOnlyEmpty | mapmatcher/src/main/java/io/github/nik9000/mapmatcher/ListMatcher.java:96-109 | the matcher from `matchesList()` accepts exactly the empty list |
| IoListMatcher.ItemExtendsMatch | mapmatcher/src/main/java/io/github/nik9000/mapmatcher/ListMatcher.java:57-61 | one more `item` accepts exactly the lists one longer whose front the old matcher accepts and whose last element the new one accepts |
| IoListMatcher.ItemValueExtendsMatch | mapmatcher/src/main/java/io/github/nik9000/mapmatcher/ListMatcher.java:48-50 | `item(value)` accepts exactly the lists one longer whose front the old matcher accepts and whose last element `equalTo(value)` accepts |
| IoListMatcher.ItemBranches | mapmatcher/src/main/java/io/github/nik9000/mapmatcher/ListMatcher.java:57-61 | extending one matcher twice gives two different matchers, each with the original positions as prefix |

## Left out

- Hamcrest leaf matchers (`equalTo`, `closeTo`, …) are opaque. The same
  goes for `Description.appendValue` and `TypeSafeMatcher`'s text for
  `null` or a mistyped value. They are the functions of a `Library`
  parameter.
- `equalTo(value)` is a `Leaf(EqualTo(value))` predicate. Its meaning is
  left to the `Library`.
- Map keys are represented by their `toString()` text. Two distinct Java
  keys with the same text would be one key here.
- A Java map's iteration order is an association list with distinct keys.
- `String.format("%0s")` throws when every key at a level is the empty
  string. `Text.PadLeft` instead returns the key unchanged when the width is
  not larger than the key.
- The `AssertionError` of `assertThat` is modelled as an `Option` failure
  message. The `IllegalArgumentException` of `entry` is the `AlreadyHad`
  result.
- The model does not capture sharing: Java matchers hold their children by
  reference, and the model stores children as values. A nested builder
  mutated after it was added is therefore not modelled.
- `Alignment.AlignedAtKeyWidth` assumes no list in the value has more
  digits in its length than its matcher. `ListMatcher.keyWidth` counts only
  the matcher's size, while the labels use the larger size.
  `Alignment.LongListOverflowsKeyWidth` shows what happens without that
  assumption: the labels overflow the width. `Alignment.NestedOneColumnDeeper`
  shows that a map nested under such a list then sits only one column
  deeper than the list's labels.
- `Alignment.AlignedAtKeyWidth` covers only the recursively rendered report.
  A description embedded through `appendDescriptionOf` (the `<missing>`
  text and the wrong-type branch of `describeEntryValue`) starts again at
  the nested matcher's own width, so its labels are not `INDENT` deeper;
  `Alignment.EmbeddedDescriptionNotIndented` shows this.
- Lengths and widths count Unicode scalar values (Dafny characters). Java's
  `String.length` and `%Ns` count UTF-16 code units, so keys with
  characters outside the Basic Multilingual Plane get different widths.
- Where the code and the tests disagree, the model follows the code:
  - an empty matcher prints only `an empty map` or `an empty list`
    (lib/src/main/java/com/github/nik9000/mapmatcher/MapMatcher.java:172-176,
    mapmatcher/src/main/java/io/github/nik9000/mapmatcher/ListMatcher.java:116-120),
    although
    mapmatcher/src/test/java/io/github/nik9000/mapmatcher/MapMatcherTest.java:42-46
    and
    mapmatcher/src/test/java/io/github/nik9000/mapmatcher/ListMatcherTest.java:31-45
    expect a `<unexpected>` line for each entry of the item;
  - `entry` mutates and returns its receiver, although a test expects it to
    leave the receiver unchanged.
- The `MapMatcher`s of the `io.github.nik9000.mapmatcher` and `mapmatcher`
  packages are not part of this model. Their helpers, which the other two
  `ListMatcher` copies call, may render a missing nested container
  differently: mapmatcher/src/test/java/io/github/nik9000/mapmatcher/ListMatcherTest.java:138
  and mapmatcher/src/test/java/io/github/nik9000/mapmatcher/MapMatcherTest.java:174
  expect `expected a map but was <missing>`, where the modelled
  `describeEntryMissing` prints the whole nested description. Neither are `extraOk`, the
  `matchesMap(Map)`/`matchesList(List)` factories, or the automatic
  conversion of values into matchers.
