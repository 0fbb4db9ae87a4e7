/**
 * The part of Hamcrest the matchers call into. Its leaf matchers (`equalTo`,
 * `closeTo`, `greaterThan`, ...) and its value formatting are not part of this
 * model: they are a `Library` of functions passed to every operation, so
 * nothing here depends on how they behave.
 */
module Hamcrest {
  import opened Values

  /** A leaf matcher: `equalTo(value)`, which `entry(key, value)` and
   *  `item(value)` wrap plain values in, or any other Hamcrest matcher. */
  datatype Predicate =
    | EqualTo(expected: Value)
    | Custom(name: string)

  datatype Library = Library(
    /** `Matcher.matches(v)` of a leaf. */
    matches: (Predicate, Value) -> bool,
    /** The text `appendDescriptionOf(leaf)` appends. */
    describe: Predicate -> string,
    /** The text `leaf.describeMismatch(v, d)` appends. */
    describeMismatch: (Predicate, Value) -> string,
    /** The text `Description.appendValue(v)` appends. */
    appendValue: Value -> string,
    /** The text `TypeSafeMatcher.describeMismatch` appends for a `null` or
     *  wrongly typed value (it never reaches `describeMismatchSafely`). */
    typeMismatch: Value -> string)

  /** `org.hamcrest.StringDescription`: a text buffer that is only appended to. */
  class Description {
    var text: string

    constructor ()
      ensures text == ""
    {
      text := "";
    }

    method AppendText(s: string)
      modifies this
      ensures text == old(text) + s
    {
      text := text + s;
    }
  }
}
