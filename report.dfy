/**
 * Facts about the lines of a mismatch report: which entries produce an
 * `<unexpected>` line, and when the trailing block of such lines is empty.
 */
module Report {
  import opened Text
  import opened Values
  import opened Hamcrest
  import opened Structure

  /** Lines written one after another give no text exactly when each is empty. */
  lemma {:induction false} ConcatEmptyIff(lines: seq<string>)
    ensures Concat(lines) == "" <==> forall i :: 0 <= i < |lines| ==> lines[i] == ""
  {
    if |lines| > 0 {
      var init := lines[..|lines| - 1];
      ConcatEmptyIff(init);
      assert forall i :: 0 <= i < |init| ==> init[i] == lines[i];
      assert |Concat(lines)| == |Concat(init)| + |lines[|lines| - 1]|;
    }
  }

  /** Every line `describeEntry` starts is non-empty: it begins with a new line. */
  lemma EntryHeadStartsLine(width: int, key: string)
    ensures |EntryHead(width, key)| > 0 && EntryHead(width, key)[0] == '\n'
  {
  }

  /** An item entry yields a line exactly when the matcher lacks its key. */
  lemma UnexpectedKeyLineIff(lib: Library, width: int, local: int, es: seq<(string, Matcher)>, e: (string, Value))
    ensures UnexpectedKeyLine(lib, width, local, es, e) != "" <==> e.0 !in KeySet(es)
  {
    if e.0 !in KeySet(es) {
      EntryHeadStartsLine(width, PadLeft(e.0, local));
    }
  }

  /**
   * The `<unexpected>` block of a map report is empty exactly when every key
   * of the item is also a key of the matcher.
   */
  lemma NoUnexpectedKeyLinesIff(lib: Library, width: int, local: int, es: seq<(string, Matcher)>,
                                kv: seq<(string, Value)>)
    ensures Concat(UnexpectedKeyLines(lib, width, local, es, kv)) == ""
            <==> forall j :: 0 <= j < |kv| ==> kv[j].0 in KeySet(es)
  {
    var lines := UnexpectedKeyLines(lib, width, local, es, kv);
    ConcatEmptyIff(lines);
    forall j | 0 <= j < |kv| ensures lines[j] == "" <==> kv[j].0 in KeySet(es) {
      UnexpectedKeyLineIff(lib, width, local, es, kv[j]);
    }
  }

  /**
   * The `<unexpected>` block of a list report, whose indices start after the
   * matcher's last position, is empty exactly when the item is no longer than
   * the matcher.
   */
  lemma NoUnexpectedElementLinesIff(lib: Library, width: int, local: int, start: nat, vs: seq<Value>)
    ensures Concat(ListUnexpectedLines(lib, width, local, start, vs)) == "" <==> |vs| <= start
  {
    var lines := ListUnexpectedLines(lib, width, local, start, vs);
    ConcatEmptyIff(lines);
    if |vs| > start {
      EntryHeadStartsLine(width, PadLeft(Decimal(start), local));
      assert lines[0] != "";
    }
  }
}
