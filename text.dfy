/**
 * The two pieces of java.lang formatting the matchers rely on:
 * `String.format("%<w>s", s)` (right-justify in a field of width w) and
 * `Integer.toString(n)` for the non-negative indices and sizes of lists.
 */
module Text {

  function Max(a: int, b: int): (r: int)
    ensures r >= a && r >= b
    ensures r == a || r == b
  {
    if a >= b then a else b
  }

  function Min(a: int, b: int): (r: int)
    ensures r <= a && r <= b
    ensures r == a || r == b
  {
    if a <= b then a else b
  }

  /** `n` blanks. */
  function Spaces(n: nat): (r: string)
    ensures |r| == n
  {
    if n == 0 then "" else Spaces(n - 1) + " "
  }

  /**
   * `String.format("%" + width + "s", s)`: `s` right-justified with blanks in
   * a field of `width` characters; a string already that long is unchanged.
   * (A width of 0 makes Java throw; no caller here passes one with a
   * non-empty key set, see README.)
   */
  function PadLeft(s: string, width: int): (r: string)
    ensures |r| == Max(width, |s|)
  {
    if width > |s| then Spaces(width - |s|) + s else s
  }

  lemma {:induction false} SpacesAreBlank(n: nat)
    ensures forall i :: 0 <= i < n ==> Spaces(n)[i] == ' '
  {
    if n > 0 {
      SpacesAreBlank(n - 1);
    }
  }

  /** The padded text ends with the original text and begins with blanks only. */
  lemma PadLeftShape(s: string, width: int)
    ensures PadLeft(s, width)[|PadLeft(s, width)| - |s|..] == s
    ensures forall i :: 0 <= i < |PadLeft(s, width)| - |s| ==> PadLeft(s, width)[i] == ' '
  {
    if width > |s| {
      SpacesAreBlank(width - |s|);
    }
  }

  /** Blanks written one run after another are one run of the combined length. */
  lemma {:induction false} SpacesAdd(a: nat, b: nat)
    ensures Spaces(a) + Spaces(b) == Spaces(a + b)
  {
    if b > 0 {
      SpacesAdd(a, b - 1);
      assert Spaces(a) + Spaces(b) == (Spaces(a) + Spaces(b - 1)) + " ";
    }
  }

  /** Padding to `inner` and then to `outer` is one padding to the larger width. */
  lemma PadLeftTwice(s: string, inner: int, outer: int)
    ensures PadLeft(PadLeft(s, inner), outer) == PadLeft(s, Max(inner, outer))
  {
    if inner > |s| && outer > inner {
      SpacesAdd(outer - inner, inner - |s|);
      assert PadLeft(PadLeft(s, inner), outer) == Spaces(outer - inner) + (Spaces(inner - |s|) + s);
    }
  }

  function Digit(d: nat): (c: char)
    requires d < 10
    ensures '0' <= c <= '9'
  {
    "0123456789"[d]
  }

  /** `Integer.toString(n)` for `n >= 0`: decimal digits, most significant first. */
  function Decimal(n: nat): (r: string)
    ensures 1 <= |r|
    ensures forall i :: 0 <= i < |r| ==> '0' <= r[i] <= '9'
  {
    if n < 10 then [Digit(n)] else Decimal(n / 10) + [Digit(n % 10)]
  }

  /** Reads a string of decimal digits back; the inverse of `Decimal`. */
  function ParseDecimal(s: string): (n: nat)
    requires forall i :: 0 <= i < |s| ==> '0' <= s[i] <= '9'
  {
    if |s| == 0 then 0
    else 10 * ParseDecimal(s[..|s| - 1]) + (s[|s| - 1] as int - '0' as int)
  }

  lemma DigitValue(d: nat)
    requires d < 10
    ensures Digit(d) as int - '0' as int == d
  {
  }

  /** Formatting an index and reading it back gives the index: labels are unambiguous. */
  lemma {:induction false} DecimalRoundTrip(n: nat)
    ensures ParseDecimal(Decimal(n)) == n
  {
    var s := Decimal(n);
    if n < 10 {
      DigitValue(n);
      assert s[..|s| - 1] == [];
    } else {
      DecimalRoundTrip(n / 10);
      DigitValue(n % 10);
      assert s[..|s| - 1] == Decimal(n / 10);
    }
  }

  /** A larger number never has fewer digits. */
  lemma {:induction false} DecimalLengthMonotone(a: nat, b: nat)
    requires a <= b
    ensures |Decimal(a)| <= |Decimal(b)|
  {
    if b >= 10 && a >= 10 {
      DecimalLengthMonotone(a / 10, b / 10);
    }
  }

  /** The lines of a rendering written one after another. */
  function Concat(lines: seq<string>): string
  {
    if |lines| == 0 then "" else Concat(lines[..|lines| - 1]) + lines[|lines| - 1]
  }

  /** Writing one more line extends the text written so far by that line. */
  lemma ConcatStep(lines: seq<string>, n: nat)
    requires n < |lines|
    ensures Concat(lines[..n + 1]) == Concat(lines[..n]) + lines[n]
  {
    assert lines[..n + 1][..n] == lines[..n];
  }

  /** Appending two pieces one after the other appends their concatenation. */
  lemma AppendAssoc(a: string, b: string, c: string)
    ensures a + b + c == a + (b + c)
  {
  }
}
