/**
  Calendar days as they travel through the read path: the `YYYY-MM-DD` shape
  check applied to the `from`/`to` query parameters, the `Y-m-d` rendering
  used for the echoed filters and for every item's date, and the order of the
  task table's DATE column.
 */
module Dates {
  import opened Wrappers

  /** A calendar day with no time component. Which triples are real days is
      decided by the date library, not here. */
  datatype Date = Date(year: int, month: nat, day: nat)

  /** Strictly earlier, comparing year, then month, then day. */
  predicate Before(a: Date, b: Date) {
    || a.year < b.year
    || (a.year == b.year && a.month < b.month)
    || (a.year == b.year && a.month == b.month && a.day < b.day)
  }

  /** Earlier or the same day: the `<=` of a DATE column. */
  predicate AtOrBefore(a: Date, b: Date) {
    Before(a, b) || a == b
  }

  /** `Before` is a strict total order on days. */
  lemma BeforeIsStrictTotalOrder(a: Date, b: Date, c: Date)
    ensures !Before(a, a)
    ensures Before(a, b) ==> !Before(b, a)
    ensures Before(a, b) && Before(b, c) ==> Before(a, c)
    ensures a != b ==> Before(a, b) || Before(b, a)
  {
  }

  /** Not strictly after is at or before. */
  lemma NotBeforeIsAtOrBefore(a: Date, b: Date)
    ensures !Before(b, a) <==> AtOrBefore(a, b)
  {
  }

  // ---------------------------------------------------------------------------
  // Decimal digits

  predicate IsDigit(c: char) {
    '0' <= c <= '9'
  }

  predicate AllDigits(s: string) {
    forall i :: 0 <= i < |s| ==> IsDigit(s[i])
  }

  function DigitValue(c: char): nat
    requires IsDigit(c)
  {
    c as int - '0' as int
  }

  function DigitChar(k: nat): char
    requires k < 10
  {
    ('0' as int + k) as char
  }

  /** The number a string of decimal digits denotes (leading zeros allowed). */
  function DigitsValue(s: string): nat
    requires AllDigits(s)
  {
    if |s| == 0 then 0 else 10 * DigitsValue(s[..|s| - 1]) + DigitValue(s[|s| - 1])
  }

  function Pow10(k: nat): nat {
    if k == 0 then 1 else 10 * Pow10(k - 1)
  }

  /** The decimal rendering of `n`, left-padded with zeros to at least `width`
      characters (at least one digit even for `n == 0`). */
  function PadDigits(n: nat, width: nat): (s: string)
    ensures AllDigits(s) && DigitsValue(s) == n
    ensures |s| >= 1 && |s| >= width
    ensures 1 <= width && n < Pow10(width) ==> |s| == width
    decreases n + width
  {
    if n < 10 && width <= 1 then
      [DigitChar(n)]
    else
      var prefix := PadDigits(n / 10, if width == 0 then 0 else width - 1);
      var s := prefix + [DigitChar(n % 10)];
      assert s[..|s| - 1] == prefix;
      s
  }

  /** Rendering a non-empty digit string back at its own width gives it back:
      leading zeros are kept. */
  lemma {:induction false} PadDigitsOfValue(s: string)
    requires |s| >= 1 && AllDigits(s)
    ensures PadDigits(DigitsValue(s), |s|) == s
    decreases |s|
  {
    var init := s[..|s| - 1];
    if |s| == 1 {
      assert init == [];
    } else {
      PadDigitsOfValue(init);
      var v := DigitsValue(s);
      assert v / 10 == DigitsValue(init);
      assert v % 10 == DigitValue(s[|s| - 1]);
      assert s == init + [s[|s| - 1]];
    }
  }

  // ---------------------------------------------------------------------------
  // The `YYYY-MM-DD` shape of the date query parameters

  /** Exactly ten characters: four digits, a dash, two digits, a dash, two digits. */
  predicate IsDateShape(s: string) {
    && |s| == 10
    && s[4] == '-' && s[7] == '-'
    && AllDigits(s[0..4]) && AllDigits(s[5..7]) && AllDigits(s[8..10])
  }

  /** Reads the three digit groups of a well-shaped string; `None` when the
      shape check fails. Calendar validity is not decided here. */
  function ParseDateShape(s: string): (r: Option<Date>)
    ensures r.Some? <==> IsDateShape(s)
    ensures r.Some? ==> 0 <= r.value.year < 10000 && r.value.month < 100 && r.value.day < 100
  {
    if IsDateShape(s) then
      var y, m, d := s[0..4], s[5..7], s[8..10];
      Bounded(y);
      Bounded(m);
      Bounded(d);
      Some(Date(DigitsValue(y), DigitsValue(m), DigitsValue(d)))
    else
      None
  }

  lemma {:induction false} Bounded(s: string)
    requires AllDigits(s)
    ensures DigitsValue(s) < Pow10(|s|)
    decreases |s|
  {
    if |s| > 0 {
      Bounded(s[..|s| - 1]);
    }
  }

  // ---------------------------------------------------------------------------
  // The `Y-m-d` rendering

  /** PHP's `Y`: at least four digits, with a leading `-` before year 0. */
  function FormatYear(y: int): string {
    if y < 0 then "-" + PadDigits(-y, 4) else PadDigits(y, 4)
  }

  /** PHP's `format('Y-m-d')`: zero-padded year, month and day joined by dashes. */
  function FormatDate(d: Date): (s: string)
    ensures 0 <= d.year < 10000 && d.month < 100 && d.day < 100 ==> IsDateShape(s)
  {
    FormatYear(d.year) + "-" + PadDigits(d.month, 2) + "-" + PadDigits(d.day, 2)
  }

  /** Every day of years 0..9999 with two-digit month and day survives
      rendering and re-reading unchanged. */
  lemma FormatThenParse(d: Date)
    requires 0 <= d.year < 10000 && d.month < 100 && d.day < 100
    ensures ParseDateShape(FormatDate(d)) == Some(d)
  {
    var y, m, dd := PadDigits(d.year, 4), PadDigits(d.month, 2), PadDigits(d.day, 2);
    var s := FormatDate(d);
    assert s == y + "-" + m + "-" + dd;
    assert s[0..4] == y;
    assert s[5..7] == m;
    assert s[8..10] == dd;
  }

  /** `FormatThenParse` for any day, guarded by its range. */
  lemma RenderedDateReadsBack(d: Date)
    ensures 0 <= d.year < 10000 && d.month < 100 && d.day < 100 ==>
      ParseDateShape(FormatDate(d)) == Some(d)
  {
    if 0 <= d.year < 10000 && d.month < 100 && d.day < 100 {
      FormatThenParse(d);
    }
  }

  /** Every well-shaped string is exactly the rendering of the day it denotes,
      so the echoed filter repeats what the client sent. */
  lemma ParseThenFormat(s: string)
    requires IsDateShape(s)
    ensures FormatDate(ParseDateShape(s).value) == s
  {
    var y, m, d := s[0..4], s[5..7], s[8..10];
    PadDigitsOfValue(y);
    PadDigitsOfValue(m);
    PadDigitsOfValue(d);
    assert s == y + "-" + m + "-" + d;
  }
}
