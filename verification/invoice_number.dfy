/** The invoice-number generator run by the invoice schema's pre-save hook:
    `"INV-" + YY + MM + counter`, where YY is the last two characters of the year, MM the
    month padded to two digits and the counter is the document count plus one padded to at
    least four digits. The clock and the document count are parameters. */
module InvoiceNumber {
  import opened Decimal
  import opened Outcomes

  const Prefix: string := "INV-"
  const MonthWidth: nat := 2
  const CounterWidth: nat := 4

  /** Where the counter segment starts in a number whose year has at least two digits. */
  const CounterStart: nat := 8

  /** The year segment: `getFullYear().toString().slice(-2)`. */
  function YearSegment(year: nat): string {
    SliceLast2(ToDecimal(year))
  }

  /** The month segment: `(getMonth() + 1).toString().padStart(2, '0')`. */
  function MonthSegment(month: nat): string {
    PadStart(ToDecimal(month), MonthWidth, '0')
  }

  /** The counter segment: `(count + 1).toString().padStart(4, '0')`. */
  function CounterSegment(count: nat): string {
    PadStart(ToDecimal(count + 1), CounterWidth, '0')
  }

  /** The number the hook builds from the calendar year, the month (1 to 12) and the count
      of invoices already stored. */
  function Generate(year: nat, month: nat, count: nat): string {
    Prefix + YearSegment(year) + MonthSegment(month) + CounterSegment(count)
  }

  /** The pre-save hook: an invoice that already carries a number keeps it; otherwise it
      gets a generated one. The empty string stands for an unset number (both are falsy). */
  function AssignOnSave(current: string, year: nat, month: nat, count: nat): (r: string)
    ensures current != "" ==> r == current
    ensures r != ""
    ensures current == "" ==> r == Generate(year, month, count)
    ensures current == "" ==> |r| > |Prefix| && r[..|Prefix|] == Prefix
  {
    if current != "" then current else
      ConcatPrefix(Prefix, YearSegment(year), MonthSegment(month), CounterSegment(count));
      Generate(year, month, count)
  }

  lemma ConcatPrefix(p: string, y: string, m: string, c: string)
    requires |c| >= 1
    ensures |p + y + m + c| > |p| && (p + y + m + c)[..|p|] == p
  {
    assert p + y + m + c == p + (y + m + c);
  }

  /** The three numeric fields an invoice number carries. */
  datatype Parts = Parts(year2: nat, month: nat, counter: nat)

  /** Reads an invoice number back into its fields: the prefix, then two year digits, two
      month digits and a counter of at least four digits. */
  function Decode(s: string): (r: Option<Parts>)
    ensures r.Some? ==> |s| >= CounterStart + CounterWidth && s[..|Prefix|] == Prefix
    ensures r.Some? ==> r.value.year2 < 100 && r.value.month < 100
  {
    if |s| >= CounterStart + CounterWidth && s[..|Prefix|] == Prefix
       && forall i :: |Prefix| <= i < |s| ==> IsDigit(s[i])
    then
      var year2 := s[4..6];
      var month := s[6..8];
      assert year2 == [s[4], s[5]] && month == [s[6], s[7]];
      ParseTwoDigits(DigitValue(s[4]), DigitValue(s[5]));
      ParseTwoDigits(DigitValue(s[6]), DigitValue(s[7]));
      Some(Parts(ParseDecimal(year2), ParseDecimal(month), ParseDecimal(s[CounterStart..])))
    else
      None
  }

  lemma YearSegmentDigits(year: nat)
    requires year >= 10
    ensures |YearSegment(year)| == 2 && AllDigits(YearSegment(year))
    ensures ParseDecimal(YearSegment(year)) == year % 100
  {
    LastTwoDigits(year);
  }

  lemma MonthSegmentDigits(month: nat)
    requires 1 <= month <= 12
    ensures |MonthSegment(month)| == 2 && AllDigits(MonthSegment(month))
    ensures ParseDecimal(MonthSegment(month)) == month
  {
    ToDecimalLength(month, 2);
    PadStartPreservesValue(ToDecimal(month), MonthWidth);
    ParseToDecimal(month);
  }

  lemma CounterSegmentDigits(count: nat)
    ensures |CounterSegment(count)| >= CounterWidth && AllDigits(CounterSegment(count))
    ensures ParseDecimal(CounterSegment(count)) == count + 1
    ensures |CounterSegment(count)| == CounterWidth <==> count + 1 < 10000
  {
    ToDecimalLength(count + 1, CounterWidth);
    assert Pow10(4) == 10000 by {
      assert Pow10(2) == 100;
    }
    PadStartPreservesValue(ToDecimal(count + 1), CounterWidth);
    ParseToDecimal(count + 1);
  }

  /** The generated number splits into its four segments at fixed positions. */
  lemma GenerateSegments(year: nat, month: nat, count: nat)
    requires year >= 10 && 1 <= month <= 12
    ensures var r := Generate(year, month, count);
      && |r| >= CounterStart + CounterWidth
      && r[..4] == Prefix && r[4..6] == YearSegment(year) && r[6..8] == MonthSegment(month)
      && r[CounterStart..] == CounterSegment(count)
  {
    YearSegmentDigits(year);
    MonthSegmentDigits(month);
    CounterSegmentDigits(count);
    SplitFour(Prefix, YearSegment(year), MonthSegment(month), CounterSegment(count));
  }

  lemma SplitFour(p: string, y: string, m: string, c: string)
    requires |p| == 4 && |y| == 2 && |m| == 2
    ensures var r := p + y + m + c;
      && |r| == 8 + |c|
      && r[..4] == p && r[4..6] == y && r[6..8] == m && r[8..] == c
  {
    var r := p + y + m + c;
    assert r[..4] == p;
    assert r[4..6] == y;
    assert r[6..8] == m;
    assert r[8..] == c;
  }

  /** Format of a generated number: the prefix, two year digits reading the year modulo 100,
      two month digits reading 01 to 12, and a counter reading `count + 1` that is padded to
      four digits but never truncated, so the number has exactly twelve characters while
      `count + 1 < 10000` and more from then on. */
  lemma GenerateFormat(year: nat, month: nat, count: nat)
    requires year >= 10 && 1 <= month <= 12
    ensures var r := Generate(year, month, count);
      && r[..4] == Prefix
      && AllDigits(r[4..])
      && ParseDecimal(r[4..6]) == year % 100
      && 1 <= ParseDecimal(r[6..8]) <= 12 && ParseDecimal(r[6..8]) == month
      && ParseDecimal(r[CounterStart..]) == count + 1
      && (|r| == 12 <==> count + 1 < 10000)
      && (count + 1 >= 10000 ==> |r[CounterStart..]| > CounterWidth)
  {
    GenerateSegments(year, month, count);
    YearSegmentDigits(year);
    MonthSegmentDigits(month);
    CounterSegmentDigits(count);
    var r := Generate(year, month, count);
    assert forall i :: 4 <= i < |r| ==> IsDigit(r[i]) by {
      forall i | 4 <= i < |r|
        ensures IsDigit(r[i])
      {
        if i < 6 {
          assert r[i] == YearSegment(year)[i - 4];
        } else if i < 8 {
          assert r[i] == MonthSegment(month)[i - 6];
        } else {
          assert r[i] == CounterSegment(count)[i - 8];
        }
      }
    }
  }

  /** Decoding a generated number recovers the year modulo 100, the month and `count + 1`. */
  lemma DecodeGenerate(year: nat, month: nat, count: nat)
    requires year >= 10 && 1 <= month <= 12
    ensures Decode(Generate(year, month, count)) == Some(Parts(year % 100, month, count + 1))
  {
    GenerateFormat(year, month, count);
    var r := Generate(year, month, count);
    assert forall i :: 4 <= i < |r| ==> IsDigit(r[i]) by {
      forall i | 4 <= i < |r|
        ensures IsDigit(r[i])
      {
        assert r[i] == r[4..][i - 4];
      }
    }
  }

  /** Two generated numbers coincide exactly when they agree on the year modulo 100, the
      month and the count; in particular, within one month distinct counts give distinct
      numbers. */
  lemma GenerateInjective(y1: nat, m1: nat, c1: nat, y2: nat, m2: nat, c2: nat)
    requires y1 >= 10 && 1 <= m1 <= 12 && y2 >= 10 && 1 <= m2 <= 12
    ensures Generate(y1, m1, c1) == Generate(y2, m2, c2)
            <==> y1 % 100 == y2 % 100 && m1 == m2 && c1 == c2
  {
    if Generate(y1, m1, c1) == Generate(y2, m2, c2) {
      DecodeGenerate(y1, m1, c1);
      DecodeGenerate(y2, m2, c2);
    }
    if y1 % 100 == y2 % 100 && m1 == m2 && c1 == c2 {
      SameYearSegment(y1, y2);
    }
  }

  lemma SameYearSegment(y1: nat, y2: nat)
    requires y1 >= 10 && y2 >= 10 && y1 % 100 == y2 % 100
    ensures YearSegment(y1) == YearSegment(y2)
  {
    LastTwoDigits(y1);
    LastTwoDigits(y2);
    SameLastTwo(y1, y2);
  }

  lemma SameLastTwo(y1: nat, y2: nat)
    requires y1 % 100 == y2 % 100
    ensures y1 % 10 == y2 % 10 && (y1 / 10) % 10 == (y2 / 10) % 10
  {
    var r := y1 % 100;
    assert y1 == 100 * (y1 / 100) + r && y2 == 100 * (y2 / 100) + r;
    assert y1 / 10 == 10 * (y1 / 100) + r / 10;
    assert y2 / 10 == 10 * (y2 / 100) + r / 10;
  }

  /** The counter segment depends on the count alone: it is not reset when the year or the
      month changes. */
  lemma CounterIgnoresPeriod(y1: nat, m1: nat, y2: nat, m2: nat, count: nat)
    requires y1 >= 10 && 1 <= m1 <= 12 && y2 >= 10 && 1 <= m2 <= 12
    ensures Generate(y1, m1, count)[CounterStart..] == Generate(y2, m2, count)[CounterStart..]
  {
    GenerateSegments(y1, m1, count);
    GenerateSegments(y2, m2, count);
  }

}
