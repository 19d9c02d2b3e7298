/** One table row of an attendance article turned into a record
    `[date, visitors, ad]`, skipped, or raising (the body of the inner
    `for row in rows` loop of `get_visitor_data`). */
module RowParser {
  import opened Wrappers
  import opened PyStr
  import DatePattern
  import opened Calendar

  /** The marker of the total row, `合計`. */
  const TotalMarker: string := "合計"

  /** A record as appended to `data`: the date text, the visitor count and
      the count of visitors entering with an AD pass. */
  datatype Record = Record(date: string, visitors: int, ad: int)

  /** What one row does: nothing (`continue`), one appended record, or an
      exception out of `int()`. */
  datatype RowOutcome = Skipped | Emitted(record: Record) | Raised

  /** `int(cell.text.strip().replace(",", ""))`, `None` where `int` raises. */
  function CountCell(cell: string): (r: Option<int>)
    ensures (forall i :: 0 <= i < |cell| ==> !IsDigit(cell[i])) ==> r == None
  {
    CellWithoutDigit(cell);
    ParseInt(RemoveCommas(Strip(cell)))
  }

  /** Stripping and removing commas bring in no digit, so a cell without
      one cannot be read as a number. */
  lemma CellWithoutDigit(cell: string)
    ensures (forall i :: 0 <= i < |cell| ==> !IsDigit(cell[i])) ==>
      ParseInt(RemoveCommas(Strip(cell))) == None
  {
    if forall i :: 0 <= i < |cell| ==> !IsDigit(cell[i]) {
      NoDigitBrought(cell);
      ParseIntNeedsDigit(RemoveCommas(Strip(cell)));
    }
  }

  lemma NoDigitBrought(cell: string)
    requires forall i :: 0 <= i < |cell| ==> !IsDigit(cell[i])
    ensures var u := RemoveCommas(Strip(cell)); forall i :: 0 <= i < |u| ==> !IsDigit(u[i])
  {
    var t := Strip(cell);
    var lo := Lead(cell);
    assert forall k :: 0 <= k < |t| ==> t[k] == cell[lo + k];
    var u := RemoveCommas(t);
    forall i | 0 <= i < |u|
      ensures !IsDigit(u[i])
    {
      var k :| 0 <= k < |t| && t[k] == u[i];
    }
  }

  /** A row is the texts of its `td` cells, in order. The checks run in the
      source's order: cell count, total marker, both counts, date pattern. */
  function ParseRow(cols: seq<string>): (r: RowOutcome)
    ensures |cols| < 4 ==> r == Skipped
    ensures r.Emitted? ==> |r.record.date| == 10 && r.record.date[..5] == YearPrefix
  {
    if |cols| < 4 then Skipped
    else
      var dateRaw := Strip(cols[0]);
      if Contains(dateRaw, TotalMarker) then Skipped
      else
        match CountCell(cols[1])
        case None => Raised
        case Some(visitors) =>
          match CountCell(cols[3])
          case None => Raised
          case Some(ad) =>
            match DatePattern.Search(dateRaw)
            case None => Skipped
            case Some((month, day)) => Emitted(Record(FormatDate(month, day), visitors, ad))
  }

  lemma TotalMarkerHasNoSpace()
    ensures |TotalMarker| > 0 && forall k :: 0 <= k < |TotalMarker| ==> !IsSpace(TotalMarker[k])
  {
  }

  /** A row whose first cell mentions the total is skipped, whatever its
      count cells hold: the marker test comes before `int()`. */
  lemma TotalRowSkipped(cols: seq<string>)
    requires |cols| >= 4 && Contains(cols[0], TotalMarker)
    ensures ParseRow(cols) == Skipped
  {
    TotalMarkerHasNoSpace();
    StripKeepsWord(cols[0], TotalMarker);
  }

  /** A row raises exactly when it has four cells, no total marker, and one
      of its two count cells is not an integer; whether its first cell holds
      a date plays no part, since the counts are parsed first. */
  lemma RaisesIff(cols: seq<string>)
    ensures ParseRow(cols).Raised? <==>
      |cols| >= 4 && !Contains(cols[0], TotalMarker)
      && (CountCell(cols[1]).None? || CountCell(cols[3]).None?)
  {
    if |cols| >= 4 {
      TotalMarkerHasNoSpace();
      StripKeepsWord(cols[0], TotalMarker);
    }
  }

  /** An emitted record carries the leftmost `M月D日` of the stripped first
      cell as `"2025-MM-DD"` and the two parsed counts. */
  lemma EmittedRecord(cols: seq<string>)
    requires ParseRow(cols).Emitted?
    ensures var rec := ParseRow(cols).record;
      && |cols| >= 4 && !Contains(cols[0], TotalMarker)
      && CountCell(cols[1]) == Some(rec.visitors)
      && CountCell(cols[3]) == Some(rec.ad)
      && exists k, m: nat, d: nat :: m < 100 && d < 100
           && DatePattern.MatchesAt(Strip(cols[0]), k, m, d)
           && DatePattern.NoMatchIn(Strip(cols[0]), 0, k)
           && rec.date == FormatDate(m, d)
  {
    TotalMarkerHasNoSpace();
    StripKeepsWord(cols[0], TotalMarker);
    var found := DatePattern.Search(Strip(cols[0]));
    var (m, d) := found.value;
    var k :| 0 <= k < |Strip(cols[0])| && DatePattern.MatchesAt(Strip(cols[0]), k, m, d)
      && DatePattern.NoMatchIn(Strip(cols[0]), 0, k);
  }

  /** A row with four cells, no total marker and two integer counts is
      emitted exactly when its first cell holds the date pattern. */
  lemma EmitsIff(cols: seq<string>)
    requires |cols| >= 4 && !Contains(cols[0], TotalMarker)
    requires CountCell(cols[1]).Some? && CountCell(cols[3]).Some?
    ensures ParseRow(cols).Emitted? <==> !DatePattern.NoMatchIn(Strip(cols[0]), 0, |Strip(cols[0])|)
  {
    TotalMarkerHasNoSpace();
    StripKeepsWord(cols[0], TotalMarker);
  }

  // -----------------------------------------------------------------------
  // Counts as the site prints them, with thousands separators

  /** Three digits, zero-padded: one group after a thousands separator. */
  function Pad3(r: nat): (s: string)
    requires r < 1000
    ensures |s| == 3 && AllDigits(s) && DecimalValue(s) == r
  {
    var q := r / 10;
    var s := [DigitChar(q / 10), DigitChar(q % 10), DigitChar(r % 10)];
    assert s[..2][..1][..0] == [];
    assert s[..2][..1] == [s[0]] && s[..2] == [s[0], s[1]];
    assert DecimalValue(s[..2][..1]) == q / 10;
    assert DecimalValue(s[..2]) == 10 * (q / 10) + q % 10 == q;
    s
  }

  /** `f"{n:,}"`: the decimal spelling of `n` with a comma every three digits. */
  function Thousands(n: nat): (s: string)
    ensures |s| >= 1 && IsDigit(s[0]) && IsDigit(s[|s| - 1])
  {
    if n < 1000 then DecimalString(n)
    else Thousands(n / 1000) + "," + Pad3(n % 1000)
  }

  lemma RemoveCommasGroup(head: string, tail: string)
    requires AllDigits(tail)
    ensures RemoveCommas(head + "," + tail) == RemoveCommas(head) + tail
  {
    var front := head + ",";
    RemoveCommasAppend(front, tail);
    RemoveCommasAppend(head, ",");
    RemoveCommasNoComma(tail);
    assert RemoveCommas(",") == [] by {
      assert ","[..0] == [];
    }
    assert RemoveCommas(front) == RemoveCommas(head);
  }

  /** Splitting off the last three digits of `str(n)`. */
  lemma DecimalStringGroup(n: nat)
    requires n >= 1000
    ensures DecimalString(n) == DecimalString(n / 1000) + Pad3(n % 1000)
  {
    var a, b, c, r := n / 10, n / 100, n / 1000, n % 1000;
    DigitsOfGroup(n);
    assert DecimalString(b) == DecimalString(c) + [DigitChar(b % 10)];
    assert DecimalString(a) == DecimalString(b) + [DigitChar(a % 10)];
    assert DecimalString(n) == DecimalString(a) + [DigitChar(n % 10)];
  }

  /** The digits of the last group of `n`, read off `n` one place at a time. */
  lemma DigitsOfGroup(n: nat)
    ensures n / 10 / 10 == n / 100 && n / 100 / 10 == n / 1000
    ensures n % 1000 / 10 / 10 == n / 100 % 10
    ensures n % 1000 / 10 % 10 == n / 10 % 10
    ensures n % 1000 % 10 == n % 10
  {
    var c, r := n / 1000, n % 1000;
    assert n == 1000 * c + r;
    assert n / 10 == 100 * c + r / 10;
    assert n / 100 == 10 * c + r / 100;
  }

  lemma {:induction false} ThousandsDigits(n: nat)
    ensures |RemoveCommas(Thousands(n))| >= 1
    ensures AllDigits(RemoveCommas(Thousands(n)))
    ensures DecimalValue(RemoveCommas(Thousands(n))) == n
    ensures RemoveCommas(Thousands(n)) == DecimalString(n)
  {
    if n < 1000 {
      RemoveCommasNoComma(DecimalString(n));
    } else {
      var head, tail := Thousands(n / 1000), Pad3(n % 1000);
      assert Thousands(n) == (head + ",") + tail;
      ThousandsDigits(n / 1000);
      RemoveCommasGroup(head, tail);
      DecimalStringGroup(n);
    }
  }

  /** A count printed with thousands separators parses back to itself:
      `"10,000"` is read as 10000, as long as its digits stay within
      `int()`'s limit. */
  lemma CountCellThousands(n: nat)
    requires |DecimalString(n)| <= MaxStrDigits
    ensures CountCell(Thousands(n)) == Some(n)
  {
    var s := Thousands(n);
    DigitNotSpace(s[0]);
    DigitNotSpace(s[|s| - 1]);
    StripUntouched(s);
    ThousandsDigits(n);
    ParseIntDigits(RemoveCommas(s));
  }

  /** A count cell of more than `MaxStrDigits` digits makes `int()` raise. */
  lemma CountCellTooLong(cell: string)
    requires |cell| > MaxStrDigits && AllDigits(cell)
    ensures CountCell(cell) == None
  {
    DigitsUntouched(cell);
    assert ',' !in cell by {
      forall i | 0 <= i < |cell| ensures cell[i] != ',' {
        assert IsDigit(cell[i]);
      }
    }
    RemoveCommasNoComma(cell);
    ParseIntTooLong(cell);
  }

  // -----------------------------------------------------------------------
  // Sample rows

  lemma SampleTenThousand()
    ensures CountCell("10,000") == Some(10000)
  {
    TenThousandSpelled();
    TenThousandLength();
    CountCellThousands(10000);
  }

  lemma TenThousandSpelled()
    ensures Thousands(10000) == "10,000"
  {
    assert DecimalString(1) == "1";
    assert DecimalString(10) == DecimalString(1) + ['0'] == "10";
    assert Thousands(10) == "10";
    assert Pad3(0) == "000";
    assert Thousands(10000) == Thousands(10) + "," + Pad3(0);
  }

  lemma TenThousandLength()
    ensures |DecimalString(10000)| == 5
  {
    assert |DecimalString(1)| == 1;
    assert |DecimalString(10)| == 2;
    DecimalStringGroup(10000);
  }

  lemma SampleHundred()
    ensures CountCell("100") == Some(100)
  {
    assert DecimalString(1) == "1";
    assert DecimalString(10) == DecimalString(1) + ['0'] == "10";
    assert DecimalString(100) == DecimalString(10) + ['0'] == "100";
    assert Thousands(100) == "100";
    CountCellThousands(100);
  }

  /** A text none of whose characters starts the word does not contain it. */
  lemma MissingFirstChar(s: string, w: string)
    requires |w| > 0 && forall i :: 0 <= i < |s| ==> s[i] != w[0]
    ensures !Contains(s, w)
  {
  }

  lemma SampleSearch()
    ensures DatePattern.Search("6月1日") == Some((6, 1))
  {
    var cell := "6月1日";
    assert DigitValue('6') == 6 && DigitValue('1') == 1;
    assert DatePattern.Field(cell, 0, DatePattern.MonthMark) == Some((6, 2));
    assert DatePattern.Field(cell, 2, DatePattern.DayMark) == Some((1, 4));
    assert DatePattern.MatchAt(cell, 0) == Some((6, 1));
    assert DatePattern.SearchFrom(cell, 0) == Some((6, 1));
  }

  lemma SampleFormat()
    ensures FormatDate(6, 1) == "2025-06-01"
  {
    assert DecimalString(6) == "6" && DecimalString(1) == "1";
  }

  lemma EmitsWhen(cols: seq<string>, month: nat, day: nat, visitors: int, ad: int)
    requires |cols| >= 4 && !Contains(Strip(cols[0]), TotalMarker)
    requires CountCell(cols[1]) == Some(visitors) && CountCell(cols[3]) == Some(ad)
    requires DatePattern.Search(Strip(cols[0])) == Some((month, day))
    ensures ParseRow(cols) == Emitted(Record(FormatDate(month, day), visitors, ad))
  {
  }

  lemma SampleNoTotal()
    ensures !Contains("6月1日", TotalMarker)
  {
    MissingFirstChar("6月1日", TotalMarker);
  }

  /** A day row of the site's table: `6月1日`, 10,000 visitors, 100 with an AD pass. */
  lemma SampleDayRow()
    ensures ParseRow(["6月1日", "10,000", "x", "100"]) == Emitted(Record("2025-06-01", 10000, 100))
  {
    var cols := ["6月1日", "10,000", "x", "100"];
    SampleNoTotal();
    StripUntouched(cols[0]);
    SampleTenThousand();
    SampleHundred();
    SampleSearch();
    SampleFormat();
    EmitsWhen(cols, 6, 1, 10000, 100);
  }

  /** The total row is skipped although its counts would parse. */
  lemma SampleTotalRow()
    ensures ParseRow(["合計", "999,999", "x", "999"]) == Skipped
  {
    var cols := ["合計", "999,999", "x", "999"];
    assert OccursAt(cols[0], TotalMarker, 0);
    TotalRowSkipped(cols);
  }

  /** A row without a date but with a count that is not a number raises. */
  lemma SampleBadCountRow(cols: seq<string>)
    requires cols == ["備考", "-", "x", "0"]
    ensures ParseRow(cols) == Raised
  {
    SampleRemark(cols[0]);
    SampleDash();
    RaisesWhen(cols);
  }

  lemma SampleRemark(cell: string)
    requires cell == "備考"
    ensures !Contains(Strip(cell), TotalMarker)
  {
    StripUntouched(cell);
    MissingFirstChar(cell, TotalMarker);
  }

  /** A count with a letter among its digits raises. */
  lemma SampleMixedCount(cell: string)
    requires cell == "1a2"
    ensures CountCell(cell) == None
  {
    MixedCountKept(cell);
    assert !IsDigit(cell[1]);
  }

  lemma MixedCountKept(cell: string)
    requires cell == "1a2"
    ensures RemoveCommas(Strip(cell)) == cell
  {
    StripUntouched(cell);
    RemoveCommasNoComma(cell);
  }

  lemma SampleDash()
    ensures CountCell("-") == None
  {
    StripUntouched("-");
    RemoveCommasNoComma("-");
    ParseIntNeedsDigit("-");
  }

  /** A comma shields an information separator from `strip()`; once the
      comma is gone, `int()` meets the separator and raises. */
  lemma SampleSeparatorCount()
    ensures CountCell(",\U{1C}5") == None
  {
    SeparatorBehindComma();
    ParseIntInfoSeparator("\U{1C}5", 0);
  }

  lemma SeparatorBehindComma()
    ensures RemoveCommas(Strip(",\U{1C}5")) == "\U{1C}5"
  {
    var cell := ",\U{1C}5";
    StripUntouched(cell);
    RemoveCommasAppend([','], "\U{1C}5");
    assert [','] + "\U{1C}5" == cell;
    RemoveCommasNoComma("\U{1C}5");
  }

  /** ... so the whole row raises, and with it the article. */
  lemma SampleSeparatorRow(cols: seq<string>)
    requires cols == ["6月1日", ",\U{1C}5", "x", "1"]
    ensures ParseRow(cols) == Raised
  {
    StripUntouched(cols[0]);
    SampleNoTotal();
    SampleSeparatorCount();
    RaisesWhen(cols);
  }

  lemma RaisesWhen(cols: seq<string>)
    requires |cols| >= 4 && !Contains(Strip(cols[0]), TotalMarker) && CountCell(cols[1]) == None
    ensures ParseRow(cols) == Raised
  {
  }
}
