/** The end of `get_visitor_data`: the collected records become a table
    whose date column is parsed with `pd.to_datetime(..., errors="coerce")`,
    rows whose date did not parse are dropped (`dropna`), and the rows are
    sorted by date. The whole function is assembled here from the search
    page's anchors and a stand-in for fetching one article. */
module Dataset {
  import opened Wrappers
  import opened Calendar
  import opened RowParser
  import Links
  import Harvest
  import opened Seqs

  /** A row of the returned table: the parsed date and the two counts. */
  datatype Row = Row(date: Date, visitors: int, ad: int)

  /** The record's date column after `to_datetime` with `errors="coerce"`.
      A date that parses gives a row of a valid date, which the scraper
      spells as the record it came from. */
  function CoerceRecord(r: Record): (o: Option<Row>)
    ensures o.Some? <==> ToDate(r.date).Some?
    ensures o.Some? ==> ValidDate(o.value.date) && Spelled(o.value) == r
  {
    match ToDate(r.date)
    case None => None
    case Some(dt) =>
      ToDateCanonical(r.date);
      Some(Row(dt, r.visitors, r.ad))
  }

  /** What one record leaves in the table: its row, or nothing when its
      date did not parse. */
  function Survivor(r: Record): (rows: seq<Row>)
    ensures |rows| <= 1
    ensures rows != [] <==> ToDate(r.date).Some?
  {
    match CoerceRecord(r)
    case None => []
    case Some(row) => [row]
  }

  /** `to_datetime` then `dropna(subset=["日付"])`: the records whose date
      parsed, in their original order. */
  function Coerce(data: seq<Record>): (rows: seq<Row>)
    ensures |rows| <= |data|
    ensures forall i :: 0 <= i < |rows| ==> ValidDate(rows[i].date)
  {
    if data == [] then []
    else Coerce(data[..|data| - 1]) + Survivor(data[|data| - 1])
  }

  /** The record the scraper writes for a row of the table. */
  function Spelled(row: Row): Record
    requires ValidDate(row.date)
  {
    Record(FormatDate(row.date.month, row.date.day), row.visitors, row.ad)
  }

  /** A record survives as `row` exactly when it is the scraper's own
      spelling of `row`. */
  lemma SurvivorIff(r: Record, row: Row)
    ensures row in Survivor(r) <==> ValidDate(row.date) && r == Spelled(row)
  {
    if ValidDate(row.date) {
      ToDateFormatDate(row.date.month, row.date.day);
    }
    if ToDate(r.date).Some? {
      ToDateCanonical(r.date);
    }
  }

  /** A row survives exactly when some record carries its date in the
      scraper's own spelling and its counts. */
  lemma {:induction false} CoerceMembers(data: seq<Record>, row: Row)
    ensures row in Coerce(data) <==> ValidDate(row.date) && Spelled(row) in data
    decreases |data|
  {
    if data != [] {
      var init, last := data[..|data| - 1], data[|data| - 1];
      assert data == init + [last];
      CoerceMembers(init, row);
      SurvivorIff(last, row);
      assert row in Coerce(data) <==> row in Coerce(init) || row in Survivor(last);
      if ValidDate(row.date) {
        assert Spelled(row) in data <==> Spelled(row) in init || Spelled(row) == last;
      }
    }
  }

  /** Coercion works record by record. */
  lemma {:induction false} CoerceAppend(a: seq<Record>, b: seq<Record>)
    ensures Coerce(a + b) == Coerce(a) + Coerce(b)
    decreases |b|
  {
    if b == [] {
      assert a + b == a;
    } else {
      var init, last := b[..|b| - 1], b[|b| - 1];
      assert (a + b)[..|a + b| - 1] == a + init;
      assert (a + b)[|a + b| - 1] == last;
      CoerceAppend(a, init);
      AppendAssoc(Coerce(a), Coerce(init), Survivor(last));
    }
  }

  lemma CoerceSingle(r: Record)
    ensures Coerce([r]) == Survivor(r)
  {
    assert [r][..0] == [];
  }

  /** Where a record sits does not change how often each row survives. */
  lemma CoerceAt(s: seq<Record>, k: nat)
    requires k < |s|
    ensures multiset(Coerce(s)) == multiset(Coerce(s[..k] + s[k + 1..])) + multiset(Coerce([s[k]]))
  {
    var front, r, back := s[..k], s[k], s[k + 1..];
    SplitAt(s, k);
    CoerceAppend(front + [r], back);
    CoerceAppend(front, [r]);
    CoerceAppend(front, back);
    MultisetMiddle(Coerce(front), Coerce([r]), Coerce(back));
    CoerceSingle(r);
  }

  /** Records in another order give the same rows in another order. */
  lemma {:induction false} CoercePermutation(a: seq<Record>, b: seq<Record>)
    requires multiset(a) == multiset(b)
    ensures multiset(Coerce(a)) == multiset(Coerce(b))
    decreases |a|
  {
    if a == [] {
      assert |b| == |multiset(b)| == 0;
    } else {
      var n := |a| - 1;
      var r := a[n];
      assert r in multiset(b);
      var k :| 0 <= k < |b| && b[k] == r;
      var a', b' := a[..n] + a[n + 1..], b[..k] + b[k + 1..];
      RemoveAt(a, n);
      RemoveAt(b, k);
      CoercePermutation(a', b');
      CoerceAt(a, n);
      CoerceAt(b, k);
    }
  }

  // -----------------------------------------------------------------------
  // `df.sort_values("日付")`

  predicate SortedByDate(rows: seq<Row>) {
    forall i, j :: 0 <= i < j < |rows| ==> NotAfter(rows[i].date, rows[j].date)
  }

  /** No row is later than `dt`. */
  predicate NoneLater(rows: seq<Row>, dt: Date) {
    forall i :: 0 <= i < |rows| ==> NotAfter(rows[i].date, dt)
  }

  lemma NoneLaterSame(a: seq<Row>, b: seq<Row>, dt: Date)
    requires multiset(a) == multiset(b) && NoneLater(b, dt)
    ensures NoneLater(a, dt)
  {
    forall i | 0 <= i < |a|
      ensures NotAfter(a[i].date, dt)
    {
      assert a[i] in multiset(b);
    }
  }

  lemma SortedSnoc(rows: seq<Row>, row: Row)
    requires SortedByDate(rows) && NoneLater(rows, row.date)
    ensures SortedByDate(rows + [row])
  {
  }

  lemma SortedInit(rows: seq<Row>)
    requires SortedByDate(rows) && rows != []
    ensures SortedByDate(rows[..|rows| - 1]) && NoneLater(rows[..|rows| - 1], rows[|rows| - 1].date)
  {
  }

  /** `row` placed after the rows not later than it. */
  function InsertByDate(rows: seq<Row>, row: Row): (r: seq<Row>)
    requires SortedByDate(rows)
    ensures SortedByDate(r)
    ensures multiset(r) == multiset(rows) + multiset{row}
  {
    if rows == [] then [row]
    else
      var init, last := rows[..|rows| - 1], rows[|rows| - 1];
      SortedInit(rows);
      if NotAfter(last.date, row.date) then
        assert NoneLater(rows, row.date);
        SortedSnoc(rows, row);
        rows + [row]
      else
        var r := InsertByDate(init, row);
        assert NoneLater(init + [row], last.date);
        assert multiset(r) == multiset(init + [row]);
        NoneLaterSame(r, init + [row], last.date);
        SortedSnoc(r, last);
        assert rows == init + [last];
        r + [last]
  }

  /** `df.sort_values("日付", inplace=True)`: the rows ordered by date.
      Rows of the same date may come out in any order: pandas' default
      quicksort is not stable, so no order of equal dates is promised. */
  method SortValues(rows: seq<Row>) returns (sorted: seq<Row>)
    ensures SortedByDate(sorted)
    ensures multiset(sorted) == multiset(rows)
  {
    sorted := [];
    for i := 0 to |rows|
      invariant SortedByDate(sorted)
      invariant multiset(sorted) == multiset(rows[..i])
    {
      sorted := InsertByDate(sorted, rows[i]);
      assert rows[..i + 1] == rows[..i] + [rows[i]];
    }
    assert rows[..|rows|] == rows;
  }

  /** No two rows share a date. */
  predicate DistinctDates(rows: seq<Row>) {
    forall i, j :: 0 <= i < j < |rows| ==> rows[i].date != rows[j].date
  }

  /** Two sorted orderings of the same rows with distinct dates end in the
      same row. */
  lemma SortedSameLast(a: seq<Row>, b: seq<Row>)
    requires SortedByDate(a) && SortedByDate(b) && multiset(a) == multiset(b)
    requires DistinctDates(a) && a != []
    ensures |b| == |a| && b[|b| - 1] == a[|a| - 1]
  {
    assert |multiset(a)| == |a| && |multiset(b)| == |b|;
    var n := |a| - 1;
    var x, y := a[n], b[n];
    assert y in multiset(a);
    var p :| 0 <= p < |a| && a[p] == y;
    assert x in multiset(b);
    var q :| 0 <= q < |b| && b[q] == x;
    assert NotAfter(y.date, x.date) && NotAfter(x.date, y.date);
    assert a[p].date == a[n].date;
    assert p == n;
  }

  /** Dropping the common last row of two sorted orderings of the same
      distinct-dated rows leaves two such orderings. */
  lemma SortedDropLast(a: seq<Row>, b: seq<Row>)
    requires SortedByDate(a) && SortedByDate(b) && multiset(a) == multiset(b)
    requires DistinctDates(a) && a != []
    ensures |b| == |a| && a == a[..|a| - 1] + [a[|a| - 1]] && b == b[..|a| - 1] + [a[|a| - 1]]
    ensures SortedByDate(a[..|a| - 1]) && SortedByDate(b[..|a| - 1])
    ensures multiset(a[..|a| - 1]) == multiset(b[..|a| - 1])
    ensures DistinctDates(a[..|a| - 1])
  {
    SortedSameLast(a, b);
    var n := |a| - 1;
    LastSplit(a);
    LastSplit(b);
    MultisetDropLast(a);
    MultisetDropLast(b);
    SortedInit(a);
    SortedInit(b);
    assert forall i :: 0 <= i < n ==> a[..n][i] == a[i];
  }

  /** When no two rows share a date, the sorted order is the only one:
      the unstable sort cannot show. */
  lemma {:induction false} SortedUnique(a: seq<Row>, b: seq<Row>)
    requires SortedByDate(a) && SortedByDate(b) && multiset(a) == multiset(b)
    requires DistinctDates(a)
    ensures a == b
    decreases |a|
  {
    if a == [] {
      assert |multiset(b)| == |b|;
    } else {
      SortedDropLast(a, b);
      var n := |a| - 1;
      SortedUnique(a[..n], b[..n]);
    }
  }

  /** `get_visitor_data`, from the anchors of the search result page.
      The table holds, sorted by date, the rows that collecting the
      articles in first-seen order would give; the set's own order only
      moves records of equal dates and the reported URLs around. */
  method GetVisitorData(anchors: seq<Links.Anchor>, fetch: string -> Harvest.Page)
    returns (table: seq<Row>, errors: seq<string>)
    ensures SortedByDate(table)
    ensures forall i :: 0 <= i < |table| ==> ValidDate(table[i].date)
    ensures var h := Harvest.Collected(Links.FirstSeen(Links.MatchingLinks(anchors, Links.Keyword, Links.BaseUrl)), fetch);
      multiset(table) == multiset(Coerce(h.data)) && multiset(errors) == multiset(h.errors)
  {
    var links := Links.ExtractLinks(anchors, Links.Keyword, Links.BaseUrl);
    var unique := Links.Dedup(links);
    var data;
    data, errors := Harvest.CollectRecords(unique, fetch);
    var rows := Coerce(data);
    table := SortValues(rows);
    ghost var reference := Links.FirstSeen(links);
    Harvest.GatherReorder(unique, reference, Harvest.ArticleYield(fetch));
    CoercePermutation(data, Harvest.Collected(reference, fetch).data);
    SortedValid(table, rows);
  }

  /** `13月40日` is written as `2025-13-40`, which `to_datetime` turns
      into "not a time" and `dropna` removes. */
  lemma SampleInvalidDate()
    ensures Coerce([Record(FormatDate(13, 40), 1, 1)]) == []
  {
    ToDateFormatDate(13, 40);
    CoerceSingle(Record(FormatDate(13, 40), 1, 1));
  }

  lemma SortedValid(table: seq<Row>, rows: seq<Row>)
    requires multiset(table) == multiset(rows)
    requires forall i :: 0 <= i < |rows| ==> ValidDate(rows[i].date)
    ensures forall i :: 0 <= i < |table| ==> ValidDate(table[i].date)
  {
    forall i | 0 <= i < |table|
      ensures ValidDate(table[i].date)
    {
      assert table[i] in multiset(rows);
    }
  }
}
