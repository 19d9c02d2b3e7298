/** The loop over the article URLs in `get_visitor_data`: each article is
    fetched and its table's rows parsed inside one `try`; an exception ends
    that article, logs its URL, and the loop goes on with the next one.
    Records appended before the exception stay in `data`. */
module Harvest {
  import opened Wrappers
  import opened RowParser
  import Links
  import opened Seqs

  /** An article after `requests.get` and BeautifulSoup: either that step
      raised, or the page was read, with its `table.has-fixed-layout` as the
      `td` texts of each `tr` when the page has one. */
  datatype Page = FetchFailed | Fetched(table: Option<seq<seq<string>>>)

  /** `table.find_all("tr")[1:]`: all rows but the header. */
  function BodyRows(table: seq<seq<string>>): (rows: seq<seq<string>>)
    ensures table != [] ==> [table[0]] + rows == table
    ensures table == [] ==> rows == []
  {
    if table == [] then [] else table[1..]
  }

  /** What one article leaves behind: the records it appended, and whether
      it ended in an exception. */
  datatype Yield = Yield(records: seq<Record>, raised: bool)

  /** The outcome of every row, in order. */
  function Outcomes(rows: seq<seq<string>>): (outs: seq<RowOutcome>)
    ensures |outs| == |rows|
    ensures forall j :: 0 <= j < |rows| ==> outs[j] == ParseRow(rows[j])
  {
    seq(|rows|, j requires 0 <= j < |rows| => ParseRow(rows[j]))
  }

  /** The row loop driven by the rows' outcomes: once a row raises, later
      rows are not read. */
  function Run(outs: seq<RowOutcome>): (y: Yield)
    ensures y.raised <==> !NoneRaised(outs)
    ensures y.records <= Emits(outs)
    ensures !y.raised ==> y.records == Emits(outs)
  {
    if outs == [] then Yield([], false)
    else
      var front := outs[..|outs| - 1];
      assert forall j :: 0 <= j < |front| ==> front[j] == outs[j];
      Step(Run(front), outs[|outs| - 1])
  }

  /** One more row after the loop has reached `y`. */
  function Step(y: Yield, out: RowOutcome): (r: Yield)
    ensures y.raised ==> r == y
    ensures r.raised <==> y.raised || out.Raised?
    ensures y.records <= r.records && |r.records| <= |y.records| + 1
  {
    if y.raised then y
    else
      match out
      case Skipped => y
      case Emitted(r) => Yield(y.records + [r], false)
      case Raised => Yield(y.records, true)
  }

  lemma RunStep(outs: seq<RowOutcome>, j: nat)
    requires j < |outs|
    ensures Run(outs[..j + 1]) == Step(Run(outs[..j]), outs[j])
  {
    assert outs[..j + 1][..j] == outs[..j];
  }

  /** The records of the emitting rows, in row order, as if nothing raised. */
  function Emits(outs: seq<RowOutcome>): seq<Record> {
    if outs == [] then []
    else
      var last := outs[|outs| - 1];
      Emits(outs[..|outs| - 1]) + (if last.Emitted? then [last.record] else [])
  }

  predicate NoneRaised(outs: seq<RowOutcome>) {
    forall j :: 0 <= j < |outs| ==> !outs[j].Raised?
  }

  /** A loop none of whose rows raises keeps every emitted record. */
  lemma {:induction false} RunNoRaise(outs: seq<RowOutcome>)
    requires NoneRaised(outs)
    ensures Run(outs) == Yield(Emits(outs), false)
    decreases |outs|
  {
    if outs != [] {
      var front := outs[..|outs| - 1];
      assert NoneRaised(front) by {
        assert forall j :: 0 <= j < |front| ==> front[j] == outs[j];
      }
      RunNoRaise(front);
    }
  }

  /** Once the loop has raised, the rows after it change nothing. */
  lemma {:induction false} RunSticky(outs: seq<RowOutcome>, k: nat)
    requires k <= |outs| && Run(outs[..k]).raised
    ensures Run(outs) == Run(outs[..k])
    decreases |outs| - k
  {
    if k < |outs| {
      var next := outs[..k + 1];
      assert next[..k] == outs[..k];
      assert Run(next) == Run(outs[..k]);
      RunSticky(outs, k + 1);
    } else {
      assert outs[..k] == outs;
    }
  }

  /** Some row of the table makes `int()` raise. */
  ghost predicate SomeRowRaises(rows: seq<seq<string>>) {
    exists j :: 0 <= j < |rows| && ParseRow(rows[j]).Raised?
  }

  /** The loop over a table's rows. */
  function TableYield(rows: seq<seq<string>>): (y: Yield)
    ensures y.raised <==> SomeRowRaises(rows)
    ensures y.records <= Emits(Outcomes(rows))
  {
    Run(Outcomes(rows))
  }

  /** When outcome `k` is the first to raise, the loop keeps the records
      of the outcomes before it and ends in an exception. */
  lemma RunFirstRaise(outs: seq<RowOutcome>, k: nat)
    requires k < |outs| && outs[k].Raised? && NoneRaised(outs[..k])
    ensures Run(outs) == Yield(Emits(outs[..k]), true)
  {
    RunNoRaise(outs[..k]);
    RunStep(outs, k);
    RunSticky(outs, k + 1);
  }

  /** When row `k` is the first to raise, the article keeps the records of
      rows `0..k-1` and ends in an exception. */
  lemma TableYieldFirstRaise(rows: seq<seq<string>>, k: nat)
    requires k < |rows| && ParseRow(rows[k]).Raised?
    requires forall j :: 0 <= j < k ==> !ParseRow(rows[j]).Raised?
    ensures TableYield(rows) == Yield(Emits(Outcomes(rows)[..k]), true)
  {
    var outs := Outcomes(rows);
    assert NoneRaised(outs[..k]);
    RunFirstRaise(outs, k);
  }

  /** A table none of whose rows raises yields all its emitted records. */
  lemma TableYieldNoRaise(rows: seq<seq<string>>)
    requires forall j :: 0 <= j < |rows| ==> !ParseRow(rows[j]).Raised?
    ensures TableYield(rows) == Yield(Emits(Outcomes(rows)), false)
  {
    RunNoRaise(Outcomes(rows));
  }

  /** What happens to one article inside its `try`. */
  function PageYield(page: Page): (y: Yield)
    ensures y.raised <==> page.FetchFailed? || (page.table.Some? && SomeRowRaises(BodyRows(page.table.value)))
    ensures !(page.Fetched? && page.table.Some?) ==> y.records == []
  {
    match page
    case FetchFailed => Yield([], true)
    case Fetched(None) => Yield([], false)
    case Fetched(Some(table)) => TableYield(BodyRows(table))
  }

  /** `data` and the URLs reported through `st.error`. */
  datatype Collection = Collection(data: seq<Record>, errors: seq<string>)

  /** The outer loop over `urls`, for any way `yieldOf` of turning one URL
      into what its article leaves behind. */
  function Gather(urls: seq<string>, yieldOf: string -> Yield): (c: Collection)
    ensures forall e :: e in c.errors ==> e in urls && yieldOf(e).raised
    ensures forall i :: 0 <= i < |urls| && yieldOf(urls[i]).raised ==> urls[i] in c.errors
  {
    if urls == [] then Collection([], [])
    else
      var front := urls[..|urls| - 1];
      assert forall i :: 0 <= i < |front| ==> front[i] == urls[i];
      var h := Gather(front, yieldOf);
      var u := urls[|urls| - 1];
      var y := yieldOf(u);
      Collection(h.data + y.records, h.errors + (if y.raised then [u] else []))
  }

  /** An article's yield when `fetch` stands for its request and parsing. */
  function ArticleYield(fetch: string -> Page): string -> Yield {
    u => PageYield(fetch(u))
  }

  /** The outer loop of `get_visitor_data`, with `fetch` standing for the
      request and parsing of one article. */
  function Collected(urls: seq<string>, fetch: string -> Page): (c: Collection)
    ensures forall e :: e in c.errors ==> e in urls && PageYield(fetch(e)).raised
    ensures forall i :: 0 <= i < |urls| && PageYield(fetch(urls[i])).raised ==> urls[i] in c.errors
  {
    Gather(urls, ArticleYield(fetch))
  }

  /** The row loop of one article: rows are parsed in order and their
      records appended to `data` until one raises. */
  method AppendTable(data: seq<Record>, rows: seq<seq<string>>) returns (grown: seq<Record>, raised: bool)
    ensures grown == data + TableYield(rows).records
    ensures raised == TableYield(rows).raised
  {
    ghost var outs := Outcomes(rows);
    grown, raised := data, false;
    var j := 0;
    while j < |rows| && !raised
      invariant 0 <= j <= |rows|
      invariant grown == data + Run(outs[..j]).records
      invariant raised == Run(outs[..j]).raised
      decreases |rows| - j
    {
      var out := ParseRow(rows[j]);
      assert out == outs[j];
      RunStep(outs, j);
      match out {
        case Skipped =>
        case Emitted(r) =>
          AppendAssoc(data, Run(outs[..j]).records, [r]);
          grown := grown + [r];
        case Raised =>
          raised := true;
      }
      j := j + 1;
    }
    if raised {
      RunSticky(outs, j);
    } else {
      assert outs[..j] == outs;
    }
  }

  /** The body of the `try` for one article: its table's rows go into
      `data` until one raises. */
  method ReadArticle(data: seq<Record>, page: Page) returns (grown: seq<Record>, raised: bool)
    ensures grown == data + PageYield(page).records
    ensures raised == PageYield(page).raised
  {
    match page {
      case FetchFailed =>
        grown, raised := data, true;
      case Fetched(None) =>
        grown, raised := data, false;
      case Fetched(Some(table)) =>
        grown, raised := AppendTable(data, BodyRows(table));
    }
  }

  /** The nested loops of `get_visitor_data` that fill `data`. */
  method CollectRecords(urls: seq<string>, fetch: string -> Page) returns (data: seq<Record>, errors: seq<string>)
    ensures Collection(data, errors) == Collected(urls, fetch)
  {
    ghost var yieldOf := ArticleYield(fetch);
    data, errors := [], [];
    for i := 0 to |urls|
      invariant Collection(data, errors) == Gather(urls[..i], yieldOf)
    {
      var url := urls[i];
      var raised;
      data, raised := ReadArticle(data, fetch(url));
      if raised {
        errors := errors + [url];
      }
      ArticleYieldApply(fetch, url);
      GatherLast(urls[..i + 1], yieldOf);
      assert urls[..i + 1][..i] == urls[..i];
    }
    assert urls[..|urls|] == urls;
  }

  /** One more article after a run of them. */
  lemma GatherLast(urls: seq<string>, yieldOf: string -> Yield)
    requires urls != []
    ensures var u := urls[|urls| - 1];
      var h := Gather(urls[..|urls| - 1], yieldOf);
      var y := yieldOf(u);
      Gather(urls, yieldOf) == Collection(h.data + y.records, h.errors + (if y.raised then [u] else []))
  {
  }

  /** Collecting two runs of articles one after the other. */
  lemma {:induction false} GatherAppend(a: seq<string>, b: seq<string>, yieldOf: string -> Yield)
    ensures Gather(a + b, yieldOf) ==
      Collection(Gather(a, yieldOf).data + Gather(b, yieldOf).data,
              Gather(a, yieldOf).errors + Gather(b, yieldOf).errors)
    decreases |b|
  {
    if b == [] {
      assert a + b == a;
    } else {
      var b' := b[..|b| - 1];
      var u := b[|b| - 1];
      assert (a + b)[..|a + b| - 1] == a + b';
      assert (a + b)[|a + b| - 1] == u;
      GatherAppend(a, b', yieldOf);
      var ha, hb' := Gather(a, yieldOf), Gather(b', yieldOf);
      var y := yieldOf(u);
      var e := if y.raised then [u] else [];
      AppendAssoc(ha.data, hb'.data, y.records);
      AppendAssoc(ha.errors, hb'.errors, e);
    }
  }

  /** An article whose row `k` is the first to raise adds the records of
      its rows before `k` and has its URL reported; the articles before it
      keep what they collected. */
  lemma CollectedFailingArticle(urls: seq<string>, u: string, fetch: string -> Page, k: nat)
    requires fetch(u).Fetched? && fetch(u).table.Some?
    requires var rows := BodyRows(fetch(u).table.value);
      && k < |rows| && ParseRow(rows[k]).Raised?
      && forall j :: 0 <= j < k ==> !ParseRow(rows[j]).Raised?
    ensures var rows := BodyRows(fetch(u).table.value);
      Collected(urls + [u], fetch) ==
        Collection(Collected(urls, fetch).data + Emits(Outcomes(rows)[..k]),
                Collected(urls, fetch).errors + [u])
  {
    var rows := BodyRows(fetch(u).table.value);
    TableYieldFirstRaise(rows, k);
    ArticleYieldApply(fetch, u);
    GatherRaising(urls, u, ArticleYield(fetch));
  }

  /** One more article that raises adds its records and its URL. */
  lemma GatherRaising(urls: seq<string>, u: string, yieldOf: string -> Yield)
    requires yieldOf(u).raised
    ensures Gather(urls + [u], yieldOf) ==
      Collection(Gather(urls, yieldOf).data + yieldOf(u).records, Gather(urls, yieldOf).errors + [u])
  {
    GatherLast(urls + [u], yieldOf);
    assert (urls + [u])[..|urls|] == urls;
  }

  /** Later articles never disturb what earlier ones left: the harvest of
      the first `i` articles is a prefix of the whole harvest, whatever
      happened in between. */
  lemma CollectedPrefix(urls: seq<string>, i: nat, fetch: string -> Page)
    requires i <= |urls|
    ensures Collected(urls[..i], fetch).data <= Collected(urls, fetch).data
    ensures Collected(urls[..i], fetch).errors <= Collected(urls, fetch).errors
  {
    assert urls == urls[..i] + urls[i..];
    GatherAppend(urls[..i], urls[i..], ArticleYield(fetch));
  }

  lemma GatherSingle(u: string, yieldOf: string -> Yield)
    ensures Gather([u], yieldOf) ==
      Collection(yieldOf(u).records, if yieldOf(u).raised then [u] else [])
  {
    assert [u][..0] == [];
  }

  /** Each URL appears at most once and both sequences hold the same URLs. */
  ghost predicate SameUrls(a: seq<string>, b: seq<string>) {
    Links.Distinct(a) && Links.Distinct(b) && Links.Members(a) == Links.Members(b)
  }

  /** Taking the last URL of `a` and the same URL, at `k`, out of `b`
      leaves two orderings of the same URLs. */
  lemma SameUrlsRemove(a: seq<string>, b: seq<string>) returns (k: nat)
    requires SameUrls(a, b) && a != []
    ensures k < |b| && b[k] == a[|a| - 1]
    ensures SameUrls(a[..|a| - 1] + a[|a|..], b[..k] + b[k + 1..])
  {
    var n := |a| - 1;
    assert a[n] in Links.Members(a);
    k :| 0 <= k < |b| && b[k] == a[n];
    DistinctRemove(a, n);
    DistinctRemove(b, k);
  }

  /** Taking the entry at `k` out of a duplicate-free sequence leaves one
      without that entry and without duplicates. */
  lemma DistinctRemove(s: seq<string>, k: nat)
    requires Links.Distinct(s) && k < |s|
    ensures Links.Distinct(s[..k] + s[k + 1..])
    ensures Links.Members(s) == Links.Members(s[..k] + s[k + 1..]) + {s[k]}
    ensures s[k] !in s[..k] + s[k + 1..]
  {
    var r := s[..k] + s[k + 1..];
    assert forall i :: 0 <= i < |r| ==> r[i] == if i < k then s[i] else s[i + 1];
    assert s == s[..k] + [s[k]] + s[k + 1..];
  }

  /** Where one article sits among the others moves its records and its
      error report, but keeps their multisets. */
  lemma GatherAt(s: seq<string>, k: nat, yieldOf: string -> Yield)
    requires k < |s|
    ensures multiset(Gather(s, yieldOf).data)
      == multiset(Gather(s[..k] + s[k + 1..], yieldOf).data) + multiset(Gather([s[k]], yieldOf).data)
    ensures multiset(Gather(s, yieldOf).errors)
      == multiset(Gather(s[..k] + s[k + 1..], yieldOf).errors) + multiset(Gather([s[k]], yieldOf).errors)
  {
    var front, u, back := s[..k], s[k], s[k + 1..];
    SplitAt(s, k);
    var hf, hu, hb := Gather(front, yieldOf), Gather([u], yieldOf), Gather(back, yieldOf);
    GatherAppend(front + [u], back, yieldOf);
    GatherAppend(front, [u], yieldOf);
    GatherAppend(front, back, yieldOf);
    MultisetMiddle(hf.data, hu.data, hb.data);
    MultisetMiddle(hf.errors, hu.errors, hb.errors);
  }

  lemma SameUrlsEmpty(a: seq<string>, b: seq<string>)
    requires SameUrls(a, b) && a == []
    ensures b == []
  {
  }

  /** The set behind `list(set(...))` fixes the harvest up to order: two
      duplicate-free orderings of the same URLs collect the same records
      and report the same URLs, each as often. */
  lemma {:induction false} GatherReorder(a: seq<string>, b: seq<string>, yieldOf: string -> Yield)
    requires SameUrls(a, b)
    ensures multiset(Gather(a, yieldOf).data) == multiset(Gather(b, yieldOf).data)
    ensures multiset(Gather(a, yieldOf).errors) == multiset(Gather(b, yieldOf).errors)
    decreases |a|
  {
    if a == [] {
      SameUrlsEmpty(a, b);
    } else {
      var n := |a| - 1;
      var k := SameUrlsRemove(a, b);
      var a', b' := a[..n] + a[n + 1..], b[..k] + b[k + 1..];
      GatherReorder(a', b', yieldOf);
      GatherAt(a, n, yieldOf);
      GatherAt(b, k, yieldOf);
    }
  }

  /** The harvest of the day-row sample table below. */
  lemma SampleTable()
    ensures TableYield([["6月1日", "10,000", "x", "100"], ["合計", "999,999", "x", "999"]])
      == Yield([Record("2025-06-01", 10000, 100)], false)
  {
    var day := ["6月1日", "10,000", "x", "100"];
    var total := ["合計", "999,999", "x", "999"];
    var rec := Record("2025-06-01", 10000, 100);
    SampleDayRow();
    SampleTotalRow();
    TableOfTwo([day, total], Emitted(rec), Skipped);
  }

  lemma TableOfTwo(rows: seq<seq<string>>, first: RowOutcome, second: RowOutcome)
    requires |rows| == 2 && ParseRow(rows[0]) == first && ParseRow(rows[1]) == second
    ensures TableYield(rows) == Step(Step(Yield([], false), first), second)
  {
    RunPair(Outcomes(rows));
  }

  lemma RunPair(outs: seq<RowOutcome>)
    requires |outs| == 2
    ensures Run(outs) == Step(Step(Yield([], false), outs[0]), outs[1])
  {
    RunStep(outs, 0);
    RunStep(outs, 1);
    assert outs[..2] == outs;
  }

  /** Two articles: one whose table has a header, a day row and the total
      row, and one whose request fails. The harvest is the single day
      record, and the failing article's URL is reported. */
  lemma SampleHarvest(fetch: string -> Page)
    requires fetch("https://www.expo2025.or.jp/news/a") ==
      Fetched(Some([["日付", "来場者数", "チケット", "AD証"],
                    ["6月1日", "10,000", "x", "100"],
                    ["合計", "999,999", "x", "999"]]))
    requires fetch("https://www.expo2025.or.jp/news/b") == FetchFailed
    ensures Collected(["https://www.expo2025.or.jp/news/a", "https://www.expo2025.or.jp/news/b"], fetch)
      == Collection([Record("2025-06-01", 10000, 100)], ["https://www.expo2025.or.jp/news/b"])
  {
    var header := ["日付", "来場者数", "チケット", "AD証"];
    var rows := [["6月1日", "10,000", "x", "100"], ["合計", "999,999", "x", "999"]];
    var a := "https://www.expo2025.or.jp/news/a";
    SampleTable();
    assert [header] + rows == fetch(a).table.value;
    SampleArticle(fetch(a), header, rows, Yield([Record("2025-06-01", 10000, 100)], false));
    TwoArticles(fetch, a, "https://www.expo2025.or.jp/news/b");
  }

  /** The harvest of a readable article followed by a failing one. */
  lemma TwoArticles(fetch: string -> Page, a: string, b: string)
    requires !PageYield(fetch(a)).raised && fetch(b) == FetchFailed
    ensures Collected([a, b], fetch) == Collection(PageYield(fetch(a)).records, [b])
  {
    ArticleYieldApply(fetch, a);
    ArticleYieldApply(fetch, b);
    GatherTwo(a, b, ArticleYield(fetch));
  }

  lemma GatherTwo(a: string, b: string, yieldOf: string -> Yield)
    requires !yieldOf(a).raised && yieldOf(b) == Yield([], true)
    ensures Gather([a, b], yieldOf) == Collection(yieldOf(a).records, [b])
  {
    GatherSingle(a, yieldOf);
    GatherRaising([a], b, yieldOf);
    assert [a] + [b] == [a, b];
  }

  lemma ArticleYieldApply(fetch: string -> Page, u: string)
    ensures ArticleYield(fetch)(u) == PageYield(fetch(u))
  {
  }

  lemma SampleArticle(page: Page, header: seq<string>, rows: seq<seq<string>>, y: Yield)
    requires page == Fetched(Some([header] + rows)) && TableYield(rows) == y
    ensures PageYield(page) == y
  {
    assert BodyRows([header] + rows) == rows;
  }
}
