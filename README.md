# Expo 2025 visitor counts: a verified model of the scraper's data pipeline

`streamlit_app.py` is a small Streamlit dashboard. It searches the Expo 2025
site for the articles titled 来場者数と入場チケット販売数について. It reads each
article's attendance table and collects one record per day: the date, the
visitor count and the pass-holder (AD証) count. It then builds a pandas
table, adds weekday and week columns, and pivots the counts by weekday and
week for plotting.

This project models that pipeline in Dafny, from the anchors of the search
page to the pivot, and proves what each step guarantees:

- `PyStr`: the pieces of Python's string handling the parser uses.
  - `str.strip` with Python's whitespace set.
  - The substring test `in` and `str.startswith`.
  - `str.replace(",", "")`.
  - `int()` on an optional sign followed by ASCII digits, with the
    whitespace `int()` skips. That is `strip()`'s whitespace without the
    information separators U+001C to U+001F. Text of more than 4300 digits
    raises, as in Python 3.11 and later.
- `DatePattern`: `re.search(r"(\d{1,2})月(\d{1,2})日", ...)`. The match is
  leftmost, and each group is greedy but can give back a digit.
- `Calendar`: the dates of 2025.
  - The `2025-MM-DD` text written by the f-string.
  - `pd.to_datetime(..., errors="coerce")` on that text.
  - The weekday with Monday = 0 and its label map 月…日.
  - The start of the `W-SUN` period. All dates are counted in days from
    2025-01-01.
- `RowParser`: the body of the row loop (lines 67-81). A row is skipped,
  gives a record, or raises.
- `Links`:
  - the anchor loop that picks and resolves article links;
  - `list(set(...))`.
- `Harvest`: the article loop with its `try`. An exception ends the
  article. The records added before it stay, and the URL is reported.
- `Dataset`:
  - date coercion, `dropna` and `sort_values`;
  - `get_visitor_data` as a whole.
- `Preprocess`: the derived columns and `df.pivot`.
- `Seqs`: small facts about sequences that the proofs share.
- `Wrappers`: `Option`.

The source's loops become methods with loops:

- `Links.ExtractLinks` and `Links.Dedup`;
- `Harvest.AppendTable` and `Harvest.CollectRecords`;
- `Dataset.SortValues`.

Two more methods call those loops without a loop of their own:

- `Harvest.ReadArticle`, the body of the `try`;
- `Dataset.GetVisitorData`, the whole function.

Each method is proved against a function or a property: `MatchingLinks`,
`TableYield`, `PageYield`, `Collected`, sortedness plus a permutation. The
parsing and date arithmetic are functions.

Four behaviours of the code shape the model:

- **Week key.** The week key is the start of the `W-SUN` period. That is
  the **Monday** on or before the date.
- **Exceptions.** An exception in an article keeps the records that were
  appended before it.
- **Sorting.** The sort is pandas' default quicksort, which is not stable.
  The model promises no order among rows of the same date.
- **Duplicate dates.** Nothing removes rows of a repeated date. Two
  articles that list the same day give two rows, and then `df.pivot`
  raises. `Preprocess.PivotFailsIffRepeatedDate` states exactly when this
  happens.

## Model

| member | source | states |
|---|---|---|
| PyStr.Strip | streamlit_app.py:71 | `strip()` returns a slice of its input. Only whitespace is removed before and after it, and the result neither starts nor ends with whitespace |
| PyStr.StripUntouched | streamlit_app.py:71 | text that neither starts nor ends with whitespace is left as it is |
| PyStr.Contains | streamlit_app.py:72 | `w in s` holds exactly when `w` occurs at some position of `s` |
| PyStr.StripKeepsWord | streamlit_app.py:71-72 | testing for a word without whitespace gives the same answer before and after stripping |
| PyStr.RemoveCommas | streamlit_app.py:74-75 | `replace(",", "")` leaves no comma and never lengthens the text |
| PyStr.RemoveCommasAppend | streamlit_app.py:74-75 | removing commas distributes over concatenation |
| PyStr.RemoveCommasNoComma | streamlit_app.py:74-75 | text without commas is unchanged |
| PyStr.DecimalString | streamlit_app.py:74-75 | the decimal spelling of `n` is non-empty digits whose value is `n`, with no leading zero unless `n` is 0 |
| PyStr.DecimalValueAppend | streamlit_app.py:74-75 | the value of concatenated digit strings is the first value shifted by the second's length plus the second value |
| PyStr.ParseIntDigits | streamlit_app.py:74-75 | `int()` of a string of 1 to 4300 digits is its decimal value, leading zeros allowed |
| PyStr.ParseIntTooLong | streamlit_app.py:74-75 | `int()` of more than 4300 digits raises |
| PyStr.ParseIntDecimalString | streamlit_app.py:74-75 | `int()` reads back the decimal spelling of every natural number of at most 4300 digits |
| PyStr.ParseIntNegative | streamlit_app.py:74-75 | `int()` reads back `-` followed by a natural number's spelling of at most 4300 digits as its negation |
| PyStr.ParseIntMinusDigits | streamlit_app.py:74-75 | `int()` of `-` and 1 to 4300 digits is the negated value |
| PyStr.ParseInt | streamlit_app.py:74-75 | text that `int()` accepts has no information separator, and its stripped form ends in a digit and is at most 4301 characters long. A negative result comes from text starting with `-` |
| PyStr.ParseIntIff | streamlit_app.py:74-75 | `int()` gives `v` exactly when the text has no information separator and, once stripped, is 1 to 4300 digits spelling `v`, optionally after `+`, or `-` followed by 1 to 4300 digits spelling `-v` |
| PyStr.ParseIntInfoSeparator | streamlit_app.py:74-75 | an information separator (U+001C to U+001F) anywhere in the text makes `int()` raise |
| PyStr.StartsWith | streamlit_app.py:52 | `startswith` holds exactly when the prefix occurs at position 0, so the text then contains it |
| PyStr.ParseIntNeedsDigit | streamlit_app.py:74-75 | text without any digit makes `int()` raise |
| DatePattern.Field | streamlit_app.py:76 | one `\d{1,2}` group and its unit: a value below 100 and a bounded end position |
| DatePattern.FieldIff | streamlit_app.py:76 | a group with its unit matches at `i` exactly when one or two digits there spell the value and the unit follows |
| DatePattern.MatchAt | streamlit_app.py:76 | a match found at a position has both groups below 100 |
| DatePattern.MatchAtIff | streamlit_app.py:76 | the pattern matches at `i` with groups `m`, `d` exactly when `s` has one of the four digit-count shapes there |
| DatePattern.ShapeMatches | streamlit_app.py:76 | every shape of the pattern is found by the matcher |
| DatePattern.SearchFrom | streamlit_app.py:76 | a result is a match with no match before it. No result means no match from `i` on |
| DatePattern.Search | streamlit_app.py:76-78 | `re.search` gives the leftmost match's groups, and nothing exactly when the pattern occurs nowhere |
| Calendar.DaysInMonth | streamlit_app.py:86 | month lengths of 2025 lie between 28 and 31 |
| Calendar.DaysBeforeCumulative | streamlit_app.py:86 | days before a month add up the month lengths, and the year has 365 days |
| Calendar.DayOfYear | streamlit_app.py:86 | a valid date is a day number in 0..364 |
| Calendar.DaysBeforeGrows | streamlit_app.py:88 | a later month starts after the earlier month ends |
| Calendar.DayOfYearOrder | streamlit_app.py:88 | date order agrees with day-number order, and equal days are equal dates |
| Calendar.Weekday | streamlit_app.py:100 | the weekday number lies in 0..6 |
| Calendar.GregorianWeekday | streamlit_app.py:100 | Sakamoto's formula, an independent weekday reference with Sunday = 0, gives a number in 0..6 |
| Calendar.WeekdayIsGregorian | streamlit_app.py:100 | `dt.weekday` (Monday = 0) agrees with the Gregorian calendar for every valid 2025 date |
| Calendar.WeekdayLabel | streamlit_app.py:101-102 | every weekday number maps to a one-character label |
| Calendar.WeekdayLabelInjective | streamlit_app.py:101-102 | different weekday numbers get different labels |
| Calendar.WeekStart | streamlit_app.py:103 | the `W-SUN` period start is a Monday at most six days before the day |
| Calendar.WeekStartUnique | streamlit_app.py:103 | that Monday is the only one so placed |
| Calendar.SameWeek | streamlit_app.py:103 | two days share a week exactly when their distance is at most their weekday difference |
| Calendar.SampleDays | streamlit_app.py:100-103 | 2025-01-01 is a Wednesday (水). The week of 2025-04-13 (a Sunday) starts on 2025-04-07, and that of 2025-01-05 on 2024-12-30 |
| Calendar.Pad2 | streamlit_app.py:80 | `:02` writes the number's digits, two of them below 100 |
| Calendar.FormatDate | streamlit_app.py:80 | the record date is `2025-` followed by the zero-padded month, `-` and the zero-padded day |
| Calendar.ToDate | streamlit_app.py:86 | coercion only ever yields valid 2025 dates |
| Calendar.ToDateFormatDate | streamlit_app.py:80-86 | a formatted month and day coerce back to that date when it exists, and to "not a time" otherwise |
| Calendar.Pad2OfDigits | streamlit_app.py:80 | two digits are the padding of their own value |
| Calendar.ToDateCanonical | streamlit_app.py:80-86 | text that coerces to a date is exactly that date's formatted text |
| RowParser.CountCell | streamlit_app.py:74-75 | a count cell is read as `int(cell.strip().replace(",", ""))`, and a cell without any digit raises |
| RowParser.CellWithoutDigit | streamlit_app.py:74-75 | stripping and removing commas bring in no digit, so a cell without one does not parse |
| RowParser.ParseRow | streamlit_app.py:67-81 | a row of fewer than four cells is skipped. An emitted date is ten characters starting with `2025-` |
| RowParser.TotalMarkerHasNoSpace | streamlit_app.py:72 | the marker 合計 is a non-empty word without whitespace |
| RowParser.TotalRowSkipped | streamlit_app.py:71-73 | a row whose first cell contains 合計 is skipped, whatever its counts hold |
| RowParser.RaisesIff | streamlit_app.py:69-78 | a row raises exactly when it has four cells, no total marker, and a count cell that `int()` rejects. The date is checked only after the counts |
| RowParser.EmittedRecord | streamlit_app.py:69-81 | an emitted record carries both parsed counts and the formatted groups of the leftmost date match |
| RowParser.EmitsIff | streamlit_app.py:76-81 | once the counts parse, a row is emitted exactly when the date pattern occurs in its first cell |
| RowParser.EmitsWhen | streamlit_app.py:69-81 | a row with parsable counts and a date match emits the record of that match |
| RowParser.RaisesWhen | streamlit_app.py:69-78 | a non-total row whose visitor cell does not parse raises |
| RowParser.Pad3 | streamlit_app.py:74-75 | a thousands group is three digits of its value |
| RowParser.Thousands | streamlit_app.py:74-75 | a number written with thousands separators starts and ends with a digit |
| RowParser.RemoveCommasGroup | streamlit_app.py:74-75 | removing commas drops each separator before a digit group |
| RowParser.DecimalStringGroup | streamlit_app.py:74-75 | the decimal spelling of a number from 1000 up is that of its thousands followed by three padded digits |
| RowParser.ThousandsDigits | streamlit_app.py:74-75 | a comma-grouped number without its commas is exactly the decimal spelling of the number |
| RowParser.CountCellThousands | streamlit_app.py:74-75 | a count cell with thousands separators parses to its number when it has at most 4300 digits |
| RowParser.CountCellTooLong | streamlit_app.py:74-75 | a count cell of more than 4300 digits raises |
| RowParser.SampleTenThousand | streamlit_app.py:74 | the cell `10,000` parses to 10000 |
| RowParser.SampleHundred | streamlit_app.py:75 | the cell `100` parses to 100 |
| RowParser.SampleSearch | streamlit_app.py:76-79 | `6月1日` matches with groups 6 and 1 |
| RowParser.SampleFormat | streamlit_app.py:80 | month 6, day 1 is written `2025-06-01` |
| RowParser.SampleNoTotal | streamlit_app.py:72 | `6月1日` is not a total row |
| RowParser.SampleDayRow | streamlit_app.py:67-81 | the row `6月1日, 10,000, x, 100` gives the record (2025-06-01, 10000, 100) |
| RowParser.SampleTotalRow | streamlit_app.py:71-73 | the row `合計, 999,999, x, 999` is skipped |
| RowParser.SampleMixedCount | streamlit_app.py:74-75 | the count `1a2` raises |
| RowParser.SampleDash | streamlit_app.py:74 | the cell `-` does not parse |
| RowParser.SampleSeparatorCount | streamlit_app.py:74 | the cell `,` U+001C `5` does not parse: the comma shields the separator from `strip()`, and `int()` rejects it |
| RowParser.SampleSeparatorRow | streamlit_app.py:69-78 | a day row with that visitor cell raises |
| RowParser.SampleBadCountRow | streamlit_app.py:69-78 | the row `備考, -, x, 0` raises |
| Links.Resolve | streamlit_app.py:52 | an `href` starting with `http` is kept as it is, any other is appended to the site's URL. Either way the result ends with the `href` and is absolute when the site's URL is |
| Links.SampleRelative | streamlit_app.py:52 | `/news/a` resolves to `https://www.expo2025.or.jp/news/a` |
| Links.ResolveIdempotent | streamlit_app.py:52 | resolving a resolved URL again changes nothing |
| Links.Selected | streamlit_app.py:49-50 | an anchor is followed when it has an `href` and its text contains the keyword. It is proved against the loop through `Links.MatchingLinksMembers` |
| Links.MatchingLinks | streamlit_app.py:49-53 | there are no more links than anchors |
| Links.MatchingLinksSound | streamlit_app.py:49-53 | every collected link comes from a selected anchor |
| Links.MatchingLinksComplete | streamlit_app.py:49-53 | every selected anchor's link is collected |
| Links.MatchingLinksMembers | streamlit_app.py:49-53 | a URL is collected exactly when some anchor with an `href` and the keyword in its text resolves to it |
| Links.ExtractLinks | streamlit_app.py:48-53 | the anchor loop appends exactly the matching links, in anchor order |
| Links.Members | streamlit_app.py:55 | the set of a list holds exactly its elements, and is empty exactly when the list is |
| Links.Dedup | streamlit_app.py:55 | `list(set(...))` holds every link exactly once and nothing else |
| Links.FirstSeen | streamlit_app.py:55 | the first-seen order of the links is also duplicate-free with the same members |
| Harvest.BodyRows | streamlit_app.py:66 | `[1:]` drops exactly the header row |
| Harvest.Outcomes | streamlit_app.py:67-81 | each row's outcome is that of the row parser |
| Harvest.Step | streamlit_app.py:67-83 | the loop has raised after a row exactly when it had raised before or the row raises. After an exception a row changes nothing, and the records only grow, by at most one |
| Harvest.Run | streamlit_app.py:67-83 | the row loop raises exactly when some row raises. Its records are a prefix of all emitted records, and all of them when nothing raised |
| Harvest.TableYield | streamlit_app.py:66-83 | a table's loop raises exactly when one of its rows raises, and keeps a prefix of the emitted records |
| Harvest.PageYield | streamlit_app.py:59-83 | an article raises exactly when its fetch fails or a row of its table raises. Without a table it adds no record |
| Harvest.Gather | streamlit_app.py:58-83 | for any per-article yield, the reported URLs are exactly the gathered URLs whose article raised |
| Harvest.Collected | streamlit_app.py:56-83 | the URLs passed to `st.error` are exactly those whose article raised |
| Harvest.GatherRaising | streamlit_app.py:58-83 | one more article that raises adds its records and its URL |
| Harvest.GatherTwo | streamlit_app.py:58-83 | an article that does not raise followed by one that fails with no records gives the first's records and reports the second |
| Harvest.RunNoRaise | streamlit_app.py:67-81 | when no row raises, the article yields every emitted record, in order |
| Harvest.RunSticky | streamlit_app.py:59-83 | after an exception nothing later in the article is read |
| Harvest.RunFirstRaise | streamlit_app.py:59-83 | when outcome `k` is the first to raise, the records of the rows before `k` are kept and the article ends in an exception |
| Harvest.TableYieldFirstRaise | streamlit_app.py:59-83 | the same for the rows of a table |
| Harvest.TableYieldNoRaise | streamlit_app.py:67-81 | a table none of whose rows raises yields every emitted record |
| Harvest.AppendTable | streamlit_app.py:66-81 | the row loop appends exactly the table's yield to `data` and reports whether it raised |
| Harvest.ReadArticle | streamlit_app.py:59-81 | a failing fetch raises, a page without the table adds nothing, and a table adds its yield |
| Harvest.CollectRecords | streamlit_app.py:56-83 | the article loop computes the harvest of its URLs: their records in order, and the URLs whose article raised |
| Harvest.GatherAppend | streamlit_app.py:58-83 | collecting two runs of articles concatenates their records and their error reports |
| Harvest.GatherSingle | streamlit_app.py:58-83 | one article alone gives its records and, if it raised, its URL |
| Harvest.CollectedFailingArticle | streamlit_app.py:58-83 | an article whose row `k` raises first adds the records of its earlier rows and reports its URL. Earlier articles' records are untouched |
| Harvest.CollectedPrefix | streamlit_app.py:58-83 | later articles never remove or change records or reports of earlier ones |
| Harvest.SameUrlsRemove | streamlit_app.py:55 | removing one URL from two duplicate-free orderings of the same URLs leaves two such orderings |
| Harvest.DistinctRemove | streamlit_app.py:55 | removing an entry from a duplicate-free list keeps it duplicate-free and removes exactly that member |
| Harvest.GatherAt | streamlit_app.py:58-83 | an article's position changes the order of its records and report, not their multisets |
| Harvest.GatherReorder | streamlit_app.py:55-83 | every duplicate-free ordering of the same URLs collects the same records and reports, up to order |
| Harvest.TableOfTwo | streamlit_app.py:67-81 | a two-row table runs its two outcomes in order |
| Harvest.RunPair | streamlit_app.py:67-81 | a loop over two outcomes takes two steps |
| Harvest.SampleTable | streamlit_app.py:66-81 | a day row followed by a total row yields the day's record and no exception |
| Harvest.TwoArticles | streamlit_app.py:58-83 | a readable article followed by a failing one gives the first's records and reports the second |
| Harvest.SampleHarvest | streamlit_app.py:58-83 | a table with header, day row and total row, followed by a failing article, gives one record and one reported URL |
| Harvest.SampleArticle | streamlit_app.py:66 | the header row of a fetched table is not parsed |
| Dataset.CoerceRecord | streamlit_app.py:86 | `to_datetime` with `errors="coerce"` gives a row exactly when the date text parses. That row's date is valid, and the scraper spells it as the record it came from |
| Dataset.Survivor | streamlit_app.py:86-87 | `dropna` leaves at most one row per record, and one exactly when its date parsed |
| Dataset.Coerce | streamlit_app.py:84-87 | at most as many rows as records, and every remaining date is valid |
| Dataset.SurvivorIff | streamlit_app.py:86-87 | a record leaves a row exactly when its date is valid, and that row spells the record |
| Dataset.CoerceMembers | streamlit_app.py:86-87 | a row is in the table exactly when its date is valid and its record was collected |
| Dataset.CoerceAppend | streamlit_app.py:86-87 | coercion works record by record |
| Dataset.CoerceSingle | streamlit_app.py:86-87 | a single record gives its row, or none |
| Dataset.CoerceAt | streamlit_app.py:86-87 | a record's position does not change how often each row survives |
| Dataset.CoercePermutation | streamlit_app.py:86-87 | records in another order give the same rows, up to order |
| Dataset.SampleInvalidDate | streamlit_app.py:80-87 | the record of `13月40日` is dropped, not raised |
| Dataset.NoneLaterSame | streamlit_app.py:88 | an upper bound of a table bounds the same rows in another order |
| Dataset.SortedSnoc | streamlit_app.py:88 | a sorted table extended by a row no earlier than all its rows stays sorted |
| Dataset.SortedInit | streamlit_app.py:88 | the front of a sorted table is sorted |
| Dataset.InsertByDate | streamlit_app.py:88 | inserting a row keeps the table sorted and adds exactly that row |
| Dataset.SortValues | streamlit_app.py:88 | `sort_values` orders the rows by date and keeps every row as often as before |
| Dataset.SortedSameLast | streamlit_app.py:88 | two sorted orderings of the same rows with distinct dates end in the same row |
| Dataset.SortedDropLast | streamlit_app.py:88 | dropping that last row leaves two sorted orderings of the same distinct-dated rows |
| Dataset.SortedUnique | streamlit_app.py:88 | when dates are distinct the sorted table is unique, so the unstable sort cannot show |
| Dataset.GetVisitorData | streamlit_app.py:40-89 | the returned table is sorted by date, holds only valid dates, and holds the coerced records of the matching articles up to order. The reported URLs are those whose article raised |
| Dataset.SortedValid | streamlit_app.py:86-88 | sorting keeps every date valid |
| Preprocess.AnnotateRow | streamlit_app.py:100-103 | each row gets its Gregorian weekday (Monday = 0), that weekday's label, and a week key that is a Monday at most six days before its date |
| Preprocess.Annotate | streamlit_app.py:100-103 | the derived columns are computed row by row |
| Preprocess.Pivot | streamlit_app.py:106 | the pivot succeeds exactly when no (label, week) cell is filled twice. Its cells are exactly the filled ones, each holding that row's visitor count |
| Preprocess.Key | streamlit_app.py:106 | the pivot cell of a row is its weekday label and its week key. `Preprocess.SameCellIff` proves that two rows share it exactly when they share a date |
| Preprocess.PivotStep | streamlit_app.py:106 | one more row adds its cell, and the keys stay distinct exactly when the new cell is new |
| Preprocess.SameCellIff | streamlit_app.py:100-106 | two rows fall into the same cell exactly when their dates are equal |
| Preprocess.PivotFailsIffRepeatedDate | streamlit_app.py:84-106 | `df.pivot` raises exactly when two rows share a date |
| Preprocess.PivotCells | streamlit_app.py:100-106 | with distinct dates each row's count is in the cell of its weekday label and week, and there are as many cells as rows |
| Preprocess.KeySetSize | streamlit_app.py:106 | distinct keys fill as many cells as there are rows |

## Left out

- Font handling (lines 16-36) and all plotting (lines 109-130 and 141): these are rendering only.
- Weekday means and their labels (lines 133-139): they use floating point and feed only the chart.
- HTTP and HTML parsing are not modelled.
  - The search page is given as its anchors (text and optional `href`).
  - Each article is given by a function `fetch` from URL to page. A page is a failed request, a page without the `has-fixed-layout` table, or that table's `td` texts row by row.
  - A failure of the search request itself (line 43) is not modelled. In the code it ends the whole run.
  - The encoding lines and the search URL's quoting (lines 42, 44, 61) are not modelled.
- `st.cache_data`, the refresh button, the spinner and the success message (lines 39, 92-97) are not modelled. The `st.error` reports (line 83) are modelled as the list of failing URLs, without the error text.
- PyStr.ParseInt: `int()` is modelled only on an optional sign followed by ASCII digits, with the whitespace it skips. Its digit limit is fixed at 4300, the default of `sys.int_info.default_max_str_digits` since Python 3.11. A limit changed through `sys.set_int_max_str_digits` or `PYTHONINTMAXSTRDIGITS`, and older Pythons without any limit, are not modelled. Underscore separators and non-ASCII Unicode digits, which Python also accepts, are not modelled.
- DatePattern.Search: `\d` is modelled as the ASCII digits only, while Python's `re` on `str` also matches other Unicode decimal digits (full-width digits, for example).
- Calendar.ToDate: `pd.to_datetime` is modelled only on the `2025-MM-DD` text that the row parser writes. Every record date has that form, as `Calendar.FormatDate` and `RowParser.ParseRow` state.
- Dates are day numbers from 2025-01-01 rather than timestamps. The week key may be negative: the week of 1-5 January 2025 starts on 2024-12-30.
- Dataset.SortValues: the algorithm (an insertion sort here, quicksort in pandas) and the order among rows of equal date are not modelled. The result is specified only as a sorted permutation, which is all that pandas promises.
- The DataFrame is modelled as a sequence of rows. The in-place update of `sort_values(inplace=True)` is modelled as returning the sorted rows.
- Preprocess.Pivot: the pivot is a map from (label, week) to count. The order of its rows and columns and the NaN cells of pandas are not modelled. A failing pivot is `None`, where pandas raises.
- Links.Dedup: the order that `set` iteration produces is not modelled. The method returns some duplicate-free ordering, and `Dataset.GetVisitorData` holds for every such ordering.
