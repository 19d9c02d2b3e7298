/** The columns added to the table before plotting (`曜日番号`, `曜日`,
    `週`) and the weekday-by-week pivot of the visitor counts. */
module Preprocess {
  import opened Wrappers
  import opened Calendar
  import opened Dataset

  /** A table row with its weekday number, weekday label and week key. The
      week key is the day number of the Monday starting its `W-SUN` period,
      counted from 2025-01-01. */
  datatype Annotated = Annotated(row: Row, weekday: int, name: string, week: int)

  /** The three derived columns of one row. The weekday agrees with the
      Gregorian calendar (moved from Sunday = 0 to Monday = 0), and the
      week key is a Monday at most six days before the date. */
  function AnnotateRow(row: Row): (a: Annotated)
    requires ValidDate(row.date)
    ensures a.row == row
    ensures a.weekday == (GregorianWeekday(Year, row.date.month, row.date.day) + 6) % 7
    ensures a.name == WeekdayLabel(a.weekday)
    ensures Weekday(a.week) == 0 && a.week <= DayOfYear(row.date) <= a.week + 6
  {
    var n := DayOfYear(row.date);
    WeekdayIsGregorian(row.date);
    Annotated(row, Weekday(n), WeekdayLabel(Weekday(n)), WeekStart(n))
  }

  /** `df["曜日番号"]`, `df["曜日"]` and `df["週"]`, row by row. */
  function Annotate(rows: seq<Row>): (ann: seq<Annotated>)
    requires forall i :: 0 <= i < |rows| ==> ValidDate(rows[i].date)
    ensures |ann| == |rows|
    ensures forall i :: 0 <= i < |rows| ==> ann[i] == AnnotateRow(rows[i])
  {
    seq(|rows|, i requires 0 <= i < |rows| => AnnotateRow(rows[i]))
  }

  /** A cell of the pivot: its row label (the weekday) and its column (the
      week key). */
  datatype PivotKey = PivotKey(name: string, week: int)

  function Key(a: Annotated): PivotKey {
    PivotKey(a.name, a.week)
  }

  ghost function KeySet(ann: seq<Annotated>): set<PivotKey> {
    set i | 0 <= i < |ann| :: Key(ann[i])
  }

  ghost predicate DistinctKeys(ann: seq<Annotated>) {
    forall i, j :: 0 <= i < j < |ann| ==> Key(ann[i]) != Key(ann[j])
  }

  /** `df.pivot(index="曜日", columns="週", values="来場者数")`: the visitor
      count of each (weekday, week) cell that some row fills; `None` where
      pandas raises because two rows fill the same cell. */
  function Pivot(ann: seq<Annotated>): (r: Option<map<PivotKey, int>>)
    ensures r.Some? <==> DistinctKeys(ann)
    ensures r.Some? ==> r.value.Keys == KeySet(ann)
    ensures r.Some? ==> forall i :: 0 <= i < |ann| ==> r.value[Key(ann[i])] == ann[i].row.visitors
  {
    if ann == [] then Some(map[])
    else
      var init, last := ann[..|ann| - 1], ann[|ann| - 1];
      PivotStep(ann);
      match Pivot(init)
      case None => None
      case Some(m) =>
        if Key(last) in m then None
        else Some(m[Key(last) := last.row.visitors])
  }

  /** How the keys of a table grow by its last row. */
  lemma PivotStep(ann: seq<Annotated>)
    requires ann != []
    ensures var init, last := ann[..|ann| - 1], ann[|ann| - 1];
      && KeySet(ann) == KeySet(init) + {Key(last)}
      && (DistinctKeys(ann) <==> DistinctKeys(init) && Key(last) !in KeySet(init))
  {
    var init, last := ann[..|ann| - 1], ann[|ann| - 1];
    assert forall i :: 0 <= i < |init| ==> init[i] == ann[i];
    assert KeySet(ann) == KeySet(init) + {Key(last)} by {
      forall k | k in KeySet(ann)
        ensures k in KeySet(init) + {Key(last)}
      {
        var i :| 0 <= i < |ann| && k == Key(ann[i]);
        if i < |init| {
          assert k == Key(init[i]);
        }
      }
    }
    if DistinctKeys(init) && Key(last) !in KeySet(init) {
      forall i, j | 0 <= i < j < |ann|
        ensures Key(ann[i]) != Key(ann[j])
      {
        if j == |init| {
          assert Key(init[i]) in KeySet(init);
        }
      }
    }
  }

  /** Two rows fall into the same cell exactly when they are of the same
      day: the weekday and the Monday before it pin the day down. */
  lemma SameCellIff(r1: Row, r2: Row)
    requires ValidDate(r1.date) && ValidDate(r2.date)
    ensures Key(AnnotateRow(r1)) == Key(AnnotateRow(r2)) <==> r1.date == r2.date
  {
    var n1, n2 := DayOfYear(r1.date), DayOfYear(r2.date);
    if Key(AnnotateRow(r1)) == Key(AnnotateRow(r2)) {
      WeekdayLabelInjective(Weekday(n1), Weekday(n2));
      assert n1 == WeekStart(n1) + Weekday(n1);
      assert n2 == WeekStart(n2) + Weekday(n2);
      DayOfYearOrder(r1.date, r2.date);
    }
  }

  /** The pivot of the table raises exactly when two rows carry the same
      date, for instance when two articles both list a day. */
  lemma PivotFailsIffRepeatedDate(rows: seq<Row>)
    requires forall i :: 0 <= i < |rows| ==> ValidDate(rows[i].date)
    ensures Pivot(Annotate(rows)).None? <==> !DistinctDates(rows)
  {
    var ann := Annotate(rows);
    forall i, j | 0 <= i < j < |rows|
      ensures Key(ann[i]) == Key(ann[j]) <==> rows[i].date == rows[j].date
    {
      SameCellIff(rows[i], rows[j]);
    }
  }

  /** On a table of distinct dates, every row's count lands in the cell of
      its weekday and week, and nothing else is filled. */
  lemma PivotCells(rows: seq<Row>)
    requires forall i :: 0 <= i < |rows| ==> ValidDate(rows[i].date)
    requires DistinctDates(rows)
    ensures var p := Pivot(Annotate(rows));
      && p.Some?
      && (forall i :: 0 <= i < |rows| ==>
            var n := DayOfYear(rows[i].date);
            p.value[PivotKey(WeekdayLabel(Weekday(n)), WeekStart(n))] == rows[i].visitors)
      && |p.value.Keys| == |rows|
  {
    PivotFailsIffRepeatedDate(rows);
    var ann := Annotate(rows);
    KeySetSize(ann);
  }

  /** Distinct keys fill as many cells as there are rows. */
  lemma {:induction false} KeySetSize(ann: seq<Annotated>)
    requires DistinctKeys(ann)
    ensures |KeySet(ann)| == |ann|
    decreases |ann|
  {
    if ann != [] {
      PivotStep(ann);
      var init := ann[..|ann| - 1];
      assert DistinctKeys(init) by {
        assert forall i :: 0 <= i < |init| ==> init[i] == ann[i];
      }
      KeySetSize(init);
    }
  }
}
