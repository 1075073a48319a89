/** The opening-hours table of a publication page, read row by row into a timetable.

    A row is given as what the page shows of it: its cells in order, each with or
    without an `itemprop` attribute, and every span anywhere in the row with its
    `itemprop` attribute when it has one. A cell with `itemprop` names the day; a
    cell without it makes the reader scan all of the row's spans, taking the
    `opens` and `closes` texts into the row's hour range and making sure the
    current day has an entry. At the end of the row its hour range is appended
    under the current day. */
module TimetableExtractor {
  import opened Wrappers
  import opened Publication
  import opened FieldNormalizer

  datatype Span = Span(itemprop: Option<string>, text: string)

  datatype Cell = Cell(hasItemprop: bool, text: string)

  datatype Row = Row(cells: seq<Cell>, spans: seq<Span>)

  /** The reader's variables while it is inside a row. */
  datatype RowState = RowState(day: DayOfWeek, range: HourRange, table: Timetable)

  /** The hour range a row starts with. */
  const NoRange := HourRange("", "")

  /** The ranges the table holds for `d`; a missing entry reads as no ranges. */
  function Ranges(t: Timetable, d: DayOfWeek): seq<HourRange>
  {
    if d in t then t[d] else []
  }

  // ---------------------------------------------------------------------------
  // The reader, step by step

  /** One span of the row's span scan. */
  function SpanStep(st: RowState, sp: Span): RowState
  {
    if sp.itemprop.None? then st
    else
      var range :=
        if sp.itemprop.value == "opens" then st.range.(start := sp.text)
        else if sp.itemprop.value == "closes" then st.range.(end := sp.text)
        else st.range;
      RowState(st.day, range, if st.day in st.table then st.table else st.table[st.day := []])
  }

  /** The scan of `spans`, first to last. */
  function SpansScan(st: RowState, spans: seq<Span>): RowState
  {
    if spans == [] then st
    else SpanStep(SpansScan(st, spans[..|spans| - 1]), spans[|spans| - 1])
  }

  /** One cell: a day cell sets the day, any other cell scans the row's spans. */
  function CellStep(st: RowState, cell: Cell, spans: seq<Span>): RowState
  {
    if cell.hasItemprop then st.(day := ToDayOfWeek(cell.text)) else SpansScan(st, spans)
  }

  function CellsScan(st: RowState, cells: seq<Cell>, spans: seq<Span>): RowState
  {
    if cells == [] then st
    else CellStep(CellsScan(st, cells[..|cells| - 1], spans), cells[|cells| - 1], spans)
  }

  /** The end of a row: its range appended under the current day. */
  function RowEnd(st: RowState): Timetable
  {
    st.table[st.day := Ranges(st.table, st.day) + [st.range]]
  }

  function AddRow(t: Timetable, row: Row): Timetable
  {
    RowEnd(CellsScan(RowState(UnknownDay, NoRange, t), row.cells, row.spans))
  }

  /** The table after reading `rows` in order. */
  function TimetableOf(rows: seq<Row>): Timetable
  {
    if rows == [] then map[] else AddRow(TimetableOf(rows[..|rows| - 1]), rows[|rows| - 1])
  }

  /** `getTimetableForPublication`. */
  method GetTimetable(rows: seq<Row>) returns (out: Timetable)
    ensures out == TimetableOf(rows)
    ensures forall d :: Ranges(out, d) == RangesFor(rows, d)
  {
    out := map[];
    var i := 0;
    while i < |rows|
      invariant 0 <= i <= |rows|
      invariant out == TimetableOf(rows[..i])
    {
      out := ReadRow(out, rows[i]);
      assert rows[..i + 1][..i] == rows[..i];
      i := i + 1;
    }
    assert rows[..i] == rows;
    TimetableRanges(rows);
  }

  /** The reader's work on one row. */
  method ReadRow(t: Timetable, row: Row) returns (out: Timetable)
    ensures out == AddRow(t, row)
  {
    var st := RowState(UnknownDay, NoRange, t);
    var j := 0;
    while j < |row.cells|
      invariant 0 <= j <= |row.cells|
      invariant st == CellsScan(RowState(UnknownDay, NoRange, t), row.cells[..j], row.spans)
    {
      var cell := row.cells[j];
      if cell.hasItemprop {
        st := st.(day := ToDayOfWeek(cell.text));
      } else {
        st := ScanSpans(st, row.spans);
      }
      assert row.cells[..j + 1][..j] == row.cells[..j];
      j := j + 1;
    }
    assert row.cells[..j] == row.cells;
    out := st.table[st.day := (if st.day in st.table then st.table[st.day] else []) + [st.range]];
  }

  /** The scan of a row's spans from a cell without `itemprop`. */
  method ScanSpans(st0: RowState, spans: seq<Span>) returns (st: RowState)
    ensures st == SpansScan(st0, spans)
  {
    var day, range, out := st0.day, st0.range, st0.table;
    var k := 0;
    while k < |spans|
      invariant 0 <= k <= |spans|
      invariant RowState(day, range, out) == SpansScan(st0, spans[..k])
    {
      var span := spans[k];
      if span.itemprop.Some? {
        if span.itemprop.value == "opens" {
          range := range.(start := span.text);
        } else if span.itemprop.value == "closes" {
          range := range.(end := span.text);
        }
        if day !in out {
          out := out[day := []];
        }
      }
      assert spans[..k + 1][..k] == spans[..k];
      k := k + 1;
    }
    assert spans[..k] == spans;
    st := RowState(day, range, out);
  }

  // ---------------------------------------------------------------------------
  // What a row contributes, stated without the reader's state

  /** The day the row's last day cell names, `UnknownDay` when it has none. */
  function LastDay(cells: seq<Cell>, d: DayOfWeek): DayOfWeek
  {
    if cells == [] then d
    else if cells[|cells| - 1].hasItemprop then ToDayOfWeek(cells[|cells| - 1].text)
    else LastDay(cells[..|cells| - 1], d)
  }

  function RowDay(row: Row): DayOfWeek
  {
    LastDay(row.cells, UnknownDay)
  }

  /** The text of the last span whose `itemprop` is `prop`, or `d` when there is none. */
  function Latest(spans: seq<Span>, prop: string, d: string): string
  {
    if spans == [] then d
    else if spans[|spans| - 1].itemprop == Some(prop) then spans[|spans| - 1].text
    else Latest(spans[..|spans| - 1], prop, d)
  }

  predicate HasTimeCell(cells: seq<Cell>)
  {
    exists j :: 0 <= j < |cells| && !cells[j].hasItemprop
  }

  predicate HasTaggedSpan(spans: seq<Span>)
  {
    exists k :: 0 <= k < |spans| && spans[k].itemprop.Some?
  }

  /** The range a row appends: its last `opens` and last `closes` texts when it has a
      cell without `itemprop`, and the empty range otherwise. */
  function RowRange(row: Row): HourRange
  {
    if HasTimeCell(row.cells)
    then HourRange(Latest(row.spans, "opens", ""), Latest(row.spans, "closes", ""))
    else NoRange
  }

  /** The days that get an entry, possibly empty, while the row's spans are scanned:
      the current day at each cell without `itemprop`, when some span is tagged. */
  predicate Touched(row: Row, d: DayOfWeek)
  {
    HasTaggedSpan(row.spans) && DayAtTimeCell(row.cells, UnknownDay, d)
  }

  /** The ranges of the rows whose day is `d`, in row order. */
  function RangesFor(rows: seq<Row>, d: DayOfWeek): seq<HourRange>
  {
    if rows == [] then []
    else RangesFor(rows[..|rows| - 1], d) + (if RowDay(rows[|rows| - 1]) == d then [RowRange(rows[|rows| - 1])] else [])
  }

  // ---------------------------------------------------------------------------
  // Lemmas

  /** Taking the latest texts twice is taking them once. */
  lemma {:induction false} LatestTwice(spans: seq<Span>, prop: string, d: string)
    ensures Latest(spans, prop, Latest(spans, prop, d)) == Latest(spans, prop, d)
  {
    if spans != [] && spans[|spans| - 1].itemprop != Some(prop) {
      var front := spans[..|spans| - 1];
      assert Latest(spans, prop, Latest(spans, prop, d)) == Latest(front, prop, Latest(front, prop, d));
      LatestTwice(front, prop, d);
    }
  }

  /** A span scan keeps the day, takes the latest texts, keeps every day's ranges and
      only adds an empty entry for the current day, exactly when some span is tagged. */
  lemma {:induction false} SpansScanEffect(st: RowState, spans: seq<Span>)
    ensures SpansScan(st, spans).day == st.day
    ensures SpansScan(st, spans).range
         == HourRange(Latest(spans, "opens", st.range.start), Latest(spans, "closes", st.range.end))
    ensures forall d :: Ranges(SpansScan(st, spans).table, d) == Ranges(st.table, d)
    ensures forall d :: d in SpansScan(st, spans).table <==> d in st.table || (d == st.day && HasTaggedSpan(spans))
  {
    if spans != [] {
      var front := spans[..|spans| - 1];
      var last := spans[|spans| - 1];
      SpansScanEffect(st, front);
      assert HasTaggedSpan(spans) <==> HasTaggedSpan(front) || last.itemprop.Some? by {
        if HasTaggedSpan(spans) && !last.itemprop.Some? {
          var k :| 0 <= k < |spans| && spans[k].itemprop.Some?;
          assert front[k] == spans[k];
        }
        if HasTaggedSpan(front) {
          var k :| 0 <= k < |front| && front[k].itemprop.Some?;
          assert spans[k] == front[k];
        }
      }
    }
  }

  /** A row's cells end on the row's day, and take the latest texts once there is a
      cell without `itemprop`. */
  lemma {:induction false} CellsScanDayRange(st: RowState, cells: seq<Cell>, spans: seq<Span>)
    ensures CellsScan(st, cells, spans).day == LastDay(cells, st.day)
    ensures CellsScan(st, cells, spans).range
         == if HasTimeCell(cells)
            then HourRange(Latest(spans, "opens", st.range.start), Latest(spans, "closes", st.range.end))
            else st.range
  {
    if cells != [] {
      var front := cells[..|cells| - 1];
      var last := cells[|cells| - 1];
      var mid := CellsScan(st, front, spans);
      CellsScanDayRange(st, front, spans);
      assert HasTimeCell(cells) <==> HasTimeCell(front) || !last.hasItemprop by {
        if HasTimeCell(front) {
          var j :| 0 <= j < |front| && !front[j].hasItemprop;
          assert !cells[j].hasItemprop;
        }
        if HasTimeCell(cells) && last.hasItemprop {
          var j :| 0 <= j < |cells| && !cells[j].hasItemprop;
          assert !front[j].hasItemprop;
        }
      }
      if !last.hasItemprop {
        SpansScanEffect(mid, spans);
        LatestTwice(spans, "opens", st.range.start);
        LatestTwice(spans, "closes", st.range.end);
      }
    }
  }

  /** A row's cells keep every day's ranges. */
  lemma {:induction false} CellsScanRanges(st: RowState, cells: seq<Cell>, spans: seq<Span>)
    ensures forall d :: Ranges(CellsScan(st, cells, spans).table, d) == Ranges(st.table, d)
  {
    if cells != [] {
      var front := cells[..|cells| - 1];
      CellsScanRanges(st, front, spans);
      if !cells[|cells| - 1].hasItemprop {
        SpansScanEffect(CellsScan(st, front, spans), spans);
      }
    }
  }

  /** The day current when the reader reaches a cell without `itemprop`. */
  predicate DayAtTimeCell(cells: seq<Cell>, d0: DayOfWeek, d: DayOfWeek)
  {
    exists j :: 0 <= j < |cells| && !cells[j].hasItemprop && LastDay(cells[..j], d0) == d
  }

  lemma DayAtTimeCellStep(cells: seq<Cell>, d0: DayOfWeek, d: DayOfWeek)
    requires cells != []
    ensures DayAtTimeCell(cells, d0, d) <==>
            DayAtTimeCell(cells[..|cells| - 1], d0, d)
            || (!cells[|cells| - 1].hasItemprop && LastDay(cells[..|cells| - 1], d0) == d)
  {
    if DayAtTimeCell(cells[..|cells| - 1], d0, d) {
      DayAtTimeCellFront(cells, d0, d);
    }
    if !cells[|cells| - 1].hasItemprop && LastDay(cells[..|cells| - 1], d0) == d {
      DayAtTimeCellLast(cells, d0, d);
    }
    if DayAtTimeCell(cells, d0, d) {
      DayAtTimeCellBack(cells, d0, d);
    }
  }

  lemma DayAtTimeCellFront(cells: seq<Cell>, d0: DayOfWeek, d: DayOfWeek)
    requires cells != []
    requires DayAtTimeCell(cells[..|cells| - 1], d0, d)
    ensures DayAtTimeCell(cells, d0, d)
  {
    var front := cells[..|cells| - 1];
    var j :| 0 <= j < |front| && !front[j].hasItemprop && LastDay(front[..j], d0) == d;
    assert cells[..j] == front[..j];
    assert !cells[j].hasItemprop;
  }

  lemma DayAtTimeCellLast(cells: seq<Cell>, d0: DayOfWeek, d: DayOfWeek)
    requires cells != []
    requires !cells[|cells| - 1].hasItemprop && LastDay(cells[..|cells| - 1], d0) == d
    ensures DayAtTimeCell(cells, d0, d)
  {
    var j := |cells| - 1;
    assert LastDay(cells[..j], d0) == d;
  }

  lemma DayAtTimeCellBack(cells: seq<Cell>, d0: DayOfWeek, d: DayOfWeek)
    requires cells != []
    requires DayAtTimeCell(cells, d0, d)
    ensures DayAtTimeCell(cells[..|cells| - 1], d0, d)
            || (!cells[|cells| - 1].hasItemprop && LastDay(cells[..|cells| - 1], d0) == d)
  {
    var front := cells[..|cells| - 1];
    var j :| 0 <= j < |cells| && !cells[j].hasItemprop && LastDay(cells[..j], d0) == d;
    if j < |front| {
      assert cells[..j] == front[..j];
      assert !front[j].hasItemprop;
    } else {
      assert cells[..j] == front;
    }
  }

  /** A row's cells add an entry for the day current at each cell without `itemprop`,
      when some span is tagged, and for no other day. */
  lemma {:induction false} CellsScanKeys(st: RowState, cells: seq<Cell>, spans: seq<Span>)
    ensures forall d :: d in CellsScan(st, cells, spans).table <==>
              d in st.table || (HasTaggedSpan(spans) && DayAtTimeCell(cells, st.day, d))
  {
    if cells != [] {
      var front := cells[..|cells| - 1];
      var last := cells[|cells| - 1];
      var mid := CellsScan(st, front, spans);
      CellsScanKeys(st, front, spans);
      CellsScanDayRange(st, front, spans);
      assert cells[..|front|] == front;
      forall d {
        DayAtTimeCellStep(cells, st.day, d);
      }
      if !last.hasItemprop {
        SpansScanEffect(mid, spans);
      }
    }
  }

  /** Each row appends exactly its range under its day and leaves every other day's
      ranges as they were; the days with an entry grow by the row's day and the days
      it touched. */
  lemma AddRowEffect(t: Timetable, row: Row)
    ensures Ranges(AddRow(t, row), RowDay(row)) == Ranges(t, RowDay(row)) + [RowRange(row)]
    ensures forall d :: d != RowDay(row) ==> Ranges(AddRow(t, row), d) == Ranges(t, d)
    ensures forall d :: d in AddRow(t, row) <==> d in t || d == RowDay(row) || Touched(row, d)
  {
    var st := RowState(UnknownDay, NoRange, t);
    CellsScanDayRange(st, row.cells, row.spans);
    CellsScanRanges(st, row.cells, row.spans);
    CellsScanKeys(st, row.cells, row.spans);
  }

  /** Over the whole table, a day's ranges are those of the rows whose day it is, in row order. */
  lemma {:induction false} TimetableRanges(rows: seq<Row>)
    ensures forall d :: Ranges(TimetableOf(rows), d) == RangesFor(rows, d)
  {
    if rows != [] {
      var front := rows[..|rows| - 1];
      TimetableRanges(front);
      AddRowEffect(TimetableOf(front), rows[|rows| - 1]);
    }
  }

  /** Every day, each once. */
  const AllDays: seq<DayOfWeek> := [UnknownDay, Monday, Tuesday, Wednesday, Thursday, Friday, Saturday, Sunday]

  /** The number of ranges the rows give the days of `days`. */
  function CountOver(rows: seq<Row>, days: seq<DayOfWeek>): nat
  {
    if days == [] then 0 else |RangesFor(rows, days[0])| + CountOver(rows, days[1..])
  }

  /** A further row adds one range to the count of any list of distinct days that holds its day. */
  lemma {:induction false} CountOverStep(rows: seq<Row>, days: seq<DayOfWeek>)
    requires rows != []
    requires forall i, j :: 0 <= i < j < |days| ==> days[i] != days[j]
    ensures CountOver(rows, days)
         == CountOver(rows[..|rows| - 1], days) + (if RowDay(rows[|rows| - 1]) in days then 1 else 0)
  {
    if days != [] {
      CountOverStep(rows, days[1..]);
      assert RowDay(rows[|rows| - 1]) in days <==>
             RowDay(rows[|rows| - 1]) == days[0] || RowDay(rows[|rows| - 1]) in days[1..];
      if RowDay(rows[|rows| - 1]) == days[0] {
        assert days[0] !in days[1..] by {
          forall k | 0 <= k < |days[1..]| ensures days[1..][k] != days[0] {
            assert days[1..][k] == days[k + 1];
          }
        }
      }
    }
  }

  /** Every row contributes exactly one range to the table: the ranges of all days
      together number as many as the rows. */
  lemma {:induction false} EveryRowCounted(rows: seq<Row>)
    ensures CountOver(rows, AllDays) == |rows|
  {
    if rows != [] {
      EveryRowCounted(rows[..|rows| - 1]);
      AllDaysDistinct();
      CountOverStep(rows, AllDays);
      InAllDays(RowDay(rows[|rows| - 1]));
    } else {
      CountOverEmpty(AllDays);
    }
  }

  lemma AllDaysDistinct()
    ensures forall i, j :: 0 <= i < j < |AllDays| ==> AllDays[i] != AllDays[j]
  {
  }

  lemma InAllDays(d: DayOfWeek)
    ensures d in AllDays
  {
    match d
    case UnknownDay => assert AllDays[0] == d;
    case Monday => assert AllDays[1] == d;
    case Tuesday => assert AllDays[2] == d;
    case Wednesday => assert AllDays[3] == d;
    case Thursday => assert AllDays[4] == d;
    case Friday => assert AllDays[5] == d;
    case Saturday => assert AllDays[6] == d;
    case Sunday => assert AllDays[7] == d;
  }

  lemma {:induction false} CountOverEmpty(days: seq<DayOfWeek>)
    ensures CountOver([], days) == 0
  {
    if days != [] {
      CountOverEmpty(days[1..]);
    }
  }
}
