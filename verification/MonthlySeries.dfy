/**
  The two monthly series that the statistics page zips by index: submitted items
  between two dates, and downloads between two months.
 */
module MonthlySeries {
  import opened Calendar
  import opened Numbers
  import opened Wrappers

  datatype Date = Date(year: int, month: int, day: int)

  predicate IsLeap(y: int) { y % 4 == 0 && (y % 100 != 0 || y % 400 == 0) }

  function DaysIn(y: int, m: int): (d: int)
    ensures 28 <= d <= 31
  {
    if m == 2 then (if IsLeap(y) then 29 else 28)
    else if m == 4 || m == 6 || m == 9 || m == 11 then 30
    else 31
  }

  /** The Gregorian calendar. */
  lemma LengthsOfMonths(y: int)
    ensures forall m :: m in {1, 3, 5, 7, 8, 10, 12} ==> DaysIn(y, m) == 31
    ensures forall m :: m in {4, 6, 9, 11} ==> DaysIn(y, m) == 30
    ensures y % 4 != 0 ==> DaysIn(y, 2) == 28
    ensures y % 4 == 0 && y % 100 != 0 ==> DaysIn(y, 2) == 29
    ensures y % 100 == 0 && y % 400 != 0 ==> DaysIn(y, 2) == 28
    ensures y % 4 == 0 && y % 400 == 0 ==> DaysIn(y, 2) == 29
  {}

  predicate IsDate(t: Date) { 1 <= t.month <= 12 && 1 <= t.day <= DaysIn(t.year, t.month) }

  /** `Time.new`: a day up to 31 that the month lacks runs on into the next month. */
  function TimeNew(y: int, m: int, d: int): (t: Option<Date>)
    ensures t.Some? <==> 1 <= m <= 12 && 1 <= d <= 31
    ensures t.Some? ==> IsDate(t.value)
  {
    if !(1 <= m <= 12 && 1 <= d <= 31) then None
    else if d <= DaysIn(y, m) then Some(Date(y, m, d))
    else Some(Date(y, m + 1, d - DaysIn(y, m)))
  }

  /** A date as the page asks for it: without a positive year it is left to the default. */
  function TimeOr(d: Date, otherwise: Date): (t: Option<Date>)
    requires IsDate(otherwise)
    ensures d.year <= 0 ==> t == Some(otherwise)
    ensures t.Some? ==> IsDate(t.value)
  {
    if d.year > 0 then TimeNew(d.year, d.month, d.day) else Some(otherwise)
  }

  /** Adding a calendar month; the day is cut to the length of the new month. */
  function PlusOneMonth(t: Date): (r: Date)
    requires IsDate(t)
    ensures IsDate(r) && MonthIndex(r) == MonthIndex(t) + 1
    ensures r.day == t.day || (r.day < t.day && r.day == DaysIn(r.year, r.month))
  {
    var y, m := if t.month == 12 then t.year + 1 else t.year, if t.month == 12 then 1 else t.month + 1;
    Date(y, m, Min(t.day, DaysIn(y, m)))
  }

  predicate After(a: Date, b: Date) {
    a.year > b.year || (a.year == b.year && (a.month > b.month || (a.month == b.month && a.day > b.day)))
  }

  function MonthIndex(t: Date): int { 12 * t.year + t.month }

  function MonthsFrom(lo: int, n: nat): seq<Month> {
    seq<Month>(n, i => MonthAt(lo + i))
  }

  /** The months of the submitted-items series: the end is put off by a month and the last row dropped. */
  function SubmittedMonths(start: Date, end: Date): (r: Result<seq<Month>, string>)
    requires IsDate(start) && IsDate(end)
    ensures r.Failure? <==> 372 * start.year + 31 * start.month + start.day
                            > 372 * end.year + 31 * end.month + end.day
  {
    if After(start, end) then Failure("End time must be after start time") else
    var first, last := MonthIndex(start), MonthIndex(PlusOneMonth(end));
    var rows := MonthsFrom(first, last - first + 1);
    Success(rows[..|rows| - 1])
  }

  /** The series runs from the month of the start to the month of the end, both included. */
  lemma SubmittedSpan(start: Date, end: Date)
    requires IsDate(start) && IsDate(end) && !After(start, end)
    ensures SubmittedMonths(start, end).value == MonthsFrom(MonthIndex(start), MonthIndex(end) - MonthIndex(start) + 1)
  {}

  ghost predicate LineUp(items: seq<Month>, downloads: seq<Row>) {
    |items| == |downloads| && forall i :: 0 <= i < |items| ==> items[i] == downloads[i].month
  }

  predicate DayExists(y: int, m: int, d: int) { d <= DaysIn(y, m) }

  lemma MonthOfItem(items: seq<Month>, first: int, n: nat, i: nat)
    requires items == MonthsFrom(first, n) && i < n
    ensures Index(items[i]) == first + i
  {
    assert items[i] == MonthAt(first + i);
  }

  /** Two runs of consecutive months line up exactly when they start alike and are equally long. */
  lemma RunsLineUpIff(items: seq<Month>, first: int, n: nat, downloads: seq<Row>, start: int)
    requires items == MonthsFrom(first, n) && n > 0 && downloads != []
    requires forall i :: 0 <= i < |downloads| ==> Index(downloads[i].month) == start + i
    ensures LineUp(items, downloads) <==> first == start && n == |downloads|
  {
    MonthOfItem(items, first, n, 0);
    forall i | 0 <= i < n && i < |downloads| ensures items[i] == downloads[i].month <==> first == start {
      MonthOfItem(items, first, n, i);
      if first == start { IndexInjective(items[i], downloads[i].month); }
    }
  }

  /** The rounding of a day that its month lacks moves the month index by one. */
  lemma OverrunMovesMonth(y: int, m: int, d: int)
    requires TimeNew(y, m, d).Some?
    ensures MonthIndex(TimeNew(y, m, d).value) == 12 * y + m + if DayExists(y, m, d) then 0 else 1
  {}

  /** The dates of a request with the defaults, the first event and now, neither side of which raises. */
  ghost predicate Answered(from: Date, to: Date, earliest: Date, now: Date, rows: seq<Row>, downloads: seq<Row>) {
    && IsDate(earliest) && IsDate(now) && earliest.year > 0
    && 1 <= from.month <= 12 && 1 <= to.month <= 12 && MonthIndex(from) < MonthIndex(to)
    && IsPadded(downloads, rows, YearMonth(from.year, from.month), YearMonth(to.year, to.month))
    && TimeOr(from, earliest).Some? && TimeOr(to, now).Some?
    && SubmittedMonths(TimeOr(from, earliest).value, TimeOr(to, now).value).Success?
  }

  /**
    Row i of both series is the same month exactly when the start has a year and
    both days given exist in their months. With a year at the start, the zip
    stays inside the downloads unless only the end day runs over.
   */
  lemma SeriesLineUpIff(from: Date, to: Date, earliest: Date, now: Date, rows: seq<Row>, downloads: seq<Row>)
    requires Answered(from, to, earliest, now, rows, downloads)
    ensures var items := SubmittedMonths(TimeOr(from, earliest).value, TimeOr(to, now).value).value;
            && (LineUp(items, downloads) <==>
                && from.year > 0
                && DayExists(from.year, from.month, from.day) && DayExists(to.year, to.month, to.day))
            && (from.year > 0 ==>
                (|items| <= |downloads| <==>
                 DayExists(to.year, to.month, to.day) || !DayExists(from.year, from.month, from.day)))
            && (from.year <= 0 < to.year ==> |items| <= |downloads|)
  {
    var start, end := TimeOr(from, earliest).value, TimeOr(to, now).value;
    SubmittedSpan(start, end);
    if from.year > 0 { OverrunMovesMonth(from.year, from.month, from.day); }
    if to.year > 0 { OverrunMovesMonth(to.year, to.month, to.day); }
    RunsLineUpIff(SubmittedMonths(start, end).value, MonthIndex(start), MonthIndex(end) - MonthIndex(start) + 1,
                  downloads, MonthIndex(from));
  }

  /** February 31 to May 10: the item series starts in March, the download series in February. */
  lemma OverrunShiftsSeries(rows: seq<Row>, downloads: seq<Row>)
    requires IsPadded(downloads, rows, YearMonth(2023, 2), YearMonth(2023, 5))
    ensures TimeNew(2023, 2, 31) == Some(Date(2023, 3, 3))
    ensures SubmittedMonths(Date(2023, 3, 3), Date(2023, 5, 10)).Success?
    ensures Index(SubmittedMonths(Date(2023, 3, 3), Date(2023, 5, 10)).value[0]) == Index(YearMonth(2023, 3))
    ensures Index(downloads[0].month) == Index(YearMonth(2023, 2))
  {
    SubmittedSpan(Date(2023, 3, 3), Date(2023, 5, 10));
    MonthOfItem(SubmittedMonths(Date(2023, 3, 3), Date(2023, 5, 10)).value, 12 * 2023 + 3, 3, 0);
  }
}
