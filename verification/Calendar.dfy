/** Month arithmetic: the range test of the report queries and the padding of their results. */
module Calendar {
  import opened Numbers

  datatype YearMonth = YearMonth(year: int, month: int)

  predicate IsMonth(m: YearMonth) { 1 <= m.month <= 12 }

  type Month = m: YearMonth | IsMonth(m) witness YearMonth(0, 1)

  /** Months counted from an arbitrary origin. */
  function Index(m: YearMonth): int { 12 * m.year + m.month }

  function MonthAt(k: int): (m: Month)
    ensures Index(m) == k
  {
    YearMonth((k - 1) / 12, (k - 1) % 12 + 1)
  }

  lemma IndexInjective(a: Month, b: Month)
    requires Index(a) == Index(b)
    ensures a == b
  {}

  /** The two disjunctions that every report query puts in its WHERE clause. */
  predicate SqlInRange(m: YearMonth, start: YearMonth, end: YearMonth) {
    && ((m.year == start.year && m.month >= start.month) || m.year > start.year)
    && ((m.year == end.year && m.month <= end.month) || m.year < end.year)
  }

  lemma SqlRangeIsInterval(m: Month, start: Month, end: Month)
    ensures SqlInRange(m, start, end) <==> Index(start) <= Index(m) <= Index(end)
  {}

  datatype Row = Row(month: Month, count: nat)

  /** The first row of the given month, as `find` does. */
  function CountIn(rows: seq<Row>, m: YearMonth): nat {
    if rows == [] then 0
    else if rows[0].month == m then rows[0].count
    else CountIn(rows[1..], m)
  }

  function SumCounts(rows: seq<Row>): nat {
    if rows == [] then 0 else rows[0].count + SumCounts(rows[1..])
  }

  /** One entry per month of the span, in order, with the count of its row or 0. */
  ghost predicate IsPadded(arr: seq<Row>, rows: seq<Row>, start: Month, end: Month) {
    && |arr| == Max(0, Index(end) - Index(start) + 1)
    && forall i :: 0 <= i < |arr| ==>
         Index(arr[i].month) == Index(start) + i && arr[i].count == CountIn(rows, arr[i].month)
  }

  method PadResults(rows: seq<Row>, start: Month, end: Month) returns (arr: seq<Row>)
    ensures IsPadded(arr, rows, start, end)
  {
    arr := [];
    var year := start.year;
    while year <= end.year
      invariant start.year <= year
      invariant start.year <= end.year ==> year <= end.year + 1
      invariant |arr| == Max(0, Min(12 * year, Index(end)) - Index(start) + 1)
      invariant forall i :: 0 <= i < |arr| ==>
                  Index(arr[i].month) == Index(start) + i && arr[i].count == CountIn(rows, arr[i].month)
      decreases end.year - year
    {
      var month := 1;
      while month <= 12
        invariant 1 <= month <= 13
        invariant |arr| == Max(0, Min(12 * year + month - 1, Index(end)) - Index(start) + 1)
        invariant forall i :: 0 <= i < |arr| ==>
                    Index(arr[i].month) == Index(start) + i && arr[i].count == CountIn(rows, arr[i].month)
      {
        if year == start.year && month < start.month {
          month := month + 1;
          continue;
        }
        if year == end.year && month > end.month { break; }
        var m: Month := YearMonth(year, month);
        arr := arr + [Row(m, CountIn(rows, m))];
        month := month + 1;
      }
      year := year + 1;
    }
  }

  // ----- padding loses nothing -----

  ghost predicate OnePerMonth(rows: seq<Row>) {
    forall i, j :: 0 <= i < j < |rows| ==> rows[i].month != rows[j].month
  }

  ghost function SumOverMonths(rows: seq<Row>, lo: int, n: nat): nat
    decreases n
  {
    if n == 0 then 0 else CountIn(rows, MonthAt(lo)) + SumOverMonths(rows, lo + 1, n - 1)
  }

  lemma {:induction false} PaddedSum(arr: seq<Row>, rows: seq<Row>, lo: int)
    requires forall i :: 0 <= i < |arr| ==>
               Index(arr[i].month) == lo + i && arr[i].count == CountIn(rows, arr[i].month)
    ensures SumCounts(arr) == SumOverMonths(rows, lo, |arr|)
  {
    if arr != [] {
      IndexInjective(arr[0].month, MonthAt(lo));
      PaddedSum(arr[1..], rows, lo + 1);
    }
  }

  lemma {:induction false} CountAbsent(rows: seq<Row>, m: YearMonth)
    requires forall i :: 0 <= i < |rows| ==> rows[i].month != m
    ensures CountIn(rows, m) == 0
  {
    if rows != [] { CountAbsent(rows[1..], m); }
  }

  /** Taking the first row away lowers one month of the span by its count. */
  lemma {:induction false} SumWithoutFirst(rows: seq<Row>, lo: int, n: nat)
    requires rows != [] && OnePerMonth(rows)
    ensures SumOverMonths(rows, lo, n)
            == SumOverMonths(rows[1..], lo, n) + if lo <= Index(rows[0].month) < lo + n then rows[0].count else 0
    decreases n
  {
    if n != 0 {
      SumWithoutFirst(rows, lo + 1, n - 1);
      if rows[0].month == MonthAt(lo) {
        CountAbsent(rows[1..], rows[0].month);
      } else if Index(rows[0].month) == lo {
        IndexInjective(rows[0].month, MonthAt(lo));
      }
    }
  }

  lemma {:induction false} SpanHoldsAll(rows: seq<Row>, lo: int, n: nat)
    requires OnePerMonth(rows) && forall i :: 0 <= i < |rows| ==> lo <= Index(rows[i].month) < lo + n
    ensures SumOverMonths(rows, lo, n) == SumCounts(rows)
  {
    if rows == [] {
      EmptySpan(lo, n);
    } else {
      SumWithoutFirst(rows, lo, n);
      SpanHoldsAll(rows[1..], lo, n);
    }
  }

  lemma {:induction false} EmptySpan(lo: int, n: nat)
    ensures SumOverMonths([], lo, n) == 0
    decreases n
  {
    if n != 0 { EmptySpan(lo + 1, n - 1); }
  }

  /** Rows unique per month and inside the span keep their total when padded. */
  lemma PaddingConserves(arr: seq<Row>, rows: seq<Row>, start: Month, end: Month)
    requires IsPadded(arr, rows, start, end) && OnePerMonth(rows)
    requires forall i :: 0 <= i < |rows| ==> SqlInRange(rows[i].month, start, end)
    ensures SumCounts(arr) == SumCounts(rows)
  {
    PaddedSum(arr, rows, Index(start));
    forall i | 0 <= i < |rows| ensures Index(start) <= Index(rows[i].month) < Index(start) + |arr| {
      SqlRangeIsInterval(rows[i].month, start, end);
    }
    SpanHoldsAll(rows, Index(start), |arr|);
  }
}
