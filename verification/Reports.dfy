/** The reporting models: counting a download and reading the month-by-month reports. */
module Reports {
  import opened Calendar
  import opened DownloadTables
  import Forest
  import opened Numbers
  import RollUps
  import opened Sets
  import Units
  import opened Wrappers

  const EARLIEST_YEAR := 2006

  /** Both ends must be real months, and the start strictly before the end. */
  predicate GoodRange(start: YearMonth, end: YearMonth) {
    IsMonth(start) && IsMonth(end) && Index(start) < Index(end)
  }

  lemma GoodRangeIff(start: YearMonth, end: YearMonth)
    ensures GoodRange(start, end) <==>
            && start.month >= 1 && start.month <= 12 && end.month >= 1 && end.month <= 12
            && (start.year < end.year || (start.year == end.year && start.month < end.month))
  {}

  /** One entry per month of the range, each with the hits of that month. */
  ghost predicate IsReport(entries: seq<Row>, t: CoarseTable, ids: set<int>, start: YearMonth, end: YearMonth) {
    && |entries| == Max(0, Index(end) - Index(start) + 1)
    && forall i :: 0 <= i < |entries| ==> IsEntry(entries[i], t, ids, Index(start) + i)
  }

  ghost predicate IsEntry(entry: Row, t: CoarseTable, ids: set<int>, month: int) {
    Index(entry.month) == month && entry.count == Hits(t, ids, month, month)
  }

  ghost predicate IsMonthlyAnswer(rows: seq<Row>, t: CoarseTable, ids: set<int>, start: YearMonth, end: YearMonth) {
    && OnePerMonth(rows)
    && (forall i :: 0 <= i < |rows| ==> SqlInRange(rows[i].month, start, end))
    && (forall i, j :: 0 <= i < j < |rows| ==> Index(rows[i].month) < Index(rows[j].month))
    && (forall m: Month :: SqlInRange(m, start, end) ==> CountIn(rows, m) == Hits(t, ids, Index(m), Index(m)))
  }

  lemma HitsSplit(t: CoarseTable, ids: set<int>, lo: int, hi: int)
    requires lo <= hi
    ensures Hits(t, ids, lo, hi) == Hits(t, ids, lo, lo) + Hits(t, ids, lo + 1, hi)
  {
    var first, rest := Matching(t, ids, lo, lo), Matching(t, ids, lo + 1, hi);
    assert Matching(t, ids, lo, hi) == first + rest;
    TotalSplit(t, first, rest);
  }

  /** The monthly entries add up to the total of the whole range. */
  lemma {:induction false} EntriesSumToTotal(entries: seq<Row>, t: CoarseTable, ids: set<int>, lo: int)
    requires forall i :: 0 <= i < |entries| ==> entries[i].count == Hits(t, ids, lo + i, lo + i)
    ensures SumCounts(entries) == Hits(t, ids, lo, lo + |entries| - 1)
  {
    if entries == [] {
      assert Matching(t, ids, lo, lo - 1) == {};
    } else {
      EntriesSumToTotal(entries[1..], t, ids, lo + 1);
      HitsSplit(t, ids, lo, lo + |entries| - 1);
    }
  }

  /**
    End to end, from empty tables: entry i is about the i-th month of the range,
    and counts the downloads of that month that were recorded under the IDs.
   */
  lemma EntriesCountHistory(cs: seq<Command>, entries: seq<Row>, ids: set<int>, start: YearMonth, end: YearMonth,
                            i: nat)
    requires i < |entries|
    ensures var s, month := Run(EMPTY, cs), 12 * start.year + start.month + i;
            && (IsReport(entries, s.units, ids, start, end) ==>
                && 12 * entries[i].month.year + entries[i].month.month == month
                && |entries| == 12 * (end.year - start.year) + end.month - start.month + 1
                && entries[i].count ==
                   |set k | 0 <= k < |cs| && cs[k].Download? && Complete(cs[k].ids)
                            && cs[k].ids.unit.value in ids
                            && 12 * cs[k].month.year + cs[k].month.month == month|)
            && (IsReport(entries, s.collections, ids, start, end) ==>
                && 12 * entries[i].month.year + entries[i].month.month == month
                && |entries| == 12 * (end.year - start.year) + end.month - start.month + 1
                && entries[i].count ==
                   |set k | 0 <= k < |cs| && cs[k].Download? && Complete(cs[k].ids)
                            && cs[k].ids.collection.value in ids
                            && 12 * cs[k].month.year + cs[k].month.month == month|)
            && (IsReport(entries, s.institutions, ids, start, end) ==>
                && 12 * entries[i].month.year + entries[i].month.month == month
                && |entries| == 12 * (end.year - start.year) + end.month - start.month + 1
                && entries[i].count ==
                   |set k | 0 <= k < |cs| && cs[k].Download? && Complete(cs[k].ids)
                            && cs[k].ids.institution.value in ids
                            && 12 * cs[k].month.year + cs[k].month.month == month|)
  {
    var month := 12 * start.year + start.month + i;
    ReportsCountHistory(cs, ids, month, month);
    OneMonth(cs, ids, month);
    EntryIs(entries, Run(EMPTY, cs).units, ids, start, end, i);
    EntryIs(entries, Run(EMPTY, cs).collections, ids, start, end, i);
    EntryIs(entries, Run(EMPTY, cs).institutions, ids, start, end, i);
  }

  lemma EntryIs(entries: seq<Row>, t: CoarseTable, ids: set<int>, start: YearMonth, end: YearMonth, i: nat)
    requires i < |entries|
    ensures var month := 12 * start.year + start.month + i;
            IsReport(entries, t, ids, start, end) ==>
              && 12 * entries[i].month.year + entries[i].month.month == month
              && |entries| == 12 * (end.year - start.year) + end.month - start.month + 1
              && entries[i].count == Hits(t, ids, month, month)
  {
    if IsReport(entries, t, ids, start, end) { assert IsEntry(entries[i], t, ids, Index(start) + i); }
  }

  lemma OneMonth(cs: seq<Command>, ids: set<int>, month: int)
    ensures (set k | 0 <= k < |cs| && cs[k].Download? && Complete(cs[k].ids) && cs[k].ids.collection.value in ids
                     && month <= 12 * cs[k].month.year + cs[k].month.month <= month)
            == set k | 0 <= k < |cs| && cs[k].Download? && Complete(cs[k].ids) && cs[k].ids.collection.value in ids
                       && 12 * cs[k].month.year + cs[k].month.month == month
    ensures (set k | 0 <= k < |cs| && cs[k].Download? && Complete(cs[k].ids) && cs[k].ids.unit.value in ids
                     && month <= 12 * cs[k].month.year + cs[k].month.month <= month)
            == set k | 0 <= k < |cs| && cs[k].Download? && Complete(cs[k].ids) && cs[k].ids.unit.value in ids
                       && 12 * cs[k].month.year + cs[k].month.month == month
    ensures (set k | 0 <= k < |cs| && cs[k].Download? && Complete(cs[k].ids) && cs[k].ids.institution.value in ids
                     && month <= 12 * cs[k].month.year + cs[k].month.month <= month)
            == set k | 0 <= k < |cs| && cs[k].Download? && Complete(cs[k].ids) && cs[k].ids.institution.value in ids
                       && 12 * cs[k].month.year + cs[k].month.month == month
  {}

  /** The hits of one ID over a range of months. */
  ghost function OwnHits(t: CoarseTable, lo: int, hi: int): int -> nat {
    id => Hits(t, {id}, lo, hi)
  }

  lemma {:induction false} HitsAddUp(t: CoarseTable, ids: set<int>, lo: int, hi: int)
    ensures Hits(t, ids, lo, hi) == RollUps.SumOver(ids, OwnHits(t, lo, hi))
  {
    if ids == {} {
      assert Matching(t, ids, lo, hi) == {};
    } else {
      var id := Pick(ids);
      var first, rest := Matching(t, {id}, lo, hi), Matching(t, ids - {id}, lo, hi);
      assert Matching(t, ids, lo, hi) == first + rest;
      TotalSplit(t, first, rest);
      HitsAddUp(t, ids - {id}, lo, hi);
    }
  }

  /** The sum of a unit with its children is its own hits and, for each child, the sum of that child. */
  lemma SumForUnitIsAdditive(f: Forest.Parents, u: int, t: CoarseTable, lo: int, hi: int)
    requires Forest.IsForest(f) && u in f
    ensures Hits(t, Forest.Subtree(f, u), lo, hi) == RollUps.RollUp(f, u, OwnHits(t, lo, hi))
    ensures Hits(t, Forest.Subtree(f, u), lo, hi)
            == Hits(t, {u}, lo, hi) + RollUps.ChildRollUps(f, Forest.ChildIds(f, u), OwnHits(t, lo, hi))
  {
    HitsAddUp(t, Forest.Subtree(f, u), lo, hi);
    RollUps.SumRemove(Forest.Subtree(f, u), u, OwnHits(t, lo, hi));
    assert Forest.Subtree(f, u) - {u} == Forest.Descendants(f, u);
    RollUps.RollUpIsAdditive(f, u, OwnHits(t, lo, hi));
  }

  lemma {:induction false} CountInListed(rows: seq<Row>, i: nat)
    requires OnePerMonth(rows) && i < |rows|
    ensures CountIn(rows, rows[i].month) == rows[i].count
  {
    if i != 0 { CountInListed(rows[1..], i - 1); }
  }

  method OrderByMonth(byMonth: map<Month, nat>) returns (rows: seq<Row>)
    ensures forall i, j :: 0 <= i < j < |rows| ==> Index(rows[i].month) < Index(rows[j].month)
    ensures forall i :: 0 <= i < |rows| ==> rows[i].month in byMonth
    ensures OnePerMonth(rows)
    ensures forall m: Month :: CountIn(rows, m) == if m in byMonth then byMonth[m] else 0
  {
    rows := [];
    var todo := byMonth.Keys;
    while todo != {}
      invariant todo <= byMonth.Keys
      invariant forall i, j :: 0 <= i < j < |rows| ==> Index(rows[i].month) < Index(rows[j].month)
      invariant forall r :: r in rows ==> r.month in byMonth && r.count == byMonth[r.month]
      invariant forall r, m :: r in rows && m in todo ==> Index(r.month) < Index(m)
      invariant forall m :: m in byMonth && m !in todo ==> Row(m, byMonth[m]) in rows
    {
      ghost var earliest := Earliest(todo);
      var m :| m in todo && forall x :: x in todo ==> Index(m) <= Index(x);
      forall x | x in todo - {m} ensures Index(m) < Index(x) {
        if Index(m) == Index(x) { IndexInjective(m, x); }
      }
      rows := rows + [Row(m, byMonth[m])];
      todo := todo - {m};
    }
    CountsOf(rows, byMonth);
  }

  lemma CountsOf(rows: seq<Row>, byMonth: map<Month, nat>)
    requires forall i, j :: 0 <= i < j < |rows| ==> Index(rows[i].month) < Index(rows[j].month)
    requires forall r :: r in rows ==> r.month in byMonth && r.count == byMonth[r.month]
    requires forall m :: m in byMonth ==> Row(m, byMonth[m]) in rows
    ensures OnePerMonth(rows)
    ensures forall m: Month :: CountIn(rows, m) == if m in byMonth then byMonth[m] else 0
  {
    forall m: Month ensures CountIn(rows, m) == if m in byMonth then byMonth[m] else 0 {
      if m in byMonth {
        var i :| 0 <= i < |rows| && rows[i] == Row(m, byMonth[m]);
        CountInListed(rows, i);
      } else {
        forall i | 0 <= i < |rows| ensures rows[i].month != m { assert rows[i] in rows; }
        CountAbsent(rows, m);
      }
    }
  }

  lemma {:induction false} Earliest(ms: set<Month>) returns (m: Month)
    requires ms != {}
    ensures m in ms && forall x :: x in ms ==> Index(m) <= Index(x)
  {
    m := Pick(ms);
    if ms != {m} {
      var rest := ms - {m};
      assert ms == rest + {m};
      var n := Earliest(rest);
      if Index(n) < Index(m) { m := n; }
    }
  }

  lemma MonthlyAnswerMeans(rows: seq<Row>, t: CoarseTable, ids: set<int>, start: Month, end: Month)
    requires IsMonthlyAnswer(rows, t, ids, start, end)
    ensures forall i, j :: 0 <= i < j < |rows| ==> Index(rows[i].month) < Index(rows[j].month)
    ensures forall i :: 0 <= i < |rows| ==>
              && Index(start) <= Index(rows[i].month) <= Index(end)
              && rows[i].count == Hits(t, ids, Index(rows[i].month), Index(rows[i].month))
  {
    forall i | 0 <= i < |rows|
      ensures Index(start) <= Index(rows[i].month) <= Index(end)
      ensures rows[i].count == Hits(t, ids, Index(rows[i].month), Index(rows[i].month))
    {
      RowAnswers(rows, t, ids, start, end, i);
    }
  }

  lemma RowAnswers(rows: seq<Row>, t: CoarseTable, ids: set<int>, start: Month, end: Month, i: nat)
    requires IsMonthlyAnswer(rows, t, ids, start, end) && i < |rows|
    ensures Index(start) <= Index(rows[i].month) <= Index(end)
    ensures rows[i].count == Hits(t, ids, Index(rows[i].month), Index(rows[i].month))
  {
    SqlRangeIsInterval(rows[i].month, start, end);
    CountInListed(rows, i);
  }

  /** The rows of a coarse table for some IDs and a range, summed by month and ordered. */
  method SelectByMonth(t: CoarseTable, ids: set<int>, start: Month, end: Month) returns (rows: seq<Row>)
    ensures IsMonthlyAnswer(rows, t, ids, start, end)
    ensures forall i, j :: 0 <= i < j < |rows| ==> Index(rows[i].month) < Index(rows[j].month)
    ensures forall i :: 0 <= i < |rows| ==>
              && Index(start) <= Index(rows[i].month) <= Index(end)
              && rows[i].count == Hits(t, ids, Index(rows[i].month), Index(rows[i].month))
  {
    var hits := map k | k in t && k.id in ids && SqlInRange(k.month, start, end) :: t[k];
    var byMonth := Aggregate(hits, MonthOf);
    rows := OrderByMonth(byMonth);
    forall m: Month | SqlInRange(m, start, end) ensures CountIn(rows, m) == Hits(t, ids, Index(m), Index(m)) {
      MonthGroup(t, hits, ids, start, end, m);
    }
    MonthlyAnswerMeans(rows, t, ids, start, end);
  }

  lemma MonthGroup(t: CoarseTable, hits: CoarseTable, ids: set<int>, start: Month, end: Month, m: Month)
    requires hits == map k | k in t && k.id in ids && SqlInRange(k.month, start, end) :: t[k]
    requires SqlInRange(m, start, end)
    ensures Hits(t, ids, Index(m), Index(m)) ==
            if m in GroupBy(hits, MonthOf) then GroupBy(hits, MonthOf)[m] else 0
  {
    var ks := Matching(t, ids, Index(m), Index(m));
    forall k | k in ks ensures k.month == m { IndexInjective(k.month, m); }
    assert ks == Group(hits, MonthOf, m);
    TotalAgree(t, hits, ks);
    if m !in GroupBy(hits, MonthOf) { assert ks == {}; }
  }

  /** A report on some IDs, or the `ArgumentError` of a bad range. */
  method ReportFor(t: CoarseTable, ids: set<int>, start: YearMonth, end: YearMonth)
    returns (r: Result<seq<Row>, string>)
    ensures r.Success? <==> GoodRange(start, end)
    ensures r.Success? ==> IsReport(r.value, t, ids, start, end)
  {
    if !IsMonth(start) || !IsMonth(end) { return Failure("argument out of range"); }
    if Index(start) >= Index(end) {
      return Failure("Start year/month is equal to or later than end year/month");
    }
    var rows := SelectByMonth(t, ids, start, end);
    var entries := PadResults(rows, start, end);
    PaddedIsReport(entries, rows, t, ids, start, end);
    r := Success(entries);
  }

  lemma PaddedIsReport(entries: seq<Row>, rows: seq<Row>, t: CoarseTable, ids: set<int>, start: Month, end: Month)
    requires IsPadded(entries, rows, start, end) && IsMonthlyAnswer(rows, t, ids, start, end)
    ensures IsReport(entries, t, ids, start, end)
  {
    forall i | 0 <= i < |entries| ensures IsEntry(entries[i], t, ids, Index(start) + i) {
      PaddedEntry(entries, rows, t, ids, start, end, i);
    }
  }

  lemma PaddedEntry(entries: seq<Row>, rows: seq<Row>, t: CoarseTable, ids: set<int>, start: Month, end: Month, i: nat)
    requires IsPadded(entries, rows, start, end) && IsMonthlyAnswer(rows, t, ids, start, end) && i < |entries|
    ensures IsEntry(entries[i], t, ids, Index(start) + i)
  {
    SqlRangeIsInterval(entries[i].month, start, end);
  }

  lemma IncrementGrows(t: ItemTable, k: ItemKey)
    ensures Grand(Upsert(t, k)) == Grand(t) + 1
    ensures GroupBy(Upsert(t, k), ByCollection) == Upsert(GroupBy(t, ByCollection), ByCollection(k))
    ensures GroupBy(Upsert(t, k), ByUnit) == Upsert(GroupBy(t, ByUnit), ByUnit(k))
    ensures GroupBy(Upsert(t, k), ByInstitution) == Upsert(GroupBy(t, ByInstitution), ByInstitution(k))
  {
    TotalAddTo(t, k, 1, t.Keys, Upsert(t, k).Keys);
    GroupUpsert(t, k, ByCollection);
    GroupUpsert(t, k, ByUnit);
    GroupUpsert(t, k, ByInstitution);
  }

  lemma KeepsAgreement(s: State, c: Command)
    ensures Agrees(s) ==> Agrees(Step(s, c))
  {
    if Agrees(s) { StepKeepsAgreement(s, c); }
  }

  class ReportingTables {
    var items: ItemTable
    var collections: CoarseTable
    var units: CoarseTable
    var institutions: CoarseTable

    ghost function Now(): State
      reads this
    {
      State(items, collections, units, institutions)
    }

    constructor ()
      ensures Now() == EMPTY && Agrees(Now())
    {
      items, collections, units, institutions := map[], map[], map[], map[];
      new;
    }

    /** Counts one download of a bitstream of `item`, unless the item has no complete chain of owners. */
    method AddDownload(item: int, ids: OwningIds, now: Month)
      modifies this
      ensures ids.institution.None? || ids.unit.None? || ids.collection.None? ==> Now() == old(Now())
      ensures ids.institution.Some? && ids.unit.Some? && ids.collection.Some? ==>
                && items == Upsert(old(items), ItemKey(ids.institution.value, ids.unit.value, ids.collection.value,
                                                       item, now))
                && collections == Upsert(old(collections), CoarseKey(ids.collection.value, now))
                && units == Upsert(old(units), CoarseKey(ids.unit.value, now))
                && institutions == Upsert(old(institutions), CoarseKey(ids.institution.value, now))
      ensures Now() == Step(old(Now()), Download(item, ids, now))
      ensures old(Agrees(Now())) ==> Agrees(Now())
    {
      KeepsAgreement(Now(), Download(item, ids, now));
      if Complete(ids) { IncrementAll(item, ids, now); }
    }

    /** The four counters of one download. */
    method IncrementAll(item: int, ids: OwningIds, now: Month)
      requires Complete(ids)
      modifies this
      ensures var k := ItemKey(ids.institution.value, ids.unit.value, ids.collection.value, item, now);
              && items == Upsert(old(items), k)
              && collections == Upsert(old(collections), CoarseKey(ids.collection.value, now))
              && units == Upsert(old(units), CoarseKey(ids.unit.value, now))
              && institutions == Upsert(old(institutions), CoarseKey(ids.institution.value, now))
    {
      IncrementItem(item, ids, now);
      collections := Upsert(collections, CoarseKey(ids.collection.value, now));
      units := Upsert(units, CoarseKey(ids.unit.value, now));
      institutions := Upsert(institutions, CoarseKey(ids.institution.value, now));
    }

    /**
      Counts a download in the row of its item, owners and month, and in no other;
      the total and each of the three aggregates grow by just this download.
     */
    method IncrementItem(item: int, ids: OwningIds, now: Month)
      modifies this`items
      ensures !Complete(ids) ==> items == old(items)
      ensures Complete(ids) ==>
                var k := ItemKey(ids.institution.value, ids.unit.value, ids.collection.value, item, now);
                && items == Upsert(old(items), k)
                && items == old(items)[k := (if k in old(items) then old(items)[k] else 0) + 1]
      ensures Complete(ids) ==> Grand(items) == old(Grand(items)) + 1
      ensures Complete(ids) ==>
                var k := KeyFor(item, ids, now);
                && GroupBy(items, ByCollection) == Upsert(old(GroupBy(items, ByCollection)), ByCollection(k))
                && GroupBy(items, ByUnit) == Upsert(old(GroupBy(items, ByUnit)), ByUnit(k))
                && GroupBy(items, ByInstitution) == Upsert(old(GroupBy(items, ByInstitution)), ByInstitution(k))
    {
      if ids.institution.Some? && ids.unit.Some? && ids.collection.Some? {
        var k := ItemKey(ids.institution.value, ids.unit.value, ids.collection.value, item, now);
        IncrementGrows(items, k);
        items := Upsert(items, k);
      }
    }

    method CompileAll()
      modifies this
      ensures items == old(items) && Agrees(Now())
      ensures old(Agrees(Now())) ==> Now() == old(Now())
    {
      collections := Aggregate(items, ByCollection);
      units := Aggregate(items, ByUnit);
      institutions := Aggregate(items, ByInstitution);
    }

    method ForCollection(collection: int, start: YearMonth, end: YearMonth) returns (r: Result<seq<Row>, string>)
      ensures r.Success? <==> GoodRange(start, end)
      ensures r.Success? ==> IsReport(r.value, collections, {collection}, start, end)
    {
      r := ReportFor(collections, {collection}, start, end);
    }

    method ForInstitution(institution: int, start: YearMonth, end: YearMonth) returns (r: Result<seq<Row>, string>)
      ensures r.Success? <==> GoodRange(start, end)
      ensures r.Success? ==> IsReport(r.value, institutions, {institution}, start, end)
    {
      r := ReportFor(institutions, {institution}, start, end);
    }

    /** The IDs of a unit and, if wanted, of every unit below it. */
    method UnitIds(table: Units.UnitTable, unit: int, includeChildren: bool) returns (ids: set<int>)
      requires table.Valid() && unit in table.parent
      ensures ids == if includeChildren then Forest.Subtree(table.parent, unit) else {unit}
    {
      ids := {unit};
      if includeChildren {
        var us := table.FromUnits(unit);
        ids := set x | x in us;
      }
    }

    /** A report on a unit and every unit below it. */
    method ForUnit(table: Units.UnitTable, unit: int, start: YearMonth, end: YearMonth)
      returns (r: Result<seq<Row>, string>)
      requires table.Valid() && unit in table.parent
      ensures r.Success? <==> GoodRange(start, end)
      ensures r.Success? ==> IsReport(r.value, units, Forest.Subtree(table.parent, unit), start, end)
    {
      var ids := UnitIds(table, unit, true);
      r := ReportFor(units, ids, start, end);
    }

    /** The total of a range; absent bounds default to the earliest year and the current one. */
    method SumForUnit(table: Units.UnitTable, unit: int, startYear: Option<int>, startMonth: Option<int>,
                      endYear: Option<int>, endMonth: Option<int>, includeChildren: bool, currentYear: int)
      returns (r: Result<nat, string>)
      requires table.Valid() && unit in table.parent
      ensures var start := YearMonth(if startYear.Some? then startYear.value else 2006,
                                     if startMonth.Some? then startMonth.value else 1);
              var end := YearMonth(if endYear.Some? then endYear.value else currentYear,
                                   if endMonth.Some? then endMonth.value else 12);
              && (r.Success? <==> GoodRange(start, end))
              && (r.Success? ==> r.value == Hits(units,
                    if includeChildren then Forest.Subtree(table.parent, unit) else {unit}, Index(start), Index(end)))
    {
      var ids := UnitIds(table, unit, includeChildren);
      r := SumFor(units, ids, YearMonth(Or(startYear, EARLIEST_YEAR), Or(startMonth, 1)),
                  YearMonth(Or(endYear, currentYear), Or(endMonth, 12)));
    }
  }

  /** The total on some IDs over a range, or the `ArgumentError` of a bad range. */
  method SumFor(t: CoarseTable, ids: set<int>, start: YearMonth, end: YearMonth) returns (r: Result<nat, string>)
    ensures r.Success? <==> GoodRange(start, end)
    ensures r.Success? ==> r.value == Hits(t, ids, Index(start), Index(end))
  {
    if !IsMonth(start) || !IsMonth(end) { return Failure("argument out of range"); }
    if Index(start) >= Index(end) {
      return Failure("Start year/month is equal to or later than end year/month");
    }
    var sum := SumRange(t, ids, start, end);
    r := Success(sum);
  }

  function Or(x: Option<int>, default: int): int {
    if x.Some? then x.value else default
  }

  method SumRange(t: CoarseTable, ids: set<int>, start: Month, end: Month) returns (sum: nat)
    ensures sum == Hits(t, ids, Index(start), Index(end))
  {
    sum := 0;
    var todo := set k | k in t && k.id in ids && SqlInRange(k.month, start, end);
    forall k | k in t ensures SqlInRange(k.month, start, end) <==> Index(start) <= Index(k.month) <= Index(end) {
      SqlRangeIsInterval(k.month, start, end);
    }
    assert todo == Matching(t, ids, Index(start), Index(end));
    while todo != {}
      invariant todo <= t.Keys
      invariant sum + Total(t, todo) == Hits(t, ids, Index(start), Index(end))
    {
      ghost var any := Pick(todo);
      var k :| k in todo;
      TotalRemove(t, todo, k);
      sum := sum + t[k];
      todo := todo - {k};
    }
  }
}
