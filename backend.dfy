/**
 * project_forecasting/backend/backend_app.py. At start-up the service loads
 * the consumption table once: schema check, `Jour` and `ds` conversion with
 * unparseable values coerced to NaT, sort on `ds`, and a daily resample
 * (`df_model`). The `/forecast` handler then either backtests (80/20 split
 * of the daily series, forecasting the days after the training period up to
 * the last test day) or forecasts forward from the day after the last known
 * day up to a requested end date.
 */
module BackendApp {
  import opened Wrappers
  import opened Calendar
  import opened Formats
  import opened Frames

  const RequiredColumns: set<string> := {"Jour", "Heures", "PrévisionJ-1", "PrévisionJ", "Consommation"}

  /**
   * One line of the file: `Jour`, `Heures` and the three numeric columns
   * `PrévisionJ-1`, `PrévisionJ` and `Consommation`.
   */
  datatype Record = Record(jour: string, heures: string, previsionVeille: int, prevision: int, consommation: int)

  /** The file as read: its column names and its lines in file order. */
  datatype Table = Table(columns: set<string>, records: seq<Record>)

  /**
   * A row of the loaded `df`: `Jour` converted (None is NaT), `ds` the merged
   * timestamp in seconds (None is NaT) and `y` a copy of `Consommation`.
   */
  datatype TimedRow = TimedRow(jour: Option<Date>, heures: string, previsionVeille: int, prevision: int,
                               consommation: int, ds: Option<int>, y: int)

  /** A row of `df_model`: one calendar day (its day number) and the day's sum of each numeric column. */
  datatype DayBucket = DayBucket(day: int, previsionVeille: int, prevision: int, consommation: int, y: int)

  /** The numeric columns that `sum(numeric_only=True)` adds up. */
  datatype Column = PrevisionVeille | Prevision | Consommation | Y

  /**
   * Why start-up stops: a required column is missing, or the table has lines
   * but none of them gets a `ds`, so `resample` has no first or last day to
   * build its daily bins from and raises.
   */
  datatype LoadError = MissingColumns(found: set<string>) | NoTimestamps

  function Value(r: TimedRow, c: Column): int {
    match c
    case PrevisionVeille => r.previsionVeille
    case Prevision => r.prevision
    case Consommation => r.consommation
    case Y => r.y
  }

  function BucketValue(b: DayBucket, c: Column): int {
    match c
    case PrevisionVeille => b.previsionVeille
    case Prevision => b.prevision
    case Consommation => b.consommation
    case Y => b.y
  }

  // ---------------------------------------------------------------------
  // Loading: column conversion, sort, daily resample
  // ---------------------------------------------------------------------

  /** `df['Jour'].astype(str)`: a date-only column prints `YYYY-MM-DD`, NaT prints `NaT`. */
  function JourText(jour: Option<Date>): string
    requires jour.Some? ==> ValidDate(jour.value)
  {
    match jour
    case Some(d) => FormatIsoDate(d)
    case None => "NaT"
  }

  /**
   * The column assignments of one line: `Jour` with `%d/%m/%Y`, then `ds`
   * from the printed `Jour`, a space and `Heures` with `%Y-%m-%d %H:%M`,
   * both with `errors='coerce'`, and `y` copied from `Consommation`.
   */
  function ToTimed(r: Record): TimedRow {
    var jour := ParseDayMonthYear(r.jour);
    var ds := match ParseIsoDateTime(JourText(jour) + " " + r.heures, false)
              case Some((d, c)) => Some(Seconds(d, c))
              case None => None;
    TimedRow(jour, r.heures, r.previsionVeille, r.prevision, r.consommation, ds, r.consommation)
  }

  /**
   * `ds` is present exactly when `Jour` is a `dd/mm/YYYY` date and `Heures`
   * an `HH:MM` time (a time with seconds is coerced to NaT), and it is then
   * that date at that minute; the line is kept either way, with its cells.
   */
  lemma {:induction false} ToTimedSpec(r: Record)
    ensures var t := ToTimed(r);
            t.jour == ParseDayMonthYear(r.jour)
            && t.heures == r.heures && t.previsionVeille == r.previsionVeille
            && t.prevision == r.prevision && t.consommation == r.consommation && t.y == r.consommation
            && (t.ds.Some? <==> ParseDayMonthYear(r.jour).Some? && ParseClock(r.heures, false).Some?)
            && (t.ds.Some? ==>
                  var d, c := ParseDayMonthYear(r.jour).value, ParseClock(r.heures, false).value;
                  c.second == 0 && t.ds.value == Seconds(d, c))
  {
    match ParseDayMonthYear(r.jour)
    case Some(d) =>
      MergedDateTime(d, r.heures, false);
    case None =>
      FieldsCons("NaT", ' ', r.heures);
      FieldsNoSep("NaT", '-');
      assert "NaT" + " " + r.heures == "NaT" + [' '] + r.heures;
  }

  /** "15/03/2023" with "14:30" is 2023-03-15 14:30; "14:30:00" leaves `ds` missing. */
  lemma {:induction false} ToTimedExample(prevVeille: int, prev: int, conso: int)
    ensures ToTimed(Record("15/03/2023", "14:30", prevVeille, prev, conso)).ds
            == Some(Seconds(Date(2023, 3, 15), Clock(14, 30, 0)))
    ensures ToTimed(Record("15/03/2023", "14:30:00", prevVeille, prev, conso)).ds.None?
  {
    DayMonthYearExample();
    ClockExample();
    ClockWithoutSecondsExample();
    ToTimedSpec(Record("15/03/2023", "14:30", prevVeille, prev, conso));
    ToTimedSpec(Record("15/03/2023", "14:30:00", prevVeille, prev, conso));
  }

  function ToTimedAll(rs: seq<Record>): seq<TimedRow> {
    seq(|rs|, i requires 0 <= i < |rs| => ToTimed(rs[i]))
  }

  predicate HasDs(r: TimedRow) {
    r.ds.Some?
  }

  predicate MissingDs(r: TimedRow) {
    r.ds.None?
  }

  function DsKey(r: TimedRow): int {
    if r.ds.Some? then r.ds.value else 0
  }

  /** The calendar day a row's `ds` falls on. */
  function DayOf(r: TimedRow): int {
    if r.ds.Some? then r.ds.value / SecondsPerDay else 0
  }

  /**
   * `df.sort_values('ds', inplace=True)`: the rows with a `ds` in `ds`
   * order, then the NaT rows in their original order (pandas' `na_position='last'`).
   */
  function SortByDs(rows: seq<TimedRow>): seq<TimedRow> {
    SortBy(Filter(rows, HasDs), DsKey) + Filter(rows, MissingDs)
  }

  /**
   * The sort keeps every row (it rearranges them) and leaves the rows with
   * a `ds` first, in non-decreasing `ds` order, and the NaT rows last.
   */
  lemma {:induction false} SortByDsSpec(rows: seq<TimedRow>)
    ensures var r, p := SortByDs(rows), |Filter(rows, HasDs)|;
            |r| == |rows| && multiset(r) == multiset(rows) && p <= |r|
            && (forall i :: 0 <= i < p ==> r[i].ds.Some?)
            && (forall i :: p <= i < |r| ==> r[i].ds.None?)
            && SortedBy(r[..p], DsKey)
  {
    var timed, missing := Filter(rows, HasDs), Filter(rows, MissingDs);
    var sorted := SortBy(timed, DsKey);
    var r := sorted + missing;
    SplitByDs(rows);
    assert multiset(r) == multiset(sorted) + multiset(missing);
    assert |r| == |rows| by {
      assert |multiset(r)| == |multiset(rows)|;
    }
    SortedHaveDs(timed, sorted);
    assert r[..|sorted|] == sorted;
    forall i | |sorted| <= i < |r| ensures r[i].ds.None? {
      assert r[i] == missing[i - |sorted|];
    }
  }

  /** Every row either has a timestamp or has none: the two filters share out the rows. */
  lemma {:induction false} SplitByDs(rows: seq<TimedRow>)
    ensures multiset(Filter(rows, HasDs)) + multiset(Filter(rows, MissingDs)) == multiset(rows)
  {
    var timed, missing := Filter(rows, HasDs), Filter(rows, MissingDs);
    forall x ensures (multiset(timed) + multiset(missing))[x] == multiset(rows)[x] {
      assert HasDs(x) <==> !MissingDs(x);
    }
  }

  lemma {:induction false} SortedHaveDs(timed: seq<TimedRow>, sorted: seq<TimedRow>)
    requires forall i :: 0 <= i < |timed| ==> HasDs(timed[i])
    requires multiset(sorted) == multiset(timed)
    ensures forall i :: 0 <= i < |sorted| ==> sorted[i].ds.Some?
  {
    forall i | 0 <= i < |sorted| ensures sorted[i].ds.Some? {
      assert sorted[i] in multiset(timed);
      var j :| 0 <= j < |timed| && timed[j] == sorted[i];
    }
  }

  /** Sum of column c over the rows whose `ds` falls on the given day. */
  function DaySum(rows: seq<TimedRow>, day: int, c: Column): int {
    if |rows| == 0 then 0
    else (if rows[0].ds.Some? && DayOf(rows[0]) == day then Value(rows[0], c) else 0) + DaySum(rows[1..], day, c)
  }

  /** Sum of column c over the rows that have a `ds`. */
  function Total(rows: seq<TimedRow>, c: Column): int {
    if |rows| == 0 then 0
    else (if rows[0].ds.Some? then Value(rows[0], c) else 0) + Total(rows[1..], c)
  }

  function BucketTotal(bs: seq<DayBucket>, c: Column): int {
    if |bs| == 0 then 0 else BucketValue(bs[0], c) + BucketTotal(bs[1..], c)
  }

  /** One bucket per day from `first` on, `count` of them, each with that day's sums. */
  function Buckets(rows: seq<TimedRow>, first: int, count: nat): (r: seq<DayBucket>)
    decreases count
    ensures |r| == count
    ensures forall i :: 0 <= i < count ==> r[i].day == first + i
    ensures forall i, c :: 0 <= i < count ==> BucketValue(r[i], c) == DaySum(rows, r[i].day, c)
  {
    if count == 0 then []
    else
      var rest := Buckets(rows, first + 1, count - 1);
      var b := DayBucket(first, DaySum(rows, first, PrevisionVeille), DaySum(rows, first, Prevision),
                         DaySum(rows, first, Consommation), DaySum(rows, first, Y));
      assert forall c :: BucketValue(b, c) == DaySum(rows, first, c);
      [b] + rest
  }

  /**
   * `df.resample('D', on='ds').sum(numeric_only=True)`: NaT rows take no
   * part; the buckets run over every calendar day from the earliest to the
   * latest `ds`, days without rows included.
   */
  function Resample(df: seq<TimedRow>): seq<DayBucket> {
    var timed := Filter(df, HasDs);
    if |timed| == 0 then []
    else
      var first, last := MinKey(timed, DayOf), MaxKey(timed, DayOf);
      Buckets(df, first, last - first + 1)
  }

  /** A day on which no row falls sums to 0. */
  lemma {:induction false} EmptyDaySumsToZero(rows: seq<TimedRow>, day: int, c: Column)
    requires forall i :: 0 <= i < |rows| && rows[i].ds.Some? ==> DayOf(rows[i]) != day
    ensures DaySum(rows, day, c) == 0
  {
    if |rows| > 0 {
      EmptyDaySumsToZero(rows[1..], day, c);
    }
  }

  /**
   * The daily series: empty exactly when no row has a `ds`; otherwise one
   * bucket per consecutive day from the first to the last observed day,
   * every observed day among them, each bucket holding its day's sums
   * (0 for a day without rows).
   */
  lemma {:induction false} ResampleSpec(df: seq<TimedRow>)
    ensures |Resample(df)| == 0 <==> forall i :: 0 <= i < |df| ==> df[i].ds.None?
    ensures var r := Resample(df); forall i :: 0 <= i < |r| ==> r[i].day == r[0].day + i
    ensures var r := Resample(df); forall i, c :: 0 <= i < |r| ==> BucketValue(r[i], c) == DaySum(df, r[i].day, c)
    ensures var r := Resample(df);
            forall j :: 0 <= j < |df| && df[j].ds.Some? ==> |r| > 0 && r[0].day <= DayOf(df[j]) <= r[|r| - 1].day
    ensures var r := Resample(df);
            |r| > 0 ==> exists j :: 0 <= j < |df| && df[j].ds.Some? && DayOf(df[j]) == r[0].day
    ensures var r := Resample(df);
            |r| > 0 ==> exists j :: 0 <= j < |df| && df[j].ds.Some? && DayOf(df[j]) == r[|r| - 1].day
  {
    var timed := Filter(df, HasDs);
    TimedRowsKept(df);
    if |timed| > 0 {
      var first, last := MinKey(timed, DayOf), MaxKey(timed, DayOf);
      var r := Buckets(df, first, last - first + 1);
      assert Resample(df) == r;
      assert r[0].day == first && r[|r| - 1].day == last;
      ObservedDayRange(df);
    }
  }

  /** The earliest and latest days of the rows with a `ds` are observed days and bound all of them. */
  lemma {:induction false} ObservedDayRange(df: seq<TimedRow>)
    requires |Filter(df, HasDs)| > 0
    ensures var first := MinKey(Filter(df, HasDs), DayOf);
            exists j :: 0 <= j < |df| && df[j].ds.Some? && DayOf(df[j]) == first
    ensures var last := MaxKey(Filter(df, HasDs), DayOf);
            exists j :: 0 <= j < |df| && df[j].ds.Some? && DayOf(df[j]) == last
    ensures var timed := Filter(df, HasDs);
            forall j :: 0 <= j < |df| && df[j].ds.Some? ==> MinKey(timed, DayOf) <= DayOf(df[j]) <= MaxKey(timed, DayOf)
  {
    var timed := Filter(df, HasDs);
    var first, last := MinKey(timed, DayOf), MaxKey(timed, DayOf);
    var i1 :| 0 <= i1 < |timed| && DayOf(timed[i1]) == first;
    var i2 :| 0 <= i2 < |timed| && DayOf(timed[i2]) == last;
    FilteredRowFromSource(df, timed, i1);
    FilteredRowFromSource(df, timed, i2);
    TimedRowsKept(df);
    forall j | 0 <= j < |df| && df[j].ds.Some? ensures first <= DayOf(df[j]) <= last {
      var k :| 0 <= k < |timed| && timed[k] == df[j];
    }
  }

  /** Every row with a `ds` survives the NaT filter. */
  lemma {:induction false} TimedRowsKept(df: seq<TimedRow>)
    ensures forall j :: 0 <= j < |df| && df[j].ds.Some? ==> df[j] in Filter(df, HasDs)
  {
    var timed := Filter(df, HasDs);
    forall j | 0 <= j < |df| && df[j].ds.Some? ensures df[j] in timed {
      assert multiset(timed)[df[j]] == multiset(df)[df[j]];
      assert df[j] in multiset(df);
    }
  }

  lemma {:induction false} FilteredRowFromSource(df: seq<TimedRow>, timed: seq<TimedRow>, i: int)
    requires timed == Filter(df, HasDs) && 0 <= i < |timed|
    ensures exists j :: 0 <= j < |df| && df[j] == timed[i] && df[j].ds.Some?
  {
    assert timed[i] in multiset(timed);
    assert timed[i] in multiset(df);
    var j :| 0 <= j < |df| && df[j] == timed[i];
  }

  lemma {:induction false} BucketsTotal(rows: seq<TimedRow>, first: int, count: nat, c: Column)
    ensures BucketTotal(Buckets(rows, first, count), c) == DaysTotal(rows, first, count, c)
  {
    if count > 0 {
      var r := Buckets(rows, first, count);
      BucketsTotal(rows, first, count - 1, c);
      BucketTotalSnoc(r[..count - 1], r[count - 1], c);
      assert r[..count - 1] + [r[count - 1]] == r;
      PrefixBuckets(rows, first, count);
    }
  }

  lemma {:induction false} BucketTotalSnoc(bs: seq<DayBucket>, b: DayBucket, c: Column)
    ensures BucketTotal(bs + [b], c) == BucketTotal(bs, c) + BucketValue(b, c)
  {
    if |bs| > 0 {
      assert (bs + [b])[1..] == bs[1..] + [b];
      BucketTotalSnoc(bs[1..], b, c);
    }
  }

  lemma {:induction false} PrefixBuckets(rows: seq<TimedRow>, first: int, count: nat)
    requires count > 0
    ensures Buckets(rows, first, count)[..count - 1] == Buckets(rows, first, count - 1)
  {
    var a, b := Buckets(rows, first, count)[..count - 1], Buckets(rows, first, count - 1);
    forall i | 0 <= i < count - 1 ensures a[i] == b[i] {
      assert a[i].day == b[i].day;
      assert BucketValue(a[i], PrevisionVeille) == BucketValue(b[i], PrevisionVeille);
      assert BucketValue(a[i], Prevision) == BucketValue(b[i], Prevision);
      assert BucketValue(a[i], Consommation) == BucketValue(b[i], Consommation);
      assert BucketValue(a[i], Y) == BucketValue(b[i], Y);
    }
  }

  /** Sum over `count` consecutive days from `first` of the day sums of column c. */
  function DaysTotal(rows: seq<TimedRow>, first: int, count: nat, c: Column): int {
    if count == 0 then 0 else DaysTotal(rows, first, count - 1, c) + DaySum(rows, first + count - 1, c)
  }

  /** What the first row adds to the day sums of a window of days. */
  function InWindow(r: TimedRow, first: int, count: nat, c: Column): int {
    if r.ds.Some? && first <= DayOf(r) < first + count then Value(r, c) else 0
  }

  lemma {:induction false} DaysTotalFirstRow(rows: seq<TimedRow>, first: int, count: nat, c: Column)
    requires |rows| > 0
    ensures DaysTotal(rows, first, count, c) == InWindow(rows[0], first, count, c) + DaysTotal(rows[1..], first, count, c)
  {
    if count > 0 {
      DaysTotalFirstRow(rows, first, count - 1, c);
    }
  }

  lemma {:induction false} DaysTotalIsTotal(rows: seq<TimedRow>, first: int, count: nat, c: Column)
    requires forall i :: 0 <= i < |rows| && rows[i].ds.Some? ==> first <= DayOf(rows[i]) < first + count
    ensures DaysTotal(rows, first, count, c) == Total(rows, c)
  {
    if |rows| == 0 {
      DaysTotalEmpty(rows, first, count, c);
    } else {
      DaysTotalFirstRow(rows, first, count, c);
      DaysTotalIsTotal(rows[1..], first, count, c);
    }
  }

  lemma {:induction false} DaysTotalEmpty(rows: seq<TimedRow>, first: int, count: nat, c: Column)
    requires |rows| == 0
    ensures DaysTotal(rows, first, count, c) == 0
  {
    if count > 0 {
      DaysTotalEmpty(rows, first, count - 1, c);
    }
  }

  /** Daily bucketing neither loses nor invents consumption: each column's total is preserved. */
  lemma {:induction false} ResamplePreservesTotals(df: seq<TimedRow>, c: Column)
    ensures BucketTotal(Resample(df), c) == Total(df, c)
  {
    var r := Resample(df);
    ResampleSpec(df);
    if |r| == 0 {
      NoDsTotal(df, c);
    } else {
      var timed := Filter(df, HasDs);
      var first, last := MinKey(timed, DayOf), MaxKey(timed, DayOf);
      BucketsTotal(df, first, last - first + 1, c);
      DaysTotalIsTotal(df, first, last - first + 1, c);
    }
  }

  lemma {:induction false} NoDsTotal(rows: seq<TimedRow>, c: Column)
    requires forall i :: 0 <= i < |rows| ==> rows[i].ds.None?
    ensures Total(rows, c) == 0
  {
    if |rows| > 0 {
      NoDsTotal(rows[1..], c);
    }
  }

  /** The table has lines, and none of them gets a `ds`. */
  predicate NoTimestampAnywhere(rs: seq<Record>) {
    |rs| > 0 && forall i :: 0 <= i < |rs| ==> ToTimed(rs[i]).ds.None?
  }

  /** No row of the table has a `ds`. */
  predicate AllMissingDs(rows: seq<TimedRow>) {
    forall i :: 0 <= i < |rows| ==> rows[i].ds.None?
  }

  /** A row with a `ds` is still there after the rows are rearranged. */
  lemma SomeDsKept(a: seq<TimedRow>, b: seq<TimedRow>)
    requires multiset(a) == multiset(b) && !AllMissingDs(a)
    ensures !AllMissingDs(b)
  {
    var i :| 0 <= i < |a| && a[i].ds.Some?;
    assert a[i] in multiset(b);
    var j :| 0 <= j < |b| && b[j] == a[i];
  }

  /** Rearranging the rows does not change whether any of them has a `ds`. */
  lemma MissingDsKept(a: seq<TimedRow>, b: seq<TimedRow>)
    requires multiset(a) == multiset(b)
    ensures AllMissingDs(a) <==> AllMissingDs(b)
  {
    if !AllMissingDs(a) {
      SomeDsKept(a, b);
    }
    if !AllMissingDs(b) {
      SomeDsKept(b, a);
    }
  }

  /** The sort by `ds` keeps the rows. */
  lemma SortByDsKeepsRows(rows: seq<TimedRow>)
    ensures multiset(SortByDs(rows)) == multiset(rows)
  {
    SortByDsSpec(rows);
  }

  /** The daily series is empty exactly when no row has a `ds`. */
  lemma ResampleEmpty(df: seq<TimedRow>)
    ensures |Resample(df)| == 0 <==> AllMissingDs(df)
  {
    ResampleSpec(df);
  }

  /** A table has no `ds` anywhere when it has lines and all of its converted rows lack one. */
  lemma NoTimestampsAllMissing(rs: seq<Record>)
    ensures NoTimestampAnywhere(rs) <==> |rs| > 0 && AllMissingDs(ToTimedAll(rs))
  {
    var rows := ToTimedAll(rs);
    if NoTimestampAnywhere(rs) {
      forall i | 0 <= i < |rows| ensures rows[i].ds.None? {
        assert rows[i] == ToTimed(rs[i]);
      }
    }
    if |rs| > 0 && AllMissingDs(rows) {
      forall i | 0 <= i < |rs| ensures ToTimed(rs[i]).ds.None? {
        assert rows[i] == ToTimed(rs[i]);
      }
    }
  }

  /**
   * The start-up error condition is exactly the case of a table with lines
   * whose daily series comes out empty.
   */
  lemma {:induction false} NoTimestampsIffEmptyDaily(rs: seq<Record>)
    ensures NoTimestampAnywhere(rs) <==> |rs| > 0 && |Resample(SortByDs(ToTimedAll(rs)))| == 0
  {
    var rows := ToTimedAll(rs);
    var sorted := SortByDs(rows);
    SortByDsKeepsRows(rows);
    MissingDsKept(rows, sorted);
    ResampleEmpty(sorted);
    NoTimestampsAllMissing(rs);
  }

  /**
   * The module-level state of the service: the loaded rows `df` and the
   * daily series `df_model` every request reads.
   */
  class ForecastService {
    var df: seq<TimedRow>
    var dfModel: seq<DayBucket>

    constructor ()
      ensures df == [] && dfModel == []
    {
      df := [];
      dfModel := [];
    }

    /**
     * The start-up load of backend_app.py on an already read table: a
     * missing required column stops it with the columns found, and so does
     * a non-empty table none of whose lines gets a `ds`; otherwise every
     * line is kept, converted, sorted on `ds`, and resampled.
     */
    method Load(t: Table) returns (failure: Option<LoadError>)
      modifies this
      ensures !(RequiredColumns <= t.columns) ==>
                failure == Some(MissingColumns(t.columns)) && df == old(df) && dfModel == old(dfModel)
      ensures RequiredColumns <= t.columns && NoTimestampAnywhere(t.records) ==>
                failure == Some(NoTimestamps) && df == old(df) && dfModel == old(dfModel)
      ensures RequiredColumns <= t.columns && !NoTimestampAnywhere(t.records) ==>
                failure.None? && |df| == |t.records|
                && df == SortByDs(ToTimedAll(t.records)) && dfModel == Resample(df)
    {
      if !(RequiredColumns <= t.columns) {
        return Some(MissingColumns(t.columns));
      }
      if NoTimestampAnywhere(t.records) {
        return Some(NoTimestamps);
      }
      var timed := ToTimedAll(t.records);
      df := SortByDs(timed);
      SortByDsSpec(timed);
      dfModel := Resample(df);
      failure := None;
    }
  }

  // ---------------------------------------------------------------------
  // The /forecast handler
  // ---------------------------------------------------------------------

  datatype RequestError = MissingDates | InvalidDate

  /**
   * What the handler answers: the `[{DateTime, Forecast}, ...]` records
   * (days as day numbers), a 400 error, or a failure of Prophet's `fit`
   * inside the handler (too few rows), which Flask turns into a 500.
   */
  datatype Response =
    | Forecasts(records: seq<(int, real)>)
    | BadRequest(reason: RequestError)
    | FitFailed(trainingRows: nat)

  function DayKey(b: DayBucket): int {
    b.day
  }

  /** The (ds, y) pairs the model is fitted on. */
  function Points(bs: seq<DayBucket>): seq<(int, int)> {
    seq(|bs|, i requires 0 <= i < |bs| => (bs[i].day, bs[i].y))
  }

  /** `(end - forecast_start).days + 1` with `forecast_start = last + timedelta(days=1)`. */
  function Periods(last: int, end: int): int {
    end - (last + 1) + 1
  }

  /** `make_future_dataframe(periods, freq='D', include_history=False)`: the days after `last`. */
  function FutureDays(last: int, periods: nat): seq<int> {
    seq(periods, i requires 0 <= i < periods => last + 1 + i)
  }

  /** `future[(future['ds'] >= start) & (future['ds'] <= end)]`. */
  function Window(days: seq<int>, start: int, end: int): seq<int> {
    Filter(days, d => start <= d <= end)
  }

  /** `model.predict(future)` renamed to (DateTime, Forecast). */
  function Predictions(days: seq<int>, points: seq<(int, int)>, predict: Predictor): seq<(int, real)> {
    seq(|days|, i requires 0 <= i < |days| => (days[i], predict(points, days[i])))
  }

  /**
   * The forecast for the days after `last` up to `end`: `periods` future
   * days from `make_future_dataframe`, the date filter, and `predict`; no
   * days when `periods <= 0`.
   */
  function ForecastDays(last: int, end: int, points: seq<(int, int)>, predict: Predictor): seq<(int, real)> {
    var periods := Periods(last, end);
    if periods <= 0 then []
    else Predictions(Window(FutureDays(last, periods), last + 1, end), points, predict)
  }

  /** Backtest: fit on the first 80% of the days and forecast the days up to the last test day. */
  function TestMode(dfModel: seq<DayBucket>, predict: Predictor): Response {
    var sorted := SortBy(dfModel, DayKey);
    var k := SplitIndex(|sorted|);
    var train, test := sorted[..k], sorted[k..];
    if |train| < 2 then FitFailed(|train|)
    else Forecasts(ForecastDays(MaxKey(train, DayKey), MaxKey(test, DayKey), Points(train), predict))
  }

  /**
   * Forward forecast: both dates required and parseable; the horizon runs
   * from the day after the last known day to the end date, and `start_date`
   * plays no further part. On an empty series the horizon is NaN, so the
   * `periods <= 0` test is false and fitting on no rows fails.
   */
  function ForwardMode(dfModel: seq<DayBucket>, start: Option<string>, end: Option<string>,
                       predict: Predictor): Response
  {
    if start.None? || start.value == "" || end.None? || end.value == "" then BadRequest(MissingDates)
    else
      match (ParseIsoDate(start.value), ParseIsoDate(end.value))
      case (Some(_), Some(endDate)) =>
        if |dfModel| == 0 then FitFailed(0)
        else
          var lastDate := MaxKey(dfModel, DayKey);
          var endDay := DayNumber(endDate);
          if Periods(lastDate, endDay) <= 0 then Forecasts([])
          else if |dfModel| < 2 then FitFailed(|dfModel|)
          else Forecasts(ForecastDays(lastDate, endDay, Points(dfModel), predict))
      case _ => BadRequest(InvalidDate)
  }

  /** Python's `str.lower()` on the ASCII letters. */
  function LowerAscii(s: string): string {
    seq(|s|, i requires 0 <= i < |s| => if 'A' <= s[i] <= 'Z' then (s[i] as int + 32) as char else s[i])
  }

  function Arg(args: map<string, string>, name: string): Option<string> {
    if name in args then Some(args[name]) else None
  }

  /** `request.args.get("test_mode", "false").lower() == "true"`. */
  predicate IsTestMode(args: map<string, string>) {
    LowerAscii(if "test_mode" in args then args["test_mode"] else "false") == "true"
  }

  /** `GET /forecast` with the query arguments `args`. */
  function Handle(dfModel: seq<DayBucket>, args: map<string, string>, predict: Predictor): Response {
    if IsTestMode(args) then TestMode(dfModel, predict)
    else ForwardMode(dfModel, Arg(args, "start_date"), Arg(args, "end_date"), predict)
  }

  /** `make_future_dataframe` already stops at the end day, so the date filter removes nothing. */
  lemma {:induction false} WindowKeepsFuture(last: int, periods: nat, end: int)
    requires end == last + periods
    ensures Window(FutureDays(last, periods), last + 1, end) == FutureDays(last, periods)
  {
    FilterKeepsAll(FutureDays(last, periods), d => last + 1 <= d <= end);
  }

  /**
   * The forecast covers exactly the days after `last` up to `end`, one
   * after the other, each with its prediction.
   */
  lemma {:induction false} ForecastDaysSpec(last: int, end: int, points: seq<(int, int)>, predict: Predictor)
    ensures var r := ForecastDays(last, end, points, predict);
            |r| == (if end > last then end - last else 0)
            && forall i :: 0 <= i < |r| ==> r[i] == (last + 1 + i, predict(points, last + 1 + i))
  {
    if end > last {
      FutureIsForecast(last, end, points, predict);
      FuturePredictions(last, end, points, predict);
    }
  }

  lemma {:induction false} FutureIsForecast(last: int, end: int, points: seq<(int, int)>, predict: Predictor)
    requires end > last
    ensures ForecastDays(last, end, points, predict) == Predictions(FutureDays(last, end - last), points, predict)
  {
    WindowKeepsFuture(last, end - last, end);
  }

  lemma {:induction false} FuturePredictions(last: int, end: int, points: seq<(int, int)>, predict: Predictor)
    requires end > last
    ensures var r := Predictions(FutureDays(last, end - last), points, predict);
            |r| == end - last && forall i :: 0 <= i < |r| ==> r[i] == (last + 1 + i, predict(points, last + 1 + i))
  {
  }

  /** The days of a series, one after the other. */
  predicate Consecutive(bs: seq<DayBucket>) {
    |bs| <= 1 || (bs[1].day == bs[0].day + 1 && Consecutive(bs[1..]))
  }

  /** A series is gapless exactly when its i-th day is i days after its first. */
  lemma {:induction false} ConsecutiveIndex(bs: seq<DayBucket>)
    ensures Consecutive(bs) <==> forall i :: 0 <= i < |bs| ==> bs[i].day == bs[0].day + i
  {
    if |bs| > 1 {
      ConsecutiveIndex(bs[1..]);
      if forall i :: 0 <= i < |bs| ==> bs[i].day == bs[0].day + i {
        assert forall i :: 0 <= i < |bs[1..]| ==> bs[1..][i] == bs[i + 1];
      }
    }
  }

  /** The backtest fails to fit exactly when the series has fewer than three days. */
  lemma {:induction false} TestModeFitFails(dfModel: seq<DayBucket>, predict: Predictor)
    ensures TestMode(dfModel, predict).FitFailed? <==> |dfModel| < 3
    ensures |dfModel| < 3 ==> TestMode(dfModel, predict) == FitFailed(SplitIndex(|dfModel|))
  {
    var sorted := SortBy(dfModel, DayKey);
    assert |sorted| == |dfModel| by {
      assert |multiset(sorted)| == |multiset(dfModel)|;
    }
    SplitSizes(sorted);
  }

  /** The largest day of a consecutive run is its last one. */
  lemma {:induction false} ConsecutiveMax(bs: seq<DayBucket>)
    requires |bs| > 0 && forall i :: 0 <= i < |bs| ==> bs[i].day == bs[0].day + i
    ensures MaxKey(bs, DayKey) == bs[0].day + |bs| - 1
  {
    assert DayKey(bs[|bs| - 1]) == bs[0].day + |bs| - 1;
  }

  /** The days of a series, in its order. */
  function Days(bs: seq<DayBucket>): (days: seq<int>)
    ensures |days| == |bs| && forall i :: 0 <= i < |bs| ==> days[i] == bs[i].day
  {
    seq(|bs|, i requires 0 <= i < |bs| => bs[i].day)
  }

  /**
   * On a daily series without gaps (what the resample gives) and of at
   * least three days, the backtest predicts exactly the test days, in
   * order, each with a model fitted on the training days only.
   */
  lemma {:induction false} TestModeForecastsTestDays(dfModel: seq<DayBucket>, predict: Predictor)
    requires Consecutive(dfModel) && |dfModel| >= 3
    ensures var k := SplitIndex(|dfModel|);
            TestMode(dfModel, predict) == Forecasts(Predictions(Days(dfModel[k..]), Points(dfModel[..k]), predict))
  {
    var k := SplitIndex(|dfModel|);
    var lastTrain := dfModel[0].day + k - 1;
    var r := TestModeOnGapless(dfModel, predict, k, lastTrain);
    ShiftToSeriesDays(r, dfModel, k, lastTrain, Points(dfModel[..k]), predict);
  }

  /**
   * A gapless series is already in day order, its training days end
   * k - 1 days after its first day and its test days on its last day.
   */
  lemma {:induction false} GaplessSplit(dfModel: seq<DayBucket>)
    requires Consecutive(dfModel) && |dfModel| >= 3
    ensures var n, k := |dfModel|, SplitIndex(|dfModel|);
            SortBy(dfModel, DayKey) == dfModel
            && MaxKey(dfModel[..k], DayKey) == dfModel[0].day + k - 1
            && MaxKey(dfModel[k..], DayKey) == dfModel[0].day + n - 1
  {
    var k := SplitIndex(|dfModel|);
    GaplessSorted(dfModel);
    GaplessPrefixMax(dfModel, k);
    GaplessSuffixMax(dfModel, k);
  }

  lemma {:induction false} GaplessSorted(dfModel: seq<DayBucket>)
    requires Consecutive(dfModel)
    ensures SortBy(dfModel, DayKey) == dfModel
  {
    ConsecutiveIndex(dfModel);
    assert SortedBy(dfModel, DayKey);
    SortByKeepsSorted(dfModel, DayKey);
  }

  lemma {:induction false} GaplessPrefixMax(dfModel: seq<DayBucket>, k: int)
    requires Consecutive(dfModel) && 0 < k <= |dfModel|
    ensures MaxKey(dfModel[..k], DayKey) == dfModel[0].day + k - 1
  {
    ConsecutiveIndex(dfModel);
    var s := dfModel[..k];
    assert forall i :: 0 <= i < |s| ==> s[i].day == s[0].day + i;
    ConsecutiveMax(s);
  }

  lemma {:induction false} GaplessSuffixMax(dfModel: seq<DayBucket>, k: int)
    requires Consecutive(dfModel) && 0 <= k < |dfModel|
    ensures MaxKey(dfModel[k..], DayKey) == dfModel[0].day + |dfModel| - 1
  {
    ConsecutiveIndex(dfModel);
    var s := dfModel[k..];
    assert forall i :: 0 <= i < |s| ==> s[i].day == s[0].day + i;
    ConsecutiveMax(s);
  }

  /**
   * On a gapless series of three days or more the backtest forecasts the
   * days after the last training day up to the last day of the series.
   */
  lemma {:induction false} TestModeOnGapless(dfModel: seq<DayBucket>, predict: Predictor, k: nat, lastTrain: int)
      returns (r: seq<(int, real)>)
    requires Consecutive(dfModel) && |dfModel| >= 3
    requires k == SplitIndex(|dfModel|) && lastTrain == dfModel[0].day + k - 1
    ensures TestMode(dfModel, predict) == Forecasts(r) && |r| == |dfModel| - k
    ensures forall i :: 0 <= i < |r| ==> r[i] == (lastTrain + 1 + i, predict(Points(dfModel[..k]), lastTrain + 1 + i))
  {
    var testEnd := dfModel[0].day + |dfModel| - 1;
    GaplessSplit(dfModel);
    TestModeWhenFits(dfModel, predict);
    var sorted := SortBy(dfModel, DayKey);
    r := ForecastDays(lastTrain, testEnd, Points(dfModel[..k]), predict);
    assert sorted == dfModel;
    assert MaxKey(sorted[..k], DayKey) == lastTrain;
    assert MaxKey(sorted[k..], DayKey) == testEnd;
    assert Points(sorted[..k]) == Points(dfModel[..k]);
    assert ForecastDays(MaxKey(sorted[..k], DayKey), MaxKey(sorted[k..], DayKey), Points(sorted[..k]), predict) == r;
    assert TestMode(dfModel, predict) == Forecasts(r);
    ForecastDaysSpec(lastTrain, testEnd, Points(dfModel[..k]), predict);
    assert forall i :: 0 <= i < |TestMode(dfModel, predict).records| ==>
              TestMode(dfModel, predict).records[i] == (lastTrain + 1 + i, predict(Points(dfModel[..k]), lastTrain + 1 + i));
  }

  /** Forecasts made for the days after the last training day are forecasts for the test days. */
  lemma {:induction false} ShiftToSeriesDays(records: seq<(int, real)>, dfModel: seq<DayBucket>, k: int, lastTrain: int,
                                             points: seq<(int, int)>, predict: Predictor)
    requires Consecutive(dfModel) && 0 < k <= |dfModel| && |records| == |dfModel| - k
    requires lastTrain == dfModel[0].day + k - 1
    requires forall i :: 0 <= i < |records| ==> records[i] == (lastTrain + 1 + i, predict(points, lastTrain + 1 + i))
    ensures records == Predictions(Days(dfModel[k..]), points, predict)
  {
    ConsecutiveIndex(dfModel);
    var days := Days(dfModel[k..]);
    forall i | 0 <= i < |records| ensures records[i] == (days[i], predict(points, days[i])) {
      assert dfModel[k + i].day == lastTrain + 1 + i;
    }
  }

  /** From three days on, the backtest fits on the first days of the sorted series and forecasts up to its last day. */
  lemma {:induction false} TestModeWhenFits(dfModel: seq<DayBucket>, predict: Predictor)
    requires |dfModel| >= 3
    ensures var sorted, k := SortBy(dfModel, DayKey), SplitIndex(|dfModel|);
            k >= 2 && TestMode(dfModel, predict)
              == Forecasts(ForecastDays(MaxKey(sorted[..k], DayKey), MaxKey(sorted[k..], DayKey), Points(sorted[..k]), predict))
  {
    SplitSizes(dfModel);
  }

  /** In a series sorted by day, the training part ends no later than the test part. */
  lemma {:induction false} TrainEndsBeforeTestEnd(sorted: seq<DayBucket>, k: nat)
    requires SortedBy(sorted, DayKey) && 0 < k < |sorted|
    ensures MaxKey(sorted[..k], DayKey) <= MaxKey(sorted[k..], DayKey)
  {
    var j :| 0 <= j < k && DayKey(sorted[..k][j]) == MaxKey(sorted[..k], DayKey);
    assert sorted[..k][j] == sorted[j];
    assert sorted[k..][|sorted| - 1 - k] == sorted[|sorted| - 1];
    assert DayKey(sorted[j]) <= DayKey(sorted[|sorted| - 1]);
  }

  /**
   * From three days on, the backtest forecasts each day from the day after
   * the last training day up to the last test day, in order, with a model
   * fitted on the training days.
   */
  lemma {:induction false} TestModeDays(dfModel: seq<DayBucket>, predict: Predictor)
      returns (last: int, end: int, points: seq<(int, int)>)
    requires |dfModel| >= 3
    ensures var sorted, k := SortBy(dfModel, DayKey), SplitIndex(|dfModel|);
            last == MaxKey(sorted[..k], DayKey) && end == MaxKey(sorted[k..], DayKey) && points == Points(sorted[..k])
    ensures last <= end
    ensures TestMode(dfModel, predict).Forecasts?
    ensures |TestMode(dfModel, predict).records| == end - last
    ensures forall i :: 0 <= i < end - last ==>
              TestMode(dfModel, predict).records[i] == (last + 1 + i, predict(points, last + 1 + i))
  {
    var sorted, k := SortBy(dfModel, DayKey), SplitIndex(|dfModel|);
    last, end, points := MaxKey(sorted[..k], DayKey), MaxKey(sorted[k..], DayKey), Points(sorted[..k]);
    TestModeWhenFits(dfModel, predict);
    var r := ForecastDays(last, end, points, predict);
    assert TestMode(dfModel, predict) == Forecasts(r);
    SplitSizes(sorted);
    TrainEndsBeforeTestEnd(sorted, k);
    ForecastDaysSpec(last, end, points, predict);
  }

  /**
   * The forward forecast's error answers, each exactly when its condition
   * holds: a missing or empty date parameter, then a date that does not
   * parse, then a fit on fewer than two days (reached when there is
   * something to forecast, or when the series is empty).
   */
  lemma {:induction false} ForwardModeErrors(dfModel: seq<DayBucket>, start: Option<string>, end: Option<string>, predict: Predictor)
    ensures var out := ForwardMode(dfModel, start, end, predict);
            (out == BadRequest(MissingDates) <==> start.None? || start.value == "" || end.None? || end.value == "")
            && (out == BadRequest(InvalidDate) <==>
                  start.Some? && start.value != "" && end.Some? && end.value != ""
                  && (ParseIsoDate(start.value).None? || ParseIsoDate(end.value).None?))
            && (out.FitFailed? <==>
                  start.Some? && start.value != "" && end.Some? && end.value != ""
                  && ParseIsoDate(start.value).Some? && ParseIsoDate(end.value).Some?
                  && (|dfModel| == 0
                      || (|dfModel| == 1 && DayNumber(ParseIsoDate(end.value).value) > MaxKey(dfModel, DayKey))))
  {
  }

  /**
   * With both dates valid, an end date after the last known day and a
   * series of two days or more, the forward forecast predicts exactly the
   * days after the last known day up to the end date, one after the other,
   * with a model fitted on the whole series.
   */
  lemma {:induction false} ForwardModeForecasts(dfModel: seq<DayBucket>, start: string, end: string, predict: Predictor)
    requires start != "" && end != "" && ParseIsoDate(start).Some? && ParseIsoDate(end).Some?
    requires |dfModel| >= 2 && DayNumber(ParseIsoDate(end).value) > MaxKey(dfModel, DayKey)
    ensures var last, endDay := MaxKey(dfModel, DayKey), DayNumber(ParseIsoDate(end).value);
            ForwardMode(dfModel, Some(start), Some(end), predict)
              == Forecasts(Predictions(FutureDays(last, endDay - last), Points(dfModel), predict))
  {
    var last, endDay := MaxKey(dfModel, DayKey), DayNumber(ParseIsoDate(end).value);
    var r := ForwardModeWhenFits(dfModel, start, end, predict, last, endDay);
    FutureIsForecast(last, endDay, Points(dfModel), predict);
  }

  /**
   * With both dates valid and an end date no later than the last known day
   * of a non-empty series, the answer is an empty list, whatever the size
   * of the series: nothing is fitted.
   */
  lemma {:induction false} ForwardModeNothingToForecast(dfModel: seq<DayBucket>, start: string, end: string,
                                                        predict: Predictor)
    requires start != "" && end != "" && ParseIsoDate(start).Some? && ParseIsoDate(end).Some?
    requires |dfModel| >= 1 && DayNumber(ParseIsoDate(end).value) <= MaxKey(dfModel, DayKey)
    ensures ForwardMode(dfModel, Some(start), Some(end), predict) == Forecasts([])
  {
  }

  /** No temporal leakage: every day after the last known day lies after every known day. */
  lemma {:induction false} FutureAfterSeries(dfModel: seq<DayBucket>, horizon: nat)
    requires |dfModel| > 0
    ensures forall i, j :: 0 <= i < horizon && 0 <= j < |dfModel| ==>
              dfModel[j].day < FutureDays(MaxKey(dfModel, DayKey), horizon)[i]
  {
    forall i, j | 0 <= i < horizon && 0 <= j < |dfModel|
      ensures dfModel[j].day < FutureDays(MaxKey(dfModel, DayKey), horizon)[i]
    {
      assert DayKey(dfModel[j]) <= MaxKey(dfModel, DayKey);
    }
  }

  /** With valid dates and two days or more, the forward answer is the forecast after the last known day. */
  lemma {:induction false} ForwardModeWhenFits(dfModel: seq<DayBucket>, start: string, end: string, predict: Predictor,
                                               last: int, endDay: int)
      returns (r: seq<(int, real)>)
    requires start != "" && end != "" && ParseIsoDate(start).Some? && ParseIsoDate(end).Some?
    requires |dfModel| >= 2 && last == MaxKey(dfModel, DayKey) && endDay == DayNumber(ParseIsoDate(end).value)
    ensures r == ForecastDays(last, endDay, Points(dfModel), predict)
    ensures ForwardMode(dfModel, Some(start), Some(end), predict) == Forecasts(r)
  {
    r := ForecastDays(last, endDay, Points(dfModel), predict);
    if Periods(last, endDay) <= 0 {
      assert r == [];
    }
  }

  /** `start_date` is checked but never used: any two valid start dates give the same answer. */
  lemma {:induction false} ForwardIgnoresStartDate(dfModel: seq<DayBucket>, start1: string, start2: string, end: Option<string>,
                                predict: Predictor)
    requires start1 != "" && start2 != "" && ParseIsoDate(start1).Some? && ParseIsoDate(start2).Some?
    ensures ForwardMode(dfModel, Some(start1), end, predict) == ForwardMode(dfModel, Some(start2), end, predict)
  {
  }

  /**
   * A series ending on 2023-01-31: an end date of 2023-01-20 gives an empty
   * answer, 2023-02-03 the three days from 2023-02-01, and an end date on a
   * day February does not have is a 400.
   */
  lemma {:induction false} ForwardModeExample(dfModel: seq<DayBucket>, predict: Predictor)
    requires |dfModel| >= 2 && MaxKey(dfModel, DayKey) == DayNumber(Date(2023, 1, 31))
    ensures ForwardMode(dfModel, Some("2023-01-20"), Some("2023-01-20"), predict) == Forecasts([])
    ensures var out := ForwardMode(dfModel, Some("2023-01-20"), Some("2023-02-03"), predict);
            out.Forecasts? && |out.records| == 3 && out.records[0].0 == DayNumber(Date(2023, 2, 1))
    ensures ForwardMode(dfModel, Some("2023-01-20"), Some("2023-02-30"), predict) == BadRequest(InvalidDate)
  {
    ForwardEndBeforeSeries(dfModel, predict);
    ForwardThreeDays(dfModel, predict);
    IsoDateExample();
    IsoDateRejectsImpossibleDay();
  }

  lemma {:induction false} ForwardEndBeforeSeries(dfModel: seq<DayBucket>, predict: Predictor)
    requires |dfModel| >= 2 && MaxKey(dfModel, DayKey) == DayNumber(Date(2023, 1, 31))
    ensures ForwardMode(dfModel, Some("2023-01-20"), Some("2023-01-20"), predict) == Forecasts([])
  {
    IsoDateExample();
    var last, endDay := DayNumber(Date(2023, 1, 31)), DayNumber(Date(2023, 1, 20));
    DayNumberOrder(Date(2023, 1, 20), Date(2023, 1, 31));
    var r := ForwardModeWhenFits(dfModel, "2023-01-20", "2023-01-20", predict, last, endDay);
    ForecastDaysSpec(last, endDay, Points(dfModel), predict);
  }

  lemma {:induction false} ForwardThreeDays(dfModel: seq<DayBucket>, predict: Predictor)
    requires |dfModel| >= 2 && MaxKey(dfModel, DayKey) == DayNumber(Date(2023, 1, 31))
    ensures var out := ForwardMode(dfModel, Some("2023-01-20"), Some("2023-02-03"), predict);
            out.Forecasts? && |out.records| == 3 && out.records[0].0 == DayNumber(Date(2023, 2, 1))
  {
    IsoDateExample();
    IsoDateFebruaryExample();
    var last, endDay := DayNumber(Date(2023, 1, 31)), DayNumber(Date(2023, 2, 3));
    assert endDay == last + 3;
    assert DayNumber(Date(2023, 2, 1)) == last + 1;
    var r := ForwardModeWhenFits(dfModel, "2023-01-20", "2023-02-03", predict, last, endDay);
    ForecastDaysSpec(last, endDay, Points(dfModel), predict);
  }

  /** `test_mode` is compared case-insensitively with "true" and defaults to "false". */
  lemma {:induction false} TestModeFlag()
    ensures IsTestMode(map["test_mode" := "TRUE"]) && IsTestMode(map["test_mode" := "True"])
    ensures !IsTestMode(map[]) && !IsTestMode(map["test_mode" := "yes"]) && !IsTestMode(map["test_mode" := "1"])
  {
    assert LowerAscii("TRUE") == "true";
    assert LowerAscii("True") == "true";
    assert LowerAscii("false") == "false";
  }

  /** One of the sixteen spellings of "true" in upper and lower case letters. */
  predicate SpellsTrue(v: string) {
    |v| == 4 && v[0] in "tT" && v[1] in "rR" && v[2] in "uU" && v[3] in "eE"
  }

  /**
   * Test mode is on exactly when `test_mode` is given and spells "true" in
   * any mix of cases; without the argument it is off.
   */
  lemma {:induction false} TestModeIffTrue(args: map<string, string>)
    ensures IsTestMode(args) <==> "test_mode" in args && SpellsTrue(args["test_mode"])
  {
    if "test_mode" in args {
      var v := args["test_mode"];
      var low := LowerAscii(v);
      if low == "true" {
        assert low[0] == 't' && low[1] == 'r' && low[2] == 'u' && low[3] == 'e';
      }
      if SpellsTrue(v) {
        assert low == "true";
      }
    } else {
      assert LowerAscii("false") == "false";
    }
  }

  /**
   * Without `test_mode=true` and without dates the handler answers 400;
   * with `test_mode=true` the dates play no part.
   */
  lemma {:induction false} HandleDispatch(dfModel: seq<DayBucket>, args: map<string, string>, predict: Predictor)
    ensures !IsTestMode(args) && "start_date" !in args ==> Handle(dfModel, args, predict) == BadRequest(MissingDates)
    ensures IsTestMode(args) ==>
              Handle(dfModel, args, predict) == Handle(dfModel, args - {"start_date", "end_date"}, predict)
  {
    if IsTestMode(args) {
      var rest := args - {"start_date", "end_date"};
      assert "test_mode" in args <==> "test_mode" in rest;
      assert "test_mode" in args ==> args["test_mode"] == rest["test_mode"];
    }
  }

  /** The daily series the resample gives has no gaps. */
  lemma {:induction false} ResampleConsecutive(df: seq<TimedRow>)
    ensures Consecutive(Resample(df))
  {
    ResampleSpec(df);
    ConsecutiveIndex(Resample(df));
  }

  /**
   * What start-up and a backtest request give together: once a table is
   * loaded, a backtest over a daily series of three days or more forecasts
   * exactly its last days after the 80% split, each from the first days.
   */
  lemma {:induction false} LoadedBacktest(t: Table, predict: Predictor)
    ensures var m := Resample(SortByDs(ToTimedAll(t.records)));
            var k := SplitIndex(|m|);
            var out := TestMode(m, predict);
            (|m| < 3 <==> out.FitFailed?)
            && (|m| >= 3 ==> out == Forecasts(Predictions(Days(m[k..]), Points(m[..k]), predict)))
  {
    var m := Resample(SortByDs(ToTimedAll(t.records)));
    ResampleConsecutive(SortByDs(ToTimedAll(t.records)));
    TestModeFitFails(m, predict);
    if |m| >= 3 {
      TestModeForecastsTestDays(m, predict);
    }
  }
}
