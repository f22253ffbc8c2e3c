/**
 * `prepare_forecast` of AIC/forecast/forecast.py: read the consumption
 * table, optionally keep only its first rows, check the schema, merge `Jour`
 * and `Heures` into one `DateTime` (failing the whole call on any row that
 * does not convert), sort chronologically, split 80/20 into training and
 * validation rows, fit the model on the training rows, forecast every
 * validation timestamp and return the training rows followed by the
 * validation rows carrying their `Forecast`.
 */
module ForecastPipeline {
  import opened Wrappers
  import opened Calendar
  import opened Formats
  import opened Frames

  const RequiredColumns: set<string> := {"Jour", "Heures", "Consommation"}

  /**
   * One line of the `;`-separated file: the cells of `Jour`, `Heures` and
   * `Consommation` (read only once the schema check has passed) and every
   * other cell by column name.
   */
  datatype Record = Record(jour: string, heures: string, consommation: int, others: map<string, string>)

  /** The file as read: its column names and its lines in file order. */
  datatype Table = Table(columns: set<string>, records: seq<Record>)

  /**
   * A converted row: `Jour` now holds the parsed date, `dateTime` the merged
   * timestamp in seconds, and `forecast` the `Forecast` column (missing on
   * training rows).
   */
  datatype Row = Row(jour: Date, heures: string, consommation: int, others: map<string, string>,
                     dateTime: int, forecast: Option<real>)

  datatype Error =
    | MissingColumns(found: set<string>)
    | UnparseableDateTime
    | FitFailed(trainingRows: nat)

  datatype Outcome = Success(table: seq<Row>) | Failure(error: Error)

  function DateTimeOf(r: Row): int {
    r.dateTime
  }

  /**
   * The conversion of one line: `Jour` with `%d/%m/%Y`, then the date printed
   * back as `%Y-%m-%d`, a space and `Heures` parsed with `%Y-%m-%d %H:%M:%S`.
   * None is a NaT `DateTime`.
   */
  function ConvertRecord(r: Record): (row: Option<Row>)
    ensures row.Some? ==> ValidDate(row.value.jour) && row.value.forecast.None?
    ensures row.Some? ==> row.value.heures == r.heures && row.value.consommation == r.consommation
                          && row.value.others == r.others
  {
    match ParseDayMonthYear(r.jour)
    case None => None
    case Some(day) =>
      match ParseIsoDateTime(FormatIsoDate(day) + " " + r.heures, true)
      case None => None
      case Some((d, c)) => Some(Row(day, r.heures, r.consommation, r.others, Seconds(d, c), None))
  }

  /**
   * A line converts exactly when its `Jour` is a `dd/mm/YYYY` date and its
   * `Heures` an `HH:MM:SS` time, and then `DateTime` is that date at that
   * time while every other cell is carried over unchanged.
   */
  lemma ConvertRecordSpec(r: Record)
    ensures ConvertRecord(r).Some? <==>
            ParseDayMonthYear(r.jour).Some? && ParseClock(r.heures, true).Some?
    ensures ConvertRecord(r).Some? ==>
            var d, c := ParseDayMonthYear(r.jour).value, ParseClock(r.heures, true).value;
            ConvertRecord(r).value == Row(d, r.heures, r.consommation, r.others, Seconds(d, c), None)
  {
    match ParseDayMonthYear(r.jour)
    case None =>
    case Some(day) => MergedDateTime(day, r.heures, true);
  }

  /** "15/03/2023" with "14:30:00" is 2023-03-15 14:30:00; "25:99:00" is refused. */
  lemma ConvertRecordExample(consommation: int, others: map<string, string>)
    ensures ConvertRecord(Record("15/03/2023", "14:30:00", consommation, others))
            == Some(Row(Date(2023, 3, 15), "14:30:00", consommation, others,
                        Seconds(Date(2023, 3, 15), Clock(14, 30, 0)), None))
    ensures ConvertRecord(Record("15/03/2023", "25:99:00", consommation, others)).None?
  {
    DayMonthYearExample();
    ClockExample();
    ClockOutOfRangeExample();
    ConvertRecordSpec(Record("15/03/2023", "14:30:00", consommation, others));
    ConvertRecordSpec(Record("15/03/2023", "25:99:00", consommation, others));
  }

  /**
   * The `DateTime` column and its `isnull().any()` check: every line
   * converted, one row per line in the same order, or nothing at all.
   */
  function ConvertAll(rs: seq<Record>): (r: Option<seq<Row>>)
    ensures r.Some? <==> forall i :: 0 <= i < |rs| ==> ConvertRecord(rs[i]).Some?
    ensures r.Some? ==> |r.value| == |rs| && forall i :: 0 <= i < |rs| ==> ConvertRecord(rs[i]) == Some(r.value[i])
  {
    AllOrNothing(rs, ConvertRecord)
  }

  /** `df.head(sample_size)` when a sample size is given, in file order, before anything else. */
  function Sampled(rs: seq<Record>, sampleSize: Option<int>): (s: seq<Record>)
    ensures |s| <= |rs| && s == rs[..|s|]
  {
    if sampleSize.Some? then Head(rs, sampleSize.value) else rs
  }

  /** The (ds, y) pairs the model is fitted on. */
  function TrainingPoints(train: seq<Row>): seq<(int, int)> {
    seq(|train|, i requires 0 <= i < |train| => (train[i].dateTime, train[i].consommation))
  }

  /** `valid['Forecast'] = forecast['yhat'].values`: prediction i goes to validation row i. */
  function WithForecasts(valid: seq<Row>, points: seq<(int, int)>, predict: Predictor): (r: seq<Row>)
    ensures |r| == |valid|
    ensures forall i :: 0 <= i < |r| ==> r[i].(forecast := None) == valid[i].(forecast := None)
    ensures forall i :: 0 <= i < |r| ==> r[i].forecast == Some(predict(points, r[i].dateTime))
  {
    seq(|valid|, i requires 0 <= i < |valid| => valid[i].(forecast := Some(predict(points, valid[i].dateTime))))
  }

  /** The rows without their `Forecast` column. */
  function Stripped(table: seq<Row>): seq<Row> {
    seq(|table|, i requires 0 <= i < |table| => table[i].(forecast := None))
  }

  /**
   * `prepare_forecast(file_path, sample_size)`. Prophet's `fit` raises when
   * it is given fewer than two rows; that is the `FitFailed` outcome.
   */
  function PrepareForecast(t: Table, sampleSize: Option<int>, predict: Predictor): Outcome {
    var records := Sampled(t.records, sampleSize);
    if !(RequiredColumns <= t.columns) then Failure(MissingColumns(t.columns))
    else
      match ConvertAll(records)
      case None => Failure(UnparseableDateTime)
      case Some(rows) =>
        var sorted := SortBy(rows, DateTimeOf);
        var k := SplitIndex(|sorted|);
        var train, valid := sorted[..k], sorted[k..];
        if |train| < 2 then Failure(FitFailed(|train|))
        else Success(train + WithForecasts(valid, TrainingPoints(train), predict))
  }

  /**
   * `sample_size` N keeps exactly the first min(N, len) lines in file order
   * (a negative N drops the last -N lines, as `head` does).
   */
  lemma SampleKeepsFirstRecords(rs: seq<Record>, n: int)
    ensures n >= 0 ==> Sampled(rs, Some(n)) == rs[..if n < |rs| then n else |rs|]
    ensures n < 0 ==> Sampled(rs, Some(n)) == rs[..if |rs| + n > 0 then |rs| + n else 0]
    ensures Sampled(rs, None) == rs
  {
  }

  /**
   * The three ways the call fails, each exactly when its condition holds:
   * a missing required column (reporting the columns found), a line whose
   * date or time does not convert (no partial output), and too few
   * training rows for the model, which happens exactly below three lines.
   */
  lemma PrepareForecastFailures(t: Table, sampleSize: Option<int>, predict: Predictor)
    ensures var out := PrepareForecast(t, sampleSize, predict);
            var records := Sampled(t.records, sampleSize);
            (out == Failure(MissingColumns(t.columns)) <==> !(RequiredColumns <= t.columns))
            && (out == Failure(UnparseableDateTime) <==>
                RequiredColumns <= t.columns && exists i :: 0 <= i < |records| && ConvertRecord(records[i]).None?)
            && (out.Failure? && out.error.FitFailed? <==>
                RequiredColumns <= t.columns && (forall i :: 0 <= i < |records| ==> ConvertRecord(records[i]).Some?)
                && |records| < 3)
            && (out.Success? <==>
                RequiredColumns <= t.columns && (forall i :: 0 <= i < |records| ==> ConvertRecord(records[i]).Some?)
                && |records| >= 3)
  {
    var records := Sampled(t.records, sampleSize);
    if RequiredColumns <= t.columns && ConvertAll(records).Some? {
      var rows := ConvertAll(records).value;
      var sorted := SortBy(rows, DateTimeOf);
      assert |sorted| == |rows| by {
        assert |multiset(sorted)| == |multiset(rows)|;
      }
      SplitSizes(sorted);
    }
  }

  /**
   * A successful result: one row per sampled line, in chronological order,
   * a rearrangement of the converted lines once `Forecast` is set aside; the
   * first floor(0.8 n) rows are the training rows and carry no forecast,
   * each later row carries the prediction of a model fitted on exactly the
   * training (DateTime, Consommation) pairs at its own `DateTime`, and no
   * training timestamp comes after a validation timestamp.
   */
  lemma PrepareForecastSuccess(t: Table, sampleSize: Option<int>, predict: Predictor)
    requires PrepareForecast(t, sampleSize, predict).Success?
    ensures var table := PrepareForecast(t, sampleSize, predict).table;
            var records := Sampled(t.records, sampleSize);
            var k := SplitIndex(|records|);
            ConvertAll(records).Some?
            && |table| == |records| && k <= |table|
            && SortedBy(table, DateTimeOf)
            && multiset(Stripped(table)) == multiset(ConvertAll(records).value)
            && (forall i :: 0 <= i < k ==> table[i].forecast.None?)
            && (forall i :: k <= i < |table| ==>
                  table[i].forecast == Some(predict(TrainingPoints(table[..k]), table[i].dateTime)))
            && (forall a, b :: a in table[..k] && b in table[k..] ==> a.dateTime <= b.dateTime)
  {
    var records := Sampled(t.records, sampleSize);
    var rows := ConvertAll(records).value;
    var sorted := SortBy(rows, DateTimeOf);
    var k := SplitIndex(|sorted|);
    assert PrepareForecast(t, sampleSize, predict).table
        == sorted[..k] + WithForecasts(sorted[k..], TrainingPoints(sorted[..k]), predict);
    ConvertedRowsHaveNoForecast(records, rows);
    SameRows(sorted, rows);
    AssembleSpec(sorted, k, predict);
  }

  /** Freshly converted rows carry no `Forecast` yet. */
  lemma {:induction false} ConvertedRowsHaveNoForecast(records: seq<Record>, rows: seq<Row>)
    requires ConvertAll(records) == Some(rows)
    ensures forall x :: x in rows ==> x.forecast.None?
  {
    forall x | x in rows ensures x.forecast.None? {
      var j :| 0 <= j < |rows| && rows[j] == x;
      assert ConvertRecord(records[j]) == Some(rows[j]);
    }
  }

  /** Rows with the same multiset of rows as rows without a forecast have no forecast either. */
  lemma {:induction false} SameRows(sorted: seq<Row>, rows: seq<Row>)
    requires multiset(sorted) == multiset(rows)
    requires forall x :: x in rows ==> x.forecast.None?
    ensures forall x :: x in sorted ==> x.forecast.None?
  {
    forall x | x in sorted ensures x.forecast.None? {
      assert x in multiset(rows);
    }
  }

  /** The concatenation `pd.concat([train, valid])` of sorted, not yet forecast rows. */
  lemma AssembleSpec(sorted: seq<Row>, k: nat, predict: Predictor)
    requires SortedBy(sorted, DateTimeOf) && k <= |sorted|
    requires forall x :: x in sorted ==> x.forecast.None?
    ensures var table := sorted[..k] + WithForecasts(sorted[k..], TrainingPoints(sorted[..k]), predict);
            |table| == |sorted|
            && Stripped(table) == sorted
            && SortedBy(table, DateTimeOf)
            && table[..k] == sorted[..k]
            && (forall i :: 0 <= i < k ==> table[i].forecast.None?)
            && (forall i :: k <= i < |table| ==>
                  table[i].forecast == Some(predict(TrainingPoints(table[..k]), table[i].dateTime)))
            && (forall a, b :: a in table[..k] && b in table[k..] ==> a.dateTime <= b.dateTime)
  {
    var table := sorted[..k] + WithForecasts(sorted[k..], TrainingPoints(sorted[..k]), predict);
    assert table[..k] == sorted[..k];
    forall i | 0 <= i < |table| ensures table[i].dateTime == sorted[i].dateTime && table[i].(forecast := None) == sorted[i] {
      assert sorted[i] in sorted;
    }
    assert SortedBy(table, DateTimeOf);
    TrainPrecedesValidation(table, DateTimeOf, k);
  }
}
