# Electricity consumption forecasting, modelled in Dafny

This project models the forecasting core of the repository, which has two parts.

- `prepare_forecast` (AIC/forecast/forecast.py) works on a table of consumption readings with the columns `Jour`, `Heures` and `Consommation`. It optionally keeps only the first rows and checks the schema. It merges the day and the time into one `DateTime` timestamp, and any row that does not convert fails the whole call. It then sorts the rows chronologically and splits them 80/20 into training and validation rows. Finally it fits a Prophet model on the training rows, forecasts every validation timestamp, and returns the training rows followed by the validation rows with their `Forecast`.
- The Flask backend (project_forecasting/backend/backend_app.py) loads the same kind of table once at start-up. Rows whose timestamps do not convert are coerced to NaT and kept. It sorts on `ds`, then resamples to a daily series (`df_model`). The `/forecast` handler works in one of two modes:
  - the backtest mode (`test_mode=true`) fits on the first 80% of the days and predicts the days from the day after the training period up to the last test day;
  - the forward mode fits on the whole series and predicts from the day after the last known day up to `end_date`.

The model is organised as follows.

- `Calendar` (calendar.dfy): Gregorian dates, day numbers counted from 0001-01-01, and timestamps in seconds.
- `Formats` (formats.dfy): the `strptime`-like parsers the code relies on (`%d/%m/%Y`, `%Y-%m-%d`, `%Y-%m-%d %H:%M[:%S]`) and `strftime('%Y-%m-%d')`.
- `Frames` (frames.dfy): the pandas operations used: `head`, row filters, `max`/`min`, `sort_values` and the `int(n * 0.8)` split.
- `ForecastPipeline` (forecast.dfy): `prepare_forecast`.
- `BackendApp` (backend.dfy): the start-up load, as a class whose `Load` method sets `df` and `df_model`, and the `/forecast` handler as a function of `df_model` and the query arguments.

Prophet appears only as a parameter: a `Predictor` maps the fitted (timestamp, value) pairs and a timestamp to a forecast value. Its `fit` raises on fewer than two rows, and the model has that failure as the `FitFailed` outcome.

Two behaviours of the backend are easy to miss; the model follows the code in both:
- the backend's daily resample zero-fills a day without readings rather than leaving it out;
- the backend keeps rows whose timestamp is NaT rather than rejecting them. They sort last and take no part in the resample. Only a table in which no line gets a timestamp stops the start-up, because the resample then has no first or last day to build its bins from.

## Model

| member | source | states |
|---|---|---|
| Calendar.NextDayNumber | project_forecasting/backend/backend_app.py:51 | `timedelta(days=1)`: the next calendar day is a valid date, comes after the given day and has the next day number. |
| Calendar.DayNumberOrder | project_forecasting/backend/backend_app.py:50-52 | Day numbers order dates exactly as the calendar does, in both directions, and two dates have the same number only if they are equal. |
| Calendar.SecondsOrder | AIC/forecast/forecast.py:51 | Sorting on the seconds value is chronological order of (date, time), in both directions, and distinct timestamps give distinct seconds. |
| Calendar.SecondsDay | project_forecasting/backend/backend_app.py:25 | A timestamp falls on the calendar day of its date: its seconds divided by 86400 is that day's number. |
| Formats.ParseDayMonthYear | AIC/forecast/forecast.py:37 | `%d/%m/%Y` gives only valid calendar dates. Which texts parse is stated by DayMonthYearShape and DayMonthYearParts. |
| Formats.DayMonthYearParts | AIC/forecast/forecast.py:37 | Three slash-free fields joined by slashes parse exactly when they are a 1–2 digit day, a 1–2 digit month and a 4-digit year forming a valid date. |
| Formats.DayMonthYearShape | AIC/forecast/forecast.py:37 | A text that parses as `%d/%m/%Y` is three slash-free fields joined by two slashes, so a text with any other number of slashes is refused. |
| Formats.ParseIsoDateTime | AIC/forecast/forecast.py:41-45 | `%Y-%m-%d %H:%M[:%S]` gives only a valid date and a valid time of day. |
| Formats.ParseClock | project_forecasting/backend/backend_app.py:21 | A parsed time is a valid time of day, and without a seconds field its seconds are 0. Which texts parse is stated by ClockShape, ClockParts, ClockTwoParts and ClockRoundTrip. |
| Formats.ClockParts | AIC/forecast/forecast.py:41-45 | Three colon-free fields joined by colons parse as `%H:%M:%S` exactly when they are 1–2 digit numbers forming a valid time, and they never parse as `%H:%M`. |
| Formats.ClockShape | project_forecasting/backend/backend_app.py:21 | A text that parses as `%H:%M` is two colon-free fields around one colon, and one that parses as `%H:%M:%S` is three colon-free fields around two colons. A text with any other number of colons is refused. |
| Formats.ClockTwoParts | project_forecasting/backend/backend_app.py:21 | A text of two colon-free fields joined by `:` parses as `%H:%M` exactly when both fields are 1–2 digit numbers forming a valid time, and never parses as `%H:%M:%S`. |
| Formats.ClockRoundTrip | AIC/forecast/forecast.py:41-45 | Every valid time of day, written as zero-padded `HH:MM`, parses back to its hour and minute with seconds 0. Written as `HH:MM:SS`, it parses back to itself. |
| Formats.IsoDateRoundTrip | AIC/forecast/forecast.py:41-42 | Parsing `strftime('%Y-%m-%d')` of a valid date gives back the same date. |
| Formats.MergedDateTime | AIC/forecast/forecast.py:41-45 | Parsing the printed day, a space and a time string gives that day at the time the time string parses to, and fails exactly when the time string fails. |
| Formats.ClockHasNoSpace | AIC/forecast/forecast.py:41-45 | A time string containing a space never parses, so the merged text has a single split point. |
| Formats.FieldsJoin | AIC/forecast/forecast.py:37 | About the tokenizer that the `%d/%m/%Y` and `%Y-%m-%d` parsers split their text with: splitting on a separator and joining the pieces again gives the text back. |
| Formats.JoinFields | AIC/forecast/forecast.py:37 | About the same tokenizer: joining separator-free pieces and splitting again gives the same pieces. |
| Formats.PadNatValue | AIC/forecast/forecast.py:42 | A zero-padded number reads back as the same number. |
| Formats.DayMonthYearExample | AIC/forecast/forecast.py:37 | "15/03/2023" is 15 March 2023. |
| Formats.ClockExample | AIC/forecast/forecast.py:41-45 | "14:30:00" is 14:30:00 with a seconds field and is refused without one. |
| Formats.ClockOutOfRangeExample | AIC/forecast/forecast.py:41-45 | "25:99:00" is refused. |
| Formats.ClockWithoutSecondsExample | project_forecasting/backend/backend_app.py:21 | "14:30" is 14:30:00 under `%H:%M`. |
| Formats.ParseIsoDate | project_forecasting/backend/backend_app.py:71-75 | `pd.to_datetime` on a request date, restricted to `YYYY-MM-DD`: gives only valid dates. IsoDateRoundTrip, IsoDateExample and IsoDateRejectsImpossibleDay carry its other properties. |
| Formats.FormatIsoDate | AIC/forecast/forecast.py:42 | `strftime('%Y-%m-%d')`. Its contract is carried by IsoDateRoundTrip (it parses back to the same date) and MergedDateTime. |
| Formats.IsoDateExample | project_forecasting/backend/backend_app.py:72-73 | "2023-01-20" is 20 January 2023. |
| Formats.IsoDateRejectsImpossibleDay | project_forecasting/backend/backend_app.py:71-75 | "2023-02-30" does not parse. |
| Frames.Head | AIC/forecast/forecast.py:28-29 | `head(n)` is a prefix of the rows, of length min(n, len) for n >= 0 and max(len + n, 0) for negative n. |
| Frames.AllOrNothing | AIC/forecast/forecast.py:41-48 | A column conversion succeeds exactly when every row converts, and then row i of the result is the conversion of row i. |
| Frames.Filter | project_forecasting/backend/backend_app.py:59 | A row filter keeps only matching rows, each as many times as it occurs, and drops every other row. |
| Frames.FilterConcat | project_forecasting/backend/backend_app.py:59 | The filter keeps the original row order: filtering two blocks of rows one after the other is filtering each block and joining the results in the same order. |
| Frames.FilterKeepsAll | project_forecasting/backend/backend_app.py:58-59 | A filter that every row passes changes nothing. |
| Frames.MaxKey | project_forecasting/backend/backend_app.py:50-52 | `max()` is attained by some row and bounds every row from above. |
| Frames.MinKey | project_forecasting/backend/backend_app.py:25 | `min()` is attained by some row and bounds every row from below. |
| Frames.Insert | AIC/forecast/forecast.py:51 | Inserting into sorted rows keeps them sorted and adds exactly that row. |
| Frames.SortBy | AIC/forecast/forecast.py:51 | `sort_values` gives the same rows, as a multiset, in non-decreasing key order. |
| Frames.SortByKeepsSorted | project_forecasting/backend/backend_app.py:41 | Sorting rows already in key order leaves them as they are. |
| Frames.SplitIndex | AIC/forecast/forecast.py:54 | `int(n * 0.8)` is the largest k with 5k <= 4n. |
| Frames.SplitSizes | AIC/forecast/forecast.py:54-56 | The training part has floor(0.8 n) rows and the validation part the rest. A non-empty table always has a validation row. Training has at least two rows exactly when n >= 3. |
| Frames.TrainPrecedesValidation | AIC/forecast/forecast.py:51-56 | After a sort, no training key exceeds a validation key. |
| ForecastPipeline.ConvertRecord | AIC/forecast/forecast.py:36-45 | The conversion of one line. A converted line has a valid `Jour` date, no forecast yet, and its `Heures`, `Consommation` and other cells unchanged. ConvertRecordSpec states exactly when it succeeds and what `DateTime` it gives. |
| ForecastPipeline.Sampled | AIC/forecast/forecast.py:28-29 | The sampled lines are a prefix of the file's lines. SampleKeepsFirstRecords gives the prefix's exact length. |
| ForecastPipeline.WithForecasts | AIC/forecast/forecast.py:81-83 | `valid['Forecast'] = forecast['yhat'].values`: one row per validation row, with every cell except `Forecast` unchanged, and each row's `Forecast` the prediction at its own `DateTime`. |
| ForecastPipeline.PrepareForecast | AIC/forecast/forecast.py:5-87 | The model of `prepare_forecast`. Its contract is carried by PrepareForecastFailures (each outcome exactly under its condition) and PrepareForecastSuccess (the shape, order, rows and forecasts of a successful table). |
| ForecastPipeline.ConvertRecordSpec | AIC/forecast/forecast.py:37-45 | A line converts exactly when `Jour` is a `dd/mm/YYYY` date and `Heures` an `HH:MM:SS` time. `DateTime` is then that date at that time, and every other cell is unchanged. |
| ForecastPipeline.ConvertRecordExample | AIC/forecast/forecast.py:37-48 | "15/03/2023" with "14:30:00" converts to 2023-03-15 14:30:00, and "25:99:00" makes the line fail. |
| ForecastPipeline.ConvertAll | AIC/forecast/forecast.py:41-48 | The `DateTime` column exists exactly when every line converts. It then has one row per line, in line order. |
| ForecastPipeline.SampleKeepsFirstRecords | AIC/forecast/forecast.py:28-29 | `sample_size` N keeps exactly the first lines that `head(N)` keeps, and without a sample size, all lines are kept. |
| ForecastPipeline.PrepareForecastFailures | AIC/forecast/forecast.py:31-78 | Missing columns, an unconvertible line and a fit on too few rows each happen exactly under their own condition. Success happens exactly when the schema holds, every line converts and there are at least three lines. |
| ForecastPipeline.PrepareForecastSuccess | AIC/forecast/forecast.py:50-87 | The result has one row per sampled line, in chronological order, and is a rearrangement of the converted lines. The first floor(0.8 n) rows carry no forecast. Every later row carries the prediction at its own `DateTime` of a model fitted on exactly the training rows. |
| ForecastPipeline.AssembleSpec | AIC/forecast/forecast.py:81-86 | `concat([train, valid])` keeps the training rows untouched and the chronological order. It only adds the forecasts to the validation rows. |
| BackendApp.ToTimed | project_forecasting/backend/backend_app.py:17-22 | The column assignments of one line. Its contract is carried by ToTimedSpec and ToTimedExample. |
| BackendApp.SortByDs | project_forecasting/backend/backend_app.py:23 | The model of `sort_values('ds')`, NaT rows last. Its contract is carried by SortByDsSpec. |
| BackendApp.Resample | project_forecasting/backend/backend_app.py:25 | The model of `resample('D', on='ds').sum()`. Its contract is carried by ResampleSpec, ResamplePreservesTotals and ResampleConsecutive. |
| BackendApp.ToTimedSpec | project_forecasting/backend/backend_app.py:18-22 | `ds` exists exactly when `Jour` is a `dd/mm/YYYY` date and `Heures` an `HH:MM` time, and it is then that date at that minute. The line is kept either way, with `y` equal to `Consommation`. |
| BackendApp.ToTimedExample | project_forecasting/backend/backend_app.py:21 | "14:30" gives a timestamp. "14:30:00" gives NaT under `%H:%M`. |
| BackendApp.SortByDsSpec | project_forecasting/backend/backend_app.py:23 | `sort_values('ds')` keeps every row. It puts the timestamped rows first in `ds` order and the NaT rows last. |
| BackendApp.Buckets | project_forecasting/backend/backend_app.py:25 | The daily buckets are consecutive days, each holding the sums of its day's rows for every numeric column. |
| BackendApp.ResampleSpec | project_forecasting/backend/backend_app.py:25 | The daily series is empty exactly when no row has a `ds`. Otherwise it runs day by day from the first to the last observed day, covers every observed day and holds each day's sums. |
| BackendApp.EmptyDaySumsToZero | project_forecasting/backend/backend_app.py:25 | A day without readings sums to 0. |
| BackendApp.ObservedDayRange | project_forecasting/backend/backend_app.py:25 | The first and last days of the resample are days on which some row falls, and every timestamped row falls between them. |
| BackendApp.ResamplePreservesTotals | project_forecasting/backend/backend_app.py:25 | The daily sums add up to the total of each numeric column over the rows with a timestamp. |
| BackendApp.ResampleConsecutive | project_forecasting/backend/backend_app.py:25 | The daily series has no gaps. |
| BackendApp.ForecastService.Load | project_forecasting/backend/backend_app.py:10-28 | A missing required column stops the load, reports the columns found and changes nothing. A table with lines of which none gets a `ds` stops the load at the resample and changes nothing. Otherwise `df` holds one converted row per line, sorted on `ds`, and `df_model` is its daily resample. |
| BackendApp.NoTimestampsIffEmptyDaily | project_forecasting/backend/backend_app.py:21-25 | The resample's failure condition holds exactly when the table has lines but its sorted daily series would be empty. |
| BackendApp.MissingDsKept | project_forecasting/backend/backend_app.py:23 | Rearranging the rows, as the sort does, does not change whether any row has a `ds`. |
| BackendApp.ForecastDays | project_forecasting/backend/backend_app.py:54-61 | The shared forecasting step of both modes. Its contract is carried by ForecastDaysSpec and WindowKeepsFuture. |
| BackendApp.TestMode | project_forecasting/backend/backend_app.py:39-62 | The model of the backtest branch. Its contract is carried by TestModeFitFails, TestModeDays, TestModeForecastsTestDays and LoadedBacktest. |
| BackendApp.ForwardMode | project_forecasting/backend/backend_app.py:64-89 | The model of the forward branch. Its contract is carried by ForwardModeErrors, ForwardModeForecasts, ForwardModeNothingToForecast, ForwardIgnoresStartDate and ForwardModeExample. |
| BackendApp.Handle | project_forecasting/backend/backend_app.py:37-89 | The model of `forecast()`. Its contract is carried by HandleDispatch and TestModeFlag. |
| BackendApp.WindowKeepsFuture | project_forecasting/backend/backend_app.py:58-59 | The date filter after `make_future_dataframe` removes no day. |
| BackendApp.ForecastDaysSpec | project_forecasting/backend/backend_app.py:54-60 | The forecast covers exactly the days after the last known day up to the end day, in order, each with its prediction. It is empty when `periods <= 0`. |
| BackendApp.ConsecutiveIndex | project_forecasting/backend/backend_app.py:25 | A series has no gaps exactly when its i-th day is i days after its first. |
| BackendApp.TestModeFitFails | project_forecasting/backend/backend_app.py:41-48 | The backtest's fit fails exactly on a series of fewer than three days. |
| BackendApp.TestModeDays | project_forecasting/backend/backend_app.py:41-62 | From three days on, the backtest does not fail, and its answer is exactly one entry per day from the day after the last training day to the last test day, in order, each predicted by a model fitted on the training days only. The last training day is never after the last test day. |
| BackendApp.TrainEndsBeforeTestEnd | project_forecasting/backend/backend_app.py:50-52 | In a series sorted by day, the last training day is no later than the last test day. |
| BackendApp.GaplessSplit | project_forecasting/backend/backend_app.py:41-52 | On a series without gaps, sorting changes nothing. The last training day is k - 1 days after the first day, and the last test day is the series' last day. |
| BackendApp.TestModeForecastsTestDays | project_forecasting/backend/backend_app.py:39-62 | On a gapless series of three days or more, the backtest predicts exactly the test days, in order, from a model fitted on the training days only. |
| BackendApp.ForwardModeErrors | project_forecasting/backend/backend_app.py:66-84 | A missing date, an unparseable date and a fit on too few days each happen exactly under their own condition. |
| BackendApp.ForwardModeForecasts | project_forecasting/backend/backend_app.py:77-89 | With valid dates, an end day after the last known day and two days or more, the forecast is exactly each day from the day after the last known day to the end day, from a model fitted on the whole series. |
| BackendApp.ForwardModeNothingToForecast | project_forecasting/backend/backend_app.py:77-81 | An end day on or before the last known day gives an empty answer. |
| BackendApp.FutureAfterSeries | project_forecasting/backend/backend_app.py:77-86 | Every forecast day comes after every day of the series. |
| BackendApp.ForwardIgnoresStartDate | project_forecasting/backend/backend_app.py:66-89 | Once it parses, `start_date` does not affect the answer. |
| BackendApp.ForwardModeExample | project_forecasting/backend/backend_app.py:66-89 | For a series ending 2023-01-31: ending on 2023-01-20 forecasts nothing, ending on 2023-02-03 forecasts three days starting 2023-02-01, and ending on 2023-02-30 is a 400. |
| BackendApp.TestModeIffTrue | project_forecasting/backend/backend_app.py:37 | Test mode is on exactly when `test_mode` is given and is one of the sixteen upper- and lower-case spellings of "true". Without the argument it is off. |
| BackendApp.TestModeFlag | project_forecasting/backend/backend_app.py:37 | `test_mode` is compared case-insensitively with "true" and defaults to "false". |
| BackendApp.HandleDispatch | project_forecasting/backend/backend_app.py:37-69 | Outside test mode, a request without dates is a 400. In test mode the dates play no part. |
| BackendApp.LoadedBacktest | project_forecasting/backend/backend_app.py:10-62 | After the start-up load, the backtest fails to fit exactly below three days. Otherwise it forecasts exactly the test days of the loaded daily series. |

## Left out

- Reading the file: `os.path.exists`, `read_csv` with the `;` delimiter, and the `FileNotFoundError`/`ValueError` of forecast.py:17-25. Both entry points start from a table that has already been read, given as column names and lines.
- Prophet itself: its parameters and seasonalities (forecast.py:62-75 and the default `Prophet()` of backend_app.py:47 and 83), and how it fits and predicts. The model is an arbitrary prediction function of the training pairs and the timestamp. Its only modelled failure is fitting on fewer than two rows.
- Floating point: `Consommation` and the other numeric columns are integers, and a forecast is a real number. NaN consumption values, and Prophet's dropping of them, are not modelled.
- `int(len(df) * 0.8)` is the exact floor of 4n/5. A float rounding step below that is not modelled.
- Flask: routing, `jsonify`/`to_json` serialisation, the HTTP status codes, and the 500 that a fit failure inside the handler becomes. Responses are a datatype.
- The frontends and the `__main__` blocks of both files.
- Frames.SortBy: equal keys are ordered as a stable insertion sort orders them. The properties state sortedness and the multiset of rows only, because pandas' default quicksort does not fix the order of ties.
- Timestamps outside pandas' nanosecond range (years 1677 to 2262) are not rejected. Years run from 1 to 9999 as in Python's `datetime`.
- `strptime` details: leading whitespace, non-ASCII digits and `%d`/`%m`/`%H` fields without zero padding beyond the 1–2 digit rule.
- Timestamp parsing follows pandas 2.0 and later, where an ISO `format=` must match exactly. Under pandas 1.x an ISO-like format was treated as "any ISO string". There, "2023-03-15 14:30:00" would also parse under `%Y-%m-%d %H:%M` (backend_app.py:21), and an `HH:MM` `Heures` would parse under `%Y-%m-%d %H:%M:%S` (forecast.py:41-45). The NaT of BackendApp.ToTimedExample's second case and ForecastPipeline.ConvertRecord's refusal of `HH:MM` rest on the 2.0 behaviour.
- Formats.ParseIsoDate: `pd.to_datetime` on `start_date`/`end_date` accepts many formats and a time part. The model accepts only `YYYY-MM-DD` and treats everything else as an invalid date.
- The conversion of columns other than those the code reads or converts. In the backend, only `Jour`, `Heures`, `ds`, `y` and the three numeric columns are carried.
