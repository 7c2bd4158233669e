# Rent prediction: a verified model of the forecasting pipeline

The rent-prediction script reads tables of monthly rents. Each table has one row per entity. The first three columns identify the entity, and every further column holds one month's value under a `YYYY-MM` header. The script appends twelve forecast columns to every row and writes the result. This project models the pure and sequential core of that script in Dafny and proves what it promises. It covers:

- **Future-month labels** (`months.dfy`, module `Months`). A `YYYY-MM` header is parsed into a calendar month, and the twelve months after it are formatted back to `YYYY-MM`. Parsing and formatting are explicit functions over strings, and they are proved to be inverse to each other. The labels are proved consecutive, with December rolling over to January of the next year.
- **Row reshaping and the forecast of one row** (`forecasting.dfy`, module `Forecasting`). The dated cells of a row are paired with their headers. A pair is dropped when its header is not a month or its value is missing. The forecasting library is a parameter of type `Series -> Fit`, where `Fit` is either `Fitted(yhat)` or `FitFailed`. The library always predicts at least twelve points (the fitted history plus twelve future months), and the `Prediction` type states this. Nothing else is assumed about the library. The forecast of a row is always twelve cells. It is twelve `Empty` ("no value") markers when the series is empty or the fit fails, and the last twelve predicted points otherwise.
- **One file's table** (`tables.dfy`, module `Tables`). The labels are derived once, from the last date header, before any row is looked at. Every row is then forecast in order, and the forecasts are appended as twelve trailing columns. `ForecastTable` is the specification. `ForecastRows` is the loop over the rows: it calls the forecaster on every non-empty row series and records each series it hands over, and it is proved equal to `Forecasts`. `ProcessCsv` derives the labels, runs that loop and is proved equal to `ForecastTable`. It also returns the record of series handed to the forecaster, which stands for the library's fit calls and is empty when the file fails.
- **The batch driver** (`batch.dfy`, module `Batch`). Every `.csv` name of a directory listing is processed in listing order, and its output is named `predictions_<name>`. The first failing file stops the batch.
- `wrappers.dfy` (module `Wrappers`) holds `Option` and `Result`. They stand in for the source's missing-value markers and raised errors.

Errors are values. `LabelError.InvalidDateFormat` is the `ValueError` raised for an unparseable last header. `LabelError.DateOutOfRange` covers label months that would pass year 9999. `FileError.NoDateColumns` is the `IndexError` raised when a table has no column after the three metadata columns.

## Model

| member | source | states |
|---|---|---|
| `Months.Next` | rent_prediction/main.py:28 | The month after `m` is one step further on the calendar (`Index` grows by one). December rolls over to January of the next year. |
| `Months.AddMonths` | rent_prediction/main.py:28 | The month `k` months later is a real month `k` calendar steps after `m`. |
| `Months.ParseMonth` | rent_prediction/main.py:25-26 | A header that parses is seven characters `DDDD-DD` and names a valid month: year 0001..9999, month 01..12. |
| `Months.FormatMonth` | rent_prediction/main.py:29 | Formatting a month always gives the `YYYY-MM` shape. |
| `Months.ParseFormat` | rent_prediction/main.py:25-29 | Parsing the `YYYY-MM` text of any valid month gives back that month. |
| `Months.FormatParse` | rent_prediction/main.py:25-29 | Formatting a parsed month gives back the header text, so every month has exactly one `YYYY-MM` form. |
| `Months.PredictionLabels` | rent_prediction/main.py:24-29 | On success the result has exactly 12 labels, each of the form `YYYY-MM`. The result is the `InvalidDateFormat` error for the header exactly when the last header does not parse. |
| `Months.LabelsSucceedIff` | rent_prediction/main.py:25-28 | Labels are produced exactly when the last header parses and its year is below 9999. |
| `Months.LabelsAreConsecutive` | rent_prediction/main.py:28 | The first label is the month right after the last header's month. Each later label is the month right after the previous label. |
| `Months.LabelsFollowLastHeader` | rent_prediction/main.py:28 | Label `k` names the month exactly `k + 1` months after the last header's month. |
| `Months.DecemberRollover` | rent_prediction/main.py:28-29 | After `2023-12` the labels are `2024-01` through `2024-12`. |
| `Months.MalformedHeaderRejected` | rent_prediction/main.py:25-27 | `not-a-date` is rejected with `InvalidDateFormat("not-a-date")`. |
| `Forecasting.Reshape` | rent_prediction/main.py:7-10 | The series never has more points than there are date headers. |
| `Forecasting.ReshapeSelectsKept` | rent_prediction/main.py:7-10 | The series is exactly the points of the columns whose header parses and whose value is present, in increasing column order. |
| `Forecasting.SeriesEmptyIff` | rent_prediction/main.py:10-11 | The series is empty exactly when no column has both a parseable header and a present value. |
| `Forecasting.ReshapeExample` | rent_prediction/main.py:8-10 | Headers `2023-01`, `bad`, `2023-03` with values 10, 20, missing give the one point `2023-01` -> 10. |
| `Forecasting.ReshapeOrdered` | rent_prediction/main.py:8-10 | If the headers name strictly increasing months, the series dates are strictly increasing, so no date appears twice. |
| `Forecasting.NoValues` | rent_prediction/main.py:12 | Twelve "no value" markers. |
| `Forecasting.LastPoints` | rent_prediction/main.py:18 | The forecast cells are the last twelve predicted points, in order. |
| `Forecasting.ProcessRow` | rent_prediction/main.py:6-21 | A row's forecast is always exactly 12 cells. Each cell is a "no value" marker or a number. |
| `Forecasting.EmptySeriesSkipsForecaster` | rent_prediction/main.py:11-12 | An empty series gives 12 "no value" markers whatever the forecaster would do, so the forecaster is never consulted. |
| `Forecasting.FailureGivesNoValues` | rent_prediction/main.py:13-21 | A failure to fit or predict gives 12 "no value" markers. |
| `Forecasting.SuccessGivesLastPoints` | rent_prediction/main.py:14-18 | A successful fit gives the last twelve predicted points, in order. |
| `Forecasting.ForecastDependsOnSeriesOnly` | rent_prediction/main.py:6-21 | A row's forecast depends only on its own series and on the forecaster's answer for that series. The metadata cells play no part. |
| `Tables.DateHeaders` | rent_prediction/main.py:34 | The date headers are the headers after the first three, or none when there are at most three columns. |
| `Tables.Forecasts` | rent_prediction/main.py:37-39 | The result has one entry per row, and entry `i` is the `ProcessRow` forecast of row `i`. |
| `Tables.AppendColumns` | rent_prediction/main.py:40-41 | Each output row starts with its input row and ends with that row's extra cells. |
| `Tables.ForecastTable` | rent_prediction/main.py:32-41 | On success the output has the input's row count, 12 more headers, and one cell per header in every row. |
| `Tables.ForecastTableFailsIff` | rent_prediction/main.py:34-36 | A file fails exactly when it has no date column or its last date header yields no labels. An unparseable last header fails with `InvalidDateFormat` for that header. |
| `Tables.ForecastTableLayout` | rent_prediction/main.py:36-41 | The output headers are the input headers followed by the 12 labels. The rows are the same rows in the same order. Each output row is its input row followed by its 12 forecast cells, and the output is rectangular. |
| `Tables.RowsAreIndependent` | rent_prediction/main.py:38-39 | Forecasting two tables with the same headers separately gives the rows of forecasting them together, so no row's forecast or failure affects another row. |
| `Tables.EmptyRowGetsNoValues` | rent_prediction/main.py:7-12 | A row whose dated cells are all missing gets 12 "no value" markers. |
| `Tables.FittedSeries` | rent_prediction/main.py:11-15 | The record of fitted series is never longer than the list of rows, and it holds no empty series. |
| `Tables.FittedSeriesIsDropMissing` | rent_prediction/main.py:11-15 | The fitted series are the rows' series in row order with the empty ones dropped. |
| `Tables.FittedSeriesSelects` | rent_prediction/main.py:11-15 | Entry `k` of the record is the series of row `ix[k]` for increasing row numbers `ix`, and every row with a non-empty series appears, so the forecaster is fitted exactly once per row with usable data, in row order, and never on an empty series. |
| `Tables.ForecastRows` | rent_prediction/main.py:37-39 | The row loop produces exactly the forecasts `Forecasts` specifies, one per row in row order. The series it hands to the forecaster, recorded at each call, are exactly `FittedSeries` of the rows. |
| `Tables.ProcessCsv` | rent_prediction/main.py:32-41 | Its result equals `ForecastTable`. When the file fails, no series was handed to the forecaster, because the labels are derived before any row. Otherwise the forecaster saw the non-empty series of the rows, in row order. |
| `Batch.RunBatch` | rent_prediction/main.py:50-54 | The batch never writes more files than the listing has. It processes only names accepted by `IsCsv` (ending in `.csv`, main.py:51) and names each output with `OutputName` (the `predictions_` prefix, main.py:53). |
| `Batch.WrittenFilesAreForecasts` | rent_prediction/main.py:51-54 | Every written file is the forecast table of a `.csv` input, named `predictions_` followed by that input's name. |
| `Batch.FailureNamesFailingFile` | rent_prediction/main.py:51-54 | A reported failure names a `.csv` input whose forecast fails with that error. |
| `Batch.FailureStopsBatch` | rent_prediction/main.py:50-54 | The first failing `.csv` file stops the batch. Files listed after it are not processed, and the files before it are written. |
| `Batch.CleanBatchWritesEveryCsv` | rent_prediction/main.py:50-54 | When no `.csv` file fails, the batch completes, and its outputs are exactly the forecasts of the `.csv` files under their prefixed names, each file once, in listing order, with nothing for other files. |
| `Batch.ProcessDirectory` | rent_prediction/main.py:46-55 | The loop over the listing produces exactly what `RunBatch` specifies. |

## Left out

- The forecasting library's fitting and prediction (rent_prediction/main.py:14-18) are a foreign statistical library with floating-point numerics. The model passes the library in as a function that may fail and assumes only that a successful prediction has at least twelve points. It says nothing about the predicted values.
- The model does not say which calendar months the forecaster's twelve points stand for. The script fits each row on its series with missing cells dropped (rent_prediction/main.py:10, 15-16), so the library's twelve future points start from that row's own last observed date, not from the table's last header. The labels start after the table's last header (rent_prediction/main.py:35-36). For a row whose last cells are missing, the script therefore files forecasts under months they do not predict: with headers up to `2023-12` and a last value in `2023-09`, points that start from `2023-09` are written under `2024-01` to `2024-12` (rent_prediction/main.py:40-41). The model does not capture this mismatch, because the dates of the library's points are not part of the model.
- Reading and writing CSV files (rent_prediction/main.py:33, 42) are I/O, and so are listing the input directory and creating the output directory (rent_prediction/main.py:47-50). A table is a value: a header row and data rows. The listing is a sequence of named tables. Written files are returned rather than stored.
- The console messages (rent_prediction/main.py:20, 43, 55) are not modelled. The row-level error message goes with them. Only the "no value" result of a failed row is modelled.
- `Months.ParseMonth`: the date parser accepts only exactly four year digits, a dash and two month digits. The real parser's leniencies, such as one-digit months, are not modelled.
- `Months.PredictionLabels`: year bounds follow four-digit years (0001..9999) rather than the narrower range of the library's timestamp type. Labels that would pass 9999-12 give the `DateOutOfRange` error. The real library fails with an out-of-bounds error near year 2262, and the model does not reproduce that bound.
- Cell values are `Empty`, a `Number` (a mathematical real) or `Text`. Float parsing and NaN propagation are not modelled. Duplicate header names, which the CSV reader renames, are not modelled either.
- The batch stops at the first failing file, as the script does, because no exception is caught per file. The model does not add per-file isolation.
