/**
 * One file's table and its forecast (rent_prediction/main.py:32-43): the
 * labels are derived once from the last date header, every row is forecast
 * in order, and the twelve forecast columns are appended to the table.
 * Reading and writing the file are not modelled; the table is a value.
 */
module Tables {
  import opened Wrappers
  import opened Months
  import opened Forecasting

  /** A table as read from a file: the header row and the data rows. */
  datatype Table = Table(headers: seq<string>, rows: seq<seq<Cell>>)

  /** Every row has one cell per header. */
  predicate Rectangular(t: Table) {
    forall i :: 0 <= i < |t.rows| ==> |t.rows[i]| == |t.headers|
  }

  /** Why a file produces no output. */
  datatype FileError =
    | NoDateColumns                  // the table has no column after the metadata columns
    | BadLastColumn(error: LabelError)

  /** The headers of the dated columns: all but the first three. */
  function DateHeaders(t: Table): (h: seq<string>)
    ensures |t.headers| >= MetaColumns ==> t.headers == t.headers[..MetaColumns] + h
    ensures |t.headers| <= MetaColumns ==> h == []
  {
    if |t.headers| <= MetaColumns then [] else t.headers[MetaColumns..]
  }

  /** The forecast cells of every row, in row order. */
  function Forecasts(rows: seq<seq<Cell>>, dateHeaders: seq<string>, forecast: Forecaster): (p: seq<seq<Cell>>)
    requires forall i :: 0 <= i < |rows| ==> |rows[i]| == MetaColumns + |dateHeaders|
    ensures |p| == |rows|
    ensures forall i :: 0 <= i < |p| ==> p[i] == ProcessRow(rows[i], dateHeaders, forecast)
  {
    seq(|rows|, i requires 0 <= i < |rows| => ProcessRow(rows[i], dateHeaders, forecast))
  }

  /** Places the forecast cells of each row after that row's cells. */
  function AppendColumns(rows: seq<seq<Cell>>, extra: seq<seq<Cell>>): (r: seq<seq<Cell>>)
    requires |rows| == |extra|
    ensures |r| == |rows|
    ensures forall i :: 0 <= i < |r| ==>
      |r[i]| == |rows[i]| + |extra[i]| && r[i][..|rows[i]|] == rows[i] && r[i][|rows[i]|..] == extra[i]
  {
    seq(|rows|, i requires 0 <= i < |rows| => rows[i] + extra[i])
  }

  /**
   * The table a file's forecast produces, or why it produces none: the labels
   * come from the last date header before any row is looked at, so a bad
   * last header fails the whole file.
   */
  function ForecastTable(data: Table, forecast: Forecaster): (r: Result<Table, FileError>)
    requires Rectangular(data)
    ensures r.Success? ==>
      |r.value.headers| == |data.headers| + Horizon && |r.value.rows| == |data.rows| && Rectangular(r.value)
  {
    var dateHeaders := DateHeaders(data);
    if |dateHeaders| == 0 then Failure(NoDateColumns)
    else
      match PredictionLabels(dateHeaders[|dateHeaders| - 1])
      case Failure(e) => Failure(BadLastColumn(e))
      case Success(labels) =>
        Success(Table(data.headers + labels, AppendColumns(data.rows, Forecasts(data.rows, dateHeaders, forecast))))
  }

  /**
   * A file fails exactly when it has no dated column or its last date header
   * yields no labels; a last header that is not a month fails with that header.
   */
  lemma ForecastTableFailsIff(data: Table, forecast: Forecaster)
    requires Rectangular(data)
    ensures var dh := DateHeaders(data);
      ForecastTable(data, forecast).Failure? <==> (dh == [] || PredictionLabels(dh[|dh| - 1]).Failure?)
    ensures var dh := DateHeaders(data);
      dh != [] && ParseMonth(dh[|dh| - 1]).None? ==>
        ForecastTable(data, forecast) == Failure(BadLastColumn(InvalidDateFormat(dh[|dh| - 1])))
  {
  }

  /**
   * The output keeps the input's rows, in order and in number; each output row
   * is its input row followed by its twelve forecast cells, and the headers are
   * the input's headers followed by the twelve labels.
   */
  lemma ForecastTableLayout(data: Table, forecast: Forecaster)
    requires Rectangular(data) && ForecastTable(data, forecast).Success?
    ensures var out := ForecastTable(data, forecast).value;
      var dh := DateHeaders(data);
      && PredictionLabels(dh[|dh| - 1]).Success?
      && out.headers == data.headers + PredictionLabels(dh[|dh| - 1]).value
      && |out.headers| == |data.headers| + Horizon
      && |out.rows| == |data.rows|
      && Rectangular(out)
      && forall i :: 0 <= i < |out.rows| ==>
           out.rows[i][..|data.headers|] == data.rows[i] &&
           out.rows[i][|data.headers|..] == ProcessRow(data.rows[i], dh, forecast)
  {
    var out := ForecastTable(data, forecast).value;
    forall i | 0 <= i < |out.rows| ensures |out.rows[i]| == |out.headers| {
      assert out.rows[i] == out.rows[i][..|data.headers|] + out.rows[i][|data.headers|..];
    }
  }

  /**
   * Rows are forecast independently: forecasting two tables with the same
   * headers, one after the other, gives the rows of forecasting them together.
   */
  lemma RowsAreIndependent(headers: seq<string>, a: seq<seq<Cell>>, b: seq<seq<Cell>>, forecast: Forecaster)
    requires Rectangular(Table(headers, a)) && Rectangular(Table(headers, b))
    ensures Rectangular(Table(headers, a + b))
    ensures var whole := ForecastTable(Table(headers, a + b), forecast);
      var left := ForecastTable(Table(headers, a), forecast);
      var right := ForecastTable(Table(headers, b), forecast);
      && whole.Success? == left.Success? == right.Success?
      && (whole.Success? ==> whole.value == Table(left.value.headers, left.value.rows + right.value.rows))
  {
    ConcatRectangular(headers, a, b);
    var dh := DateHeaders(Table(headers, a));
    if dh != [] && PredictionLabels(dh[|dh| - 1]).Success? {
      ForecastsConcat(a, b, dh, forecast);
      AppendColumnsConcat(a, b, Forecasts(a, dh, forecast), Forecasts(b, dh, forecast));
    }
  }

  /** Joining two tables with the same headers keeps one cell per header. */
  lemma ConcatRectangular(headers: seq<string>, a: seq<seq<Cell>>, b: seq<seq<Cell>>)
    requires Rectangular(Table(headers, a)) && Rectangular(Table(headers, b))
    ensures Rectangular(Table(headers, a + b))
  {
    var ab := a + b;
    assert forall i :: 0 <= i < |ab| ==> ab[i] == if i < |a| then a[i] else b[i - |a|];
  }

  /** The forecasts of joined rows are the forecasts of each part, joined. */
  lemma ForecastsConcat(a: seq<seq<Cell>>, b: seq<seq<Cell>>, dateHeaders: seq<string>, forecast: Forecaster)
    requires RowsFit(a, dateHeaders) && RowsFit(b, dateHeaders)
    ensures RowsFit(a + b, dateHeaders)
    ensures Forecasts(a + b, dateHeaders, forecast) == Forecasts(a, dateHeaders, forecast) + Forecasts(b, dateHeaders, forecast)
  {
    var ab := a + b;
    assert forall i :: 0 <= i < |ab| ==> ab[i] == if i < |a| then a[i] else b[i - |a|];
  }

  /** Appending columns to joined rows is appending them to each part. */
  lemma AppendColumnsConcat(a: seq<seq<Cell>>, b: seq<seq<Cell>>, ea: seq<seq<Cell>>, eb: seq<seq<Cell>>)
    requires |a| == |ea| && |b| == |eb|
    ensures AppendColumns(a + b, ea + eb) == AppendColumns(a, ea) + AppendColumns(b, eb)
  {
    var ab, e := a + b, ea + eb;
    assert forall i :: 0 <= i < |ab| ==> ab[i] == if i < |a| then a[i] else b[i - |a|];
    assert forall i :: 0 <= i < |e| ==> e[i] == if i < |a| then ea[i] else eb[i - |a|];
  }

  /** A row whose dated cells are all missing gets twelve "no value" markers. */
  lemma EmptyRowGetsNoValues(row: seq<Cell>, dateHeaders: seq<string>, forecast: Forecaster)
    requires |row| == MetaColumns + |dateHeaders|
    requires forall j :: MetaColumns <= j < |row| ==> row[j] == Empty
    ensures ProcessRow(row, dateHeaders, forecast) == NoValues()
  {
    var values := row[MetaColumns..];
    assert forall i :: 0 <= i < |values| ==> values[i] == row[MetaColumns + i];
    SeriesEmptyIff(dateHeaders, values);
  }

  // ---------------------------------------------------------------------------
  // The file processor

  /** Every row has as many dated cells as there are date headers. */
  predicate RowsFit(rows: seq<seq<Cell>>, dateHeaders: seq<string>) {
    forall i :: 0 <= i < |rows| ==> |rows[i]| == MetaColumns + |dateHeaders|
  }

  /** The series the forecaster is fitted on, one per row with usable data, in row order. */
  function FittedSeries(rows: seq<seq<Cell>>, dateHeaders: seq<string>): (fs: seq<Series>)
    requires RowsFit(rows, dateHeaders)
    ensures |fs| <= |rows|
    ensures forall k :: 0 <= k < |fs| ==> fs[k] != []
  {
    if rows == [] then []
    else
      var n := |rows| - 1;
      var series := RowSeries(rows[n], dateHeaders);
      FittedSeries(rows[..n], dateHeaders) + if series == [] then [] else [series]
  }

  /** Each row's series where the forecaster is fitted on it, and `None` where the row has no usable data. */
  function Tagged(rows: seq<seq<Cell>>, dateHeaders: seq<string>): (t: seq<Option<Series>>)
    requires RowsFit(rows, dateHeaders)
    ensures |t| == |rows|
  {
    seq(|rows|, i requires 0 <= i < |rows| =>
      var series := RowSeries(rows[i], dateHeaders);
      if series == [] then None else Some(series))
  }

  /** The fitted series are the rows' series with the empty ones dropped. */
  lemma {:induction false} FittedSeriesIsDropMissing(rows: seq<seq<Cell>>, dateHeaders: seq<string>)
    requires RowsFit(rows, dateHeaders)
    ensures FittedSeries(rows, dateHeaders) == DropMissing(Tagged(rows, dateHeaders))
    decreases |rows|
  {
    if rows != [] {
      var n := |rows| - 1;
      FittedSeriesIsDropMissing(rows[..n], dateHeaders);
      var t := Tagged(rows, dateHeaders);
      assert t[..n] == Tagged(rows[..n], dateHeaders);
    }
  }

  /**
   * The forecaster is fitted exactly on the non-empty series of the rows, once
   * per such row, in row order: `ix` lists those rows in increasing order and
   * entry `k` of the log is the series of row `ix[k]`.
   */
  lemma FittedSeriesSelects(rows: seq<seq<Cell>>, dateHeaders: seq<string>)
    requires RowsFit(rows, dateHeaders)
    ensures exists ix :: Selects(Tagged(rows, dateHeaders), FittedSeries(rows, dateHeaders), ix)
  {
    FittedSeriesIsDropMissing(rows, dateHeaders);
    DropMissingSelects(Tagged(rows, dateHeaders));
  }

  /** Extending the rows by one extends the fitted series by that row's series, if it has any. */
  lemma FittedSeriesStep(rows: seq<seq<Cell>>, dateHeaders: seq<string>, i: nat)
    requires RowsFit(rows, dateHeaders) && i < |rows|
    ensures RowsFit(rows[..i], dateHeaders) && RowsFit(rows[..i + 1], dateHeaders)
    ensures FittedSeries(rows[..i + 1], dateHeaders) ==
      FittedSeries(rows[..i], dateHeaders) + if RowSeries(rows[i], dateHeaders) == [] then [] else [RowSeries(rows[i], dateHeaders)]
  {
    assert rows[..i + 1][..i] == rows[..i];
  }

  /** Extending the rows by one extends the forecasts by that row's forecast. */
  lemma ForecastsStep(rows: seq<seq<Cell>>, dateHeaders: seq<string>, forecast: Forecaster, i: nat)
    requires RowsFit(rows, dateHeaders) && i < |rows|
    ensures RowsFit(rows[..i], dateHeaders) && RowsFit(rows[..i + 1], dateHeaders)
    ensures Forecasts(rows[..i + 1], dateHeaders, forecast) ==
      Forecasts(rows[..i], dateHeaders, forecast) + [ProcessRow(rows[i], dateHeaders, forecast)]
  {
  }

  /**
   * The row loop of a file: forecasts every row in order. The forecaster is
   * called only on a non-empty series, and each series it is called on is
   * recorded in `fitted`.
   */
  method ForecastRows(rows: seq<seq<Cell>>, dateHeaders: seq<string>, forecast: Forecaster)
    returns (predictions: seq<seq<Cell>>, fitted: seq<Series>)
    requires RowsFit(rows, dateHeaders)
    ensures predictions == Forecasts(rows, dateHeaders, forecast)
    ensures fitted == FittedSeries(rows, dateHeaders)
  {
    predictions, fitted := [], [];
    for i := 0 to |rows|
      invariant predictions == Forecasts(rows[..i], dateHeaders, forecast)
      invariant fitted == FittedSeries(rows[..i], dateHeaders)
    {
      var series := RowSeries(rows[i], dateHeaders);
      FittedSeriesStep(rows, dateHeaders, i);
      ForecastsStep(rows, dateHeaders, forecast, i);
      var cells := NoValues();
      if series != [] {
        var fit := forecast(series);
        fitted := fitted + [series];
        cells := FitCells(fit);
      }
      predictions := predictions + [cells];
    }
    assert rows[..|rows|] == rows;
  }

  /**
   * Forecasts one table. `fitted` records the series the forecaster is
   * handed, in order: none when the file fails, since the labels are derived
   * before any row.
   */
  method ProcessCsv(data: Table, forecast: Forecaster) returns (r: Result<Table, FileError>, fitted: seq<Series>)
    requires Rectangular(data)
    ensures r == ForecastTable(data, forecast)
    ensures r.Failure? ==> fitted == []
    ensures r.Success? ==> fitted == FittedSeries(data.rows, DateHeaders(data))
  {
    var dateHeaders := DateHeaders(data);
    if |dateHeaders| == 0 {
      return Failure(NoDateColumns), [];
    }
    var labels := PredictionLabels(dateHeaders[|dateHeaders| - 1]);
    if labels.Failure? {
      return Failure(BadLastColumn(labels.error)), [];
    }
    var predictions;
    predictions, fitted := ForecastRows(data.rows, dateHeaders, forecast);
    r := Success(Table(data.headers + labels.value, AppendColumns(data.rows, predictions)));
    assert r == ForecastTable(data, forecast);
  }
}
