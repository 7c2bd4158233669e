/**
 * One row's forecast (rent_prediction/main.py:6-21): the wide row of dated
 * values is reshaped into a long series, handed to the forecasting library,
 * and its answer (or its failure) becomes exactly twelve forecast cells.
 *
 * The forecasting library is a parameter, a function from a series to a fit
 * that may fail; nothing is assumed about the values it predicts.
 */
module Forecasting {
  import opened Wrappers
  import opened Months

  /** The first three columns of a row identify the entity; the rest are dated values. */
  const MetaColumns := 3

  /** A table cell as read from the file; `Empty` is a missing value, and the "no value" marker. */
  datatype Cell = Empty | Number(value: real) | Text(text: string)

  /** One observation of the long series. */
  datatype Point = Point(date: Month, value: Cell)

  type Series = seq<Point>

  /** The library predicts the fitted history followed by twelve future months, so never fewer than twelve points. */
  type Prediction = s: seq<real> | |s| >= Horizon witness [0.0, 0.0, 0.0, 0.0, 0.0, 0.0, 0.0, 0.0, 0.0, 0.0, 0.0, 0.0]

  /** What fitting and predicting gives: the predicted points, or a failure of any kind. */
  datatype Fit = Fitted(yhat: Prediction) | FitFailed

  type Forecaster = Series -> Fit

  // ---------------------------------------------------------------------------
  // Row reshaping

  /** The point a dated column yields: none when its header is not a month or its value is missing. */
  function ColumnPoint(header: string, value: Cell): (p: Option<Point>)
    ensures p.Some? <==> ParseMonth(header).Some? && value != Empty
    ensures p.Some? ==> p.value == Point(ParseMonth(header).value, value)
  {
    match ParseMonth(header)
    case None => None
    case Some(date) => if value == Empty then None else Some(Point(date, value))
  }

  /** One entry per dated column, in column order; `None` where the column yields no point. */
  function Pairs(headers: seq<string>, values: seq<Cell>): (ps: seq<Option<Point>>)
    requires |headers| == |values|
    ensures |ps| == |headers|
    ensures forall i :: 0 <= i < |ps| ==> ps[i] == ColumnPoint(headers[i], values[i])
  {
    seq(|headers|, i requires 0 <= i < |headers| => ColumnPoint(headers[i], values[i]))
  }

  /** Drops the missing entries and keeps the others in order. */
  function DropMissing<T>(xs: seq<Option<T>>): (ys: seq<T>)
    ensures |ys| <= |xs|
  {
    if xs == [] then []
    else
      var n := |xs| - 1;
      DropMissing(xs[..n]) + if xs[n].Some? then [xs[n].value] else []
  }

  /**
   * `ix` lists, in increasing order, exactly the positions of the present
   * entries of `xs`, and `ys` holds their values.
   */
  ghost predicate Selects<T>(xs: seq<Option<T>>, ys: seq<T>, ix: seq<int>) {
    && |ix| == |ys|
    && (forall k :: 0 <= k < |ix| ==> 0 <= ix[k] < |xs| && xs[ix[k]] == Some(ys[k]))
    && (forall k, l :: 0 <= k < l < |ix| ==> ix[k] < ix[l])
    && (forall i :: 0 <= i < |xs| && xs[i].Some? ==> i in ix)
  }

  /** The positions of the present entries, in increasing order. */
  function PresentAt<T>(xs: seq<Option<T>>): (ix: seq<int>)
    ensures |ix| == |DropMissing(xs)|
  {
    if xs == [] then []
    else
      var n := |xs| - 1;
      PresentAt(xs[..n]) + if xs[n].Some? then [n] else []
  }

  lemma {:induction false} PresentAtValues<T>(xs: seq<Option<T>>)
    ensures forall k :: 0 <= k < |PresentAt(xs)| ==>
      0 <= PresentAt(xs)[k] < |xs| && xs[PresentAt(xs)[k]] == Some(DropMissing(xs)[k])
  {
    if xs != [] {
      var n := |xs| - 1;
      PresentAtValues(xs[..n]);
      var ix, ys := PresentAt(xs), DropMissing(xs);
      var ix', ys' := PresentAt(xs[..n]), DropMissing(xs[..n]);
      assert ix == ix' + if xs[n].Some? then [n] else [];
      assert ys == ys' + if xs[n].Some? then [xs[n].value] else [];
      forall k | 0 <= k < |ix| ensures 0 <= ix[k] < |xs| && xs[ix[k]] == Some(ys[k]) {
        if k < |ix'| {
          assert ix[k] == ix'[k] && ys[k] == ys'[k];
          assert 0 <= ix'[k] < n && xs[..n][ix'[k]] == Some(ys'[k]);
        }
      }
    }
  }

  lemma {:induction false} PresentAtIncreasing<T>(xs: seq<Option<T>>)
    ensures forall k, l :: 0 <= k < l < |PresentAt(xs)| ==> PresentAt(xs)[k] < PresentAt(xs)[l]
  {
    if xs != [] {
      var n := |xs| - 1;
      PresentAtIncreasing(xs[..n]);
      PresentAtBelow(xs[..n]);
      assert PresentAt(xs) == PresentAt(xs[..n]) + if xs[n].Some? then [n] else [];
    }
  }

  lemma PresentAtBelow<T>(xs: seq<Option<T>>)
    ensures forall k :: 0 <= k < |PresentAt(xs)| ==> 0 <= PresentAt(xs)[k] < |xs|
  {
    PresentAtValues(xs);
  }

  lemma {:induction false} PresentAtComplete<T>(xs: seq<Option<T>>)
    ensures forall i :: 0 <= i < |xs| && xs[i].Some? ==> i in PresentAt(xs)
  {
    if xs != [] {
      var n := |xs| - 1;
      PresentAtComplete(xs[..n]);
      forall i | 0 <= i < n && xs[i].Some? ensures i in PresentAt(xs) {
        assert xs[..n][i] == xs[i];
        assert i in PresentAt(xs[..n]);
      }
    }
  }

  /** Dropping the missing entries keeps exactly the present ones, in their order. */
  lemma DropMissingSelects<T>(xs: seq<Option<T>>)
    ensures exists ix :: Selects(xs, DropMissing(xs), ix)
  {
    PresentAtValues(xs);
    PresentAtIncreasing(xs);
    PresentAtComplete(xs);
    assert Selects(xs, DropMissing(xs), PresentAt(xs));
  }

  /** Dropping the missing entries of a sequence with one more entry in front. */
  lemma {:induction false} DropMissingCons<T>(x: Option<T>, xs: seq<Option<T>>)
    ensures DropMissing([x] + xs) == (if x.Some? then [x.value] else []) + DropMissing(xs)
    decreases |xs|
  {
    if xs != [] {
      var n := |xs| - 1;
      DropMissingCons(x, xs[..n]);
      assert ([x] + xs)[..n + 1] == [x] + xs[..n];
      assert ([x] + xs)[n + 1] == xs[n];
    }
  }

  /** Nothing is left exactly when every entry is missing. */
  lemma {:induction false} DropMissingEmptyIff<T>(xs: seq<Option<T>>)
    ensures DropMissing(xs) == [] <==> forall i :: 0 <= i < |xs| ==> xs[i].None?
  {
    if xs != [] {
      var n := |xs| - 1;
      DropMissingEmptyIff(xs[..n]);
      assert forall i :: 0 <= i < n ==> xs[..n][i] == xs[i];
    }
  }

  /**
   * Pairs each date header with its value and drops the pairs whose header is
   * not a month or whose value is missing.
   */
  function Reshape(headers: seq<string>, values: seq<Cell>): (s: Series)
    requires |headers| == |values|
    ensures |s| <= |headers|
  {
    DropMissing(Pairs(headers, values))
  }

  /** Column `i` yields a point: its header parses as a month and its value is not missing. */
  predicate Kept(headers: seq<string>, values: seq<Cell>, i: int)
    requires |headers| == |values|
  {
    0 <= i < |headers| && ParseMonth(headers[i]).Some? && values[i] != Empty
  }

  /** The point column `i` yields. */
  function PointAt(headers: seq<string>, values: seq<Cell>, i: int): Point
    requires |headers| == |values| && Kept(headers, values, i)
  {
    Point(ParseMonth(headers[i]).value, values[i])
  }

  /**
   * `ix` lists, in increasing order, exactly the columns that yield a point,
   * and `s` is the sequence of their points.
   */
  ghost predicate KeepsExactly(headers: seq<string>, values: seq<Cell>, s: Series, ix: seq<int>)
    requires |headers| == |values|
  {
    && |ix| == |s|
    && (forall k :: 0 <= k < |ix| ==> Kept(headers, values, ix[k]) && s[k] == PointAt(headers, values, ix[k]))
    && (forall k, l :: 0 <= k < l < |ix| ==> ix[k] < ix[l])
    && (forall i :: Kept(headers, values, i) ==> i in ix)
  }

  /**
   * The series holds exactly the points of the columns whose header parses and
   * whose value is present, in the columns' order.
   */
  lemma ReshapeSelectsKept(headers: seq<string>, values: seq<Cell>)
    requires |headers| == |values|
    ensures exists ix :: KeepsExactly(headers, values, Reshape(headers, values), ix)
  {
    var ps := Pairs(headers, values);
    DropMissingSelects(ps);
    var s := DropMissing(ps);
    var ix :| Selects(ps, s, ix);
    forall k | 0 <= k < |ix|
      ensures Kept(headers, values, ix[k]) && s[k] == PointAt(headers, values, ix[k])
    {
      var i := ix[k];
      assert ColumnPoint(headers[i], values[i]) == Some(s[k]);
    }
    forall i | Kept(headers, values, i) ensures i in ix {
      assert ColumnPoint(headers[i], values[i]).Some?;
    }
    assert s == Reshape(headers, values);
    assert KeepsExactly(headers, values, s, ix);
  }

  /** The series is empty exactly when no column has both a month header and a present value. */
  lemma SeriesEmptyIff(headers: seq<string>, values: seq<Cell>)
    requires |headers| == |values|
    ensures Reshape(headers, values) == [] <==> forall i :: 0 <= i < |headers| ==> !Kept(headers, values, i)
  {
    var ps := Pairs(headers, values);
    DropMissingEmptyIff(ps);
    assert forall i :: 0 <= i < |headers| ==> (ps[i].Some? <==> Kept(headers, values, i));
  }

  /** The headers `2023-01`, `bad`, `2023-03` over the values 10, 20, missing give the one point `2023-01` -> 10. */
  lemma ReshapeExample()
    ensures Reshape(["2023-01", "bad", "2023-03"], [Number(10.0), Number(20.0), Empty])
         == [Point(Month(2023, 1), Number(10.0))]
  {
    var ps := Pairs(["2023-01", "bad", "2023-03"], [Number(10.0), Number(20.0), Empty]);
    assert ParseMonth("2023-01") == Some(Month(2023, 1));
    assert ps == [Some(Point(Month(2023, 1), Number(10.0))), None, None];
    var one := [Some(Point(Month(2023, 1), Number(10.0)))];
    assert ps[..2] == one + [None] && (one + [None])[..1] == one && one[..0] == [];
    assert DropMissing(one) == [Point(Month(2023, 1), Number(10.0))];
    assert DropMissing(ps[..2]) == DropMissing(one);
  }

  /** When the headers name strictly increasing months, so do the series' dates: no date appears twice. */
  lemma ReshapeOrdered(headers: seq<string>, values: seq<Cell>)
    requires |headers| == |values|
    requires forall i, j :: 0 <= i < j < |headers| && ParseMonth(headers[i]).Some? && ParseMonth(headers[j]).Some? ==>
      Index(ParseMonth(headers[i]).value) < Index(ParseMonth(headers[j]).value)
    ensures var s := Reshape(headers, values);
      forall k, l :: 0 <= k < l < |s| ==> Index(s[k].date) < Index(s[l].date)
  {
    ReshapeSelectsKept(headers, values);
    var s := Reshape(headers, values);
    var ix :| KeepsExactly(headers, values, s, ix);
    forall k, l | 0 <= k < l < |s| ensures Index(s[k].date) < Index(s[l].date) {
      assert ix[k] < ix[l];
    }
  }

  // ---------------------------------------------------------------------------
  // The forecast of one row

  /** Twelve "no value" markers. */
  function NoValues(): (r: seq<Cell>)
    ensures |r| == Horizon && forall k :: 0 <= k < |r| ==> r[k] == Empty
  {
    seq(Horizon, _ => Empty)
  }

  /** The last twelve predicted points, in order. */
  function LastPoints(yhat: Prediction): (r: seq<Cell>)
    ensures |r| == Horizon && forall k :: 0 <= k < |r| ==> r[k] == Number(yhat[|yhat| - Horizon + k])
  {
    seq(Horizon, k requires 0 <= k < Horizon => Number(yhat[|yhat| - Horizon + k]))
  }

  /** The forecast cells a fit gives: the last twelve predicted points, or "no value" markers when it failed. */
  function FitCells(fit: Fit): (r: seq<Cell>)
    ensures |r| == Horizon
  {
    match fit
    case FitFailed => NoValues()
    case Fitted(yhat) => LastPoints(yhat)
  }

  /** The long series of a row: its dated values, reshaped. */
  function RowSeries(row: seq<Cell>, dateHeaders: seq<string>): Series
    requires |row| == MetaColumns + |dateHeaders|
  {
    Reshape(dateHeaders, row[MetaColumns..])
  }

  /**
   * The twelve forecast cells of a row: "no value" markers when the row has
   * no usable data or when the forecaster fails, else the last twelve
   * predicted points.
   */
  function ProcessRow(row: seq<Cell>, dateHeaders: seq<string>, forecast: Forecaster): (r: seq<Cell>)
    requires |row| == MetaColumns + |dateHeaders|
    ensures |r| == Horizon
    ensures forall k :: 0 <= k < |r| ==> r[k].Empty? || r[k].Number?
  {
    var series := RowSeries(row, dateHeaders);
    if series == [] then NoValues() else FitCells(forecast(series))
  }

  /**
   * A row without usable data gets twelve "no value" markers, whatever the
   * forecaster would do: the forecaster is not consulted.
   */
  lemma EmptySeriesSkipsForecaster(row: seq<Cell>, dateHeaders: seq<string>, f: Forecaster, g: Forecaster)
    requires |row| == MetaColumns + |dateHeaders|
    requires RowSeries(row, dateHeaders) == []
    ensures ProcessRow(row, dateHeaders, f) == NoValues()
    ensures ProcessRow(row, dateHeaders, f) == ProcessRow(row, dateHeaders, g)
  {
  }

  /** A failure of the forecaster gives twelve "no value" markers. */
  lemma FailureGivesNoValues(row: seq<Cell>, dateHeaders: seq<string>, f: Forecaster)
    requires |row| == MetaColumns + |dateHeaders|
    requires f(RowSeries(row, dateHeaders)).FitFailed?
    ensures ProcessRow(row, dateHeaders, f) == NoValues()
  {
  }

  /** On success the forecast is the last twelve predicted points, in order. */
  lemma SuccessGivesLastPoints(row: seq<Cell>, dateHeaders: seq<string>, f: Forecaster)
    requires |row| == MetaColumns + |dateHeaders|
    requires RowSeries(row, dateHeaders) != [] && f(RowSeries(row, dateHeaders)).Fitted?
    ensures var yhat := f(RowSeries(row, dateHeaders)).yhat;
      forall k :: 0 <= k < Horizon ==> ProcessRow(row, dateHeaders, f)[k] == Number(yhat[|yhat| - Horizon + k])
  {
  }

  /**
   * The forecast depends on the row only through its series, and on the
   * forecaster only through its answer for that series; the metadata columns
   * play no part.
   */
  lemma ForecastDependsOnSeriesOnly(row: seq<Cell>, row': seq<Cell>, dateHeaders: seq<string>, f: Forecaster, g: Forecaster)
    requires |row| == |row'| == MetaColumns + |dateHeaders|
    requires RowSeries(row, dateHeaders) == RowSeries(row', dateHeaders)
    requires f(RowSeries(row, dateHeaders)) == g(RowSeries(row, dateHeaders))
    ensures ProcessRow(row, dateHeaders, f) == ProcessRow(row', dateHeaders, g)
  {
  }
}
