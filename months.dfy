/**
 * Calendar months and their `YYYY-MM` text form, and the twelve future-month
 * labels that name the forecast columns (rent_prediction/main.py:24-29).
 */
module Months {
  import opened Wrappers

  /** Number of future months forecast for every row, and number of labels. */
  const Horizon := 12

  /** Four-digit years only. */
  const MinYear := 1
  const MaxYear := 9999

  datatype Month = Month(year: int, month: int)

  predicate Valid(m: Month) {
    MinYear <= m.year <= MaxYear && 1 <= m.month <= 12
  }

  /** Position of a month on the calendar, counted from January of year 0. */
  function Index(m: Month): int {
    m.year * 12 + (m.month - 1)
  }

  function FromIndex(i: int): (m: Month)
    ensures 1 <= m.month <= 12 && Index(m) == i
  {
    Month(i / 12, i % 12 + 1)
  }

  /** The calendar month right after `m`; December rolls over to January. */
  function Next(m: Month): (n: Month)
    requires 1 <= m.month <= 12
    ensures 1 <= n.month <= 12 && Index(n) == Index(m) + 1
  {
    if m.month == 12 then Month(m.year + 1, 1) else Month(m.year, m.month + 1)
  }

  /** The month `k` months after `m`. */
  function AddMonths(m: Month, k: int): (r: Month)
    ensures 1 <= r.month <= 12 && Index(r) == Index(m) + k
  {
    FromIndex(Index(m) + k)
  }

  lemma IndexInjective(m: Month, n: Month)
    requires 1 <= m.month <= 12 && 1 <= n.month <= 12
    requires Index(m) == Index(n)
    ensures m == n
  {
    assert Index(m) / 12 == m.year && Index(m) % 12 == m.month - 1;
    assert Index(n) / 12 == n.year && Index(n) % 12 == n.month - 1;
  }

  lemma NextIsAddOne(m: Month)
    requires 1 <= m.month <= 12
    ensures Next(m) == AddMonths(m, 1)
  {
    IndexInjective(Next(m), AddMonths(m, 1));
  }

  // ---------------------------------------------------------------------------
  // Text form `YYYY-MM`

  predicate IsDigit(c: char) {
    '0' <= c <= '9'
  }

  function DigitValue(c: char): (d: int)
    requires IsDigit(c)
    ensures 0 <= d <= 9
  {
    c as int - '0' as int
  }

  function DigitChar(d: int): (c: char)
    requires 0 <= d <= 9
    ensures IsDigit(c) && DigitValue(c) == d
  {
    ('0' as int + d) as char
  }

  /** Seven characters: four digits, a dash, two digits. */
  predicate IsMonthText(s: string) {
    |s| == 7 && s[4] == '-' &&
    IsDigit(s[0]) && IsDigit(s[1]) && IsDigit(s[2]) && IsDigit(s[3]) &&
    IsDigit(s[5]) && IsDigit(s[6])
  }

  function YearOf(s: string): int
    requires IsMonthText(s)
  {
    1000 * DigitValue(s[0]) + 100 * DigitValue(s[1]) + 10 * DigitValue(s[2]) + DigitValue(s[3])
  }

  function MonthOf(s: string): int
    requires IsMonthText(s)
  {
    10 * DigitValue(s[5]) + DigitValue(s[6])
  }

  /**
   * Parses a `YYYY-MM` header into a month: four-digit year 0001..9999, a
   * dash, a two-digit month 01..12. Anything else does not parse.
   */
  function ParseMonth(s: string): (r: Option<Month>)
    ensures r.Some? ==> Valid(r.value) && IsMonthText(s)
  {
    if IsMonthText(s) && MinYear <= YearOf(s) && 1 <= MonthOf(s) <= 12 then
      Some(Month(YearOf(s), MonthOf(s)))
    else
      None
  }

  /** Writes a valid month as `YYYY-MM`, zero-padded. */
  function FormatMonth(m: Month): (s: string)
    requires Valid(m)
    ensures IsMonthText(s)
  {
    [DigitChar(m.year / 1000), DigitChar(m.year / 100 % 10), DigitChar(m.year / 10 % 10),
     DigitChar(m.year % 10), '-', DigitChar(m.month / 10), DigitChar(m.month % 10)]
  }

  lemma FourDigits(y: int)
    requires 0 <= y <= 9999
    ensures 1000 * (y / 1000) + 100 * (y / 100 % 10) + 10 * (y / 10 % 10) + y % 10 == y
    ensures y / 1000 <= 9
  {
    var q := y / 10;
    assert y == 10 * q + y % 10;
    var q2 := q / 10;
    assert q == 10 * q2 + q % 10;
    assert q2 == y / 100;
    var q3 := q2 / 10;
    assert q2 == 10 * q3 + q2 % 10;
    assert q3 == y / 1000;
  }

  /** Formatting then parsing gives the month back. */
  lemma ParseFormat(m: Month)
    requires Valid(m)
    ensures ParseMonth(FormatMonth(m)) == Some(m)
  {
    var s := FormatMonth(m);
    FourDigits(m.year);
    assert YearOf(s) == m.year;
    assert MonthOf(s) == m.month;
  }

  /** Parsing then formatting gives the text back: the `YYYY-MM` form of a month is unique. */
  lemma FormatParse(s: string)
    requires ParseMonth(s).Some?
    ensures FormatMonth(ParseMonth(s).value) == s
  {
    var m := ParseMonth(s).value;
    var d0, d1, d2, d3 := DigitValue(s[0]), DigitValue(s[1]), DigitValue(s[2]), DigitValue(s[3]);
    var y := m.year;
    assert y == 1000 * d0 + 100 * d1 + 10 * d2 + d3;
    assert y / 10 == 100 * d0 + 10 * d1 + d2 && y % 10 == d3;
    assert y / 100 == 10 * d0 + d1;
    assert y / 1000 == d0;
    var t := FormatMonth(m);
    assert t[0] == s[0] && t[1] == s[1] && t[2] == s[2] && t[3] == s[3];
    assert t[5] == s[5] && t[6] == s[6];
  }

  // ---------------------------------------------------------------------------
  // Future-month labels

  datatype LabelError =
    | InvalidDateFormat(column: string)   // the last date header is not a month
    | DateOutOfRange(column: string)      // the twelve months run past year 9999

  /** The month `k` months after `last`, in text form; the label of forecast column `k - 1`. */
  function Label(last: Month, k: int): (s: string)
    requires Valid(last) && 1 <= k <= Horizon && Index(last) + Horizon <= Index(Month(MaxYear, 12))
  {
    var m := AddMonths(last, k);
    assert Index(m) <= Index(Month(MaxYear, 12));
    assert m.year <= MaxYear;
    FormatMonth(m)
  }

  /**
   * The labels of the twelve forecast columns: the `YYYY-MM` texts of the
   * twelve calendar months that follow the month named by `lastColumn`.
   */
  function PredictionLabels(lastColumn: string): (r: Result<seq<string>, LabelError>)
    ensures r.Success? ==> |r.value| == Horizon && forall k :: 0 <= k < |r.value| ==> IsMonthText(r.value[k])
    ensures ParseMonth(lastColumn).None? <==> r == Failure(InvalidDateFormat(lastColumn))
  {
    match ParseMonth(lastColumn)
    case None => Failure(InvalidDateFormat(lastColumn))
    case Some(last) =>
      if Index(last) + Horizon > Index(Month(MaxYear, 12)) then
        Failure(DateOutOfRange(lastColumn))
      else
        Success(seq(Horizon, k requires 0 <= k < Horizon => Label(last, k + 1)))
  }

  /**
   * The labels are accepted exactly when the last header parses and twelve
   * more months still have four-digit years.
   */
  lemma LabelsSucceedIff(lastColumn: string)
    ensures PredictionLabels(lastColumn).Success? <==>
      ParseMonth(lastColumn).Some? && ParseMonth(lastColumn).value.year < MaxYear
  {
  }

  /**
   * The first label is the month right after the last header's month, and each
   * later label is the month right after the one before it.
   */
  lemma LabelsAreConsecutive(lastColumn: string)
    requires PredictionLabels(lastColumn).Success?
    ensures var labels := PredictionLabels(lastColumn).value;
      && ParseMonth(labels[0]) == Some(Next(ParseMonth(lastColumn).value))
      && forall k :: 0 <= k < Horizon - 1 ==>
           ParseMonth(labels[k]).Some? && ParseMonth(labels[k + 1]) == Some(Next(ParseMonth(labels[k]).value))
  {
    var last := ParseMonth(lastColumn).value;
    var labels := PredictionLabels(lastColumn).value;
    assert labels[0] == Label(last, 1);
    ParseFormat(AddMonths(last, 1));
    NextIsAddOne(last);
    forall k | 0 <= k < Horizon - 1
      ensures ParseMonth(labels[k]).Some? && ParseMonth(labels[k + 1]) == Some(Next(ParseMonth(labels[k]).value))
    {
      var m, n := AddMonths(last, k + 1), AddMonths(last, k + 2);
      assert labels[k] == Label(last, k + 1) && labels[k + 1] == Label(last, k + 2);
      ParseFormat(m);
      ParseFormat(n);
      IndexInjective(Next(m), n);
    }
  }

  /** Label `k` names the month exactly `k + 1` months after the last header's month. */
  lemma LabelsFollowLastHeader(lastColumn: string)
    requires PredictionLabels(lastColumn).Success?
    ensures var labels := PredictionLabels(lastColumn).value;
      forall k :: 0 <= k < |labels| ==>
        ParseMonth(labels[k]).Some? &&
        Index(ParseMonth(labels[k]).value) == Index(ParseMonth(lastColumn).value) + k + 1
  {
    var last := ParseMonth(lastColumn).value;
    var labels := PredictionLabels(lastColumn).value;
    forall k | 0 <= k < |labels|
      ensures ParseMonth(labels[k]).Some? && Index(ParseMonth(labels[k]).value) == Index(last) + k + 1
    {
      assert labels[k] == Label(last, k + 1);
      ParseFormat(AddMonths(last, k + 1));
    }
  }

  /** December rolls over into the next year: after `2023-12` come `2024-01` .. `2024-12`. */
  lemma DecemberRollover()
    ensures PredictionLabels("2023-12") == Success(["2024-01", "2024-02", "2024-03", "2024-04",
      "2024-05", "2024-06", "2024-07", "2024-08", "2024-09", "2024-10", "2024-11", "2024-12"])
  {
    RolloverLabel(0);
    var labels := PredictionLabels("2023-12").value;
    assert labels[0] == "2024-01" by { RolloverLabel(0); }
    assert labels[1] == "2024-02" by { RolloverLabel(1); }
    assert labels[2] == "2024-03" by { RolloverLabel(2); }
    assert labels[3] == "2024-04" by { RolloverLabel(3); }
    assert labels[4] == "2024-05" by { RolloverLabel(4); }
    assert labels[5] == "2024-06" by { RolloverLabel(5); }
    assert labels[6] == "2024-07" by { RolloverLabel(6); }
    assert labels[7] == "2024-08" by { RolloverLabel(7); }
    assert labels[8] == "2024-09" by { RolloverLabel(8); }
    assert labels[9] == "2024-10" by { RolloverLabel(9); }
    assert labels[10] == "2024-11" by { RolloverLabel(10); }
    assert labels[11] == "2024-12" by { RolloverLabel(11); }
    var expected: seq<string> := ["2024-01", "2024-02", "2024-03", "2024-04",
      "2024-05", "2024-06", "2024-07", "2024-08", "2024-09", "2024-10", "2024-11", "2024-12"];
    assert |labels| == |expected|;
    assert forall k :: 0 <= k < 12 ==> labels[k] == expected[k];
    assert labels == expected;
  }

  lemma RolloverLabel(k: int)
    requires 0 <= k < Horizon
    ensures PredictionLabels("2023-12").Success?
    ensures PredictionLabels("2023-12").value[k] == FormatMonth(Month(2024, k + 1))
  {
    assert ParseMonth("2023-12") == Some(Month(2023, 12));
    assert PredictionLabels("2023-12").value[k] == Label(Month(2023, 12), k + 1);
    IndexInjective(AddMonths(Month(2023, 12), k + 1), Month(2024, k + 1));
  }

  /** A header that is not a month is rejected and no labels are produced. */
  lemma MalformedHeaderRejected()
    ensures PredictionLabels("not-a-date") == Failure(InvalidDateFormat("not-a-date"))
  {
  }
}
