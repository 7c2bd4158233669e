/**
 * The batch driver (rent_prediction/main.py:46-55): every `.csv` file of the
 * input directory, in listing order, is forecast and written under the name
 * `predictions_<name>`. The first file that fails stops the batch; the files
 * before it have already been written.
 *
 * Listing the directory, reading and writing files are not modelled: the
 * listing is a sequence of named tables and the outputs are returned.
 */
module Batch {
  import opened Wrappers
  import opened Forecasting
  import opened Tables

  datatype InputFile = InputFile(name: string, table: Table)

  datatype OutputFile = OutputFile(name: string, table: Table)

  /** The file that stopped the batch, and why. */
  datatype FileFailure = FileFailure(name: string, error: FileError)

  /** The files written, in order, and the failure that stopped the batch, if any. */
  datatype BatchOutcome = BatchOutcome(written: seq<OutputFile>, failure: Option<FileFailure>)

  const OutputPrefix := "predictions_"

  /** The name ends in `.csv`, case-sensitively. */
  predicate IsCsv(name: string) {
    |name| >= 4 && name[|name| - 4..] == ".csv"
  }

  function OutputName(name: string): string {
    OutputPrefix + name
  }

  predicate AllRectangular(files: seq<InputFile>) {
    forall i :: 0 <= i < |files| ==> Rectangular(files[i].table)
  }

  /** What the batch does with a directory listing. */
  function RunBatch(files: seq<InputFile>, forecast: Forecaster): (b: BatchOutcome)
    requires AllRectangular(files)
    ensures |b.written| <= |files|
    decreases |files|
  {
    if files == [] then BatchOutcome([], None)
    else
      var rest := RunBatch(files[1..], forecast);
      if !IsCsv(files[0].name) then rest
      else
        match ForecastTable(files[0].table, forecast)
        case Failure(e) => BatchOutcome([], Some(FileFailure(files[0].name, e)))
        case Success(t) => BatchOutcome([OutputFile(OutputName(files[0].name), t)] + rest.written, rest.failure)
  }

  /**
   * Every file written is the forecast of a `.csv` input, under that input's
   * name with the `predictions_` prefix.
   */
  lemma {:induction false} WrittenFilesAreForecasts(files: seq<InputFile>, forecast: Forecaster)
    requires AllRectangular(files)
    ensures forall w :: w in RunBatch(files, forecast).written ==>
      exists f :: f in files && IsCsv(f.name) && w.name == OutputName(f.name) &&
        ForecastTable(f.table, forecast) == Success(w.table)
    decreases |files|
  {
    if files != [] {
      WrittenFilesAreForecasts(files[1..], forecast);
      forall w | w in RunBatch(files, forecast).written
        ensures exists f :: (f in files && IsCsv(f.name) && w.name == OutputName(f.name) &&
          ForecastTable(f.table, forecast) == Success(w.table))
      {
        if w !in RunBatch(files[1..], forecast).written {
          assert files[0] in files;
        } else {
          var f :| f in files[1..] && IsCsv(f.name) && w.name == OutputName(f.name) &&
            ForecastTable(f.table, forecast) == Success(w.table);
          assert f in files;
        }
      }
    }
  }

  /** A failure names a `.csv` input whose forecast fails with that error. */
  lemma {:induction false} FailureNamesFailingFile(files: seq<InputFile>, forecast: Forecaster)
    requires AllRectangular(files)
    requires RunBatch(files, forecast).failure.Some?
    ensures var fail := RunBatch(files, forecast).failure.value;
      exists f :: f in files && IsCsv(f.name) && f.name == fail.name &&
        ForecastTable(f.table, forecast) == Failure(fail.error)
    decreases |files|
  {
    var fail := RunBatch(files, forecast).failure.value;
    if IsCsv(files[0].name) && ForecastTable(files[0].table, forecast).Failure? {
      assert files[0] in files;
    } else {
      FailureNamesFailingFile(files[1..], forecast);
      var f :| f in files[1..] && IsCsv(f.name) && f.name == fail.name &&
        ForecastTable(f.table, forecast) == Failure(fail.error);
      assert f in files;
    }
  }

  /**
   * The batch stops at the first failing `.csv` file: the files listed after
   * it are not processed, and the ones before it are written.
   */
  lemma {:induction false} FailureStopsBatch(before: seq<InputFile>, bad: InputFile, after: seq<InputFile>, forecast: Forecaster)
    requires AllRectangular(before) && Rectangular(bad.table) && AllRectangular(after)
    requires IsCsv(bad.name) && ForecastTable(bad.table, forecast).Failure?
    requires RunBatch(before, forecast).failure.None?
    ensures AllRectangular(before + [bad] + after)
    ensures RunBatch(before + [bad] + after, forecast) ==
      BatchOutcome(RunBatch(before, forecast).written, Some(FileFailure(bad.name, ForecastTable(bad.table, forecast).error)))
    decreases |before|
  {
    if before == [] {
      assert before + [bad] + after == [bad] + after;
    } else {
      assert (before + [bad] + after)[1..] == before[1..] + [bad] + after;
      FailureStopsBatch(before[1..], bad, after, forecast);
    }
  }

  /** The number of `.csv` names in a listing. */
  function CsvCount(files: seq<InputFile>): nat {
    if files == [] then 0 else (if IsCsv(files[0].name) then 1 else 0) + CsvCount(files[1..])
  }

  /** No `.csv` file of the listing fails. */
  predicate NoCsvFails(files: seq<InputFile>, forecast: Forecaster)
    requires AllRectangular(files)
  {
    forall i :: 0 <= i < |files| && IsCsv(files[i].name) ==> ForecastTable(files[i].table, forecast).Success?
  }

  /**
   * The output each file of a clean listing gives: its forecast under the
   * prefixed name for a `.csv` file, and `None` for any other file.
   */
  function CsvTagged(files: seq<InputFile>, forecast: Forecaster): (t: seq<Option<OutputFile>>)
    requires AllRectangular(files) && NoCsvFails(files, forecast)
    ensures |t| == |files|
  {
    seq(|files|, i requires 0 <= i < |files| =>
      if IsCsv(files[i].name) then Some(OutputFile(OutputName(files[i].name), ForecastTable(files[i].table, forecast).value))
      else None)
  }

  /**
   * When no `.csv` file fails, the batch completes and writes one output per
   * `.csv` file: each file's own forecast under its own name, in listing order,
   * and nothing for the other files.
   */
  lemma {:induction false} CleanBatchWritesEveryCsv(files: seq<InputFile>, forecast: Forecaster)
    requires AllRectangular(files)
    requires forall f :: f in files && IsCsv(f.name) ==> ForecastTable(f.table, forecast).Success?
    ensures RunBatch(files, forecast).failure.None?
    ensures |RunBatch(files, forecast).written| == CsvCount(files)
    ensures NoCsvFails(files, forecast)
    ensures RunBatch(files, forecast).written == DropMissing(CsvTagged(files, forecast))
    ensures exists ix :: Selects(CsvTagged(files, forecast), RunBatch(files, forecast).written, ix)
    decreases |files|
  {
    assert NoCsvFails(files, forecast) by {
      forall i | 0 <= i < |files| && IsCsv(files[i].name) ensures ForecastTable(files[i].table, forecast).Success? {
        assert files[i] in files;
      }
    }
    if files != [] {
      assert forall f :: f in files[1..] ==> f in files;
      assert files[0] in files;
      CleanBatchWritesEveryCsv(files[1..], forecast);
      var t := CsvTagged(files, forecast);
      assert t == [t[0]] + CsvTagged(files[1..], forecast);
      DropMissingCons(t[0], CsvTagged(files[1..], forecast));
    }
    DropMissingSelects(CsvTagged(files, forecast));
  }

  /**
   * Runs the batch over a directory listing: each `.csv` file is forecast in
   * turn and its output recorded; the first failure ends the run.
   */
  method ProcessDirectory(files: seq<InputFile>, forecast: Forecaster) returns (written: seq<OutputFile>, failure: Option<FileFailure>)
    requires AllRectangular(files)
    ensures BatchOutcome(written, failure) == RunBatch(files, forecast)
  {
    written, failure := [], None;
    var i := 0;
    while i < |files|
      invariant 0 <= i <= |files|
      invariant RunBatch(files, forecast) ==
        BatchOutcome(written + RunBatch(files[i..], forecast).written, RunBatch(files[i..], forecast).failure)
    {
      assert files[i..][1..] == files[i + 1..];
      if IsCsv(files[i].name) {
        var r, _ := ProcessCsv(files[i].table, forecast);
        if r.Failure? {
          failure := Some(FileFailure(files[i].name, r.error));
          return;
        }
        written := written + [OutputFile(OutputName(files[i].name), r.value)];
      }
      i := i + 1;
    }
  }
}
