/**
 `evaluate_transcripts.py`: packages the scores jiwer and werpy give a transcript, evaluates
 every completed run that has a transcript, and builds the summary report ordered by word
 error rate, best first. The library calls are inputs: the repository has no alignment of its
 own.
 */
module Evaluation {
  import opened Wrappers
  import opened Text
  import opened Runs
  import opened Ranking
  import Benchmarks

  /** What `werpy.wer` returns: a float, or a value of another type. */
  datatype WerpyValue = WerpyFloat(rate: real) | WerpyOther

  /** The library functions `calculate_metrics` calls, on (reference, hypothesis); `None` when
      the call raises. */
  datatype Libraries = Libraries(
    wer: (string, string) -> Option<real>,
    cer: (string, string) -> Option<real>,
    computeMeasures: (string, string) -> Option<WordMeasures>,
    werpy: (string, string) -> Option<WerpyValue>)

  /** The dict `calculate_metrics` returns. */
  datatype EvalMetrics = EvalMetrics(
    wer: real,
    cer: real,
    wordAccuracy: real,
    substitutions: nat,
    deletions: nat,
    insertions: nat,
    hits: nat,
    referenceWords: nat,
    hypothesisWords: nat,
    werpyWer: Option<real>)

  /** `calculate_metrics(reference, hypothesis)` of lines 33-57; `None` when a library call
      raises. */
  function CalculateMetrics(reference: string, hypothesis: string, libs: Libraries): (r: Option<EvalMetrics>)
    ensures r.Some? <==>
      && libs.wer(reference, hypothesis).Some? && libs.cer(reference, hypothesis).Some?
      && libs.computeMeasures(reference, hypothesis).Some? && libs.werpy(reference, hypothesis).Some?
    ensures r.Some? ==>
      && r.value.wer == libs.wer(reference, hypothesis).value
      && r.value.cer == libs.cer(reference, hypothesis).value
      && r.value.substitutions == libs.computeMeasures(reference, hypothesis).value.substitutions
      && r.value.deletions == libs.computeMeasures(reference, hypothesis).value.deletions
      && r.value.insertions == libs.computeMeasures(reference, hypothesis).value.insertions
      && r.value.hits == libs.computeMeasures(reference, hypothesis).value.hits
      && r.value.wordAccuracy + r.value.wer == 1.0
      && (r.value.wer > 1.0 ==> r.value.wordAccuracy < 0.0)
      && r.value.referenceWords == |Words(reference)|
      && r.value.hypothesisWords == |Words(hypothesis)|
      && r.value.werpyWer == (
           match libs.werpy(reference, hypothesis).value
           case WerpyFloat(rate) => Some(rate)
           case WerpyOther => None)
  {
    match (libs.wer(reference, hypothesis), libs.cer(reference, hypothesis),
           libs.computeMeasures(reference, hypothesis), libs.werpy(reference, hypothesis))
    case (Some(wer), Some(cer), Some(measures), Some(werpyResult)) =>
      Some(EvalMetrics(
        wer, cer, 1.0 - wer,
        measures.substitutions, measures.deletions, measures.insertions, measures.hits,
        |Words(reference)|, |Words(hypothesis)|,
        if werpyResult.WerpyFloat? then Some(werpyResult.rate) else None))
    case _ => None
  }

  /** The two scripts agree on word accuracy, up to the factor 100, for rates in [0, 1], and
      disagree above 1, where `calculate_benchmarks.py` clamps to 0 and this script goes
      negative. */
  lemma AccuracyAgreesWithBenchmarks(wer: real)
    ensures 0.0 <= wer <= 1.0 ==> Benchmarks.WordAccuracy(wer) == (1.0 - wer) * 100.0
    ensures wer > 1.0 ==> Benchmarks.WordAccuracy(wer) == 0.0 && 1.0 - wer < 0.0
  {
  }

  /** An entry of `results`. */
  datatype EvalResult = EvalResult(
    runId: string,
    runType: string,
    provider: string,
    model: string,
    engine: string,
    processingTime: real,
    metrics: EvalMetrics)

  /** The file system as the loop sees it: the contents of `transcript.txt` in a run
      directory (`None` when it does not exist), and `processing_time_seconds` of the run's
      `metadata.json` (0 when the file or the key is absent). */
  datatype Environment = Environment(
    transcript: string -> Option<string>,
    processingTime: string -> real)

  /** What one pass of the loop of lines 79-116 does: skip the run, raise (nothing catches
      the exception, so the whole evaluation stops), or append a result. */
  datatype Step = Skip | Abort | Keep(result: EvalResult)

  function EvaluateRun(run: RunConfig, groundTruth: string, env: Environment, libs: Libraries): Step
  {
    if !run.completed then Skip
    else
      match env.transcript(run.outputDir)
      case None => Skip
      case Some(content) =>
        if run.provider.None? || run.model.None? then Abort
        else
          match CalculateMetrics(groundTruth, Strip(content), libs)
          case None => Abort
          case Some(metrics) =>
            if run.runType.None? then Abort
            else
              Keep(EvalResult(run.runId, run.runType.value, run.provider.value, run.model.value,
                if run.engine.Some? then run.engine.value else "unknown",
                env.processingTime(run.outputDir), metrics))
  }

  /** What each run of the configuration does. */
  function Steps(runs: seq<RunConfig>, groundTruth: string, env: Environment, libs: Libraries): (ss: seq<Step>)
    ensures |ss| == |runs| && forall i :: 0 <= i < |runs| ==> ss[i] == EvaluateRun(runs[i], groundTruth, env, libs)
  {
    seq(|runs|, i requires 0 <= i < |runs| => EvaluateRun(runs[i], groundTruth, env, libs))
  }

  /** The result a step appends, if any. */
  function Appended(steps: seq<Step>): (os: seq<Option<EvalResult>>)
    ensures |os| == |steps| && forall i :: 0 <= i < |steps| ==> (os[i].Some? <==> steps[i].Keep?)
    ensures forall i :: 0 <= i < |steps| && steps[i].Keep? ==> os[i] == Some(steps[i].result)
  {
    seq(|steps|, i requires 0 <= i < |steps| => if steps[i].Keep? then Some(steps[i].result) else None)
  }

  /** What `evaluate_all_runs` returns: `None` when a run raised, otherwise the results. */
  function Evaluated(steps: seq<Step>): Option<seq<EvalResult>>
  {
    if exists i :: 0 <= i < |steps| && steps[i].Abort? then None else Some(Kept(Appended(steps)))
  }

  /** The loop of lines 79-116, given the stripped ground truth. */
  method EvaluateAllRuns(runs: seq<RunConfig>, groundTruth: string, env: Environment, libs: Libraries)
    returns (results: Option<seq<EvalResult>>)
    ensures results == Evaluated(Steps(runs, groundTruth, env, libs))
  {
    ghost var steps := Steps(runs, groundTruth, env, libs);
    ghost var appended := Appended(steps);
    var collected: seq<EvalResult> := [];
    var i := 0;
    while i < |runs|
      invariant 0 <= i <= |runs|
      invariant forall j :: 0 <= j < i ==> !steps[j].Abort?
      invariant collected == Kept(appended[..i])
    {
      var run := runs[i];
      ghost var step := EvaluateRun(run, groundTruth, env, libs);
      assert step == steps[i];
      KeptPrefix(appended, i);
      if !run.completed {
        i := i + 1;
        continue;
      }
      var transcript := env.transcript(run.outputDir);
      if transcript.None? {
        i := i + 1;
        continue;
      }
      if run.provider.None? || run.model.None? {
        AbortStops(steps, i);
        return None;
      }
      var metrics := CalculateMetrics(groundTruth, Strip(transcript.value), libs);
      if metrics.None? || run.runType.None? {
        AbortStops(steps, i);
        return None;
      }
      var processingTime := env.processingTime(run.outputDir);
      var result := EvalResult(run.runId, run.runType.value, run.provider.value, run.model.value,
        if run.engine.Some? then run.engine.value else "unknown", processingTime, metrics.value);
      assert step == Keep(result);
      collected := collected + [result];
      i := i + 1;
    }
    assert appended[..i] == appended;
    results := Some(collected);
  }

  /** A run that raises ends the evaluation with no results. */
  lemma AbortStops(steps: seq<Step>, i: nat)
    requires i < |steps| && steps[i].Abort?
    ensures Evaluated(steps) == None
  {
  }

  /** The evaluation completes exactly when no run raises; then the results are those of the
      completed runs with a transcript, in configuration order: the k-th result belongs to the
      run at the k-th of a strictly increasing list of positions, and every completed run with
      a transcript is among them. */
  lemma EvaluatedInOrder(runs: seq<RunConfig>, groundTruth: string, env: Environment, libs: Libraries)
    ensures var steps := Steps(runs, groundTruth, env, libs);
      Evaluated(steps).Some? <==> forall i :: 0 <= i < |runs| ==> !steps[i].Abort?
    ensures var steps := Steps(runs, groundTruth, env, libs);
      Evaluated(steps).Some? ==>
        var results, positions := Evaluated(steps).value, KeptPositions(Appended(steps));
        && |positions| == |results| <= |runs|
        && (forall a, b :: 0 <= a < b < |positions| ==> positions[a] < positions[b])
        && (forall k :: 0 <= k < |positions| ==>
              positions[k] < |runs|
              && runs[positions[k]].completed && env.transcript(runs[positions[k]].outputDir).Some?
              && results[k].runId == runs[positions[k]].runId
              && EvaluateRun(runs[positions[k]], groundTruth, env, libs) == Keep(results[k]))
        && (forall i :: 0 <= i < |runs| ==>
              (runs[i].completed && env.transcript(runs[i].outputDir).Some? <==> i in positions))
  {
    var steps := Steps(runs, groundTruth, env, libs);
    KeptOrder(Appended(steps));
  }

  // ---------------------------------------------------------------------------------------
  // generate_summary_report

  /** A line of the results table. */
  datatype TableRow = TableRow(rank: nat, runId: string, provider: string, model: string, werPercent: real, cerPercent: real)

  /** The detailed breakdown of one run; the processing time line appears only when it is
      positive. */
  datatype Detail = Detail(runId: string, provider: string, model: string, runType: string,
    metrics: EvalMetrics, processingTime: Option<real>)

  /** The content of the report, apart from headings and number formatting. */
  datatype Report = Report(table: seq<TableRow>, details: seq<Detail>)

  /** The sort key of line 153. */
  function WerOf(r: EvalResult): real
  {
    r.metrics.wer
  }

  function RowOf(rank: nat, r: EvalResult): TableRow
  {
    TableRow(rank, r.runId, r.provider, r.model, r.metrics.wer * 100.0, r.metrics.cer * 100.0)
  }

  function DetailOf(r: EvalResult): Detail
  {
    Detail(r.runId, r.provider, r.model, r.runType, r.metrics,
      if r.processingTime > 0.0 then Some(r.processingTime) else None)
  }

  /** The results table of lines 167-173: rank `i + 1` for the `i`-th run. */
  method ResultsTable(sortedResults: seq<EvalResult>) returns (table: seq<TableRow>)
    ensures |table| == |sortedResults|
    ensures forall i :: 0 <= i < |sortedResults| ==> table[i] == RowOf(i + 1, sortedResults[i])
  {
    table := [];
    var idx := 0;
    while idx < |sortedResults|
      invariant 0 <= idx <= |sortedResults| && |table| == idx
      invariant forall i :: 0 <= i < idx ==> table[i] == RowOf(i + 1, sortedResults[i])
    {
      var result := sortedResults[idx];
      table := table + [TableRow(idx + 1, result.runId, result.provider, result.model,
        result.metrics.wer * 100.0, result.metrics.cer * 100.0)];
      idx := idx + 1;
    }
  }

  /** The detailed breakdown of lines 182-196, one entry per run in the given order. */
  method Breakdown(sortedResults: seq<EvalResult>) returns (details: seq<Detail>)
    ensures |details| == |sortedResults|
    ensures forall i :: 0 <= i < |sortedResults| ==> details[i] == DetailOf(sortedResults[i])
  {
    details := [];
    var j := 0;
    while j < |sortedResults|
      invariant 0 <= j <= |sortedResults| && |details| == j
      invariant forall i :: 0 <= i < j ==> details[i] == DetailOf(sortedResults[i])
    {
      var result := sortedResults[j];
      var processingTime: Option<real> := None;
      if result.processingTime > 0.0 {
        processingTime := Some(result.processingTime);
      }
      details := details + [Detail(result.runId, result.provider, result.model, result.runType,
        result.metrics, processingTime)];
      j := j + 1;
    }
  }

  /** Lines 145-199: no report for no results; otherwise the table ranks the results 1..n by
      ascending word error rate (a permutation, ties in input order) and the breakdown lists
      the runs in the order of the table. */
  method GenerateSummaryReport(results: seq<EvalResult>) returns (report: Option<Report>)
    ensures report.None? <==> results == []
    ensures report.Some? ==>
      var sortedResults := StableSort(results, WerOf, false);
      && |sortedResults| == |results|
      && multiset(sortedResults) == multiset(results)
      && Ordered(sortedResults, WerOf, false)
      && KeepsTies(results, sortedResults, WerOf)
      && |report.value.table| == |report.value.details| == |results|
      && (forall i :: 0 <= i < |results| ==>
            report.value.table[i] == RowOf(i + 1, sortedResults[i])
            && report.value.details[i] == DetailOf(sortedResults[i]))
  {
    if results == [] {
      return None;
    }
    var sortedResults := StableSort(results, WerOf, false);
    StableSortCorrect(results, WerOf, false);
    var table := ResultsTable(sortedResults);
    var details := Breakdown(sortedResults);
    report := Some(Report(table, details));
  }
}
