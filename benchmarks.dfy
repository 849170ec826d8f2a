/**
 `calculate_benchmarks.py`: derives word accuracy from jiwer's word error rate, collects the
 metrics of every completed run whose transcript can be read and scored, and ranks the runs
 by word accuracy, best first. The jiwer calls are inputs: the repository has no alignment of
 its own.
 */
module Benchmarks {
  import opened Wrappers
  import opened Reals
  import opened Text
  import opened Runs
  import opened Ranking

  /** The jiwer functions `calculate_metrics` calls, on (reference, hypothesis); `None` when
      the call raises. */
  datatype Jiwer = Jiwer(
    wer: (string, string) -> Option<real>,
    cer: (string, string) -> Option<real>,
    processWords: (string, string) -> Option<WordMeasures>)

  /** The dict `calculate_metrics` returns. */
  datatype BenchmarkMetrics = BenchmarkMetrics(
    wer: real,
    cer: real,
    wordAccuracy: real,
    insertions: nat,
    deletions: nat,
    substitutions: nat,
    hits: nat)

  /** `max(0, 1 - wer_value) * 100` */
  function WordAccuracy(wer: real): real
  {
    Max(0.0, 1.0 - wer) * 100.0
  }

  /** For a rate that is not negative, word accuracy is a percentage, 100 exactly for a
      perfect transcript and 0 once there are as many errors as reference words. */
  lemma WordAccuracyRange(wer: real)
    requires wer >= 0.0
    ensures 0.0 <= WordAccuracy(wer) <= 100.0
    ensures WordAccuracy(wer) == 100.0 <==> wer == 0.0
    ensures wer >= 1.0 ==> WordAccuracy(wer) == 0.0
  {
  }

  /** More errors never give a higher accuracy. */
  lemma WordAccuracyAntitone(wer1: real, wer2: real)
    requires wer1 <= wer2
    ensures WordAccuracy(wer2) <= WordAccuracy(wer1)
  {
  }

  /** `calculate_metrics(reference, hypothesis)` of lines 20-43, with `round(·, 2)` given as
      `round`; `None` when a jiwer call raises. */
  function CalculateMetrics(reference: string, hypothesis: string, jiwer: Jiwer, round: real -> real): (r: Option<BenchmarkMetrics>)
    ensures r.Some? <==>
      jiwer.wer(reference, hypothesis).Some? && jiwer.cer(reference, hypothesis).Some? && jiwer.processWords(reference, hypothesis).Some?
    ensures r.Some? ==>
      var output := jiwer.processWords(reference, hypothesis).value;
      && r.value.wer == round(jiwer.wer(reference, hypothesis).value * 100.0)
      && r.value.cer == round(jiwer.cer(reference, hypothesis).value * 100.0)
      && r.value.wordAccuracy == round(WordAccuracy(jiwer.wer(reference, hypothesis).value))
      && r.value.insertions == output.insertions && r.value.deletions == output.deletions
      && r.value.substitutions == output.substitutions && r.value.hits == output.hits
  {
    match (jiwer.wer(reference, hypothesis), jiwer.cer(reference, hypothesis), jiwer.processWords(reference, hypothesis))
    case (Some(werValue), Some(cerValue), Some(output)) =>
      Some(BenchmarkMetrics(
        round(werValue * 100.0), round(cerValue * 100.0), round(WordAccuracy(werValue)),
        output.insertions, output.deletions, output.substitutions, output.hits))
    case _ => None
  }

  /** An entry of `results`. */
  datatype BenchmarkResult = BenchmarkResult(
    runId: string,
    runType: string,
    provider: string,
    model: string,
    engine: string,
    metrics: BenchmarkMetrics)

  /** The file system as the loop sees it: whether a run directory exists, and the contents of
      the transcript `find_transcript_file` picks in it (`None` when there is none or it cannot
      be read). */
  datatype Environment = Environment(
    dirExists: string -> bool,
    transcript: string -> Option<string>)

  /** One pass of the loop of lines 81-126: the result it appends, or `None` when it skips the
      run or the `try` block raises. */
  function ProcessRun(run: RunConfig, reference: string, env: Environment, jiwer: Jiwer, round: real -> real): Option<BenchmarkResult>
  {
    if !run.completed || !env.dirExists(run.outputDir) then None
    else
      match env.transcript(run.outputDir)
      case None => None
      case Some(content) =>
        match CalculateMetrics(reference, Strip(content), jiwer, round)
        case None => None
        case Some(metrics) =>
          if run.runType.Some? && run.provider.Some? && run.model.Some? && run.engine.Some? then
            Some(BenchmarkResult(run.runId, run.runType.value, run.provider.value, run.model.value, run.engine.value, metrics))
          else None
  }

  /** What each run of the configuration yields. */
  function Outcomes(runs: seq<RunConfig>, reference: string, env: Environment, jiwer: Jiwer, round: real -> real): (os: seq<Option<BenchmarkResult>>)
    ensures |os| == |runs| && forall i :: 0 <= i < |runs| ==> os[i] == ProcessRun(runs[i], reference, env, jiwer, round)
  {
    seq(|runs|, i requires 0 <= i < |runs| => ProcessRun(runs[i], reference, env, jiwer, round))
  }

  /** The loop of lines 81-126 over `config['runs']`, given the stripped ground truth. */
  method CollectBenchmarks(runs: seq<RunConfig>, reference: string, env: Environment, jiwer: Jiwer, round: real -> real)
    returns (results: seq<BenchmarkResult>)
    ensures results == Kept(Outcomes(runs, reference, env, jiwer, round))
  {
    ghost var outcomes := Outcomes(runs, reference, env, jiwer, round);
    results := [];
    var i := 0;
    while i < |runs|
      invariant 0 <= i <= |runs|
      invariant results == Kept(outcomes[..i])
    {
      var run := runs[i];
      assert outcomes[..i + 1] == outcomes[..i] + [outcomes[i]];
      KeptSnoc(outcomes[..i], outcomes[i]);
      if run.completed && env.dirExists(run.outputDir) {
        var transcript := env.transcript(run.outputDir);
        if transcript.Some? {
          var hypothesisText := Strip(transcript.value);
          var metrics := CalculateMetrics(reference, hypothesisText, jiwer, round);
          if metrics.Some? && run.runType.Some? && run.provider.Some? && run.model.Some? && run.engine.Some? {
            var result := BenchmarkResult(run.runId, run.runType.value, run.provider.value, run.model.value,
              run.engine.value, metrics.value);
            results := results + [result];
          }
        }
      }
      i := i + 1;
    }
    assert outcomes[..i] == outcomes;
  }

  /** The results are those of the completed runs whose directory exists, in configuration
      order: the k-th result belongs to the run at the k-th of a strictly increasing list of
      positions, and a run is among them exactly when processing it produced a result. */
  lemma CollectedInOrder(runs: seq<RunConfig>, reference: string, env: Environment, jiwer: Jiwer, round: real -> real)
    ensures var outcomes := Outcomes(runs, reference, env, jiwer, round);
      var results, positions := Kept(outcomes), KeptPositions(outcomes);
      && |positions| == |results| <= |runs|
      && (forall a, b :: 0 <= a < b < |positions| ==> positions[a] < positions[b])
      && (forall k :: 0 <= k < |positions| ==>
            positions[k] < |runs|
            && runs[positions[k]].completed && env.dirExists(runs[positions[k]].outputDir)
            && results[k].runId == runs[positions[k]].runId
            && Some(results[k]) == ProcessRun(runs[positions[k]], reference, env, jiwer, round))
      && (forall i :: 0 <= i < |runs| ==>
            (ProcessRun(runs[i], reference, env, jiwer, round).Some? <==> i in positions))
  {
    KeptOrder(Outcomes(runs, reference, env, jiwer, round));
  }

  /** The sort key of line 149. */
  function AccuracyOf(r: BenchmarkResult): real
  {
    r.metrics.wordAccuracy
  }

  /** Lines 149-157: the results by descending word accuracy, numbered from 1. */
  method BenchmarkRankings(results: seq<BenchmarkResult>) returns (rows: seq<Ranked<BenchmarkResult>>)
    ensures |rows| == |results|
    ensures forall i :: 0 <= i < |rows| ==> rows[i].rank == i + 1
    ensures multiset(Items(rows)) == multiset(results)
    ensures Ordered(Items(rows), AccuracyOf, true)
    ensures KeepsTies(results, Items(rows), AccuracyOf)
  {
    rows := RankRows(results, AccuracyOf, true);
  }
}
