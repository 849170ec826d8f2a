# Long-Form-Audio-Eval: punctuation scoring, subtitle extraction and run ranking

This project is a Dafny model of the scoring core of Long-Form-Audio-Eval. The repository
compares speech-to-text transcripts of one long recording against a ground-truth transcript.
It models four scripts:

- `scripts/calculate_punctuation_accuracy.py` (module `Punctuation`):
  - counts punctuation marks;
  - extracts each mark together with its word context;
  - groups the contexts and matches the reference contexts against the hypothesis;
  - scores per-mark count accuracy, punctuation density and the 0.7/0.3 composite score;
  - ranks the runs by that score.
- `scripts/srt_to_text.py` (module `Srt`): the transformation inside `srt_to_plaintext`, from
  the contents of a subtitle file to the plain text it returns.
- `scripts/calculate_benchmarks.py` (module `Benchmarks`):
  - the clamped word accuracy derived from jiwer's word error rate;
  - the filtering of the configured runs into results;
  - the ranking by accuracy, best first.
- `scripts/evaluate_transcripts.py` (module `Evaluation`):
  - `calculate_metrics`, with the unclamped accuracy `1 - wer`;
  - the run loop of `evaluate_all_runs`;
  - the content and order of the summary report.

Shared modules:

- `Text`: Python's whitespace, `split()`, `strip()`, `' '.join`, `lower()` and
  `re.sub(r'\s+', ' ', …)`. There is one tokeniser, `Text.Words`.
- `Ranking`: `sorted(…, key=…)` in both directions as a stable insertion sort, plus
  `enumerate(…, 1)`. `StableOrderUnique` shows that "ordered by the key and keeping ties in
  input order" determines the result.
- `Runs`: a configuration entry, and the "keep the runs that yield a result, in order"
  filtering.
- `Wrappers`: `Option`.

The imperative code is modelled as methods with loops, each proved equal to a specification
function. The properties are proved about those functions. The loops are:

- the `Counter` loop;
- the nested extraction loops;
- the dictionary-building loops;
- the matching loop;
- the per-mark loop;
- the per-block loop of the subtitle converter;
- the run loops;
- the report loops.

Values from outside the repository are parameters of the model:

- jiwer's and werpy's numbers, as functions returning `Option`, with `None` when the call
  raises;
- `str.isalnum`, as `alnum`;
- `round(x, 2)`, as `round`;
- the file system, as lookups from a run directory to a transcript, to a directory-exists
  flag, or to the processing time.

Floating-point numbers are `real`.

Two behaviours of the code are worth stating outright:

- The overall punctuation score is not clamped to [0, 100]. It can be negative, as
  `Punctuation.ScoreUnclamped` shows.
- `evaluate_transcripts.py` does not isolate a failing run. An exception in one run (a
  missing `provider`, `model` or `run_type` key, or a library error) ends the whole
  evaluation. `Evaluation.EvaluateAllRuns` returns `None` then. By contrast,
  `calculate_benchmarks.py` catches the exception and skips that run.

## Model

| member | source | states |
|---|---|---|
| Text.Words | scripts/calculate_punctuation_accuracy.py:22 | `text.split()` yields only non-empty tokens without whitespace |
| Text.Strip | scripts/srt_to_text.py:46 | the stripped string has no leading or trailing whitespace and is no longer than the input |
| Text.LStrip | scripts/srt_to_text.py:46 | the left half of `strip()`: the result does not start with whitespace and is a suffix of the input, with only whitespace cut (`LStripDrops`) |
| Text.RStrip | scripts/srt_to_text.py:46 | the right half of `strip()`: the result does not end with whitespace and is a prefix of the input, with only whitespace cut (`RStripDrops`) |
| Text.LStripDrops | scripts/srt_to_text.py:46 | the characters `lstrip()` removes are exactly a leading run of whitespace |
| Text.RStripDrops | scripts/srt_to_text.py:46 | the characters `rstrip()` removes are exactly a trailing run of whitespace |
| Text.StripEmpty | scripts/srt_to_text.py:46-47 | a line strips to the empty string exactly when it is all whitespace |
| Text.StripPadded | scripts/srt_to_text.py:62 | stripping removes exactly the surrounding whitespace from an already trimmed core |
| Text.JoinSpace | scripts/srt_to_text.py:53-59 | `' '.join(parts)`; defines the join, and `JoinSpaceAppend` and `JoinTokensTrimmed` state its properties |
| Text.JoinSpaceAppend | scripts/srt_to_text.py:53-59 | joining two non-empty lists puts exactly one space between their joins |
| Text.JoinTokensTrimmed | scripts/srt_to_text.py:53-59 | joining whitespace tokens gives a trimmed string that is empty exactly when there are no tokens |
| Text.CollapseSpace | scripts/srt_to_text.py:62 | `re.sub(r'\s+', ' ', s)`: the result is empty exactly when the input is, and it starts with whitespace exactly when the input does |
| Text.CollapseSpaceCollapsed | scripts/srt_to_text.py:62 | after `re.sub(r'\s+', ' ', …)` every whitespace character is a plain space and no two are adjacent |
| Text.StripCollapseIsJoinWords | scripts/srt_to_text.py:62 | collapsing whitespace and then stripping equals joining the whitespace tokens with single spaces |
| Text.CollapseSpaceIdentity | scripts/srt_to_text.py:62 | collapsing a string that has no adjacent whitespace and no whitespace other than single spaces leaves it unchanged |
| Text.JoinCollapsed | scripts/srt_to_text.py:59 | joining non-empty, trimmed, collapsed lines with single spaces gives a trimmed, collapsed, non-empty string |
| Text.LowerTrimmed | scripts/calculate_punctuation_accuracy.py:36 | lower-casing keeps a trimmed string trimmed and leaves no upper-case ASCII letter |
| Text.LowerChar | scripts/calculate_punctuation_accuracy.py:36 | the lower-cased character is not an ASCII capital, and it is whitespace exactly when the original is |
| Text.Lower | scripts/calculate_punctuation_accuracy.py:36 | the ASCII model of `str.lower()` keeps the length and lower-cases each character in place |
| Srt.StripBom | scripts/srt_to_text.py:28 | the result never starts with U+FEFF |
| Srt.StripBomDrops | scripts/srt_to_text.py:28 | exactly the leading U+FEFF characters are removed and the rest is kept |
| Srt.StripBomPrefix | scripts/srt_to_text.py:28 | any number of leading byte-order marks is removed |
| Srt.PlainTextBom | scripts/srt_to_text.py:28 | leading byte-order marks do not change the returned text |
| Srt.MatchEndLongest | scripts/srt_to_text.py:31 | the separator match at a position is the longest `\n\s*\n`, and there is none exactly when no prefix is one |
| Srt.SeparatorRun | scripts/srt_to_text.py:31 | a run of whitespace holding several blank lines between two blocks is a single separator |
| Srt.SingleBlock | scripts/srt_to_text.py:31 | text without a separator is one block |
| Srt.MatchEnd | scripts/srt_to_text.py:31 | the end of the greedy `\n\s*\n` match at a position, if any; `MatchEndLongest` states its meaning |
| Srt.SplitFrom | scripts/srt_to_text.py:31 | the scan of `re.split`, which always returns at least one piece; `SplitShift` shows it depends only on the text after the scan position |
| Srt.SplitShift | scripts/srt_to_text.py:31 | splitting the text after a prefix gives the same blocks as splitting that text alone |
| Srt.Blocks | scripts/srt_to_text.py:31 | `re.split(r'\n\s*\n', s)`; `SingleBlock` and `SeparatorRun` state how it cuts |
| Srt.SplitLinesJoin | scripts/srt_to_text.py:36 | `split('\n')` gives lines without newlines whose join with newlines is the input |
| Srt.JoinLinesSplit | scripts/srt_to_text.py:36 | splitting lines joined with newlines gives them back |
| Srt.SplitLinesCount | scripts/srt_to_text.py:36 | `split('\n')` yields one line more than there are newlines |
| Srt.SplitLines | scripts/srt_to_text.py:36 | `split('\n')` never returns an empty list; `SplitLinesJoin`, `JoinLinesSplit` and `SplitLinesCount` state that it inverts the newline join |
| Srt.ShortBlock | scripts/srt_to_text.py:36-45 | a block of at most two lines contributes no text |
| Srt.BlockDropsHeader | scripts/srt_to_text.py:36-48 | the first two lines of a block are dropped whatever they hold, and the body lines are kept, stripped and non-empty |
| Srt.KeepNonEmpty | scripts/srt_to_text.py:45-48 | every kept line is non-empty and trimmed |
| Srt.KeepNonEmptyAppend | scripts/srt_to_text.py:45-48 | filtering lines commutes with concatenation, so the kept lines keep their order |
| Srt.BlockText | scripts/srt_to_text.py:36-48 | one block's text lines, from the third line on; `ShortBlock` and `BlockDropsHeader` state its meaning |
| Srt.StrippedLines | scripts/srt_to_text.py:45-48 | the inner loop keeps the stripped non-blank lines in their order |
| Srt.KeptLinesAppend | scripts/srt_to_text.py:35-56 | blocks contribute their lines in block order |
| Srt.KeptLinesTrimmed | scripts/srt_to_text.py:35-56 | every line collected from the blocks is non-empty and trimmed |
| Srt.SrtToPlaintext | scripts/srt_to_text.py:28-62 | the loop over blocks returns the specified text, the same for `join_fragments` true and false |
| Srt.PlainText | scripts/srt_to_text.py:28-62 | the string `srt_to_plaintext` returns; `PlainTextClean`, `PlainTextWords`, `PlainTextBlank` and `PlainTextBom` state its properties |
| Srt.PlainTextJoinsLines | scripts/srt_to_text.py:50-62 | when every kept line already has only single plain spaces inside, the returned text is the kept lines joined with single spaces |
| Srt.PlainTextWords | scripts/srt_to_text.py:59-62 | the returned text is the whitespace tokens of the joined lines, single-spaced |
| Srt.PlainTextClean | scripts/srt_to_text.py:59-62 | the returned text has no leading or trailing whitespace, no two adjacent whitespace characters and no newline |
| Srt.PlainTextBlank | scripts/srt_to_text.py:31-62 | empty or all-whitespace contents (after the byte-order mark) give "" |
| Ranking.StableSortCorrect | scripts/calculate_benchmarks.py:149 | `sorted` returns a permutation of the same length, ordered by the key in the requested direction, with equal keys in input order |
| Ranking.StableSort | scripts/calculate_benchmarks.py:149 | `sorted(xs, key=…, reverse=…)` as a stable insertion sort; `StableSortCorrect` and `StableOrderUnique` characterise it |
| Ranking.StableSortPermutes | scripts/calculate_benchmarks.py:149 | the sort returns a permutation of the input |
| Ranking.StableSortOrdered | scripts/calculate_benchmarks.py:149 | the sort returns the items ordered by the key in the requested direction |
| Ranking.StableSortKeepsTies | scripts/calculate_benchmarks.py:149 | the items with any one key value come out in the order they went in |
| Ranking.StableOrderUnique | scripts/calculate_benchmarks.py:149 | two orderings of the key that both keep ties in input order are equal, so these properties fully characterise the sort |
| Ranking.Enumerate | scripts/calculate_benchmarks.py:151 | `enumerate(…, 1)` numbers the items 1..n in order |
| Ranking.RankRows | scripts/calculate_benchmarks.py:149-151 | the rank lines are numbered 1..n and list a stably sorted permutation of the results |
| Runs.KeptOrder | scripts/calculate_benchmarks.py:81-126 | the results are those of the runs that produce one, at strictly increasing configuration positions, and a run is among them exactly when it produces a result |
| Runs.Kept | scripts/calculate_benchmarks.py:81-126 | the list `results.append` builds from the runs' outcomes; `KeptOrder` states which runs it holds and in what order |
| Runs.KeptSnoc | scripts/calculate_benchmarks.py:116 | one more run appends its result if it produced one, and nothing otherwise |
| Runs.KeptAll | scripts/calculate_benchmarks.py:116 | when every run produces a result, there is one result per run |
| Punctuation.MarkListsDistinct | scripts/calculate_punctuation_accuracy.py:43 | the two mark lists list no mark twice, and the quotes counted at line 43 are not among the context marks of line 19 |
| Punctuation.CountPunctuation | scripts/calculate_punctuation_accuracy.py:41-50 | the counting loop builds the count map of the text |
| Punctuation.MarkCounts | scripts/calculate_punctuation_accuracy.py:41-50 | the counter as a map from each counted mark that occurs to its occurrences; `MarkCountsMeaning` states its meaning |
| Punctuation.MarkCountsSnoc | scripts/calculate_punctuation_accuracy.py:46-48 | one more character increments exactly its own counter when it is a counted mark, and changes nothing otherwise |
| Punctuation.MarkCountsMeaning | scripts/calculate_punctuation_accuracy.py:43-50 | a key is present exactly when it is one of the 10 counted marks occurring in the text, its count is at least 1 and equals its number of occurrences |
| Punctuation.TotalIsMarkedChars | scripts/calculate_punctuation_accuracy.py:43-50 | the counts sum to the number of characters of the text that are counted marks |
| Punctuation.Total | scripts/calculate_punctuation_accuracy.py:66-67 | `sum(counts.values())`; `TotalIsSumOfValues` shows it is the sum of the values |
| Punctuation.TotalIsSumOfValues | scripts/calculate_punctuation_accuracy.py:66-67 | for any counter whose keys are counted marks, `Total` is the sum of its values |
| Punctuation.SumValuesRemove | scripts/calculate_punctuation_accuracy.py:66-67 | the sum of a dict's values does not depend on the order in which they are added |
| Punctuation.MarksInMembers | scripts/calculate_punctuation_accuracy.py:26-27 | a token yields a mark exactly when the mark is listed and occurs in the token |
| Punctuation.MarksInDistinct | scripts/calculate_punctuation_accuracy.py:26-27 | a token yields each mark at most once, however often it occurs |
| Punctuation.MarksInAppend | scripts/calculate_punctuation_accuracy.py:26-27 | the marks of a token follow the order of the mark list |
| Punctuation.MarksInIgnoresPosition | scripts/calculate_punctuation_accuracy.py:26-27 | which marks a token yields, and in what order, depends only on which marks it contains, not where or how often |
| Punctuation.CleanWord | scripts/calculate_punctuation_accuracy.py:33 | the cleaned host token keeps only alphanumeric and whitespace characters and is no longer than the token |
| Punctuation.CleanWordCounts | scripts/calculate_punctuation_accuracy.py:33 | every alphanumeric or whitespace character of the token is kept as often as it occurs, and every other character is dropped |
| Punctuation.CleanWordAppend | scripts/calculate_punctuation_accuracy.py:33 | cleaning works character by character and keeps the order: the cleaned token is the cleaned halves one after the other |
| Punctuation.CleanWordKeeps | scripts/calculate_punctuation_accuracy.py:33 | a token made only of alphanumeric and whitespace characters is left unchanged |
| Punctuation.WindowSizes | scripts/calculate_punctuation_accuracy.py:29-30 | the context holds the at most `context_words` tokens directly before and after the host token |
| Punctuation.Before | scripts/calculate_punctuation_accuracy.py:29 | `words[max(0, i - context_words):i]`; `WindowSizes` states which tokens it holds |
| Punctuation.After | scripts/calculate_punctuation_accuracy.py:30 | `words[i + 1:min(len(words), i + context_words + 1)]`; `WindowSizes` states which tokens it holds |
| Punctuation.Context | scripts/calculate_punctuation_accuracy.py:29-36 | the lower-cased, stripped context string of a token; `ContextShape` states its shape |
| Punctuation.ContextShape | scripts/calculate_punctuation_accuracy.py:35-36 | a context has no leading or trailing whitespace and no upper-case ASCII letter |
| Punctuation.TokenPairsShape | scripts/calculate_punctuation_accuracy.py:26-36 | a token yields one pair per distinct listed mark it contains, all with the token's context |
| Punctuation.TokenPairs | scripts/calculate_punctuation_accuracy.py:26-36 | the pairs one token emits; `TokenPairsShape` states them |
| Punctuation.TokenPairsStep | scripts/calculate_punctuation_accuracy.py:26-36 | testing one more listed mark appends one pair exactly when the token contains that mark |
| Punctuation.AppendTokenPairs | scripts/calculate_punctuation_accuracy.py:26-36 | the inner loop appends exactly the pairs of one token |
| Punctuation.ExtractPunctuationContext | scripts/calculate_punctuation_accuracy.py:13-38 | the nested loops return the pairs token by token, then in mark-list order |
| Punctuation.ContextPairs | scripts/calculate_punctuation_accuracy.py:13-38 | the list `extract_punctuation_context` returns, token by token; `ContextPairsShape` states its shape |
| Punctuation.ContextPairsShape | scripts/calculate_punctuation_accuracy.py:19-36 | every pair carries one of the 8 context marks (never a quote), with a trimmed lower-case context |
| Punctuation.GroupByContext | scripts/calculate_punctuation_accuracy.py:92-102 | the dictionary loop builds the grouping of the pairs |
| Punctuation.AddPair | scripts/calculate_punctuation_accuracy.py:93-96 | one pass of the dictionary loop: an existing context gets the mark appended to its list, and a new context is added last in key order with the one-mark list |
| Punctuation.Group | scripts/calculate_punctuation_accuracy.py:92-102 | the dictionary the loop builds; `GroupMeaning` and `GroupSize` state its meaning |
| Punctuation.GroupMeaning | scripts/calculate_punctuation_accuracy.py:92-102 | the keys are distinct and are exactly the contexts of the pairs, and each key maps to its marks in emission order with duplicates |
| Punctuation.GroupSize | scripts/calculate_punctuation_accuracy.py:92-102 | the list lengths summed over the keys equal the number of pairs |
| Punctuation.GroupEmpty | scripts/calculate_punctuation_accuracy.py:92-106 | there are no contexts exactly when no pair was extracted |
| Punctuation.MatchContexts | scripts/calculate_punctuation_accuracy.py:105-113 | the matching loop counts the reference keys whose mark lists the hypothesis has with the same value, and the total is the number of reference keys |
| Punctuation.Matches | scripts/calculate_punctuation_accuracy.py:105-113 | the count of reference keys whose lists the hypothesis has with the same value; `MatchesBound` and `MatchesIgnoresExtra` state its properties |
| Punctuation.MatchesBound | scripts/calculate_punctuation_accuracy.py:105-113 | the matched count is at most the total, with equality exactly when every reference key agrees |
| Punctuation.MatchesIgnoresExtra | scripts/calculate_punctuation_accuracy.py:108-110 | adding, changing or removing a hypothesis key absent from the reference does not change the count |
| Punctuation.ContextAccuracyRange | scripts/calculate_punctuation_accuracy.py:115 | context accuracy lies in [0, 100], is 0 without reference contexts, and is 100 exactly when there are contexts and all match |
| Punctuation.ContextAccuracy | scripts/calculate_punctuation_accuracy.py:115 | the matched share as a percentage, 0 without contexts; `ContextAccuracyRange` states its range |
| Punctuation.ContextMatchRange | scripts/calculate_punctuation_accuracy.py:88-115 | for two texts the context accuracy lies in [0, 100], is 0 when the reference yields no pair, and is 100 exactly when every reference context agrees |
| Punctuation.CountAccuracyFacts | scripts/calculate_punctuation_accuracy.py:75-79 | count accuracy lies in [0, 100], is 100 exactly when the counts are equal, and is 0 when exactly one count is 0 |
| Punctuation.CountAccuracy | scripts/calculate_punctuation_accuracy.py:75-79 | the per-mark count accuracy; `CountAccuracyFacts` states its range and its extreme cases |
| Punctuation.MarkAccuracies | scripts/calculate_punctuation_accuracy.py:70-85 | the per-mark loop fills one entry per mark counted in either text |
| Punctuation.MarkAccuracyMap | scripts/calculate_punctuation_accuracy.py:70-85 | the per-mark entries over the union of the two counters' keys; `MarkAccuracyMeaning` states its meaning |
| Punctuation.MarkAccuracyMeaning | scripts/calculate_punctuation_accuracy.py:71-85 | the keys are exactly the counted marks present in either text, the counts are the occurrence counts, and a zero reference count implies a positive hypothesis count |
| Punctuation.Density | scripts/calculate_punctuation_accuracy.py:121-122 | density is non-negative, 0 for a text without tokens, and otherwise times the token count equals 100 times the total |
| Punctuation.ScoreFacts | scripts/calculate_punctuation_accuracy.py:136-139 | with a context accuracy of at most 100 the composite score is at most 100, and with equal densities it is 0.7 times the context accuracy plus 30 |
| Punctuation.ScoreUnclamped | scripts/calculate_punctuation_accuracy.py:136-139 | the composite score can be negative |
| Punctuation.Score | scripts/calculate_punctuation_accuracy.py:136-139 | the 0.7/0.3 composite score before rounding; `ScoreFacts` and `ScoreUnclamped` state its properties |
| Punctuation.CalculatePunctuationMetrics | scripts/calculate_punctuation_accuracy.py:53-141 | the whole computation returns the specified metrics |
| Punctuation.PunctuationMetrics | scripts/calculate_punctuation_accuracy.py:53-141 | the metrics dict; `MetricsTotals`, `ContextMatchRange` and `IdenticalTexts` state its properties |
| Punctuation.MetricsTotals | scripts/calculate_punctuation_accuracy.py:124-129 | the totals are the numbers of counted marks in each text, and the difference is hypothesis minus reference |
| Punctuation.IdenticalTexts | scripts/calculate_punctuation_accuracy.py:53-141 | comparing a text with itself gives difference 0, equal densities, every mark accuracy 100, and context accuracy and score of 100 when the text has a context (0 and 30 when it has none) |
| Punctuation.PunctuationRankings | scripts/calculate_punctuation_accuracy.py:240-247 | the ranking lists a permutation of the results by non-increasing score, ties in input order, numbered 1..n |
| Benchmarks.WordAccuracyRange | scripts/calculate_benchmarks.py:30 | for a non-negative rate, word accuracy lies in [0, 100], is 100 exactly when the rate is 0, and is 0 when the rate is at least 1 |
| Benchmarks.WordAccuracyAntitone | scripts/calculate_benchmarks.py:30 | a higher word error rate never gives a higher accuracy |
| Benchmarks.WordAccuracy | scripts/calculate_benchmarks.py:30 | `max(0, 1 - wer) * 100`; `WordAccuracyRange` and `WordAccuracyAntitone` state its properties |
| Benchmarks.CalculateMetrics | scripts/calculate_benchmarks.py:20-43 | metrics exist exactly when the three jiwer calls succeed; the rates are reported as percentages, and the accuracy is the clamped one |
| Benchmarks.CollectBenchmarks | scripts/calculate_benchmarks.py:81-126 | the run loop keeps the result of every run that produces one, in order |
| Benchmarks.ProcessRun | scripts/calculate_benchmarks.py:81-126 | one pass of the run loop: no result for an unfinished run, a missing directory or transcript, a library failure or a missing key; `CollectedInOrder` states what the loop keeps |
| Benchmarks.CollectedInOrder | scripts/calculate_benchmarks.py:81-126 | each result belongs to a completed run whose directory exists, at increasing configuration positions, and every run that produces a result is included |
| Benchmarks.BenchmarkRankings | scripts/calculate_benchmarks.py:149-157 | the summary lists a permutation of the results by non-increasing word accuracy, ties in configuration order, numbered 1..n |
| Evaluation.CalculateMetrics | scripts/evaluate_transcripts.py:33-57 | metrics exist exactly when all four library calls succeed; word accuracy is `1 - wer` and is negative above a rate of 1; the word counts are the whitespace-token counts; the substitution, deletion, insertion and hit counts are the library's; werpy's rate is kept exactly when it is a float and is `None` otherwise |
| Evaluation.AccuracyAgreesWithBenchmarks | scripts/evaluate_transcripts.py:49 | this accuracy equals the benchmarks accuracy divided by 100 for rates in [0, 1], and is negative for rates above 1, where the benchmarks accuracy is 0 |
| Evaluation.EvaluateAllRuns | scripts/evaluate_transcripts.py:79-116 | the run loop returns the specified outcome: no results when a run raises, otherwise the kept results |
| Evaluation.EvaluateRun | scripts/evaluate_transcripts.py:80-116 | one pass of the run loop: skip, raise or append; `EvaluatedInOrder` states the outcome |
| Evaluation.Evaluated | scripts/evaluate_transcripts.py:79-116 | no results when some run raises, otherwise the appended results; `EvaluatedInOrder` states its meaning |
| Evaluation.EvaluatedInOrder | scripts/evaluate_transcripts.py:79-116 | the evaluation completes exactly when no run raises; then results come in configuration order, each one exactly the record that run's evaluation produces, from a completed run with a transcript, and every such run is included |
| Evaluation.ResultsTable | scripts/evaluate_transcripts.py:167-173 | table line i has rank i + 1 and the run's identifiers and percentages |
| Evaluation.Breakdown | scripts/evaluate_transcripts.py:182-196 | one breakdown entry per run in the same order, with the processing time only when it is positive |
| Evaluation.GenerateSummaryReport | scripts/evaluate_transcripts.py:145-196 | no report for no results; otherwise the table and the breakdown list the same permutation of the results by ascending rate, ties in input order, ranked 1..n |

## Left out

- File and console I/O: reading files, `json.load`/`json.dump`, writing the text file and the report, `print`, `sys.argv` and `main()` argument handling. The contents read are parameters.
- `load_text`, `load_ground_truth` and `load_transcript` are modelled only as `strip()` of the contents a lookup supplies. Evaluation takes the ground truth already stripped.
- `find_transcript_file`: the directory glob and its order are outside the model. A run directory maps to the transcript contents, or to `None`.
- jiwer and werpy: the word error rate, character error rate and word-level counts are uninterpreted inputs. No alignment is modelled, because the repository has none.
- `round(x, 2)` is an abstract function parameter, and floating-point rounding in the arithmetic is not modelled (`real`).
- `str.isalnum` is the abstract predicate `alnum`.
- Text.Lower, Text.LowerChar: `str.lower()` is modelled for ASCII letters only; Unicode case mapping is not modelled.
- Punctuation.ExtractPunctuationContext: `context_words` is a `nat`. A negative value would meet Python's negative slicing, and the only caller passes the default 2.
- The run loop in `main()` of `calculate_punctuation_accuracy.py` (lines 183-218) is not modelled. A similar filter is modelled for `calculate_benchmarks.py` in Benchmarks.CollectBenchmarks. They differ in the keys they read: the punctuation loop reads only `provider` and `model`, while the benchmarks loop also reads `run_type` and `engine`. So a run without `run_type` is scored by the punctuation script and skipped by the benchmarks script. Only the ranking of lines 240-247 is modelled, in Punctuation.PunctuationRankings.
- A configuration entry without `run_id` or `output_dir` is not modelled. Both keys are read before any guard, and the model takes them as present.
- Evaluation: `metadata.json` parsing is a parameter giving the processing time. The run timestamp and the ground-truth statistics are written only to the JSON file and are not modelled.
- Evaluation.GenerateSummaryReport: the report's headings, separator lines and number formats (`:.2f`, `:.4f`, column widths) are not modelled. The model keeps each line's content as a record.
- The remaining scripts (the provider runners and the chart generator) are not part of this model.
