# DROP scoring and run telemetry, modelled in Dafny

This project models two parts of the efficiency benchmark and proves properties of them.

- **DROP evaluation.** This is `efficiency_benchmark/dependencies/lm_eval/tasks/drop.py`, a port of the official DROP evaluator. It covers:
  - how gold answers are read from a question (`get_answers`, `parse_answer`, `_flatten_validated_answers`);
  - how an answer is normalised (`_normalize` and its steps);
  - how answers become bags of tokens (`_answer_to_bags`);
  - how the bags are scored: token F1, the number guard, exact match and the alignment of spans;
  - `process_results`, which takes the per-document maximum over the gold answers.
- **Telemetry aggregation.** This is lines 56-91 of `docker/execute.py`, the arithmetic that runs after a monitored run. It sums the GPU and CPU/DRAM energy logs and takes utilisation means over the docker stats log. It scales CPU and DRAM energy by those means, then reports totals, throughput and the memory peak.

Modules:

| file | module | models |
|---|---|---|
| `numbers.dfy` | `Numbers` | Python's `max` of two reals, shared by scoring and telemetry |
| `wrappers.dfy` | `Wrappers` | `Option` (a NaN mean) and `Result` (a raised exception) |
| `drop_text.dfy` | `DropText` | lowering, punctuation, number fixing, tokenising, `split`/`join`, `strip`, article removal, `_normalize` |
| `drop_scoring.dfy` | `DropScoring` | bags, `_compute_f1`, `_match_numbers_if_present`, `_align_bags`, `get_metrics`, `process_results` |
| `drop_answers.dfy` | `DropAnswers` | `parse_answer`, `_flatten_validated_answers`, `get_answers` |
| `telemetry.dfy` | `Telemetry` | the aggregation block of `docker/execute.py` |

The model follows each piece of code in its own form:
- Code that loops and accumulates is a method with a loop. That covers `_answer_to_bags`, `_match_numbers_if_present`, the nested loops of `_align_bags` that fill the score matrix (an `array2`) and its loop over the one-dimensional `max_scores` array, `process_results`, `_flatten_validated_answers`, `get_answers` and the three log loops.
- Each such method is proved equal to a specification function.
- Expression code is written as functions: `_compute_f1`, `parse_answer`, `_normalize` and its steps.

Python behaviour that the code relies on but does not define is a parameter of the model, the `TextOracle`:
- `float(text)` succeeding;
- `str(float(text))`;
- `str.lower()` on non-ASCII text;
- membership of a non-ASCII character in `\w`.

ASCII lowering, `string.punctuation`, `str.isspace`, `str.split`, `str.strip`, `re.split(" |-")` and the `\b(a|an|the)\b` substitution are written out concretely.

The assignment computed by scipy's `linear_sum_assignment` is a `Solver`: any function that returns a valid one-to-one matching of rows to columns, with `min(rows, cols)` pairs and rows in increasing order.

The scoring contracts are stated over an `Evaluator`, which bundles the oracle, the span normaliser and the solver. They therefore hold for any normaliser. `SourceEvaluator` is the one the code uses, with `DropText.Normalize` as `_normalize`.

Four behaviours of the telemetry code (`docker/execute.py`) are worth knowing:
- `max_gpu_mem` sums the `max_mem` column instead of taking its maximum (line 62). `Telemetry.GpuMemorySummed` shows two rows reporting the sum.
- The DRAM peak is the largest running *sum* of the memory fractions, not the largest single reading (line 76). With non-negative readings it is the total (`Telemetry.PeakIsTotal`).
- The means divide by the row count plus `1e-6`, because the row counter starts at `1e-6` (lines 71, 77-78). Two docker rows at 50% on one CPU with CPU energies 10 and 20 therefore apportion `30 / 2.000001`, not 15 (`Telemetry.ApportionedExample`).
- An elapsed time of zero raises `ZeroDivisionError` in the throughput (line 86). No report is produced (`Telemetry.SummaryFails`).

The docker CPU figure counts in percent of one core, so a busy container on several cores reads above 100. Line 77 divides the mean by `num_cpus` for that reason. The bounds on the utilisation means therefore allow CPU readings of up to `100 × num_cpus`.

## Model

| member | source | states |
|---|---|---|
| DropText.Lower | efficiency_benchmark/dependencies/lm_eval/tasks/drop.py:275 | `token.lower()`: on ASCII text every character is mapped by ASCII lowering (`A`-`Z` to `a`-`z`, any other character kept), so the length is kept and no upper-case letter is left; text without upper-case letters is unchanged |
| DropText.RemovePunc | efficiency_benchmark/dependencies/lm_eval/tasks/drop.py:258-263 | a number token is returned untouched; any other token comes back no longer, with no `string.punctuation` character left and every other character of the input still present |
| DropText.RemovePuncIdempotent | efficiency_benchmark/dependencies/lm_eval/tasks/drop.py:258-263 | removing punctuation twice is the same as once |
| DropText.DropPunct | efficiency_benchmark/dependencies/lm_eval/tasks/drop.py:259-261 | the comprehension never lengthens the text, leaves no `string.punctuation` character, and keeps every other character of the input |
| DropText.DropPunctKeeps | efficiency_benchmark/dependencies/lm_eval/tasks/drop.py:259-261 | text without punctuation passes through unchanged |
| DropText.DropPunctAppend | efficiency_benchmark/dependencies/lm_eval/tasks/drop.py:259-261 | the filter of a concatenation is the concatenation of the filters, so the kept characters keep their order |
| DropText.DropPunctChar | efficiency_benchmark/dependencies/lm_eval/tasks/drop.py:259-261 | one character is dropped exactly when it is in `string.punctuation` |
| DropText.FixNumber | efficiency_benchmark/dependencies/lm_eval/tasks/drop.py:265-266 | a token that is not a number is left unchanged |
| DropText.Tokenize | efficiency_benchmark/dependencies/lm_eval/tasks/drop.py:268-269 | `re.split(" \|-")` yields at least one piece, and no piece holds a space or a hyphen |
| DropText.TokenizeRoundTrip | efficiency_benchmark/dependencies/lm_eval/tasks/drop.py:268-269 | interleaving the pieces with the separators found restores the input; there is one more piece than separators |
| DropText.Words | efficiency_benchmark/dependencies/lm_eval/tasks/drop.py:256 | `str.split()` yields only non-empty words without whitespace |
| DropText.WordsAfterField | efficiency_benchmark/dependencies/lm_eval/tasks/drop.py:256 | a field followed by whitespace of any kind, or by nothing, is split off as the first word |
| DropText.WordsOfJoin | efficiency_benchmark/dependencies/lm_eval/tasks/drop.py:256 | splitting the space-join of such words gives the words back |
| DropText.JoinTidy | efficiency_benchmark/dependencies/lm_eval/tasks/drop.py:281 | joining non-empty tidy strings with single spaces gives a tidy string (no whitespace at the ends, only single spaces) |
| DropText.WhiteSpaceFix | efficiency_benchmark/dependencies/lm_eval/tasks/drop.py:255-256 | the result is tidy and `split()` gives the same words on it as on the input |
| DropText.WhiteSpaceFixIdempotent | efficiency_benchmark/dependencies/lm_eval/tasks/drop.py:255-256 | collapsing whitespace twice is the same as once |
| DropText.WhiteSpaceFixKeepsText | efficiency_benchmark/dependencies/lm_eval/tasks/drop.py:255-256 | the non-whitespace characters survive in order |
| DropText.WhiteSpaceFixField | efficiency_benchmark/dependencies/lm_eval/tasks/drop.py:255-256 | a single non-empty word without whitespace is unchanged |
| DropText.Strip | efficiency_benchmark/dependencies/lm_eval/tasks/drop.py:281 | `str.strip()` leaves no whitespace at either end, and gives "" exactly when the input is all whitespace |
| DropText.TrimLeft | efficiency_benchmark/dependencies/lm_eval/tasks/drop.py:281 | the left trim is a suffix of the input, everything cut off is whitespace, and it does not start with whitespace |
| DropText.TrimRight | efficiency_benchmark/dependencies/lm_eval/tasks/drop.py:281 | the right trim is a prefix of the input, everything cut off is whitespace, and it does not end with whitespace |
| DropText.TrimLeftBlank | efficiency_benchmark/dependencies/lm_eval/tasks/drop.py:281 | the left trim is empty exactly when the input is blank |
| DropText.StripIsSlice | efficiency_benchmark/dependencies/lm_eval/tasks/drop.py:281 | the stripped text is the slice of the input between a blank prefix and a blank suffix; with `Strip`'s contract (no whitespace at its ends) that determines it |
| DropText.StripTidy | efficiency_benchmark/dependencies/lm_eval/tasks/drop.py:281 | a tidy string has nothing to strip |
| DropText.ArticleAt | efficiency_benchmark/dependencies/lm_eval/tasks/drop.py:37 | a match of `\b(a\|an\|the)\b` is at most three characters and lies inside the text |
| DropText.ArticleAtMatch | efficiency_benchmark/dependencies/lm_eval/tasks/drop.py:37 | a positive length is the length of a match at that position (a word boundary, `a`, `an` or `the`, a word boundary); every match there makes the length positive and no longer than that match |
| DropText.Sub | efficiency_benchmark/dependencies/lm_eval/tasks/drop.py:252-253 | the left-to-right scan that replaces each match by one space never yields more characters than it reads |
| DropText.RemoveArticles | efficiency_benchmark/dependencies/lm_eval/tasks/drop.py:252-253 | replacing each article by one space never lengthens the text |
| DropText.SubSplit | efficiency_benchmark/dependencies/lm_eval/tasks/drop.py:252-253 | the scan splits at a position where nothing matches, when no earlier match reaches past it and the later matches are those of the remainder |
| DropText.ArticleAtNonWord | efficiency_benchmark/dependencies/lm_eval/tasks/drop.py:37 | no article match starts at a non-word character |
| DropText.RemoveArticlesSplit | efficiency_benchmark/dependencies/lm_eval/tasks/drop.py:252-253 | the substitution splits at every non-word character: the result on `x + c + y` is the result on `x`, then `c`, then the result on `y` |
| DropText.RemoveArticlesOfWord | efficiency_benchmark/dependencies/lm_eval/tasks/drop.py:252-253 | a single word becomes " " when it is `a`, `an` or `the`, and is unchanged otherwise |
| DropText.WordRun | efficiency_benchmark/dependencies/lm_eval/tasks/drop.py:37 | the leading run of word characters: all of it is word characters and it stops at the end or at a non-word character |
| DropText.RemoveArticlesWordThen | efficiency_benchmark/dependencies/lm_eval/tasks/drop.py:252-253 | a word followed by a non-word character is settled on its own: it becomes " " when it is an article, and the rest is substituted separately |
| DropText.RemoveArticlesRef | efficiency_benchmark/dependencies/lm_eval/tasks/drop.py:252-253 | on every text the substitution equals the reference reading `ArticlesRef`: cut at each non-word character and replace each word that is `a`, `an` or `the` by one space |
| DropText.RunLength | efficiency_benchmark/dependencies/lm_eval/tasks/drop.py:256 | the leading run of non-whitespace characters ends at the end of the text or at whitespace |
| DropText.SquashJoin | efficiency_benchmark/dependencies/lm_eval/tasks/drop.py:256 | joining words with spaces and dropping the whitespace gives the words' concatenation |
| DropText.ConcatWords | efficiency_benchmark/dependencies/lm_eval/tasks/drop.py:256 | the words of `split()`, concatenated, are the text without its whitespace |
| DropText.NormalizeToken | efficiency_benchmark/dependencies/lm_eval/tasks/drop.py:272-277 | each normalised token is tidy |
| DropText.NormalizedTokens | efficiency_benchmark/dependencies/lm_eval/tasks/drop.py:272-279 | one normalised token per piece of `re.split(" \|-")`, each tidy |
| DropText.KeepNonBlank | efficiency_benchmark/dependencies/lm_eval/tasks/drop.py:280 | the filter keeps only non-blank tokens, drawn from its input; all-blank input gives nothing |
| DropText.KeepNonBlankAppend | efficiency_benchmark/dependencies/lm_eval/tasks/drop.py:280 | the filter of a concatenation is the concatenation of the filters, so kept tokens keep their order |
| DropText.KeepNonBlankToken | efficiency_benchmark/dependencies/lm_eval/tasks/drop.py:280 | one token is kept exactly when its `strip()` is non-empty |
| DropText.KeepNonBlankKeeps | efficiency_benchmark/dependencies/lm_eval/tasks/drop.py:280 | every token that is not blank is kept |
| DropText.Normalize | efficiency_benchmark/dependencies/lm_eval/tasks/drop.py:271-282 | the normalised answer is tidy |
| DropText.NormalizeLayout | efficiency_benchmark/dependencies/lm_eval/tasks/drop.py:271-282 | the normalised answer has no leading or trailing space and never two spaces in a row |
| DropText.NormalizeAllBlank | efficiency_benchmark/dependencies/lm_eval/tasks/drop.py:280-282 | when every token normalises to blank, the answer normalises to "" |
| DropText.ArticleTokenIsBlank | efficiency_benchmark/dependencies/lm_eval/tasks/drop.py:272-277 | an ASCII token that lowers to `a`, `an` or `the` (and is not a number) normalises to "" |
| DropText.NormalizeArticle | efficiency_benchmark/dependencies/lm_eval/tasks/drop.py:271-282 | an ASCII answer that is only `the`, `a` or `an`, in any case, normalises to "" |
| DropText.LowerAlnum | efficiency_benchmark/dependencies/lm_eval/tasks/drop.py:275 | lowering ASCII letters and digits keeps the length and gives letters and digits |
| DropText.NormalizeTokenWord | efficiency_benchmark/dependencies/lm_eval/tasks/drop.py:272-277 | a token of ASCII letters and digits that lowers to neither an article nor a number comes out of the per-token steps as its lower-case form |
| DropText.NormalizeWord | efficiency_benchmark/dependencies/lm_eval/tasks/drop.py:271-282 | a one-word answer of ASCII letters and digits that is neither an article nor a number normalises to its lower-case form |
| DropScoring.SourceEvaluator | efficiency_benchmark/dependencies/lm_eval/tasks/drop.py:191 | the evaluator of the source normalises each span with `_normalize` |
| DropScoring.RawSpans | efficiency_benchmark/dependencies/lm_eval/tasks/drop.py:184-187 | a list or tuple is taken as the spans; a bare string becomes a one-element list |
| DropScoring.TokenBag | efficiency_benchmark/dependencies/lm_eval/tasks/drop.py:193 | every token in a bag is a non-empty word without whitespace |
| DropScoring.NormalizedSpans | efficiency_benchmark/dependencies/lm_eval/tasks/drop.py:188-192 | there is one normalised span per raw span |
| DropScoring.TokenBags | efficiency_benchmark/dependencies/lm_eval/tasks/drop.py:189-193 | there is one bag per raw span |
| DropScoring.AnswerBagsAt | efficiency_benchmark/dependencies/lm_eval/tasks/drop.py:188-193 | span k is the normalised k-th raw span, and bag k is the set of its words |
| DropScoring.SourceSpansAt | efficiency_benchmark/dependencies/lm_eval/tasks/drop.py:191 | with the source evaluator, span k is `_normalize` of the k-th raw span |
| DropScoring.AnswerToBags | efficiency_benchmark/dependencies/lm_eval/tasks/drop.py:183-194 | the loop returns exactly the normalised spans and their token bags |
| DropScoring.Precision | efficiency_benchmark/dependencies/lm_eval/tasks/drop.py:217-220 | precision is in [0, 1] |
| DropScoring.Recall | efficiency_benchmark/dependencies/lm_eval/tasks/drop.py:221-224 | recall is in [0, 1] |
| DropScoring.FullRatios | efficiency_benchmark/dependencies/lm_eval/tasks/drop.py:216-224 | precision 1 means every predicted token is gold; recall 1 means every gold token is predicted |
| DropScoring.ZeroRatios | efficiency_benchmark/dependencies/lm_eval/tasks/drop.py:216-224 | precision or recall is 0 exactly when its bag is non-empty and the bags share nothing |
| DropScoring.ComputeF1 | efficiency_benchmark/dependencies/lm_eval/tasks/drop.py:215-230 | F1 is in [0, 1] |
| DropScoring.ComputeF1Symmetric | efficiency_benchmark/dependencies/lm_eval/tasks/drop.py:215-230 | F1 does not change when the two bags are swapped |
| DropScoring.ComputeF1BothEmpty | efficiency_benchmark/dependencies/lm_eval/tasks/drop.py:217-224 | two empty bags score 1 |
| DropScoring.ComputeF1IsOne | efficiency_benchmark/dependencies/lm_eval/tasks/drop.py:215-230 | F1 is 1 if and only if the bags are equal |
| DropScoring.ComputeF1IsZero | efficiency_benchmark/dependencies/lm_eval/tasks/drop.py:215-230 | F1 is 0 if and only if the bags share no token and are not both empty |
| DropScoring.ComputeF1Disjoint | efficiency_benchmark/dependencies/lm_eval/tasks/drop.py:215-230 | non-empty disjoint bags score 0 |
| DropScoring.NumberTokens | efficiency_benchmark/dependencies/lm_eval/tasks/drop.py:233-240 | the loop collects exactly the tokens of the bag that are numbers |
| DropScoring.MatchNumbersIfPresent | efficiency_benchmark/dependencies/lm_eval/tasks/drop.py:232-243 | true if and only if the gold bag holds no number, or shares a number with the prediction |
| DropScoring.PairScore | efficiency_benchmark/dependencies/lm_eval/tasks/drop.py:204-207 | a matrix cell is in [0, 1] |
| DropScoring.ScoreMatrix | efficiency_benchmark/dependencies/lm_eval/tasks/drop.py:201 | the matrix has one row per gold bag and one column per predicted bag |
| DropScoring.FillScores | efficiency_benchmark/dependencies/lm_eval/tasks/drop.py:201-207 | the nested loops fill a fresh `len(gold) × len(predicted)` array whose every cell is that pair's score |
| DropScoring.DiagonalAssignment | efficiency_benchmark/dependencies/lm_eval/tasks/drop.py:208 | a valid assignment exists for every matrix (pairing row i with column i), so the `Solver` contract can be met |
| DropScoring.Accumulate | efficiency_benchmark/dependencies/lm_eval/tasks/drop.py:210-212 | the `max_scores` fold has the requested length |
| DropScoring.AccumulateAt | efficiency_benchmark/dependencies/lm_eval/tasks/drop.py:210-212 | with distinct rows, each assigned row holds max(0, its cell) and every other row holds 0 |
| DropScoring.AlignedScores | efficiency_benchmark/dependencies/lm_eval/tasks/drop.py:210 | the result has `max(len(gold), len(predicted))` entries |
| DropScoring.AlignedScoresBounds | efficiency_benchmark/dependencies/lm_eval/tasks/drop.py:196-213 | every aligned score is in [0, 1] |
| DropScoring.AlignedScoresAt | efficiency_benchmark/dependencies/lm_eval/tasks/drop.py:208-213 | an assigned row scores its assigned cell; a row left unassigned scores 0 |
| DropScoring.AlignBags | efficiency_benchmark/dependencies/lm_eval/tasks/drop.py:196-213 | the array loops return exactly the aligned scores, whatever valid assignment the solver picks |
| DropScoring.SumBounds | efficiency_benchmark/dependencies/lm_eval/tasks/drop.py:179 | a sum of scores in [0, 1] lies between 0 and the number of scores |
| DropScoring.MeanBounds | efficiency_benchmark/dependencies/lm_eval/tasks/drop.py:179 | the mean of scores in [0, 1] is in [0, 1] |
| DropScoring.ExactMatch | efficiency_benchmark/dependencies/lm_eval/tasks/drop.py:171-176 | exact match is 0 or 1, and it is 1 if and only if the span sets are equal and the span lists have equal length |
| DropScoring.ExactMatchReflexive | efficiency_benchmark/dependencies/lm_eval/tasks/drop.py:171-176 | an answer matches itself exactly |
| DropScoring.ExactMatchSymmetric | efficiency_benchmark/dependencies/lm_eval/tasks/drop.py:171-176 | exact match does not change when the answers are swapped |
| DropScoring.ExactMatchIgnoresMultiplicity | efficiency_benchmark/dependencies/lm_eval/tasks/drop.py:171-173 | `["x","x","y"]` and `["x","y","y"]` match exactly: equal sets and equal lengths are all that is compared |
| DropScoring.F1Of | efficiency_benchmark/dependencies/lm_eval/tasks/drop.py:178-179 | the mean F1 is defined exactly when one of the answers has a span, and is then in [0, 1] |
| DropScoring.GetMetrics | efficiency_benchmark/dependencies/lm_eval/tasks/drop.py:160-181 | returns the exact match of the normalised spans and the mean aligned F1 |
| DropScoring.GoldF1 | efficiency_benchmark/dependencies/lm_eval/tasks/drop.py:154-157 | the F1 that one gold answer contributes is in [0, 1] |
| DropScoring.MaxScoredUpper | efficiency_benchmark/dependencies/lm_eval/tasks/drop.py:153-157 | the running maximum over the scored entries is at least each scored entry |
| DropScoring.MaxScoredAttained | efficiency_benchmark/dependencies/lm_eval/tasks/drop.py:151-158 | the running maximum is 0 or one of the scored entries |
| DropScoring.MaxScoredBounds | efficiency_benchmark/dependencies/lm_eval/tasks/drop.py:151-158 | over entries in [0, 1], the running maximum is in [0, 1] |
| DropScoring.MaxScoredNone | efficiency_benchmark/dependencies/lm_eval/tasks/drop.py:151-158 | with no entry scored, the running maximum stays at 0 |
| DropScoring.ProcessResults | efficiency_benchmark/dependencies/lm_eval/tasks/drop.py:140-158 | the loop returns the maximum exact match and the maximum F1 over the gold answers whose first span is not blank, starting from 0 |
| DropScoring.BestAtLeastEach | efficiency_benchmark/dependencies/lm_eval/tasks/drop.py:153-157 | each maximum is at least the score of every gold answer that takes part |
| DropScoring.BestExactMatchAttained | efficiency_benchmark/dependencies/lm_eval/tasks/drop.py:151-158 | the best exact match is 0 or 1, and is 0 or the exact match of a gold answer that takes part |
| DropScoring.BestF1Attained | efficiency_benchmark/dependencies/lm_eval/tasks/drop.py:152-158 | the best F1 is in [0, 1], and is 0 or the F1 of a gold answer that takes part |
| DropScoring.BestNoneScored | efficiency_benchmark/dependencies/lm_eval/tasks/drop.py:151-158 | with no gold answer taking part, both maxima are 0 |
| DropAnswers.ParseAnswer | efficiency_benchmark/dependencies/lm_eval/tasks/drop.py:101-112 | a non-empty number gives `(number,)`; failing that, non-empty spans give the spans; failing that, the stripped "day month year"; the tuple is never empty |
| DropAnswers.ParseAnswerNumberFirst | efficiency_benchmark/dependencies/lm_eval/tasks/drop.py:104-105 | a record with a number parses the same whatever its date and spans |
| DropAnswers.Flatten | efficiency_benchmark/dependencies/lm_eval/tasks/drop.py:77-86 | one row per entry of `number`, row i holding the i-th `number`, `date` and `spans`; when `date` or `spans` is shorter, `IndexError` at the first missing index, `date` checked first |
| DropAnswers.FlattenValidatedAnswers | efficiency_benchmark/dependencies/lm_eval/tasks/drop.py:72-86 | the index loop returns exactly those rows, or exactly that error |
| DropAnswers.DedupStep | efficiency_benchmark/dependencies/lm_eval/tasks/drop.py:93-98 | one step of the loop over the seen-set: a value already kept is skipped, a new one is appended |
| DropAnswers.First | efficiency_benchmark/dependencies/lm_eval/tasks/drop.py:93-98 | the index of a value's first occurrence |
| DropAnswers.DedupElements | efficiency_benchmark/dependencies/lm_eval/tasks/drop.py:93-98 | keeping first occurrences keeps exactly the values that occur |
| DropAnswers.DedupNoDuplicates | efficiency_benchmark/dependencies/lm_eval/tasks/drop.py:93-98 | keeping first occurrences leaves no value twice |
| DropAnswers.DedupHead | efficiency_benchmark/dependencies/lm_eval/tasks/drop.py:93-98 | the first value is kept first |
| DropAnswers.DedupOrder | efficiency_benchmark/dependencies/lm_eval/tasks/drop.py:93-98 | kept values appear in the order of their first occurrence |
| DropAnswers.ParseAll | efficiency_benchmark/dependencies/lm_eval/tasks/drop.py:93-94 | one parsed tuple per candidate |
| DropAnswers.Candidates | efficiency_benchmark/dependencies/lm_eval/tasks/drop.py:90-92 | the candidates are the answer record followed by the flattened validated answers, or the flattening error |
| DropAnswers.GetAnswers | efficiency_benchmark/dependencies/lm_eval/tasks/drop.py:70-99 | the loop over the list and the seen-set returns the parsed candidates with duplicates dropped at their later occurrences |
| DropAnswers.AnswersNoDuplicates | efficiency_benchmark/dependencies/lm_eval/tasks/drop.py:88-99 | no answer is listed twice |
| DropAnswers.AnswersHead | efficiency_benchmark/dependencies/lm_eval/tasks/drop.py:90-99 | the first answer is `parse_answer(qa["answer"])` |
| DropAnswers.AnswersCover | efficiency_benchmark/dependencies/lm_eval/tasks/drop.py:93-99 | a tuple is listed if and only if some candidate parses to it |
| DropAnswers.AnswersOrder | efficiency_benchmark/dependencies/lm_eval/tasks/drop.py:93-99 | answers come in the order of their first occurrence among the parsed candidates |
| DropAnswers.AnswersNonEmpty | efficiency_benchmark/dependencies/lm_eval/tasks/drop.py:101-112 | every gold tuple is non-empty, so `gold_answer[0]` in `process_results` is defined |
| DropAnswers.AnswersError | efficiency_benchmark/dependencies/lm_eval/tasks/drop.py:78-86 | `get_answers` fails if and only if `date` or `spans` is shorter than `number` |
| Telemetry.SumGpuLog | docker/execute.py:56-62 | the GPU loop returns the sum of `energy` and the sum (not the max) of `max_mem` |
| Telemetry.SumCpuLog | docker/execute.py:57-67 | the CPU loop returns the raw sums of `cpu_energy` and `dram_energy` |
| Telemetry.DockerUtilisation | docker/execute.py:68-78 | the docker loop returns `(Σ cpu%/100)/(n + 1e-6)/num_cpus`, `(Σ mem%/100)/(n + 1e-6)` and the largest running sum of the memory fractions |
| Telemetry.Aggregate | docker/execute.py:56-91 | the aggregation returns the summary report, or `ZeroDivisionError` for an elapsed time of zero |
| Telemetry.PeakBoundsPrefixes | docker/execute.py:76 | the memory peak is at least every prefix sum, and is 0 or one of them |
| Telemetry.PeakIsTotal | docker/execute.py:70-76 | with non-negative readings the memory peak equals the total and is at least every single reading |
| Telemetry.FractionSumsBounded | docker/execute.py:74-75 | CPU readings in [0, 100 × num_cpus] add at most `num_cpus` per row, and memory readings in [0, 100] at most one per row |
| Telemetry.FractionSumsNonNegative | docker/execute.py:74-75 | non-negative readings give non-negative fraction sums |
| Telemetry.UtilisationNonNegative | docker/execute.py:70-78 | non-negative readings give non-negative utilisation means |
| Telemetry.UtilisationBounds | docker/execute.py:70-78 | with CPU readings in [0, 100 × num_cpus] and memory readings in [0, 100], both utilisation means are in [0, 1) |
| Telemetry.NoRowsUtilisation | docker/execute.py:70-78 | an empty docker log gives utilisation means of 0 and a memory peak of 0 |
| Telemetry.PeakNonNegative | docker/execute.py:70-76 | the running maximum starts from 0 and is never negative |
| Telemetry.ShareBounds | docker/execute.py:79-80 | with readings as docker reports them (CPU up to `100 × num_cpus`), the scaled CPU and DRAM energies are non-negative and at most the raw energies |
| Telemetry.SummaryNoDockerRows | docker/execute.py:70-91 | with an empty docker log nothing is apportioned, the memory peak is 0 and the total is the GPU energy |
| Telemetry.SummaryFails | docker/execute.py:84-86 | the summary fails if and only if the elapsed time is zero |
| Telemetry.SummaryBounds | docker/execute.py:79-90 | with non-negative energies, CPU readings in [0, 100 × num_cpus], memory readings in [0, 100] and positive elapsed time, the report exists; its scaled energies lie between 0 and the raw energies, and its total and throughput are non-negative |
| Telemetry.SummaryNonNegative | docker/execute.py:79-91 | with non-negative energies and readings (no upper cap) and positive elapsed time, the report exists and every energy, the total and the throughput are non-negative, as is the DRAM peak for a non-negative memory size |
| Telemetry.SummaryDramPeak | docker/execute.py:82-91 | with non-negative readings the DRAM peak is the summed memory fraction times `MemTotal / 2**20` |
| Telemetry.GpuMemorySummed | docker/execute.py:62 | two rows with `max_mem` 2 and 3 report 5: the column is summed |
| Telemetry.ApportionedExample | docker/execute.py:70-80 | CPU energies 10 and 20 at 50% on one core are scaled to `30 / 2.000001`, below 15 |

Some specification functions carry no contract of their own; each is the partner of the rows above that state what it computes:
- DropText.JoinSpace (`" ".join`): `JoinTidy`, `WordsOfJoin`, `SquashJoin`.
- DropText.Squash, DropText.Concat: `SquashJoin`, `ConcatWords`, `WhiteSpaceFixKeepsText`.
- DropText.Separators, DropText.Interleave: `TokenizeRoundTrip`.
- DropText.ArticlesRef: `RemoveArticlesRef`.
- DropText.ArticleMatcher: `ArticleAtMatch`, `ArticleAtNonWord`, `RemoveArticlesSplit`, `RemoveArticlesRef`.
- DropScoring.NumbersMatch: `MatchNumbersIfPresent`, whose loop is proved equal to it.
- DropScoring.Sum, DropScoring.Mean: `SumBounds`, `MeanBounds`, `F1Of`, `GetMetrics`.
- DropScoring.ExactMatchOf: `ExactMatch`, `ExactMatchReflexive`, `ExactMatchSymmetric`, `GetMetrics`.
- DropScoring.Scored, ScoredMask, ExactMatches, GoldF1s, MaxScored, BestExactMatch and BestF1: `ProcessResults`, the four `MaxScored` lemmas, `BestAtLeastEach`, `BestExactMatchAttained`, `BestF1Attained`, `BestNoneScored`.
- DropAnswers.Dedup: `DedupStep`, `DedupElements`, `DedupNoDuplicates`, `DedupHead`, `DedupOrder`.
- DropAnswers.Answers: `GetAnswers`, `AnswersNoDuplicates`, `AnswersHead`, `AnswersCover`, `AnswersOrder`, `AnswersNonEmpty`, `AnswersError`.
- Telemetry.GpuEnergySum, GpuMemSum, CpuEnergySum and DramEnergySum: `SumGpuLog`, `SumCpuLog`, `GpuMemorySummed`.
- Telemetry.CpuFractionSum, MemFractionSum, CpuUtil and MemUtil: `DockerUtilisation`, `FractionSumsBounded`, `FractionSumsNonNegative`, `UtilisationBounds`, `UtilisationNonNegative`, `NoRowsUtilisation`.
- Telemetry.PeakMemFraction: `DockerUtilisation`, `PeakBoundsPrefixes`, `PeakIsTotal`, `PeakNonNegative`.
- Telemetry.CpuShare, MemShare: `ShareBounds`, `ApportionedExample`.
- Telemetry.DramPeak: `SummaryDramPeak`, `SummaryNonNegative`.
- Telemetry.Throughput: `SummaryBounds`, `SummaryNonNegative`, `SummaryFails`.
- Telemetry.Summary: `Aggregate`, `SummaryFails`, `SummaryBounds`, `SummaryNonNegative`, `SummaryNoDockerRows`, `SummaryDramPeak`.

## Left out

- DropScoring.GetMetrics: returns the mean F1 before the `round(f1, 2)` of line 180, as an exact real.
- Floating point throughout. Precision, recall, F1, means, energies and utilisations are exact reals. `num_rows += 1` starting from `1e-6` is exact.
- DropScoring.AlignBags: scipy's `linear_sum_assignment` (line 208) is a parameter. Any valid one-to-one matching is allowed, and the matching's optimality is not modelled.
- `_is_number`, `str(float(...))`, non-ASCII `str.lower()` and non-ASCII `\w` are fields of `TextOracle`, and nothing is assumed about them.
- DropText.FixNumber: states only that non-numbers pass through, because `str(float(...))` is left uninterpreted.
- DropScoring.F1Of: `np.mean` of an empty array is NaN, modelled as `None`, with no warning. That happens only when both answers have no span. In `process_results` the gold tuple is then empty, and `gold_answer[0]` (line 155) raises `IndexError` before any `max` runs; `get_answers` never yields such a tuple (DropAnswers.AnswersNonEmpty). DropScoring.GoldF1 gives that case 0 only so that it stays total.
- DropScoring.ProcessResults requires every gold tuple to be non-empty. On an empty one Python raises `IndexError` at `gold_answer[0]`. `get_answers` never produces one (DropAnswers.AnswersNonEmpty).
- DropScoring contracts take the normaliser as a parameter of `Evaluator`. The source's `_normalize` is `SourceEvaluator`.
- Dataset access and prompting are not modelled: `training_docs`, `validation_docs`, `_process_doc`, `doc_to_text`, `doc_to_target`, `construct_requests`, `should_decontaminate`, `doc_to_decontamination_query`. `aggregation` and `higher_is_better` only return constant tables.
- In `docker/execute.py`, these are not modelled: the container launch, the monitor subprocesses, `os.kill`/`poll`, `os.system` and all printing.
- CSV reading and the `%` stripping are not modelled. Rows arrive as parsed reals.
- Parameters stand in for the environment:
  - `time.time()` becomes `startTime` and `endTime`;
  - `/proc/meminfo` becomes `memTotalKib`;
  - `get_num_instances` becomes `numInstances`;
  - `multiprocessing.cpu_count()` becomes `numCpus >= 1`.
- Telemetry.Aggregate: `time_elapsed` is printed before the throughput division fails. That output is lost with the printing.
