# Validation server back end: sensitivity estimation and noise, in Dafny

The validation server lets an analyst run an R program against confidential data
and get back only noisy results. A job passes through these stages of a step-function
state machine:

- **Dispatcher.** It samples the dataset and shards the sample into `K = 10` subsets
  (`np.array_split`). It cuts each subset's 1-based row range `[1, max_index]` into
  contiguous takeout ranges, sends one task message per range, and adds the
  monitoring fields to the payload.
- **Worker.** It runs the leave-one-out routine on one takeout range and writes the
  partial table to `intermediate/<job_id>/<task_id>.csv`. It logs any error and
  writes nothing.
- **Leave-one-out routine.** This is the R source embedded in `functions/utils.py`.
  It runs the analyst's `run_analysis` on the whole subset, then once per takeout row
  with that row removed. For every statistic it keeps the running maximum of
  `|value_full - value|`, and that maximum becomes its local sensitivity `ls`.
- **Monitor.** It counts the objects under the job's prefix, page by page. It then
  decides whether the job is complete, still running, or timed out.
- **Combiner.** It folds the worker tables into one `chi = max(n * ls)` per
  statistic, the maximum observed sensitivity. It left-joins that onto the noise-free
  true output and numbers the statistics (`statistic_id`) and the analyses
  (`analysis_id`).
- **Sanitizer.** It gives every statistic a privacy budget `epsilon`: either the
  default budget split evenly over the cells with `n >= 10`, or the analyst's own
  entries. It adds noise `sqrt(2) * chi / (epsilon * n) * omega` (for counts,
  `sqrt(2) * omega / epsilon`). On a rerun it carries forward the previous run's rows
  that were not given a new budget.
- **Failure handler.** It reports a failed job. An error in the analyst's R program
  gets a message with no detail, so that nothing about the confidential data leaks.

Conventions of the model:

- A table is a `map` from the statistic's identifying columns (`StatKey`) to its
  measures. R's `NA` and pandas' NaN are `Option`.
- Numbers are mathematical reals. `sqrt(2)` is an uninterpreted positive constant.
- A typed message or request carries a job id as the text of `job_id`, that is
  `str(job_id)` (`Tables.JsonText`), since every use formats it into a path or prefix.
  The step-function triggers send an integer id.
- The standard-normal draws `omega`, the random sample, the probe's `workers_per_k`,
  the clock, the object store and the analyst's `run_analysis` are all parameters.

Where the code is imperative the model is too:

- `Dispatcher.DispatchAllTasks` keeps the source's `for` over subsets and its `while`
  over takeout ranges.
- `LocalSensitivity.ComputeLocalSensitivities` keeps the R `for` loop.
- `Monitor.ComputeNumCompletedTasks` keeps the loop over listing pages.
- `Worker.OutputStore` is a class whose handler overwrites one key of its store.

Each method is proved equal to a specification function, and the properties are
proved about that function. The module `Pipeline` connects the stages. If every
dispatched task succeeds at least once, in any order and with any number of
redeliveries, the monitor sees the job complete. While any task is still pending, it
never does.

Where the code and the obvious intent differ, the model follows the code:

- The monitor tests `num_remaining == 0`: a negative count is not "complete".
- A statistic missing from one takeout run gets `NA` from the `all.x` merge, and `pmax`
  without `na.rm` keeps it `NA`. It is not skipped.
- `analysis_id` numbers the `(analysis_name, analysis_type)` groups in sorted order,
  not in order of first appearance (`groupby` sorts by default).
- The default budget keeps cells with `n >= N_THRESHOLD`. The comment in
  `functions/config.py` says cells "less than or equal to" the threshold are
  suppressed, but a cell of exactly 10 is kept.
- The dispatch loop's progress measure is the start index, not the end index. When
  `workers_per_k > max_index` the share is 0 rows, and the first iteration leaves the
  end index at 1 (`Dispatcher.FirstIterationCanKeepEnd`).

## Model

| member | source | states |
|---|---|---|
| Text.ParseNatToString | functions/dispatcher.py:58 | reading back the decimal text of a number gives the number |
| Text.NatToStringInjective | functions/dispatcher.py:58 | different numbers format differently |
| Text.IntToString | functions/sanitizer.py:143 | Python's `str` of an integer: non-empty, with a leading `-` exactly for a negative number |
| Text.IntToStringInjective | functions/sanitizer.py:143 | different integers format differently |
| Tables.JsonText | functions/monitor.py:27 | the text an f-string gives `job_id`: a string as it is, an integer as `str` renders it; only floats and containers are not rendered |
| Tables.IntJobIdsAreDistinct | functions/combiner.py:32 | integer job ids, as the step-function triggers send them, give the same prefix only when equal |
| Dispatcher.TaskIdRoundTrip | functions/dispatcher.py:54-59 | for a known dataset id, even one containing `_`, the task id parses back to its subset index, start and end |
| Dispatcher.FieldsRoundTrip | functions/dispatcher.py:58 | the three decimal fields after the dataset prefix read back as the numbers written |
| Dispatcher.TaskIdInjective | functions/dispatcher.py:54-59 | distinct (subset, start, end) triples get distinct task ids |
| Dispatcher.MaxRowsPerWorker | functions/dispatcher.py:93 | the extrapolated rows per worker (720 s times 20 rows over the probe time) is positive |
| Dispatcher.Ceil | functions/dispatcher.py:96 | `math.ceil`: the least integer not below its argument |
| Dispatcher.ComputeWorkersPerK | functions/dispatcher.py:92-97 | the fewest workers whose combined capacity covers `rows_per_k`; at least one for a non-empty subset |
| Dispatcher.ArraySplit | functions/dispatcher.py:140 | `np.array_split`: `k` pieces; the first `len % k` hold `len / k + 1` rows, the rest `len / k` |
| Dispatcher.ArraySplitBalanced | functions/dispatcher.py:140 | piece sizes differ by at most one, and larger pieces come first |
| Dispatcher.ArraySplitPrefix | functions/dispatcher.py:140 | the first `j` pieces, concatenated, are the sample up to piece `j`'s offset |
| Dispatcher.ArraySplitConcat | functions/dispatcher.py:140 | the pieces, concatenated in order, are the sample |
| Dispatcher.ComputeTakeoutEndIndex | functions/dispatcher.py:62-68 | `min(start + floor(max / w), max)`: at most both `max` and `start + floor(max / w)`, and equal to one of them; at least `start` when `start <= max` |
| Dispatcher.RangesFromStep | functions/dispatcher.py:150-161 | one loop iteration emits `(start, end')` and continues from `(end' + 1, end')`; it stops exactly when `end'` reaches `max_index` |
| Dispatcher.RangesFromShape | functions/dispatcher.py:150-161 | from any loop state the ranges are contiguous up to `max_index`, and all but the last hold one full share |
| Dispatcher.RangesFromOrdered | functions/dispatcher.py:150-161 | each later range starts after every earlier one ends |
| Dispatcher.RangesFromCount | functions/dispatcher.py:150-161 | the number of full ranges times the share size stays below the rows left |
| Dispatcher.RangesFromCovered | functions/dispatcher.py:150-161 | listing the rows of the ranges in order gives every row from the start to `max_index` exactly once |
| Dispatcher.ShardRangesPartition | functions/dispatcher.py:148-161 | for `max_index >= 2` the ranges partition `[1, max_index]`: the first starts at 1, each starts right after the previous one, the last ends at `max_index`, and all but the last hold `floor(max_index / w) + 1` rows |
| Dispatcher.TinyShardHasNoTasks | functions/dispatcher.py:149-150 | a subset with at most one row gets no task, whatever `workers_per_k` is |
| Dispatcher.SmallSampleIsDispatchable | functions/dispatcher.py:140 | a sample of at most `K` rows splits into subsets of at most one row |
| Dispatcher.TinyShardsSendNothing | functions/dispatcher.py:144-162 | subsets of at most one row get no task message at all |
| Dispatcher.ZeroWorkersDispatchNothing | functions/dispatcher.py:137-164 | when the probe yields no workers, which it does only for a sample of at most 5 rows, the dispatch sends no task and never divides by `workers_per_k` |
| Dispatcher.ShardMessagesStep | functions/dispatcher.py:150-161 | one iteration sends the first range's message and leaves the messages of the remaining state |
| Dispatcher.ShardTaskCountBound | functions/dispatcher.py:148-162 | one subset gets at most `workers_per_k` tasks |
| Dispatcher.FirstIterationCanKeepEnd | functions/dispatcher.py:149-161 | when `workers_per_k > max_index` the first range is `(1, 1)`, so the end index does not grow on the first iteration |
| Dispatcher.SubsetPathInjective | functions/dispatcher.py:49 | different subset indices are written to different paths |
| Dispatcher.ShardMessages | functions/dispatcher.py:100-112 | message `i` of a subset carries `job_id`, the generated task id, the subset and script paths, and exactly range `i` |
| Dispatcher.DispatchShard | functions/dispatcher.py:148-162 | the `while` loop over one subset sends exactly the messages of that subset's ranges, in order, and counts them; with no workers it runs only for subsets of at most one row, where it sends nothing |
| Dispatcher.DispatchAllTasks | functions/dispatcher.py:117-164 | the loops send exactly the messages of every subset's ranges in order, write every subset to its path, and return the number of messages sent; with no workers (a sample of at most `K` rows) they send none |
| Dispatcher.UpdateStateMachine | functions/dispatcher.py:167-180 | the payload keeps every other field of the event and sets `start_time` to the formatted start time, `job_timeout_secs` to the configured timeout and `num_tasks_dispatched` to the task count |
| LocalSensitivity.RemoveRow | functions/utils.py:200 | R's `df[-i,]`: for `1 <= i <= nrow` every row but row `i`, in order; nothing removed past the end; no row at all for `-0` |
| LocalSensitivity.RColon | functions/utils.py:195 | R's `a:b`: counts up or down from `a` to `b` and is never empty |
| LocalSensitivity.AbsDiff | functions/utils.py:205 | `abs(x - y)`: non-negative, the absolute difference, missing when either side is |
| LocalSensitivity.PMax | functions/utils.py:205 | `pmax` without `na.rm`: the larger value, missing as soon as either is |
| LocalSensitivity.InitialRunning | functions/utils.py:194 | the running maximum has a column for every statistic of the full run |
| LocalSensitivity.UpdateRunning | functions/utils.py:204-206 | merging a takeout run keeps exactly the full run's statistics |
| LocalSensitivity.RunningMax | functions/utils.py:195-207 | the running maximum after any prefix of the loop covers exactly the full run's statistics |
| LocalSensitivity.LocalSensitivities | functions/utils.py:185-212 | the result has one row per statistic of the full run, whose `n` is the full run's `n` |
| LocalSensitivity.RunningMaxFailurePersists | functions/utils.py:201 | once a takeout run raises, the routine ends with that error |
| LocalSensitivity.ComputeLocalSensitivities | functions/utils.py:185-212 | the R loop computes `LocalSensitivities` |
| LocalSensitivity.FoldMaxIsMaximum | functions/utils.py:194-205 | `pmax` folded from 0 is missing exactly when some difference is; otherwise it is non-negative, at least every difference, and either 0 or one of them |
| LocalSensitivity.RunningMaxIsFold | functions/utils.py:195-206 | for each statistic the running maximum is the fold over, for each takeout row in loop order, the difference removing that row makes |
| LocalSensitivity.RunningMaxSucceeds | functions/utils.py:195-207 | the loop succeeds exactly when every takeout run does |
| LocalSensitivity.LocalSensitivitiesSucceeds | functions/utils.py:190-201 | the routine fails exactly when the full run or a takeout run raises |
| LocalSensitivity.LocalSensitivitiesUnfold | functions/utils.py:210-211 | a statistic's `ls` is its column of the running maximum |
| LocalSensitivity.FoldMaxAttained | functions/utils.py:194-205 | over at least one non-negative difference a present maximum is one of the differences |
| LocalSensitivity.LocalSensitivityIsRangeMaximum | functions/utils.py:194-211 | each `ls` is `NA` exactly when one of the range's differences is; otherwise it is non-negative, the maximum over the takeout rows `start:end`, and attained by one of them |
| LocalSensitivity.MatchingEntries | functions/utils.py:241 | the list comprehension keeps exactly the catalogue entries with that id |
| LocalSensitivity.GetDatasetMetadata | functions/utils.py:223-242 | a catalogue entry with that id is found exactly when one exists; an unknown id is the error of indexing an empty list |
| LocalSensitivity.KnownDatasets | functions/utils.py:227-240 | exactly `cps`, `puf_2012` and `puf_2012_subset` are known |
| Worker.OutputKey | functions/worker.py:30-32 | the key lies under `intermediate/<job_id>/` and ends in `<task_id>.csv` |
| Worker.RunTask | functions/worker.py:36-48 | the handler succeeds exactly when the first record decodes, the script and subset exist, and the routine succeeds on the message's own range; it then writes that table at that message's key |
| Worker.OutputStore.Write | functions/worker.py:26-33 | the store gets the table at the task's key, replacing what was there |
| Worker.OutputStore.HandleTask | functions/worker.py:36-58 | the store changes as `StoreAfter` says and the outcome is the key written or the error logged; nothing is raised |
| Worker.OutputKeyInjective | functions/worker.py:32 | within a job, distinct task ids get distinct keys |
| Worker.PrefixSeparatesJobs | functions/worker.py:32 | for job ids without `/`, a key under one job's prefix belongs to that job |
| Worker.RedeliveryIsIdempotent | functions/worker.py:47-48 | handling the same message twice leaves the store as after once |
| Worker.OnlyOwnKeyChanges | functions/worker.py:40-58 | a failed task writes nothing; a successful one adds or overwrites its own key and nothing else |
| Worker.OnlyFirstRecordMatters | functions/worker.py:40 | records after the first are never read |
| Monitor.TotalKeyCount | functions/monitor.py:28-31 | the sum of the pages' `KeyCount`s is the number of keys listed |
| Monitor.ComputeNumCompletedTasks | functions/monitor.py:19-31 | the page loop computes that sum |
| Monitor.ListingCount | functions/monitor.py:26-31 | for any paging of a listing, the count is the number of objects under the prefix |
| Monitor.Decide | functions/monitor.py:66-81 | completed exactly when nothing remains; timed out exactly when something remains and strictly more than the timeout has elapsed; otherwise still running |
| Monitor.MonitorHandler | functions/monitor.py:55-81 | the handler computes `MonitorStep`, including its `KeyError`s and the timeout exception |
| Monitor.MonitorFollowsDecision | functions/monitor.py:55-81 | for an event whose `job_id` renders as text (a string or an integer alike) the step raises exactly on `TimedOut`; otherwise its output is the event plus `num_tasks_remaining = dispatched - completed`, `elapsed_secs` and `completed` |
| Monitor.CompletedJobIgnoresTimeout | functions/monitor.py:66-70 | a job with nothing remaining, whether its `job_id` is a string or an integer, completes without a `job_timeout_secs` field and whatever the elapsed time |
| Combiner.Chi | functions/combiner.py:58 | `chi = n * ls`, missing when either is |
| Combiner.MaxChi | functions/combiner.py:60 | what survives the descending sort and `drop_duplicates`: the larger `chi`, missing only when both are |
| Combiner.Mos | functions/combiner.py:57-61 | the MOS table has one entry for every statistic some worker reported |
| Combiner.FoldMaxChiIsMaximum | functions/combiner.py:60 | the fold is missing exactly when every `chi` is, and otherwise is the largest `chi` and one of them |
| Combiner.MosIsFold | functions/combiner.py:57-61 | the fold over the files is, per statistic, the fold over that statistic's column |
| Combiner.MosIsMaximum | functions/combiner.py:52-61 | each statistic's `chi` is missing exactly when every worker row for it is; otherwise it is the maximum of their `chi`s and one of them |
| Combiner.MosOfTwoCommutes | functions/combiner.py:60 | the order in which the workers' outputs are listed does not change the MOS table |
| Combiner.MosOfTwo | functions/combiner.py:57-61 | for two outputs, each statistic keeps the larger `chi` of those reporting it |
| Combiner.PairChiCommutes | functions/combiner.py:60 | keeping the larger `chi` does not depend on which output comes first |
| Combiner.ComputeMosValues | functions/combiner.py:34-62 | fails exactly when there is no worker output (the empty listing has no `Contents`, so line 34 raises `KeyError`) and otherwise covers every reported statistic |
| Combiner.PrepCombinedOutput | functions/combiner.py:74-91 | one combined row per true-output row |
| Combiner.CombinedRowsFollowTrueOutput | functions/combiner.py:81-86 | row `i` has `statistic_id = i`, the true row's key, value and `n`, and the statistic's `chi` (missing where no worker reported it) |
| Combiner.AnalysisIdMonotone | functions/combiner.py:89 | a group that sorts earlier gets a smaller id |
| Combiner.AnalysisIdInjective | functions/combiner.py:89 | different groups get different ids |
| Combiner.AnalysisIdBelowGroupCount | functions/combiner.py:89 | every id is below the number of groups |
| Combiner.AnalysisIdsNumberSortedGroups | functions/combiner.py:89-90 | rows share an `analysis_id` exactly when they share `(analysis_name, analysis_type)`; ids are below the group count and follow the sorted group order |
| Combiner.AnalysisIdsAreDense | functions/combiner.py:89-90 | every number below the group count is some row's `analysis_id` |
| Combiner.MosOutputKeyInjective | functions/combiner.py:98 | different jobs write their combined tables to different objects |
| Combiner.CombinerStep | functions/combiner.py:94-111 | the next event is the input with `use_default_epsilon` set to true; the key written is `submissions/<job_id>/mos_output.csv`, the one the sanitizer reads back; and the table written is the combined output of the true output and the MOS values of the prefix named by `str(job_id)`; the step fails exactly when `job_id` is missing or cannot be rendered, there are no worker outputs, or the true output is missing |
| Sanitizer.AddNoiseToValue | functions/sanitizer.py:31-41 | counts (`n`, `nobs`) get `value + sqrt(2) * omega / epsilon`; other statistics get `value + sqrt(2) * chi / (epsilon * n) * omega`; a zero divisor raises `ZeroDivisionError` whatever the other operands, and otherwise a missing operand gives a missing value |
| Sanitizer.CountNoiseIgnoresSensitivity | functions/sanitizer.py:35-36 | the noise on a count does not depend on `chi` or `n` |
| Sanitizer.NoiseMagnitude | functions/sanitizer.py:38 | for other statistics the noise's size times `abs(epsilon * n)` is `sqrt(2) * abs(chi) * abs(omega)` |
| Sanitizer.KeepAboveThreshold | functions/sanitizer.py:114 | the mask keeps exactly the rows with `n >= 10`, with their multiplicities |
| Sanitizer.ThresholdIsInclusive | functions/sanitizer.py:114 | a cell of exactly 10 is kept |
| Sanitizer.AddDefaultEpsilonCol | functions/sanitizer.py:108-118 | each kept row gets `DEFAULT_EPSILON / count`; the division by zero raises when no row is kept |
| Sanitizer.DefaultBudgetSumsToTotal | functions/sanitizer.py:117 | the default budgets add up to `DEFAULT_EPSILON` |
| Sanitizer.DefaultBudgetRespectsThreshold | functions/sanitizer.py:114-117 | every row given a default budget is a MOS row with `n >= 10` |
| Sanitizer.MatchesOf | functions/sanitizer.py:132 | the MOS rows with a given `statistic_id` |
| Sanitizer.JoinEntry | functions/sanitizer.py:132 | a left merge gives every entry at least one row |
| Sanitizer.MergeEpsilons | functions/sanitizer.py:131-132 | the merge has at least one row per entry |
| Sanitizer.CombinedIdsAreUnique | functions/combiner.py:85-86 | the combined table's `statistic_id`s are unique |
| Sanitizer.UniqueMatch | functions/sanitizer.py:132 | with unique ids an entry matches at most one MOS row |
| Sanitizer.MergeOnePerEntry | functions/sanitizer.py:131-132 | with unique ids the merge has one row per entry, in entry order, with the entry's id and budget and the MOS row with that id, or missing columns when there is none; unlisted statistics are absent and no threshold applies |
| Sanitizer.MergedIdsAreEntryIds | functions/sanitizer.py:131-132 | every merged row's id is one of the entries' ids |
| Sanitizer.EntryIdsAreMerged | functions/sanitizer.py:131-132 | the left merge drops no entry: every entry's id is some merged row's id |
| Sanitizer.PrepOutput | functions/sanitizer.py:121-134 | the default run uses the default budget, any other run the merge; an empty `epsilons` list raises |
| Sanitizer.ReleaseAll | functions/sanitizer.py:71-75 | raises exactly when some row's divisor is 0; otherwise one draw per prepared row, row `i` noised with draw `i`, keeping its id and budget |
| Sanitizer.DropUpdated | functions/sanitizer.py:44-60 | exactly the previous run's rows whose id got no new budget, unchanged, with their multiplicities |
| Sanitizer.DropUpdatedConcat | functions/sanitizer.py:59 | dropping distributes over concatenation, so the kept rows stay in order |
| Sanitizer.InsertById | functions/sanitizer.py:81 | inserting into a sorted table keeps it sorted and adds exactly the row |
| Sanitizer.SortById | functions/sanitizer.py:81 | `sort_values(by="statistic_id")`: sorted by id and a permutation of its input |
| Sanitizer.ComputeSanitizedValues | functions/sanitizer.py:63-82 | the noise is computed first and its division by zero propagates; a default run then releases the noised rows as they are; any other run releases the noised rows plus the carried rows, sorted by id, and fails when the previous run cannot be read |
| Sanitizer.RerunIdsAreDisjoint | functions/sanitizer.py:58-80 | on a rerun whose noise step succeeds, the recomputed rows' ids are exactly the listed ids (each recomputed row has a listed id, and each listed id has a recomputed row) and the carried rows have none; every previous row of an unlisted id is carried |
| Sanitizer.SanitizerStep | functions/sanitizer.py:157-169 | it writes `sanitized_output_<run_id>.csv`, and the table it writes is `compute_sanitized_values` of the prepared rows, their draws and (on a rerun) the previous run; then it updates the job and run status to completed and sends the results email; it succeeds exactly when the MOS table and the budget are available, no divisor is 0, and (on a rerun) the previous run is available |
| ErrorHandler.FailureStatus | functions/error.py:24-40 | `ok` is false and `info` is `failed`; an `RRuntimeError` gets the privacy message, any other type the unexpected-error message |
| ErrorHandler.HandleFailure | functions/error.py:21-43 | the job status is updated with that record, then the failure email is sent; an event without `error.Error` raises before either |
| ErrorHandler.ReportHidesErrorDetail | functions/error.py:24 | the report depends only on the error type, never on the cause |
| Pipeline.MessageOrigin | functions/dispatcher.py:144-160 | every message sent comes from one subset and one of that subset's ranges |
| Pipeline.SubsetsWrittenLookup | functions/dispatcher.py:144-145 | each subset is stored at its own path |
| Pipeline.MessageNamesItsSubset | functions/dispatcher.py:104-112 | a message names its job, its script and a subset the dispatcher wrote, and its range lies inside that subset |
| Pipeline.DispatchMessageNamesSubset | functions/dispatcher.py:104 | a message's task id names its subset |
| Pipeline.ShardTaskIdsDistinct | functions/dispatcher.py:150-161 | the messages of one subset carry distinct task ids |
| Pipeline.IdsDistinctConcat | functions/dispatcher.py:144-162 | ids of earlier subsets never clash with those of a later one |
| Pipeline.DispatchedTaskIdsDistinct | functions/dispatcher.py:144-162 | no two messages of a dispatch carry the same task id |
| Pipeline.DoneKeysStep | functions/worker.py:47-48 | one more delivery adds its own key exactly when it succeeds |
| Pipeline.JobKeysStep | functions/worker.py:47-48 | handling a message of the job changes that job's listing by at most its own key |
| Pipeline.RunAllJobKeys | functions/worker.py:36-48 | the objects under a job's prefix are exactly the keys of the deliveries that succeeded |
| Pipeline.OutputKeys | functions/worker.py:32 | the keys of the dispatched tasks, in order |
| Pipeline.ExpectedKeyCount | functions/worker.py:32 | distinct task ids give as many keys as tasks |
| Pipeline.CompletesWhenEveryTaskSucceeded | functions/monitor.py:66-70 | once every dispatched task has succeeded, the listing counts exactly the tasks dispatched and the monitor decides `Completed` |
| Pipeline.DoneKeyIsNotPending | functions/monitor.py:26-31 | a key present under the prefix is not the key of a pending task |
| Pipeline.PendingKeyIsMissing | functions/monitor.py:26-31 | while a task is pending, fewer keys are present than tasks |
| Pipeline.ListingCountsDoneKeys | functions/monitor.py:26-31 | the monitor's count of a job is the number of keys its successful deliveries wrote |
| Pipeline.DispatchedPendingIsMissing | functions/monitor.py:38-41 | while a dispatched task is pending, fewer keys are done than tasks were sent |
| Pipeline.NeverCompletesEarly | functions/monitor.py:38-70 | while some dispatched task has not succeeded, the count is below the tasks dispatched and the monitor never decides `Completed` |

## Left out

- Object storage, the queue, the email and status APIs, and `load_confidential_data`,
  because they are I/O. The store is a map, the listing a sequence of pages, the sent
  messages an output sequence, and the status calls and emails a list of `Effect`s.
- Encryption of the CSV files, because it is I/O.
- The rpy2 bridge, `load_user_script` and the `aws.s3` read, because they run a foreign
  R runtime. `run_analysis` is an uninterpreted function; scripts and subsets are maps
  by path.
- The progress `message` every 500 rows, because it is logging.
- `df.sample`, `rng.standard_normal` and `add_noise_pct_col`, because they are random.
  The sample and the draws are inputs; the display-only `noise_90` column is not
  modelled.
- The probe in `compute_workers_per_k` (writing a test subset and timing 20 takeout
  rows), because it is wall-clock timing. The elapsed time is an input.
- Dispatcher.DispatchAllTasks: requires `workers_per_k >= 1` or a sample of at most
  `K` rows. The probe returns 0 workers only when `rows_per_k`, the size of a
  `1/k` sample, is 0, that is for a sample of at most 5 rows. So every call the
  source makes is covered. A 0 passed with a larger sample would raise
  `ZeroDivisionError`; that case is not modelled, since the source never makes it.
- `datetime` formatting and parsing in `update_state_machine` and
  `compute_elapsed_secs`, because they read the clock. The start-time string, the
  configured timeout and the elapsed seconds are inputs.
- Floating point, because the model uses real arithmetic. Rounding, overflow and
  underflow are not modelled. A NaN operand is a missing value.
- Parallel and at-least-once delivery of worker messages, because they are concurrent.
  Deliveries are sequential, in any order and with any repetition.
- `functions/validator.py`, which writes `true_output.csv`, is not part of this model.
  The true output is an input.
- `invoke/trigger-sfn.py` and `invoke/trigger-sanitizer.py`, because they are
  deployment triggers.
- R `merge` reordering the rows of `output_full`, because statistics are keyed.
- Duplicate statistic keys in one analysis output, which would multiply rows in the
  merges, because a statistic is keyed once.
- NaN as a key value in merges and group keys, because keys are strings.
- Sanitizer.SortById: pandas' default sort is not stable, so the relative order of rows
  with equal `statistic_id` is unspecified there. The model uses a stable insertion
  sort, and its contract states only sortedness and the permutation.
- Monitor.MonitorHandler: a `job_id` that is a JSON float, array or object is a
  `WrongType` error, because the model does not render Python's `repr` of floats and
  containers. String, integer, boolean and null ids are rendered as `str` does. A
  `num_tasks_dispatched` that is not an integer is also a `WrongType` error.
- Combiner.CombinerStep: a float, array or object `job_id` fails with
  `UnrenderedJobId`, for the same reason.
- Sanitizer.SanitizerStep: the request's `jobId` is the text of `job_id`, so the
  rendering of a non-string id is outside this step.
- Sanitizer.SanitizerStep: the event is a typed request, so a `KeyError` on a malformed
  `epsilons` entry is not modelled.
- Combiner.MosOfTwoCommutes: order independence is stated for two outputs. For any
  number of outputs, `Combiner.MosIsMaximum` fixes the result independently of order.
