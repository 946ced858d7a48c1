# HASPI batch driver — a Dafny model

This project models the bookkeeping of the resumable HASPI scoring driver of
the CPC2 baseline recipe, `recipes/cpc2/baseline/compute_haspi.py`:

- the CEC2 signal-name parser `parse_cec2_signal_name`;
- the seed bound of `set_seed_with_string`;
- the results-file name `{dataset}.haspi[.{batch}_{n_batches}].jsonl`;
- the index of already-scored signals, and the resume filter over the manifest;
- the static shard `records[batch - 1 :: n_batches]`, including CPython's
  slice-start adjustment and the `ValueError` for a zero step;
- the append-only `write_jsonl`;
- the scoring loop of `run_calculate_haspi`.

The driver is a pure function `Driver.RunCalculateHaspi` from a
configuration, a manifest and the batch's existing results file (absent or a
list of records) to the file afterwards. It also returns the seeds handed to
`np.random.seed` and the error that ended the run, if any. Two things are
parameters of the model:

- the HASPI computation, `score: string -> real`;
- the MD5 digest read as an integer, `md5: string -> nat`.

A signal whose name does not parse raises inside `compute_haspi_for_signal`.
That stops the loop, and the records appended before it stay in the file.

Modules:

- `Wrappers`: `Option` and `Result`.
- `Strings`: `str.split` on one character, `"_".join` and `str(int)`, with
  their round trips.
- `SignalName`: the parser.
- `Seeding`: the seed.
- `Slicing`: extended slices and the shard partition.
- `ResultsLog`: file name, index, resume filter and append.
- `Driver`: the loop and the run.
- `Resume`: the resume behaviour of split runs, and a corrected driver.

## Model

| member | source | states |
|---|---|---|
| SignalName.ParseCec2SignalName | recipes/cpc2/baseline/compute_haspi.py:40-46 | On success the name is exactly scene `_` listener `_` system, with scene and listener non-empty and free of `_`. The unpacking error is raised exactly when the name has no `_`. Every other failure is `Invalid CEC2 signal name` carrying the name. |
| SignalName.ParseComposed | recipes/cpc2/baseline/compute_haspi.py:43-46 | Every name built from a non-empty `_`-free scene, a non-empty `_`-free listener and any system tag parses back to exactly those fields, so the parser accepts exactly the names of that shape. |
| SignalName.ParseFieldsUnique | recipes/cpc2/baseline/compute_haspi.py:43-46 | Two well-formed field triples that print to the same name are equal. |
| SignalName.RejectsTwoSegments | recipes/cpc2/baseline/compute_haspi.py:43-45 | A name with a single `_` (empty `system`) is rejected as an invalid name. |
| SignalName.RejectsEmptyScene | recipes/cpc2/baseline/compute_haspi.py:43-45 | A name starting with `_` (and containing another `_`) is rejected as an invalid name. |
| SignalName.RejectsEmptyListener | recipes/cpc2/baseline/compute_haspi.py:43-45 | A name whose second segment is empty is rejected as an invalid name. |
| SignalName.ParseExampleHr | recipes/cpc2/baseline/compute_haspi.py:42-46 | `S0001_L0001_E001_hr` gives `S0001`, `L0001`, `E001_hr`. |
| SignalName.ParseExampleEmptySystem | recipes/cpc2/baseline/compute_haspi.py:43-46 | `S_L_` is accepted with an empty system tag. |
| Strings.Split | recipes/cpc2/baseline/compute_haspi.py:43 | `str.split` yields one more part than there are separators, no part contains the separator, and joining the parts gives the string back. |
| Strings.SplitJoin | recipes/cpc2/baseline/compute_haspi.py:43-46 | Splitting undoes `"_".join` of parts that contain no `_`. |
| Strings.Join | recipes/cpc2/baseline/compute_haspi.py:46 | `"_".join(parts)`: the parts with one `_` between neighbours. `Split` joins back to its input through it, and `SplitJoin` shows that splitting inverts it on `_`-free parts. |
| Strings.IntToDecimalRoundTrip | recipes/cpc2/baseline/compute_haspi.py:103 | Reading back the f-string rendering of an integer gives that integer, negative ones included. |
| Strings.IntToDecimalInjective | recipes/cpc2/baseline/compute_haspi.py:103 | Distinct integers render to distinct text. |
| Strings.IntToDecimal | recipes/cpc2/baseline/compute_haspi.py:103 | The f-string rendering of an integer is a decimal numeral (an optional minus sign, then digits) and never contains `_`, so it cannot be confused with the batch separator. |
| Seeding.SeedFromString | recipes/cpc2/baseline/compute_haspi.py:34-37 | The seed is below 10^8 for every digest, and it is congruent to the digest modulo 10^8. |
| Seeding.SeedAcceptedByNumpy | recipes/cpc2/baseline/compute_haspi.py:36-37 | Every derived seed is below 2^32, so numpy's legacy seeding accepts it. |
| Slicing.AdjustStartUp | recipes/cpc2/baseline/compute_haspi.py:115 | For a positive step, an in-range start is kept, a negative one counts from the end, and the result never exceeds the length. |
| Slicing.AdjustStartDown | recipes/cpc2/baseline/compute_haspi.py:115 | For a negative step, an in-range start is kept, a negative one counts from the end, and the result lies between -1 (nothing to take) and the last index. |
| Slicing.SliceFrom | recipes/cpc2/baseline/compute_haspi.py:115 | `xs[start::step]` fails exactly for a zero step. For a positive step and a non-negative start it is the stride from `min(start, len)`. |
| Slicing.StrideSlots | recipes/cpc2/baseline/compute_haspi.py:115 | The k-th element of a stride is the list element at `start + k*step`, every listed position is in range, and the first unlisted position is past the end. |
| Slicing.StrideDownSlots | recipes/cpc2/baseline/compute_haspi.py:115 | The same for a negative step, down to position 0. |
| Slicing.Stride | recipes/cpc2/baseline/compute_haspi.py:115 | A stride is empty exactly when the start is past the end, and never has more elements than lie from the start to the end. `StrideSlots` gives its elements. |
| Slicing.StrideDown | recipes/cpc2/baseline/compute_haspi.py:115 | A downward stride is empty exactly when the start is below 0, and has at most `start + 1` elements. `StrideDownSlots` gives its elements. |
| Slicing.Shard | recipes/cpc2/baseline/compute_haspi.py:115 | The shard fails exactly when `n_batches` is 0. For `1 <= batch <= n_batches` its k-th element is record `batch - 1 + k*n_batches`, and it lists every such record inside the list. |
| Slicing.ShardIsStride | recipes/cpc2/baseline/compute_haspi.py:115 | For `1 <= batch <= n_batches` the driver's slice is the stride from `batch - 1` with step `n_batches`, the form `ShardsPartition` and `ShardOfPosition` are stated in. |
| Slicing.ShardsPartition | recipes/cpc2/baseline/compute_haspi.py:115 | The shards of batches 1..n together hold every element of the list exactly as often as the list does. |
| Slicing.ShardOfPosition | recipes/cpc2/baseline/compute_haspi.py:115 | Element i lies in shard `i % n + 1` at place `i / n`. Slot k of batch b is position i only for that batch and place, so each element lands in exactly one shard. |
| Slicing.StrideSubMultiset | recipes/cpc2/baseline/compute_haspi.py:115 | A shard never repeats an element more often than the list holds it. |
| Slicing.StrideByOne | recipes/cpc2/baseline/compute_haspi.py:115 | With a single batch the shard is the whole filtered list. |
| ResultsLog.ResultsFileNamesDistinct | recipes/cpc2/baseline/compute_haspi.py:102-107 | Distinct settings of a split run write distinct files. A split run never writes the unsplit file. All unsplit settings share one file. |
| ResultsLog.ResultsFileName | recipes/cpc2/baseline/compute_haspi.py:102-107 | `{dataset}.haspi{batch_str}.jsonl`. `ResultsFileNameReadsBack` and `ResultsFileNamesDistinct` state what it promises. |
| ResultsLog.BatchSuffix | recipes/cpc2/baseline/compute_haspi.py:102-106 | `batch_str`: `.{batch}_{n_batches}` when `n_batches > 1`, empty otherwise. `BatchSuffixInjective` shows a split suffix determines both numbers. |
| ResultsLog.ResultsFileNameReadsBack | recipes/cpc2/baseline/compute_haspi.py:102-107 | An unsplit run writes `{dataset}.haspi.jsonl`. A split run writes `{dataset}.haspi.{fields}.jsonl`, whose fields split on `_` into the decimal batch index and batch count. |
| ResultsLog.ReadResults | recipes/cpc2/baseline/compute_haspi.py:108 | A missing results file reads as the empty list, and an existing one as its records. |
| ResultsLog.LoggedSignals | recipes/cpc2/baseline/compute_haspi.py:109 | The signals that have a record in the file: the key set of `results_index`, as `ResultsIndex` states. |
| ResultsLog.ResultsIndex | recipes/cpc2/baseline/compute_haspi.py:109 | The index's keys are exactly the logged signals, and the last record of the log wins its key. |
| ResultsLog.ResultsIndexLast | recipes/cpc2/baseline/compute_haspi.py:109 | Every key maps to the last record of its signal, because later entries of the comprehension overwrite earlier ones. |
| ResultsLog.ResultsIndexValues | recipes/cpc2/baseline/compute_haspi.py:109 | Each key maps to a record of that signal that occurs in the log. |
| ResultsLog.Pending | recipes/cpc2/baseline/compute_haspi.py:112-114 | No kept record has a signal that is already done. |
| ResultsLog.PendingCounts | recipes/cpc2/baseline/compute_haspi.py:112-114 | Each manifest record whose signal is not done is kept as often as the manifest lists it, and no other record is kept. |
| ResultsLog.PendingIsSubsequence | recipes/cpc2/baseline/compute_haspi.py:112-114 | The kept records keep their manifest order. |
| ResultsLog.PendingMembership | recipes/cpc2/baseline/compute_haspi.py:112-114 | A record is kept if and only if it is in the manifest and its signal is not done. |
| ResultsLog.PendingTwice | recipes/cpc2/baseline/compute_haspi.py:112-114 | Filtering by one done-set and then another equals filtering once by their union. |
| ResultsLog.PendingAppend | recipes/cpc2/baseline/compute_haspi.py:112-114 | Filtering distributes over concatenation of manifests. |
| ResultsLog.PendingNothingDone | recipes/cpc2/baseline/compute_haspi.py:112-114 | When no manifest signal is done, the filter keeps the manifest unchanged. |
| ResultsLog.PendingAllDone | recipes/cpc2/baseline/compute_haspi.py:112-114 | When every manifest signal is done, the filter keeps nothing. |
| ResultsLog.WriteJsonl | recipes/cpc2/baseline/compute_haspi.py:27-31 | Appending keeps the old lines as a prefix and puts the new records after them, in order. |
| Driver.Records | recipes/cpc2/baseline/compute_haspi.py:126-127 | One record per shard entry, in order, each carrying that entry's signal and its score. |
| Driver.SignalError | recipes/cpc2/baseline/compute_haspi.py:60 | A signal raises exactly when its name does not parse, and then with the parser's error. |
| Driver.PassedPrefix | recipes/cpc2/baseline/compute_haspi.py:119-123 | The loop gets through a prefix in which no signal raises, and it stops only at a signal that raises. |
| Driver.ProcessShard | recipes/cpc2/baseline/compute_haspi.py:119-127 | The scoring loop: seed, score, then append one record per signal, stopping at the first signal that raises. `ProcessShardLog`, `ProcessShardError` and `ProcessShardSeeds` state its exact log, error and seeds. |
| Driver.Seeds | recipes/cpc2/baseline/compute_haspi.py:121-122 | One seed per signal, in order: the i-th is the seed derived from the i-th signal's name, and each is below 10^8. |
| Driver.ProcessShardLog | recipes/cpc2/baseline/compute_haspi.py:119-127 | After the loop the file is the old records followed by the records of the shard's longest non-raising prefix, in shard order. |
| Driver.ProcessShardError | recipes/cpc2/baseline/compute_haspi.py:119-123 | The loop fails exactly when some shard signal raises, and then with the first such signal's error. |
| Driver.ProcessShardSeeds | recipes/cpc2/baseline/compute_haspi.py:119-123 | With seeding on, one seed is set for each signal the loop reached, the failing one included. With seeding off, no seed is set. |
| Driver.RunCalculateHaspi | recipes/cpc2/baseline/compute_haspi.py:94-127 | A run reads and appends to the batch's own results file, named as at lines 102-107. It fails on the slice exactly when `n_batches` is 0. Every seed it sets is below 10^8. It sets none when seeding is off. |
| Driver.RunShape | recipes/cpc2/baseline/compute_haspi.py:108-127 | With `n_batches != 0` (a negative count takes a reversed slice), the file after a run is the old file followed by the records of the non-raising prefix of the slice of the pending records. The run's error is that of the first raising signal, if any. With seeding on, it sets one seed per signal it reached, the failing one included, in slice order. |
| Driver.RunShapeForward | recipes/cpc2/baseline/compute_haspi.py:108-127 | For `n_batches >= 1` the same, with the slice written as the stride from the adjusted start `batch - 1`. |
| Driver.RunAppendsOnly | recipes/cpc2/baseline/compute_haspi.py:108-127 | The old file is an unchanged prefix. Each new record is for a manifest signal that had no record before, and carries that signal's score. |
| Driver.NewRecordsArePending | recipes/cpc2/baseline/compute_haspi.py:112-127 | Every record the loop appends is for a pending manifest signal, and carries its score. |
| Driver.RunCompletesShard | recipes/cpc2/baseline/compute_haspi.py:112-127 | A run of batch b of n that ends without error appended, in order, one record for each of positions b-1, b-1+n, … of the pending records. |
| Driver.SliceInList | recipes/cpc2/baseline/compute_haspi.py:115 | Every element of a successful slice is an element of the list. |
| Driver.PendingNoDuplicates | recipes/cpc2/baseline/compute_haspi.py:112-114 | The pending records of a duplicate-free manifest are duplicate-free. |
| Driver.StrideNoDuplicates | recipes/cpc2/baseline/compute_haspi.py:115 | A shard of a duplicate-free list is duplicate-free. |
| Driver.ResumePending | recipes/cpc2/baseline/compute_haspi.py:109-114 | After the first k pending records have been logged, the pending records are exactly the rest, in the same order. |
| Driver.RunKeepsSignalsUnique | recipes/cpc2/baseline/compute_haspi.py:108-127 | For a duplicate-free manifest, a file with one record per signal still has one record per signal after any run with `n_batches >= 1`. |
| Driver.SliceAppendKeepsUnique | recipes/cpc2/baseline/compute_haspi.py:112-127 | For a duplicate-free manifest, appending the records of any non-raising prefix of the batch's slice of the pending records keeps a log at one record per signal. |
| Driver.UnsplitResumeMatchesUninterrupted | recipes/cpc2/baseline/compute_haspi.py:108-127 | For a manifest that lists each signal once, an unsplit run interrupted after any number of appends and then restarted ends with the same file as the uninterrupted run. |
| Driver.UnsplitRunLogsAll | recipes/cpc2/baseline/compute_haspi.py:108-127 | An unsplit run whose pending names all parse completes, with one new record per pending record. |
| Driver.UnsplitCompletedLog | recipes/cpc2/baseline/compute_haspi.py:108-127 | A completed unsplit run appended one record for every pending record, and none of those records raises. |
| Driver.UnsplitRerunAddsNothing | recipes/cpc2/baseline/compute_haspi.py:108-127 | Re-running a completed unsplit batch ends without error and leaves the file as it is, also when the manifest lists a signal more than once. |
| Driver.UnsplitLogsEverySignal | recipes/cpc2/baseline/compute_haspi.py:108-127 | After a completed unsplit run every manifest signal has a record in the file. |
| Driver.DuplicateManifestLogsTwice | recipes/cpc2/baseline/compute_haspi.py:109-127 | The index is built once, before the loop, so a manifest listing a well-formed signal twice gets two records for it from one unsplit run, and the file no longer has one record per signal. |
| Driver.DuplicateManifestResumesShort | recipes/cpc2/baseline/compute_haspi.py:109-127 | Resuming needs distinct manifest signals: over `[a, a]` the unsplit run logs two records for a, but a restart from a file holding one record for a filters both copies out and ends, without error, with that single record. |
| Resume.ResumeSkipsRecord | recipes/cpc2/baseline/compute_haspi.py:112-127 | The manifest is a, b, c, d, split two ways. Batch 1 scores a then c, and batch 2 scores b and d. If batch 1 is restarted after a's record, the restart scores b and d. Then c is in neither batch's file, and b is in both. |
| Resume.FourFirstBatch | recipes/cpc2/baseline/compute_haspi.py:112-127 | Uninterrupted, batch 1 of 2 over a, b, c, d logs a and c. |
| Resume.FourSecondBatch | recipes/cpc2/baseline/compute_haspi.py:112-127 | Batch 2 of 2 over a, b, c, d logs b and d. |
| Resume.FourFirstBatchResumed | recipes/cpc2/baseline/compute_haspi.py:112-127 | Batch 1 of 2, restarted from a file holding a's record, appends b and d. |
| Resume.FirstBatchLogged | recipes/cpc2/baseline/compute_haspi.py:108-114 | With batch 1's file holding the records of a and c, the filter leaves b and d. |
| Resume.FourFirstBatchRerun | recipes/cpc2/baseline/compute_haspi.py:112-127 | Batch 1 of 2 run again over its own completed file slices [b, d] to [b] and appends b's record. |
| Resume.RerunScoresOtherBatch | recipes/cpc2/baseline/compute_haspi.py:112-127 | Without any interruption: re-running the completed batch 1 of 2 over a, b, c, d appends a record for b, which batch 1 had not scored and batch 2 scores. |
| Resume.RunShardFirst | recipes/cpc2/baseline/compute_haspi.py:102-127 | For the corrected driver, which slices the manifest first and then filters: it uses the same per-batch results file, and it fails on the slice exactly when `n_batches` is 0, and every seed is below 10^8. |
| Resume.ShardFirstShape | recipes/cpc2/baseline/compute_haspi.py:108-127 | The corrected run leaves the old records followed by those of the non-raising prefix of the batch's own not-yet-logged records. |
| Resume.ShardFirstStaysInShard | recipes/cpc2/baseline/compute_haspi.py:112-127 | The corrected run only appends, and only records of the batch's own manifest slice that had no record yet, each with its score. |
| Resume.ShardFirstCompletesShard | recipes/cpc2/baseline/compute_haspi.py:112-127 | A corrected run that ends without error has a record for every record of the batch's own slice. |
| Resume.ShardFirstCoversManifest | recipes/cpc2/baseline/compute_haspi.py:112-127 | Every manifest record i with `i % n == batch - 1` is logged by that batch's completed corrected run. |
| Resume.ShardFirstResumeMatchesUninterrupted | recipes/cpc2/baseline/compute_haspi.py:112-127 | For every batch of every split of a manifest that lists each signal once, a corrected run interrupted after any number of appends and then restarted ends with the same file as the uninterrupted run. |
| Resume.ShardFirstResumeAt | recipes/cpc2/baseline/compute_haspi.py:112-127 | For a manifest that lists each signal once, restarting the corrected run from the old records plus those of its first k pending own records, when all of them parse, completes with the old records plus one per pending own record. |
| Resume.ShardFirstCompletedLog | recipes/cpc2/baseline/compute_haspi.py:112-127 | A completed corrected run appended one record per pending record of its own slice, and none of those records raises. |
| Resume.ShardFirstLogsAll | recipes/cpc2/baseline/compute_haspi.py:112-127 | A corrected run whose pending own records all parse completes and logs all of them. |
| Resume.ShardFirstOnFourRecords | recipes/cpc2/baseline/compute_haspi.py:112-127 | On the four records of `ResumeSkipsRecord`, the corrected batch 1 restarted after a's record ends with the same file as without the interruption: a then c. |

## Left out

- `compute_haspi_for_signal` beyond its parse: reading `listeners.json`, the
  WAV files and the sample-rate `assert`, the `/ 32768.0` scaling, and
  `haspi_v2_be`. These are file I/O, floating point and a foreign library
  call. The score is the total parameter `score`, so a missing listener key,
  a missing file or a sample-rate mismatch are not modelled as errors.
- MD5 and numpy's global generator state. The digest is the parameter `md5`,
  and only the seed sequence handed to `np.random.seed` is recorded.
- JSON encoding and decoding in `read_jsonl` / `write_jsonl`. A results file
  is the sequence of records its lines decode to.
- The `KeyError` for a manifest or results entry without a `"signal"` field.
  Records are typed, so the field is always present.
- Reading the manifest file, hydra configuration loading, `tqdm` and `logging`.
- The training recipe and the enhancement test, which are outside the driver.
- Driver.RunKeepsSignalsUnique: stated only for `n_batches >= 1` and a manifest that lists each signal once. With `n_batches == 0` the slice raises before anything is written. A negative count, which makes a reversed slice, is not covered. A manifest that lists a signal twice does break the one-record-per-signal property, because the index is built once before the loop (`Driver.DuplicateManifestLogsTwice`). The model takes the manifest's signals to be distinct, as in the CEC2 metadata the driver reads, and does not model a deduplicating driver.
- Driver.UnsplitResumeMatchesUninterrupted: stated only for batch 1 of 1, because the as-written driver does not resume exactly when the work is split (see Findings), and only for a manifest that lists each signal once, because a restart filters out every copy of a logged signal (`Driver.DuplicateManifestResumesShort`). Equal files also rest on `score` depending on the signal name alone; see the line on seeding below.
- Resume.ShardFirstResumeMatchesUninterrupted: stated only for a manifest that lists each signal once. A batch whose own slice lists a signal twice logs it twice when uninterrupted, but only once after a restart, as `Driver.DuplicateManifestResumesShort` shows for the unsplit driver. Equal files also rest on `score` depending on the signal name alone; see the line on seeding below.
- Resume.ShardFirstResumeAt: stated only for a manifest that lists each signal once, for the same reason.
- Resume.ShardFirstOnFourRecords: its equal files rest on `score` depending on the signal name alone; see the next line.
- Seeding and the score: `score` is a function of the signal name, so a restart writes the same haspi value for a signal as the uninterrupted run. The source seeds numpy's global generator just before scoring (`recipes/cpc2/baseline/compute_haspi.py:121-123`) because the score depends on that generator. With `set_random_seed` on, the seed depends only on the name, so equal values are what the source gives too. With it off, the value depends on the generator state that earlier signals of the same process left behind. Then `Driver.UnsplitResumeMatchesUninterrupted`, `Resume.ShardFirstResumeMatchesUninterrupted`, `Resume.ShardFirstResumeAt` and `Resume.ShardFirstOnFourRecords` promise, for the source, only that the same signals are logged in the same order, not the same haspi values.
- Driver.ResumePending: requires a manifest without duplicate records. A manifest that lists a signal twice has its later copy dropped once the first is logged, so the order-preserving resume statement does not hold for it.
- The comment at `recipes/cpc2/baseline/compute_haspi.py:125` says results
  are appended "to allow interruption". For a manifest that lists each
  signal once, the code resumes exactly for an unsplit run but not for a
  split one (see Findings), and `Driver` follows the code.

## Findings

| source | as written | input that shows it | evidently intended | confidence | as-written member | corrected member |
|---|---|---|---|---|---|---|
| recipes/cpc2/baseline/compute_haspi.py:112-115 | The manifest is filtered against the batch's own results file first, and `[batch - 1 :: n_batches]` is sliced after. A resumed batch therefore slices a shorter list, and its share shifts onto other batches' records. | Manifest a, b, c, d, `n_batches = 2`. Batch 1 is interrupted after logging a and then restarted. The restart scores b and d, which batch 2 also scores, and c is never scored. Without any interruption, re-running the completed batch 1 appends b, which batch 2 also scores (`Resume.RerunScoresOtherBatch`). | Take the batch's slice of the manifest first, then drop the signals already in that batch's file (`Resume.RunShardFirst`), so a restart resumes the same shard. | not executed | Resume.ResumeSkipsRecord | Resume.ShardFirstResumeMatchesUninterrupted |
