/**
 * The resumable batch driver `run_calculate_haspi` as a pure function from
 * (configuration, manifest, existing results file) to the results file after
 * the run. The HASPI computation is the parameter `score`; the MD5 digest
 * behind the per-signal seed is the parameter `md5`.
 */
module Driver {
  import opened Wrappers
  import opened SignalName
  import opened Seeding
  import opened Slicing
  import opened ResultsLog

  /** The `compute_haspi` part of the configuration, with the dataset name. */
  datatype Config = Config(dataset: string, batch: int, nBatches: int, setRandomSeed: bool)

  /** Why a run stops early: the slice raised, or a signal name did not parse. */
  datatype DriverError =
    | SliceStepZero
    | BadSignalName(cause: ParseError)

  /** How far the scoring loop got. */
  datatype Progress = Progress(log: Log, seeds: seq<nat>, error: Option<DriverError>)

  /**
   * What a run leaves behind: the results file it used, that file's records
   * afterwards, the seeds handed to `np.random.seed` in order, and the error
   * that ended it, if any.
   */
  datatype Run = Run(resultsFile: string, log: Log, seeds: seq<nat>, error: Option<DriverError>)

  /** The result record written for each of the given manifest records. */
  function Records(shard: seq<ManifestRecord>, score: string -> real): (recs: Log)
    ensures |recs| == |shard|
    ensures forall k :: 0 <= k < |shard| ==>
      recs[k].signal == shard[k].signal && recs[k].haspi == score(shard[k].signal)
  {
    seq(|shard|, k requires 0 <= k < |shard| => ResultRecord(shard[k].signal, score(shard[k].signal)))
  }

  lemma RecordsAppend(xs: seq<ManifestRecord>, ys: seq<ManifestRecord>, score: string -> real)
    ensures Records(xs + ys, score) == Records(xs, score) + Records(ys, score)
  {
  }

  /** Logging one record, then those of a list, logs the records of the longer list. */
  lemma RecordsCons(file: Log, r: ManifestRecord, rest: seq<ManifestRecord>, score: string -> real)
    ensures file + Records([r] + rest, score) == (file + [ResultRecord(r.signal, score(r.signal))]) + Records(rest, score)
  {
    var head := [ResultRecord(r.signal, score(r.signal))];
    assert Records([r] + rest, score) == head + Records(rest, score) by {
      RecordsAppend([r], rest, score);
      assert Records([r], score) == head;
    }
    assert file + (head + Records(rest, score)) == (file + head) + Records(rest, score);
  }

  /** The signals recorded for some manifest records are those records' signals. */
  lemma LoggedSignalsOfRecords(file: Log, shard: seq<ManifestRecord>, score: string -> real)
    ensures LoggedSignals(file + Records(shard, score)) == LoggedSignals(file) + SignalSet(shard)
  {
    var log := file + Records(shard, score);
    forall s | s in LoggedSignals(log) ensures s in LoggedSignals(file) + SignalSet(shard) {
      var j :| 0 <= j < |log| && log[j].signal == s;
      if j >= |file| {
        assert shard[j - |file|].signal == s;
      }
    }
    forall s | s in LoggedSignals(file) + SignalSet(shard) ensures s in LoggedSignals(log) {
      if s in LoggedSignals(file) {
        var j :| 0 <= j < |file| && file[j].signal == s;
        assert log[j] == file[j];
      } else {
        var j :| 0 <= j < |shard| && shard[j].signal == s;
        assert log[|file| + j].signal == s;
      }
    }
  }

  /**
   * The exception `compute_haspi_for_signal` raises for a name, before any
   * scoring: the parser's `ValueError`, if the name is malformed.
   */
  function SignalError(name: string): (e: Option<DriverError>)
    ensures e.None? <==> ParseCec2SignalName(name).Success?
    ensures e.Some? ==> e.value == BadSignalName(ParseCec2SignalName(name).error)
  {
    match ParseCec2SignalName(name)
    case Failure(cause) => Some(BadSignalName(cause))
    case Success(_) => None
  }

  /** No signal of the list raises. */
  ghost predicate AllPass(shard: seq<ManifestRecord>, check: string -> Option<DriverError>)
  {
    forall j :: 0 <= j < |shard| ==> check(shard[j].signal).None?
  }

  /**
   * Length of the longest prefix of the shard none of whose signals raises:
   * the position of the first failing signal, or the whole shard.
   */
  function PassedPrefix(shard: seq<ManifestRecord>, check: string -> Option<DriverError>): (k: nat)
    ensures k <= |shard|
    ensures AllPass(shard[..k], check)
    ensures k < |shard| ==> check(shard[k].signal).Some?
    decreases |shard|
  {
    if |shard| == 0 || check(shard[0].signal).Some? then 0
    else
      var k := PassedPrefix(shard[1..], check);
      assert shard[..k + 1] == [shard[0]] + shard[1..][..k];
      k + 1
  }

  /**
   * How many signals of the shard the loop reaches: those of the passing
   * prefix, and the failing one after them if there is one.
   */
  function Reached(shard: seq<ManifestRecord>, check: string -> Option<DriverError>): (n: nat)
    ensures n <= |shard|
  {
    var k := PassedPrefix(shard, check);
    if k < |shard| then k + 1 else k
  }

  /** The seeds derived for some manifest records, in order. */
  function Seeds(md5: string -> nat, shard: seq<ManifestRecord>): (seeds: seq<nat>)
    ensures |seeds| == |shard|
    ensures forall i :: 0 <= i < |seeds| ==> seeds[i] < SeedModulus
    ensures forall i :: 0 <= i < |seeds| ==> seeds[i] == SeedFromString(md5, shard[i].signal)
  {
    seq(|shard|, k requires 0 <= k < |shard| => SeedFromString(md5, shard[k].signal))
  }

  lemma SeedsOne(md5: string -> nat, r: ManifestRecord)
    ensures Seeds(md5, [r]) == [SeedFromString(md5, r.signal)]
  {
  }

  lemma SeedsAppend(md5: string -> nat, xs: seq<ManifestRecord>, ys: seq<ManifestRecord>)
    ensures Seeds(md5, xs + ys) == Seeds(md5, xs) + Seeds(md5, ys)
  {
  }

  /**
   * The scoring loop over a shard. For each signal in turn: set its seed
   * when asked to, run `compute_haspi_for_signal` (which raises
   * `check(signal)` if that is an error and otherwise yields
   * `score(signal)`), and append the record to the file at once. The first
   * error ends the loop; what was appended before it stays.
   */
  function ProcessShard(shard: seq<ManifestRecord>, file: Log, setSeed: bool,
                        check: string -> Option<DriverError>, score: string -> real,
                        md5: string -> nat): Progress
    decreases |shard|
  {
    if |shard| == 0 then Progress(file, [], None)
    else
      var name := shard[0].signal;
      var seeds := if setSeed then [SeedFromString(md5, name)] else [];
      if check(name).Some? then Progress(file, seeds, check(name))
      else
        var rest := ProcessShard(shard[1..], WriteJsonl(file, [ResultRecord(name, score(name))]),
                                 setSeed, check, score, md5);
        Progress(rest.log, seeds + rest.seeds, rest.error)
  }

  /**
   * What the loop leaves in the file: the old records followed by the
   * records of the shard's longest passing prefix, in shard order.
   */
  lemma {:induction false} ProcessShardLog(shard: seq<ManifestRecord>, file: Log, setSeed: bool,
                                           check: string -> Option<DriverError>, score: string -> real,
                                           md5: string -> nat)
    ensures ProcessShard(shard, file, setSeed, check, score, md5).log
         == file + Records(shard[..PassedPrefix(shard, check)], score)
    decreases |shard|
  {
    if |shard| > 0 && check(shard[0].signal).None? {
      var name := shard[0].signal;
      var written := file + [ResultRecord(name, score(name))];
      assert ProcessShard(shard, file, setSeed, check, score, md5).log
          == ProcessShard(shard[1..], written, setSeed, check, score, md5).log;
      ProcessShardLog(shard[1..], written, setSeed, check, score, md5);
      var k := PassedPrefix(shard[1..], check);
      assert PassedPrefix(shard, check) == k + 1;
      assert shard[..k + 1] == [shard[0]] + shard[1..][..k];
      RecordsCons(file, shard[0], shard[1..][..k], score);
    }
  }

  /** The loop fails exactly when some signal raises, with the first one's error. */
  lemma {:induction false} ProcessShardError(shard: seq<ManifestRecord>, file: Log, setSeed: bool,
                                             check: string -> Option<DriverError>, score: string -> real,
                                             md5: string -> nat)
    ensures var k := PassedPrefix(shard, check);
      ProcessShard(shard, file, setSeed, check, score, md5).error
      == if k < |shard| then check(shard[k].signal) else None
    decreases |shard|
  {
    if |shard| > 0 && check(shard[0].signal).None? {
      var name := shard[0].signal;
      ProcessShardError(shard[1..], file + [ResultRecord(name, score(name))], setSeed, check, score, md5);
    }
  }

  /**
   * One seed per signal the loop reached, the failing one included, when
   * seeding is on; none otherwise.
   */
  lemma {:induction false} ProcessShardSeeds(shard: seq<ManifestRecord>, file: Log, setSeed: bool,
                                             check: string -> Option<DriverError>, score: string -> real,
                                             md5: string -> nat)
    ensures !setSeed ==> ProcessShard(shard, file, setSeed, check, score, md5).seeds == []
    ensures setSeed ==> ProcessShard(shard, file, setSeed, check, score, md5).seeds
                        == Seeds(md5, shard[..Reached(shard, check)])
    decreases |shard|
  {
    if |shard| > 0 {
      var name := shard[0].signal;
      if check(name).None? {
        var written := file + [ResultRecord(name, score(name))];
        var rest := ProcessShard(shard[1..], written, setSeed, check, score, md5);
        var first := if setSeed then [SeedFromString(md5, name)] else [];
        assert ProcessShard(shard, file, setSeed, check, score, md5).seeds == first + rest.seeds;
        ProcessShardSeeds(shard[1..], written, setSeed, check, score, md5);
        var reached := Reached(shard[1..], check);
        assert Reached(shard, check) == reached + 1;
        assert shard[..reached + 1] == [shard[0]] + shard[1..][..reached];
        if setSeed {
          SeedsAppend(md5, [shard[0]], shard[1..][..reached]);
          SeedsOne(md5, shard[0]);
        }
      } else {
        assert shard[..1] == [shard[0]];
        SeedsOne(md5, shard[0]);
      }
    }
  }

  /**
   * `run_calculate_haspi`: read the results file of this batch (absent means
   * empty), drop every manifest record that already has a result, take this
   * batch's slice of what is left, and score it, appending as it goes.
   * A zero batch count fails before anything is scored, and every seed set
   * is one `np.random.seed` accepts.
   */
  function RunCalculateHaspi(cfg: Config, manifest: seq<ManifestRecord>, existing: Option<Log>,
                             score: string -> real, md5: string -> nat): (run: Run)
    ensures run.resultsFile == ResultsFileName(cfg.dataset, cfg.batch, cfg.nBatches)
    ensures run.error == Some(SliceStepZero) <==> cfg.nBatches == 0
    ensures forall i :: 0 <= i < |run.seeds| ==> run.seeds[i] < SeedModulus
    ensures !cfg.setRandomSeed ==> run.seeds == []
  {
    var file := ResultsFileName(cfg.dataset, cfg.batch, cfg.nBatches);
    var prior := ReadResults(existing);
    var todo := Pending(manifest, ResultsIndex(prior).Keys);
    match Shard(todo, cfg.batch, cfg.nBatches)
    case Failure(_) => Run(file, prior, [], Some(SliceStepZero))
    case Success(shard) =>
      var p := ProcessShard(shard, prior, cfg.setRandomSeed, SignalError, score, md5);
      ProcessShardError(shard, prior, cfg.setRandomSeed, SignalError, score, md5);
      ProcessShardSeeds(shard, prior, cfg.setRandomSeed, SignalError, score, md5);
      assert p.error != Some(SliceStepZero) by {
        var k := PassedPrefix(shard, SignalError);
        if k < |shard| {
          assert p.error.value == SignalError(shard[k].signal).value;
        }
      }
      assert forall i :: 0 <= i < |p.seeds| ==> p.seeds[i] < SeedModulus;
      Run(file, p.log, p.seeds, p.error)
  }

  /** The shard a run works through, when the slice does not raise. */
  function ShardOfRun(cfg: Config, manifest: seq<ManifestRecord>, prior: Log): Result<seq<ManifestRecord>, SliceError>
  {
    Shard(Pending(manifest, LoggedSignals(prior)), cfg.batch, cfg.nBatches)
  }

  /**
   * The run only appends: the old records stay as they were, and the file
   * then holds the records of a prefix of the shard, in shard order, each
   * for a manifest signal that had no record before and carrying that
   * signal's score.
   */
  lemma RunAppendsOnly(cfg: Config, manifest: seq<ManifestRecord>, existing: Option<Log>,
                       score: string -> real, md5: string -> nat)
    ensures var prior := ReadResults(existing);
      var run := RunCalculateHaspi(cfg, manifest, existing, score, md5);
      && |prior| <= |run.log|
      && run.log[..|prior|] == prior
      && (forall j :: |prior| <= j < |run.log| ==>
            && run.log[j].signal !in LoggedSignals(prior)
            && run.log[j].haspi == score(run.log[j].signal)
            && ManifestRecord(run.log[j].signal) in manifest)
  {
    var prior := ReadResults(existing);
    var run := RunCalculateHaspi(cfg, manifest, existing, score, md5);
    var shard := ShardOfRun(cfg, manifest, prior);
    if shard.Success? {
      var k := PassedPrefix(shard.value, SignalError);
      ProcessShardLog(shard.value, prior, cfg.setRandomSeed, SignalError, score, md5);
      NewRecordsArePending(manifest, prior, shard.value, k, score, cfg.batch, cfg.nBatches);
      assert run.log == prior + Records(shard.value[..k], score);
    }
  }

  /**
   * A run of batch b of n (1 <= b <= n) that ends without error has
   * appended, in order, one record for each of positions b-1, b-1+n, ...
   * of the pending manifest records.
   */
  lemma RunCompletesShard(cfg: Config, manifest: seq<ManifestRecord>, existing: Option<Log>,
                          score: string -> real, md5: string -> nat)
    requires 1 <= cfg.batch <= cfg.nBatches
    ensures var prior := ReadResults(existing);
      var run := RunCalculateHaspi(cfg, manifest, existing, score, md5);
      run.error.None? ==>
        run.log == prior + Records(Stride(Pending(manifest, LoggedSignals(prior)), cfg.batch - 1, cfg.nBatches), score)
  {
    var prior := ReadResults(existing);
    var todo := Pending(manifest, LoggedSignals(prior));
    var start := AdjustStartUp(cfg.batch - 1, |todo|);
    assert Stride(todo, start, cfg.nBatches) == Stride(todo, cfg.batch - 1, cfg.nBatches);
    var shard := Stride(todo, start, cfg.nBatches);
    RunShapeForward(cfg, manifest, existing, score, md5);
    if PassedPrefix(shard, SignalError) == |shard| {
      assert shard[..|shard|] == shard;
    }
  }

  /** What the loop appends comes from the pending records. */
  lemma NewRecordsArePending(manifest: seq<ManifestRecord>, prior: Log, shard: seq<ManifestRecord>,
                             k: nat, score: string -> real, batch: int, nBatches: int)
    requires Shard(Pending(manifest, ResultsIndex(prior).Keys), batch, nBatches) == Success(shard)
    requires k <= |shard|
    ensures var added := Records(shard[..k], score);
      forall j :: 0 <= j < |added| ==>
        && added[j].signal !in LoggedSignals(prior)
        && added[j].haspi == score(added[j].signal)
        && ManifestRecord(added[j].signal) in manifest
  {
    var done := LoggedSignals(prior);
    var todo := Pending(manifest, done);
    var added := Records(shard[..k], score);
    SliceInList(todo, batch - 1, nBatches);
    forall j | 0 <= j < |added|
      ensures added[j].signal !in done && added[j].haspi == score(added[j].signal)
      ensures ManifestRecord(added[j].signal) in manifest
    {
      assert shard[j] in todo;
      PendingMembership(manifest, done, shard[j]);
    }
  }

  /** Every element of a successful slice is an element of the list. */
  lemma SliceInList<T>(xs: seq<T>, start: int, step: int)
    requires SliceFrom(xs, start, step).Success?
    ensures forall k :: 0 <= k < |SliceFrom(xs, start, step).value| ==> SliceFrom(xs, start, step).value[k] in xs
  {
    if step > 0 {
      StrideSlots(xs, AdjustStartUp(start, |xs|), step);
    } else {
      StrideDownSlots(xs, AdjustStartDown(start, |xs|), step);
    }
  }

  // ---------------------------------------------------------------------
  // Resuming and the one-record-per-signal invariant

  /** When no signal raises, the loop gets through the whole shard. */
  lemma PassedPrefixAll(shard: seq<ManifestRecord>, check: string -> Option<DriverError>)
    requires AllPass(shard, check)
    ensures PassedPrefix(shard, check) == |shard|
  {
  }

  /** Pending records of a duplicate-free list are duplicate-free. */
  lemma PendingNoDuplicates(xs: seq<ManifestRecord>, done: set<string>)
    requires NoDuplicates(xs)
    ensures NoDuplicates(Pending(xs, done))
  {
    var p := Pending(xs, done);
    PendingCounts(xs, done);
    assert multiset(p) <= multiset(xs) by {
      forall x ensures multiset(p)[x] <= multiset(xs)[x] {
      }
    }
    NoDuplicatesSub(p, xs);
  }

  /** A stride of a duplicate-free list is duplicate-free. */
  lemma StrideNoDuplicates(xs: seq<ManifestRecord>, start: nat, step: nat)
    requires step > 0 && NoDuplicates(xs)
    ensures NoDuplicates(Stride(xs, start, step))
  {
    StrideSubMultiset(xs, start, step);
    NoDuplicatesSub(Stride(xs, start, step), xs);
  }

  /**
   * In a duplicate-free list, dropping the signals of the first k records
   * leaves the other records, in order.
   */
  lemma PendingAfterPrefix(todo: seq<ManifestRecord>, k: nat)
    requires NoDuplicates(todo) && k <= |todo|
    ensures Pending(todo, SignalSet(todo[..k])) == todo[k..]
  {
    var doneNow := SignalSet(todo[..k]);
    PendingSplit(todo, k, doneNow);
    PendingAllDone(todo[..k], doneNow);
    BackNotInFront(todo, k);
    PendingNothingDone(todo[k..], doneNow);
  }

  /** Filtering a list is filtering its two halves. */
  lemma PendingSplit(todo: seq<ManifestRecord>, k: nat, done: set<string>)
    requires k <= |todo|
    ensures Pending(todo, done) == Pending(todo[..k], done) + Pending(todo[k..], done)
  {
    assert todo == todo[..k] + todo[k..];
    PendingAppend(todo[..k], todo[k..], done);
  }

  /** In a duplicate-free list, no later record shares a signal with the first k. */
  lemma BackNotInFront(todo: seq<ManifestRecord>, k: nat)
    requires NoDuplicates(todo) && k <= |todo|
    ensures forall j :: 0 <= j < |todo[k..]| ==> todo[k..][j].signal !in SignalSet(todo[..k])
  {
    forall j | 0 <= j < |todo[k..]| ensures todo[k..][j].signal !in SignalSet(todo[..k]) {
      forall i | 0 <= i < k ensures todo[..k][i].signal != todo[k + j].signal {
        NoDuplicatesAt(todo, i, k + j);
      }
    }
  }

  /**
   * The heart of resuming: after the first k pending records have been
   * logged, the records still pending are exactly the remaining ones, in the
   * same order, provided no signal occurs twice.
   */
  lemma ResumePending(records: seq<ManifestRecord>, prior: Log, k: nat, score: string -> real)
    requires NoDuplicates(records)
    requires k <= |Pending(records, LoggedSignals(prior))|
    ensures var todo := Pending(records, LoggedSignals(prior));
      Pending(records, LoggedSignals(prior + Records(todo[..k], score))) == todo[k..]
  {
    var done := LoggedSignals(prior);
    var todo := Pending(records, done);
    LoggedSignalsOfRecords(prior, todo[..k], score);
    PendingTwice(records, done, SignalSet(todo[..k]));
    PendingNoDuplicates(records, done);
    PendingAfterPrefix(todo, k);
  }

  /**
   * Records of duplicate-free pending work keep the log at one record per
   * signal, when none of those signals was logged before.
   */
  lemma AppendKeepsUnique(prior: Log, todo: seq<ManifestRecord>, score: string -> real)
    requires UniqueSignals(prior) && NoDuplicates(todo)
    requires forall j :: 0 <= j < |todo| ==> todo[j].signal !in LoggedSignals(prior)
    ensures UniqueSignals(prior + Records(todo, score))
  {
    var log := prior + Records(todo, score);
    forall i, j | 0 <= i < j < |log| ensures log[i].signal != log[j].signal {
      if j >= |prior| {
        if i >= |prior| {
          NoDuplicatesAt(todo, i - |prior|, j - |prior|);
        } else {
          assert log[i].signal in LoggedSignals(prior);
        }
      }
    }
  }

  /**
   * With a positive batch count, a run keeps the results file at one record
   * per signal (whatever the batch index), when the manifest lists each
   * signal once and the file started that way.
   */
  lemma RunKeepsSignalsUnique(cfg: Config, manifest: seq<ManifestRecord>, existing: Option<Log>,
                              score: string -> real, md5: string -> nat)
    requires cfg.nBatches >= 1
    requires NoDuplicates(manifest)
    requires UniqueSignals(ReadResults(existing))
    ensures UniqueSignals(RunCalculateHaspi(cfg, manifest, existing, score, md5).log)
  {
    RunShapeForward(cfg, manifest, existing, score, md5);
    SliceAppendKeepsUnique(manifest, ReadResults(existing), cfg.batch, cfg.nBatches, score);
  }

  /**
   * Logging a prefix of the slice of the pending records of a duplicate-free
   * manifest keeps a log at one record per signal.
   */
  lemma SliceAppendKeepsUnique(manifest: seq<ManifestRecord>, prior: Log, batch: int, nBatches: int,
                               score: string -> real)
    requires nBatches >= 1
    requires NoDuplicates(manifest) && UniqueSignals(prior)
    ensures var todo := Pending(manifest, LoggedSignals(prior));
      var shard := Stride(todo, AdjustStartUp(batch - 1, |todo|), nBatches);
      UniqueSignals(prior + Records(shard[..PassedPrefix(shard, SignalError)], score))
  {
    var todo := Pending(manifest, LoggedSignals(prior));
    var shard := Stride(todo, AdjustStartUp(batch - 1, |todo|), nBatches);
    var k := PassedPrefix(shard, SignalError);
    assert NoDuplicates(shard[..k]) by {
      PendingNoDuplicates(manifest, LoggedSignals(prior));
      StrideNoDuplicates(todo, AdjustStartUp(batch - 1, |todo|), nBatches);
      PrefixNoDuplicates(shard, k);
    }
    assert forall j :: 0 <= j < |shard[..k]| ==> shard[..k][j].signal !in LoggedSignals(prior) by {
      StrideSlots(todo, AdjustStartUp(batch - 1, |todo|), nBatches);
    }
    AppendKeepsUnique(prior, shard[..k], score);
  }

  /**
   * With a non-zero batch count the slice never raises, and the run leaves
   * the old records followed by those of the passing prefix of the slice
   * `todo[batch - 1 :: n_batches]` of the pending records (reversed when the
   * count is negative). It stops with the first failing signal's error, and
   * when seeding is on it set one seed per signal it reached, in order.
   */
  lemma RunShape(cfg: Config, manifest: seq<ManifestRecord>, existing: Option<Log>,
                 score: string -> real, md5: string -> nat)
    requires cfg.nBatches != 0
    ensures var prior := ReadResults(existing);
      var shard := Shard(Pending(manifest, LoggedSignals(prior)), cfg.batch, cfg.nBatches).value;
      var k := PassedPrefix(shard, SignalError);
      var run := RunCalculateHaspi(cfg, manifest, existing, score, md5);
      && run.log == prior + Records(shard[..k], score)
      && run.error == (if k < |shard| then SignalError(shard[k].signal) else None)
      && run.seeds == (if cfg.setRandomSeed then Seeds(md5, shard[..Reached(shard, SignalError)]) else [])
  {
    var prior := ReadResults(existing);
    var shard := Shard(Pending(manifest, LoggedSignals(prior)), cfg.batch, cfg.nBatches).value;
    ProcessShardLog(shard, prior, cfg.setRandomSeed, SignalError, score, md5);
    ProcessShardError(shard, prior, cfg.setRandomSeed, SignalError, score, md5);
    ProcessShardSeeds(shard, prior, cfg.setRandomSeed, SignalError, score, md5);
  }

  /** `RunShape` for a positive batch count, with the slice written as a stride. */
  lemma RunShapeForward(cfg: Config, manifest: seq<ManifestRecord>, existing: Option<Log>,
                 score: string -> real, md5: string -> nat)
    requires cfg.nBatches >= 1
    ensures var prior := ReadResults(existing);
      var todo := Pending(manifest, LoggedSignals(prior));
      var shard := Stride(todo, AdjustStartUp(cfg.batch - 1, |todo|), cfg.nBatches);
      var k := PassedPrefix(shard, SignalError);
      var run := RunCalculateHaspi(cfg, manifest, existing, score, md5);
      && run.log == prior + Records(shard[..k], score)
      && run.error == (if k < |shard| then SignalError(shard[k].signal) else None)
  {
    var prior := ReadResults(existing);
    var todo := Pending(manifest, LoggedSignals(prior));
    var shard := Stride(todo, AdjustStartUp(cfg.batch - 1, |todo|), cfg.nBatches);
    assert Shard(todo, cfg.batch, cfg.nBatches) == Success(shard);
    RunShape(cfg, manifest, existing, score, md5);
  }

  /** A prefix of a duplicate-free list is duplicate-free. */
  lemma PrefixNoDuplicates(xs: seq<ManifestRecord>, k: nat)
    requires NoDuplicates(xs) && k <= |xs|
    ensures NoDuplicates(xs[..k])
  {
    assert xs == xs[..k] + xs[k..];
    NoDuplicatesSub(xs[..k], xs);
  }

  /**
   * Unsplit runs (batch 1 of 1) over a manifest that lists each signal once
   * resume exactly: if a run completes, then
   * restarting from the file as it stood after any number of its records
   * had been appended (an interruption) completes with the same file.
   */
  lemma UnsplitResumeMatchesUninterrupted(cfg: Config, manifest: seq<ManifestRecord>, existing: Option<Log>,
                                          score: string -> real, md5: string -> nat, k: nat)
    requires cfg.batch == 1 && cfg.nBatches == 1
    requires NoDuplicates(manifest)
    requires RunCalculateHaspi(cfg, manifest, existing, score, md5).error.None?
    requires |ReadResults(existing)| + k <= |RunCalculateHaspi(cfg, manifest, existing, score, md5).log|
    ensures var full := RunCalculateHaspi(cfg, manifest, existing, score, md5);
      var resumed := RunCalculateHaspi(cfg, manifest, Some(full.log[..|ReadResults(existing)| + k]), score, md5);
      resumed.error.None? && resumed.log == full.log
  {
    var prior := ReadResults(existing);
    var todo := Pending(manifest, LoggedSignals(prior));
    UnsplitCompletedLog(cfg, manifest, existing, score, md5);
    RecordsPrefix(prior, todo, k, score);
    var cut := prior + Records(todo[..k], score);
    ResumePending(manifest, prior, k, score);
    AllPassSuffix(todo, k);
    UnsplitRunLogsAll(cfg, manifest, Some(cut), score, md5);
    RecordsSplit(prior, todo, k, score);
  }

  /** The first k records after the old ones are the records of the first k entries. */
  lemma RecordsPrefix(prior: Log, todo: seq<ManifestRecord>, k: nat, score: string -> real)
    requires k <= |todo|
    ensures (prior + Records(todo, score))[..|prior| + k] == prior + Records(todo[..k], score)
  {
    assert todo == todo[..k] + todo[k..];
    RecordsAppend(todo[..k], todo[k..], score);
  }

  lemma AllPassSuffix(shard: seq<ManifestRecord>, k: nat)
    requires AllPass(shard, SignalError) && k <= |shard|
    ensures AllPass(shard[k..], SignalError)
  {
    assert forall j :: 0 <= j < |shard[k..]| ==> shard[k..][j] == shard[k + j];
  }

  /**
   * An unsplit run whose pending records all have well-formed names ends
   * without error, having appended one record for each of them.
   */
  lemma UnsplitRunLogsAll(cfg: Config, manifest: seq<ManifestRecord>, existing: Option<Log>,
                          score: string -> real, md5: string -> nat)
    requires cfg.batch == 1 && cfg.nBatches == 1
    requires AllPass(Pending(manifest, LoggedSignals(ReadResults(existing))), SignalError)
    ensures var run := RunCalculateHaspi(cfg, manifest, existing, score, md5);
      && run.error.None?
      && run.log == ReadResults(existing) + Records(Pending(manifest, LoggedSignals(ReadResults(existing))), score)
  {
    var todo := Pending(manifest, LoggedSignals(ReadResults(existing)));
    StrideByOne(todo, 0);
    PassedPrefixAll(todo, SignalError);
    RunShapeForward(cfg, manifest, existing, score, md5);
    assert todo[..|todo|] == todo;
  }

  /** The records of a list are those of its first k entries, then the rest. */
  lemma RecordsSplit(prior: Log, todo: seq<ManifestRecord>, k: nat, score: string -> real)
    requires k <= |todo|
    ensures (prior + Records(todo[..k], score)) + Records(todo[k..], score) == prior + Records(todo, score)
  {
    var front, back := Records(todo[..k], score), Records(todo[k..], score);
    assert front + back == Records(todo, score) by {
      assert todo[..k] + todo[k..] == todo;
      RecordsAppend(todo[..k], todo[k..], score);
    }
    assert (prior + front) + back == prior + (front + back);
  }

  /**
   * A completed unsplit run appended one record for every pending record,
   * none of which raises.
   */
  lemma UnsplitCompletedLog(cfg: Config, manifest: seq<ManifestRecord>, existing: Option<Log>,
                            score: string -> real, md5: string -> nat)
    requires cfg.batch == 1 && cfg.nBatches == 1
    requires RunCalculateHaspi(cfg, manifest, existing, score, md5).error.None?
    ensures var prior := ReadResults(existing);
      var todo := Pending(manifest, LoggedSignals(prior));
      && RunCalculateHaspi(cfg, manifest, existing, score, md5).log == prior + Records(todo, score)
      && AllPass(todo, SignalError)
  {
    var prior := ReadResults(existing);
    var todo := Pending(manifest, LoggedSignals(prior));
    StrideByOne(todo, 0);
    RunShapeForward(cfg, manifest, existing, score, md5);
    var k := PassedPrefix(todo, SignalError);
    assert k == |todo|;
    assert todo[..k] == todo;
  }

  /**
   * Running an unsplit batch again after it completed adds nothing and ends
   * without error: every manifest signal already has a record, whether the
   * manifest lists it once or more.
   */
  lemma UnsplitRerunAddsNothing(cfg: Config, manifest: seq<ManifestRecord>, existing: Option<Log>,
                                score: string -> real, md5: string -> nat)
    requires cfg.batch == 1 && cfg.nBatches == 1
    requires RunCalculateHaspi(cfg, manifest, existing, score, md5).error.None?
    ensures var full := RunCalculateHaspi(cfg, manifest, existing, score, md5);
      var again := RunCalculateHaspi(cfg, manifest, Some(full.log), score, md5);
      again.error.None? && again.log == full.log
  {
    var full := RunCalculateHaspi(cfg, manifest, existing, score, md5);
    UnsplitLogsEverySignal(cfg, manifest, existing, score, md5);
    PendingAllDone(manifest, LoggedSignals(full.log));
    UnsplitRunLogsAll(cfg, manifest, Some(full.log), score, md5);
    assert full.log + Records([], score) == full.log;
  }

  /** After a completed unsplit run every manifest signal has a record. */
  lemma UnsplitLogsEverySignal(cfg: Config, manifest: seq<ManifestRecord>, existing: Option<Log>,
                               score: string -> real, md5: string -> nat)
    requires cfg.batch == 1 && cfg.nBatches == 1
    requires RunCalculateHaspi(cfg, manifest, existing, score, md5).error.None?
    ensures forall k :: 0 <= k < |manifest| ==>
      manifest[k].signal in LoggedSignals(RunCalculateHaspi(cfg, manifest, existing, score, md5).log)
  {
    var prior := ReadResults(existing);
    var done := LoggedSignals(prior);
    var todo := Pending(manifest, done);
    UnsplitCompletedLog(cfg, manifest, existing, score, md5);
    LoggedSignalsOfRecords(prior, todo, score);
    forall k | 0 <= k < |manifest| ensures manifest[k].signal in done + SignalSet(todo) {
      if manifest[k].signal !in done {
        PendingMembership(manifest, done, manifest[k]);
        var j :| 0 <= j < |todo| && todo[j] == manifest[k];
        assert todo[j].signal in SignalSet(todo);
      }
    }
  }

  /**
   * The filter is built once, before the loop, so a manifest that lists a
   * signal twice gets two records for it from one run: a well-formed `a`
   * listed twice, run unsplit from no file.
   */
  lemma DuplicateManifestLogsTwice(dataset: string, setSeed: bool, a: ManifestRecord,
                                   score: string -> real, md5: string -> nat)
    requires SignalError(a.signal).None?
    ensures var run := RunCalculateHaspi(Config(dataset, 1, 1, setSeed), [a, a], None, score, md5);
      && run.error.None?
      && run.log == Records([a, a], score)
      && !UniqueSignals(run.log)
  {
    var cfg := Config(dataset, 1, 1, setSeed);
    assert AllPass([a, a], SignalError);
    assert Pending([a, a], LoggedSignals(ReadResults(None))) == [a, a] by {
      assert LoggedSignals([]) == {};
      PendingNothingDone([a, a], {});
    }
    UnsplitRunLogsAll(cfg, [a, a], None, score, md5);
    assert Records([a, a], score)[0].signal == Records([a, a], score)[1].signal;
  }

  /**
   * Resuming needs a manifest that lists each signal once: the unsplit run
   * over `[a, a]` logs `a` twice, but a restart from a file holding one
   * record for `a` filters both copies out and ends with that one record.
   */
  lemma DuplicateManifestResumesShort(dataset: string, setSeed: bool, a: ManifestRecord,
                                      score: string -> real, md5: string -> nat)
    requires SignalError(a.signal).None?
    ensures var cfg := Config(dataset, 1, 1, setSeed);
      var cut := [ResultRecord(a.signal, score(a.signal))];
      var full := RunCalculateHaspi(cfg, [a, a], None, score, md5);
      var resumed := RunCalculateHaspi(cfg, [a, a], Some(cut), score, md5);
      && full.log == Records([a, a], score)
      && resumed.error.None? && resumed.log == cut
      && |resumed.log| < |full.log|
  {
    var cfg := Config(dataset, 1, 1, setSeed);
    var cut := [ResultRecord(a.signal, score(a.signal))];
    DuplicateManifestLogsTwice(dataset, setSeed, a, score, md5);
    assert Pending([a, a], LoggedSignals(ReadResults(Some(cut)))) == [] by {
      assert cut[0].signal in LoggedSignals(cut);
      PendingAllDone([a, a], LoggedSignals(cut));
    }
    UnsplitRunLogsAll(cfg, [a, a], Some(cut), score, md5);
    assert cut + Records([], score) == cut;
  }
}
