/**
 * Resuming a split run. Each batch of an n-way split keeps its own results
 * file, and `run_calculate_haspi` drops the signals found in that file from
 * the manifest BEFORE taking the batch's slice `[batch - 1 :: n_batches]`.
 * Once a batch's file is non-empty, the slice is taken of a shorter list,
 * so the batch's share moves onto other batches' records and off some of
 * its own. `ResumeSkipsRecord` exhibits this on four records;
 * `RunShardFirst` takes the slice of the manifest first and filters it
 * second, and resumes exactly for every batch of every split when the
 * manifest lists each signal once.
 */
module Resume {
  import opened Wrappers
  import opened Seeding
  import opened Slicing
  import opened ResultsLog
  import opened Driver

  // ---------------------------------------------------------------------
  // The driver as written, on four records split two ways.

  /** Four records with distinct signal names. */
  ghost predicate FourDistinct(a: ManifestRecord, b: ManifestRecord, c: ManifestRecord, d: ManifestRecord)
  {
    && a.signal != b.signal && a.signal != c.signal && a.signal != d.signal
    && b.signal != c.signal && b.signal != d.signal && c.signal != d.signal
  }

  /**
   * A run whose slice holds only signals that parse ends without error and
   * appends one record for each of them, in slice order.
   */
  lemma RunLogsWholeShard(cfg: Config, manifest: seq<ManifestRecord>, existing: Option<Log>,
                          score: string -> real, md5: string -> nat, shard: seq<ManifestRecord>)
    requires cfg.nBatches >= 1
    requires var todo := Pending(manifest, LoggedSignals(ReadResults(existing)));
      Stride(todo, AdjustStartUp(cfg.batch - 1, |todo|), cfg.nBatches) == shard
    requires AllPass(shard, SignalError)
    ensures var run := RunCalculateHaspi(cfg, manifest, existing, score, md5);
      run.error.None? && run.log == ReadResults(existing) + Records(shard, score)
  {
    PassedPrefixAll(shard, SignalError);
    RunShapeForward(cfg, manifest, existing, score, md5);
    assert shard[..|shard|] == shard;
  }

  /** The two-way slices of four records, and of the last three of them. */
  lemma FourStrides(a: ManifestRecord, b: ManifestRecord, c: ManifestRecord, d: ManifestRecord)
    ensures Stride([a, b, c, d], AdjustStartUp(0, 4), 2) == [a, c]
    ensures Stride([a, b, c, d], AdjustStartUp(1, 4), 2) == [b, d]
    ensures Stride([b, c, d], AdjustStartUp(0, 3), 2) == [b, d]
  {
    var m := [a, b, c, d];
    assert Stride(m, 4, 2) == [] && Stride(m, 5, 2) == [];
    assert Stride(m, 2, 2) == [c] && Stride(m, 3, 2) == [d];
    var t := [b, c, d];
    assert Stride(t, 4, 2) == [];
    assert Stride(t, 2, 2) == [d];
  }

  /** Without a results file nothing is filtered out. */
  lemma NothingLogged(m: seq<ManifestRecord>)
    ensures Pending(m, LoggedSignals(ReadResults(None))) == m
  {
    assert LoggedSignals([]) == {};
    PendingNothingDone(m, {});
  }

  /** With a file holding a's record, the filter leaves b, c and d. */
  lemma FirstLogged(a: ManifestRecord, b: ManifestRecord, c: ManifestRecord, d: ManifestRecord, cut: Log)
    requires FourDistinct(a, b, c, d) && |cut| == 1 && cut[0].signal == a.signal
    ensures Pending([a, b, c, d], LoggedSignals(ReadResults(Some(cut)))) == [b, c, d]
  {
    OneSignal(cut);
    PendingNothingDone([b, c, d], {a.signal});
    assert [a, b, c, d][1..] == [b, c, d];
  }

  /** Uninterrupted, batch 1 of 2 over a, b, c, d scores a and c. */
  lemma FourFirstBatch(a: ManifestRecord, b: ManifestRecord, c: ManifestRecord, d: ManifestRecord,
                       dataset: string, setSeed: bool, score: string -> real, md5: string -> nat)
    requires AllPass([a, c], SignalError)
    ensures var run := RunCalculateHaspi(Config(dataset, 1, 2, setSeed), [a, b, c, d], None, score, md5);
      run.error.None? && run.log == Records([a, c], score)
  {
    NothingLogged([a, b, c, d]);
    FourStrides(a, b, c, d);
    RunLogsWholeShard(Config(dataset, 1, 2, setSeed), [a, b, c, d], None, score, md5, [a, c]);
    assert [] + Records([a, c], score) == Records([a, c], score);
  }

  /** Uninterrupted, batch 2 of 2 over a, b, c, d scores b and d. */
  lemma FourSecondBatch(a: ManifestRecord, b: ManifestRecord, c: ManifestRecord, d: ManifestRecord,
                        dataset: string, setSeed: bool, score: string -> real, md5: string -> nat)
    requires AllPass([b, d], SignalError)
    ensures var run := RunCalculateHaspi(Config(dataset, 2, 2, setSeed), [a, b, c, d], None, score, md5);
      run.error.None? && run.log == Records([b, d], score)
  {
    NothingLogged([a, b, c, d]);
    FourStrides(a, b, c, d);
    RunLogsWholeShard(Config(dataset, 2, 2, setSeed), [a, b, c, d], None, score, md5, [b, d]);
    assert [] + Records([b, d], score) == Records([b, d], score);
  }

  /** Batch 1 of 2 restarted from a file holding only a's record scores b and d. */
  lemma FourFirstBatchResumed(a: ManifestRecord, b: ManifestRecord, c: ManifestRecord, d: ManifestRecord,
                              dataset: string, setSeed: bool, score: string -> real, md5: string -> nat)
    requires FourDistinct(a, b, c, d) && AllPass([b, d], SignalError)
    ensures var cut := [ResultRecord(a.signal, score(a.signal))];
      var run := RunCalculateHaspi(Config(dataset, 1, 2, setSeed), [a, b, c, d], Some(cut), score, md5);
      run.error.None? && run.log == cut + Records([b, d], score)
  {
    var cut := [ResultRecord(a.signal, score(a.signal))];
    FirstLogged(a, b, c, d, cut);
    FourStrides(a, b, c, d);
    RunLogsWholeShard(Config(dataset, 1, 2, setSeed), [a, b, c, d], Some(cut), score, md5, [b, d]);
  }

  /** The signals of a one-record log. */
  lemma OneSignal(log: Log)
    requires |log| == 1
    ensures LoggedSignals(log) == {log[0].signal}
  {
    assert log[0].signal in LoggedSignals(log);
  }

  /** The signals of two manifest records. */
  lemma TwoSignals(b: ManifestRecord, d: ManifestRecord)
    ensures SignalSet([b, d]) == {b.signal, d.signal}
  {
    var s := [b, d];
    assert s[0].signal in SignalSet(s) && s[1].signal in SignalSet(s);
  }

  /**
   * After the records of b and d, with or without a's record before them,
   * the log holds b's signal and not c's.
   */
  lemma BAndDLogged(a: ManifestRecord, b: ManifestRecord, c: ManifestRecord, d: ManifestRecord,
                    prefix: Log, score: string -> real)
    requires FourDistinct(a, b, c, d)
    requires prefix == [] || prefix == [ResultRecord(a.signal, score(a.signal))]
    ensures b.signal in LoggedSignals(prefix + Records([b, d], score))
    ensures c.signal !in LoggedSignals(prefix + Records([b, d], score))
  {
    LoggedSignalsOfRecords(prefix, [b, d], score);
    TwoSignals(b, d);
    if prefix == [] {
      assert LoggedSignals(prefix) == {};
    } else {
      OneSignal(prefix);
    }
  }

  /**
   * Batch 1 of 2 over records a, b, c, d (in that order, starting without a
   * results file) scores a and c; batch 2 scores b and d. If batch 1 is
   * interrupted after writing a's record and then restarted, the restart
   * filters a out and slices [b, c, d], so it scores b and d: c is scored
   * by no batch, and b and d are scored by both.
   */
  lemma ResumeSkipsRecord(a: ManifestRecord, b: ManifestRecord, c: ManifestRecord, d: ManifestRecord,
                          dataset: string, setSeed: bool, score: string -> real, md5: string -> nat)
    requires FourDistinct(a, b, c, d) && AllPass([a, c], SignalError) && AllPass([b, d], SignalError)
    ensures var full := RunCalculateHaspi(Config(dataset, 1, 2, setSeed), [a, b, c, d], None, score, md5);
      && full.error.None? && full.log == Records([a, c], score)
      && full.log[..1] == [ResultRecord(a.signal, score(a.signal))]
    ensures var cut := [ResultRecord(a.signal, score(a.signal))];
      var resumed := RunCalculateHaspi(Config(dataset, 1, 2, setSeed), [a, b, c, d], Some(cut), score, md5);
      && resumed.error.None? && resumed.log == cut + Records([b, d], score)
      && b.signal in LoggedSignals(resumed.log) && c.signal !in LoggedSignals(resumed.log)
    ensures var other := RunCalculateHaspi(Config(dataset, 2, 2, setSeed), [a, b, c, d], None, score, md5);
      && other.error.None? && other.log == Records([b, d], score)
      && b.signal in LoggedSignals(other.log) && c.signal !in LoggedSignals(other.log)
  {
    var cut := [ResultRecord(a.signal, score(a.signal))];
    FourFirstBatch(a, b, c, d, dataset, setSeed, score, md5);
    assert Records([a, c], score)[..1] == cut;
    FourFirstBatchResumed(a, b, c, d, dataset, setSeed, score, md5);
    BAndDLogged(a, b, c, d, cut, score);
    FourSecondBatch(a, b, c, d, dataset, setSeed, score, md5);
    BAndDLogged(a, b, c, d, [], score);
    assert [] + Records([b, d], score) == Records([b, d], score);
  }

  /** The signals logged by batch 1's records are a's and c's. */
  lemma FirstBatchSignals(a: ManifestRecord, c: ManifestRecord, score: string -> real)
    ensures LoggedSignals(Records([a, c], score)) == {a.signal, c.signal}
  {
    LoggedSignalsOfRecords([], [a, c], score);
    TwoSignals(a, c);
    assert LoggedSignals([]) == {};
    assert [] + Records([a, c], score) == Records([a, c], score);
  }

  /** With a file holding the records of a and c, the filter leaves b and d. */
  lemma FirstBatchLogged(a: ManifestRecord, b: ManifestRecord, c: ManifestRecord, d: ManifestRecord,
                         score: string -> real)
    requires FourDistinct(a, b, c, d)
    ensures Pending([a, b, c, d], LoggedSignals(ReadResults(Some(Records([a, c], score))))) == [b, d]
  {
    var done := LoggedSignals(Records([a, c], score));
    FirstBatchSignals(a, c, score);
    assert [a, b, c, d][1..] == [b, c, d] && [b, c, d][1..] == [c, d] && [c, d][1..] == [d];
    assert Pending([d], done) == [d] by {
      assert [d][1..] == [];
    }
    assert Pending([c, d], done) == [d];
    assert Pending([b, c, d], done) == [b, d];
  }

  /**
   * Batch 1 of 2 over a, b, c, d run again after it completed: the filter
   * leaves b and d, the slice of those is [b], so the rerun scores b, which
   * belongs to batch 2.
   */
  lemma FourFirstBatchRerun(a: ManifestRecord, b: ManifestRecord, c: ManifestRecord, d: ManifestRecord,
                            dataset: string, setSeed: bool, score: string -> real, md5: string -> nat)
    requires FourDistinct(a, b, c, d) && AllPass([b, d], SignalError)
    ensures var full := Records([a, c], score);
      var rerun := RunCalculateHaspi(Config(dataset, 1, 2, setSeed), [a, b, c, d], Some(full), score, md5);
      rerun.error.None? && rerun.log == full + Records([b], score)
  {
    FirstBatchLogged(a, b, c, d, score);
    assert Stride([b, d], AdjustStartUp(0, 2), 2) == [b] by {
      assert Stride([b, d], 2, 2) == [];
    }
    assert AllPass([b], SignalError) by {
      assert [b, d][0] == b;
    }
    RunLogsWholeShard(Config(dataset, 1, 2, setSeed), [a, b, c, d], Some(Records([a, c], score)), score, md5, [b]);
  }

  /**
   * The same defect without any interruption: re-running the completed
   * batch 1 of 2 over a, b, c, d appends a record for b, which batch 2 also
   * scores, so a rerun does not leave a completed batch's file as it was.
   */
  lemma RerunScoresOtherBatch(a: ManifestRecord, b: ManifestRecord, c: ManifestRecord, d: ManifestRecord,
                              dataset: string, setSeed: bool, score: string -> real, md5: string -> nat)
    requires FourDistinct(a, b, c, d) && AllPass([a, c], SignalError) && AllPass([b, d], SignalError)
    ensures var full := RunCalculateHaspi(Config(dataset, 1, 2, setSeed), [a, b, c, d], None, score, md5);
      var rerun := RunCalculateHaspi(Config(dataset, 1, 2, setSeed), [a, b, c, d], Some(full.log), score, md5);
      var other := RunCalculateHaspi(Config(dataset, 2, 2, setSeed), [a, b, c, d], None, score, md5);
      && full.error.None? && rerun.error.None?
      && rerun.log == full.log + [ResultRecord(b.signal, score(b.signal))]
      && b.signal !in LoggedSignals(full.log)
      && b.signal in LoggedSignals(other.log)
  {
    FourFirstBatch(a, b, c, d, dataset, setSeed, score, md5);
    FourFirstBatchRerun(a, b, c, d, dataset, setSeed, score, md5);
    assert Records([b], score) == [ResultRecord(b.signal, score(b.signal))];
    FirstBatchSignals(a, c, score);
    FourSecondBatch(a, b, c, d, dataset, setSeed, score, md5);
    BAndDLogged(a, b, c, d, [], score);
    assert [] + Records([b, d], score) == Records([b, d], score);
  }

  // ---------------------------------------------------------------------
  // The corrected driver: slice the manifest, then drop what is done.

  /**
   * `run_calculate_haspi` with the two steps swapped: the batch's slice
   * `[batch - 1 :: n_batches]` is taken of the whole manifest, and only then
   * are the signals already in the batch's results file dropped from it.
   */
  function RunShardFirst(cfg: Config, manifest: seq<ManifestRecord>, existing: Option<Log>,
                         score: string -> real, md5: string -> nat): (run: Run)
    ensures run.resultsFile == ResultsFileName(cfg.dataset, cfg.batch, cfg.nBatches)
    ensures run.error == Some(SliceStepZero) <==> cfg.nBatches == 0
    ensures forall i :: 0 <= i < |run.seeds| ==> run.seeds[i] < SeedModulus
    ensures !cfg.setRandomSeed ==> run.seeds == []
  {
    var file := ResultsFileName(cfg.dataset, cfg.batch, cfg.nBatches);
    var prior := ReadResults(existing);
    match Shard(manifest, cfg.batch, cfg.nBatches)
    case Failure(_) => Run(file, prior, [], Some(SliceStepZero))
    case Success(own) =>
      var todo := Pending(own, ResultsIndex(prior).Keys);
      var p := ProcessShard(todo, prior, cfg.setRandomSeed, SignalError, score, md5);
      ProcessShardError(todo, prior, cfg.setRandomSeed, SignalError, score, md5);
      ProcessShardSeeds(todo, prior, cfg.setRandomSeed, SignalError, score, md5);
      assert p.error != Some(SliceStepZero) by {
        var k := PassedPrefix(todo, SignalError);
        if k < |todo| {
          assert p.error.value == SignalError(todo[k].signal).value;
        }
      }
      Run(file, p.log, p.seeds, p.error)
  }

  /** The batch's own records: slice `[batch - 1 :: n_batches]` of the manifest. */
  function OwnShard(cfg: Config, manifest: seq<ManifestRecord>): seq<ManifestRecord>
    requires cfg.nBatches >= 1
  {
    Stride(manifest, AdjustStartUp(cfg.batch - 1, |manifest|), cfg.nBatches)
  }

  /**
   * With a positive batch count the corrected run leaves the old records
   * followed by those of the passing prefix of the batch's own records that
   * have no result yet.
   */
  lemma ShardFirstShape(cfg: Config, manifest: seq<ManifestRecord>, existing: Option<Log>,
                        score: string -> real, md5: string -> nat)
    requires cfg.nBatches >= 1
    ensures var prior := ReadResults(existing);
      var todo := Pending(OwnShard(cfg, manifest), LoggedSignals(prior));
      var k := PassedPrefix(todo, SignalError);
      var run := RunShardFirst(cfg, manifest, existing, score, md5);
      && run.log == prior + Records(todo[..k], score)
      && run.error == (if k < |todo| then SignalError(todo[k].signal) else None)
  {
    var prior := ReadResults(existing);
    var todo := Pending(OwnShard(cfg, manifest), LoggedSignals(prior));
    assert Shard(manifest, cfg.batch, cfg.nBatches) == Success(OwnShard(cfg, manifest));
    ProcessShardLog(todo, prior, cfg.setRandomSeed, SignalError, score, md5);
    ProcessShardError(todo, prior, cfg.setRandomSeed, SignalError, score, md5);
  }

  /** A corrected run only ever scores the batch's own records. */
  lemma ShardFirstStaysInShard(cfg: Config, manifest: seq<ManifestRecord>, existing: Option<Log>,
                               score: string -> real, md5: string -> nat)
    requires cfg.nBatches >= 1
    ensures var prior := ReadResults(existing);
      var run := RunShardFirst(cfg, manifest, existing, score, md5);
      && |prior| <= |run.log| && run.log[..|prior|] == prior
      && forall j :: |prior| <= j < |run.log| ==>
           && ManifestRecord(run.log[j].signal) in OwnShard(cfg, manifest)
           && run.log[j].signal !in LoggedSignals(prior)
           && run.log[j].haspi == score(run.log[j].signal)
  {
    var prior := ReadResults(existing);
    var own := OwnShard(cfg, manifest);
    var todo := Pending(own, LoggedSignals(prior));
    var k := PassedPrefix(todo, SignalError);
    var added := Records(todo[..k], score);
    ShardFirstShape(cfg, manifest, existing, score, md5);
    forall j | 0 <= j < |added|
      ensures ManifestRecord(added[j].signal) in own && added[j].signal !in LoggedSignals(prior)
    {
      assert added[j].signal == todo[j].signal;
      assert todo[j] == ManifestRecord(todo[j].signal);
      PendingMembership(own, LoggedSignals(prior), todo[j]);
    }
  }

  /** A corrected run that ends without error has a record for every one of the batch's own signals. */
  lemma ShardFirstCompletesShard(cfg: Config, manifest: seq<ManifestRecord>, existing: Option<Log>,
                                 score: string -> real, md5: string -> nat)
    requires cfg.nBatches >= 1
    requires RunShardFirst(cfg, manifest, existing, score, md5).error.None?
    ensures forall r :: r in OwnShard(cfg, manifest) ==>
      r.signal in LoggedSignals(RunShardFirst(cfg, manifest, existing, score, md5).log)
  {
    var prior := ReadResults(existing);
    var own := OwnShard(cfg, manifest);
    var todo := Pending(own, LoggedSignals(prior));
    var run := RunShardFirst(cfg, manifest, existing, score, md5);
    ShardFirstCompletedLog(cfg, manifest, existing, score, md5);
    LoggedSignalsOfRecords(prior, todo, score);
    forall r | r in own ensures r.signal in LoggedSignals(run.log) {
      PendingMembership(own, LoggedSignals(prior), r);
      if r.signal !in LoggedSignals(prior) {
        var j :| 0 <= j < |todo| && todo[j] == r;
        assert r.signal in SignalSet(todo);
      }
    }
  }

  /**
   * Every manifest record is scored once each batch has completed: record
   * i belongs to batch `i % n + 1`, so that batch's completed run has a
   * record for its signal.
   */
  lemma ShardFirstCoversManifest(cfg: Config, manifest: seq<ManifestRecord>, existing: Option<Log>,
                                 score: string -> real, md5: string -> nat)
    requires cfg.nBatches >= 1
    requires RunShardFirst(cfg, manifest, existing, score, md5).error.None?
    ensures forall i :: 0 <= i < |manifest| && i % cfg.nBatches == cfg.batch - 1 ==>
      manifest[i].signal in LoggedSignals(RunShardFirst(cfg, manifest, existing, score, md5).log)
  {
    ShardFirstCompletesShard(cfg, manifest, existing, score, md5);
    forall i | 0 <= i < |manifest| && i % cfg.nBatches == cfg.batch - 1
      ensures manifest[i] in OwnShard(cfg, manifest)
    {
      HomeInOwnShard(cfg, manifest, i);
    }
  }

  /** Manifest record i is one of batch `i % n + 1`'s own records. */
  lemma HomeInOwnShard(cfg: Config, manifest: seq<ManifestRecord>, i: nat)
    requires cfg.nBatches >= 1 && i < |manifest| && cfg.batch == i % cfg.nBatches + 1
    ensures manifest[i] in OwnShard(cfg, manifest)
  {
    InHomeShard(manifest, cfg.nBatches, i);
    assert AdjustStartUp(cfg.batch - 1, |manifest|) == i % cfg.nBatches;
  }

  /**
   * The corrected driver resumes exactly, for every batch of every split of
   * a manifest that lists each signal once:
   * if a run completes, then restarting from the file as it stood after any
   * number of its records had been appended completes with the same file.
   */
  lemma ShardFirstResumeMatchesUninterrupted(cfg: Config, manifest: seq<ManifestRecord>, existing: Option<Log>,
                                             score: string -> real, md5: string -> nat)
    requires cfg.nBatches >= 1
    requires NoDuplicates(manifest)
    requires RunShardFirst(cfg, manifest, existing, score, md5).error.None?
    ensures var full := RunShardFirst(cfg, manifest, existing, score, md5);
      forall j :: |ReadResults(existing)| <= j <= |full.log| ==>
        && RunShardFirst(cfg, manifest, Some(full.log[..j]), score, md5).error.None?
        && RunShardFirst(cfg, manifest, Some(full.log[..j]), score, md5).log == full.log
  {
    var prior := ReadResults(existing);
    var todo := Pending(OwnShard(cfg, manifest), LoggedSignals(prior));
    var full := RunShardFirst(cfg, manifest, existing, score, md5);
    ShardFirstCompletedLog(cfg, manifest, existing, score, md5);
    forall j | |prior| <= j <= |full.log|
      ensures RunShardFirst(cfg, manifest, Some(full.log[..j]), score, md5).error.None?
      ensures RunShardFirst(cfg, manifest, Some(full.log[..j]), score, md5).log == full.log
    {
      var k := j - |prior|;
      assert full.log[..j] == prior + Records(todo[..k], score) by {
        RecordsPrefix(prior, todo, k, score);
      }
      ShardFirstResumeAt(cfg, manifest, existing, score, md5, k);
    }
  }

  /**
   * Restarting the corrected run from the old records followed by those of
   * the first k pending own records logs the rest, completing the file.
   */
  lemma ShardFirstResumeAt(cfg: Config, manifest: seq<ManifestRecord>, existing: Option<Log>,
                           score: string -> real, md5: string -> nat, k: nat)
    requires cfg.nBatches >= 1
    requires NoDuplicates(manifest)
    requires AllPass(Pending(OwnShard(cfg, manifest), LoggedSignals(ReadResults(existing))), SignalError)
    requires k <= |Pending(OwnShard(cfg, manifest), LoggedSignals(ReadResults(existing)))|
    ensures var prior := ReadResults(existing);
      var todo := Pending(OwnShard(cfg, manifest), LoggedSignals(prior));
      var resumed := RunShardFirst(cfg, manifest, Some(prior + Records(todo[..k], score)), score, md5);
      resumed.error.None? && resumed.log == prior + Records(todo, score)
  {
    var prior := ReadResults(existing);
    var own := OwnShard(cfg, manifest);
    var todo := Pending(own, LoggedSignals(prior));
    var cut := prior + Records(todo[..k], score);
    assert NoDuplicates(own) by {
      StrideNoDuplicates(manifest, AdjustStartUp(cfg.batch - 1, |manifest|), cfg.nBatches);
    }
    ResumePending(own, prior, k, score);
    AllPassSuffix(todo, k);
    ShardFirstLogsAll(cfg, manifest, Some(cut), score, md5);
    RecordsSplit(prior, todo, k, score);
  }

  /** A completed corrected run appended one record for each of the batch's pending records. */
  lemma ShardFirstCompletedLog(cfg: Config, manifest: seq<ManifestRecord>, existing: Option<Log>,
                               score: string -> real, md5: string -> nat)
    requires cfg.nBatches >= 1
    requires RunShardFirst(cfg, manifest, existing, score, md5).error.None?
    ensures var prior := ReadResults(existing);
      var todo := Pending(OwnShard(cfg, manifest), LoggedSignals(prior));
      && RunShardFirst(cfg, manifest, existing, score, md5).log == prior + Records(todo, score)
      && AllPass(todo, SignalError)
  {
    var prior := ReadResults(existing);
    var todo := Pending(OwnShard(cfg, manifest), LoggedSignals(prior));
    ShardFirstShape(cfg, manifest, existing, score, md5);
    var k := PassedPrefix(todo, SignalError);
    assert k == |todo|;
    assert todo[..k] == todo;
  }

  /** A corrected run whose pending records all parse completes, logging all of them. */
  lemma ShardFirstLogsAll(cfg: Config, manifest: seq<ManifestRecord>, existing: Option<Log>,
                          score: string -> real, md5: string -> nat)
    requires cfg.nBatches >= 1
    requires AllPass(Pending(OwnShard(cfg, manifest), LoggedSignals(ReadResults(existing))), SignalError)
    ensures var run := RunShardFirst(cfg, manifest, existing, score, md5);
      var todo := Pending(OwnShard(cfg, manifest), LoggedSignals(ReadResults(existing)));
      run.error.None? && run.log == ReadResults(existing) + Records(todo, score)
  {
    var todo := Pending(OwnShard(cfg, manifest), LoggedSignals(ReadResults(existing)));
    PassedPrefixAll(todo, SignalError);
    ShardFirstShape(cfg, manifest, existing, score, md5);
    assert todo[..|todo|] == todo;
  }

  /** With a file holding a's record, the corrected filter leaves c of batch 1's [a, c]. */
  lemma OwnFirstLogged(a: ManifestRecord, c: ManifestRecord, cut: Log)
    requires a.signal != c.signal && |cut| == 1 && cut[0].signal == a.signal
    ensures Pending([a, c], LoggedSignals(ReadResults(Some(cut)))) == [c]
  {
    OneSignal(cut);
    assert [a, c][1..] == [c];
    PendingNothingDone([c], {a.signal});
  }

  /** Uninterrupted, the corrected batch 1 of 2 over a, b, c, d scores a and c. */
  lemma FixedFirstBatch(a: ManifestRecord, b: ManifestRecord, c: ManifestRecord, d: ManifestRecord,
                        dataset: string, setSeed: bool, score: string -> real, md5: string -> nat)
    requires AllPass([a, c], SignalError)
    ensures var run := RunShardFirst(Config(dataset, 1, 2, setSeed), [a, b, c, d], None, score, md5);
      run.error.None? && run.log == Records([a, c], score)
  {
    FourStrides(a, b, c, d);
    NothingLogged([a, c]);
    ShardFirstLogsAll(Config(dataset, 1, 2, setSeed), [a, b, c, d], None, score, md5);
    assert [] + Records([a, c], score) == Records([a, c], score);
  }

  /** The corrected batch 1 of 2 restarted after a's record scores c alone. */
  lemma FixedFirstBatchResumed(a: ManifestRecord, b: ManifestRecord, c: ManifestRecord, d: ManifestRecord,
                               dataset: string, setSeed: bool, score: string -> real, md5: string -> nat)
    requires a.signal != c.signal && AllPass([c], SignalError)
    ensures var cut := [ResultRecord(a.signal, score(a.signal))];
      var run := RunShardFirst(Config(dataset, 1, 2, setSeed), [a, b, c, d], Some(cut), score, md5);
      run.error.None? && run.log == cut + Records([c], score)
  {
    var cut := [ResultRecord(a.signal, score(a.signal))];
    FourStrides(a, b, c, d);
    OwnFirstLogged(a, c, cut);
    ShardFirstLogsAll(Config(dataset, 1, 2, setSeed), [a, b, c, d], Some(cut), score, md5);
  }

  /**
   * On the four records of `ResumeSkipsRecord`, the corrected batch 1
   * restarted after a's record goes on to score exactly c, as the
   * uninterrupted run would have.
   */
  lemma ShardFirstOnFourRecords(a: ManifestRecord, b: ManifestRecord, c: ManifestRecord, d: ManifestRecord,
                                dataset: string, setSeed: bool, score: string -> real, md5: string -> nat)
    requires FourDistinct(a, b, c, d) && AllPass([a, c], SignalError) && AllPass([b, d], SignalError)
    ensures var full := RunShardFirst(Config(dataset, 1, 2, setSeed), [a, b, c, d], None, score, md5);
      full.error.None? && full.log == Records([a, c], score)
    ensures var cut := [ResultRecord(a.signal, score(a.signal))];
      var full := RunShardFirst(Config(dataset, 1, 2, setSeed), [a, b, c, d], None, score, md5);
      var resumed := RunShardFirst(Config(dataset, 1, 2, setSeed), [a, b, c, d], Some(cut), score, md5);
      resumed.error.None? && resumed.log == full.log
  {
    FixedFirstBatch(a, b, c, d, dataset, setSeed, score, md5);
    AllPassSuffix([a, c], 1);
    assert [a, c][1..] == [c];
    FixedFirstBatchResumed(a, b, c, d, dataset, setSeed, score, md5);
    RecordsCons([], a, [c], score);
    assert [] + Records([a, c], score) == Records([a, c], score);
  }
}
