/**
 * The results log of the HASPI driver: its file name, its records, the
 * index of already-scored signals, the resume filter over the manifest, and
 * the append-only write. JSON text is not modelled: a log is the sequence of
 * records its lines decode to.
 */
module ResultsLog {
  import opened Wrappers
  import opened Strings

  /** One line of the results file: `{"signal": ..., "haspi": ...}`. */
  datatype ResultRecord = ResultRecord(signal: string, haspi: real)

  /** One entry of the dataset manifest; only its `signal` field is read. */
  datatype ManifestRecord = ManifestRecord(signal: string)

  type Log = seq<ResultRecord>

  // ---------------------------------------------------------------------
  // Results file name

  /**
   * `{dataset}.haspi{batch_str}.jsonl`, where `batch_str` is
   * `.{batch}_{n_batches}` when the work is split into more than one batch
   * and empty otherwise.
   */
  function ResultsFileName(dataset: string, batch: int, nBatches: int): string
  {
    dataset + ".haspi" + BatchSuffix(batch, nBatches) + ".jsonl"
  }

  function BatchSuffix(batch: int, nBatches: int): string
  {
    if nBatches > 1 then "." + (IntToDecimal(batch) + "_" + IntToDecimal(nBatches)) else ""
  }

  /**
   * Distinct batch settings of a split run write distinct files, a split
   * run never writes the file of an unsplit one, and every unsplit setting
   * shares the single file.
   */
  lemma ResultsFileNamesDistinct(dataset: string, b1: int, n1: int, b2: int, n2: int)
    requires n1 > 1
    ensures ResultsFileName(dataset, b1, n1) != ResultsFileName(dataset, b2, 1)
    ensures n2 > 1 && ResultsFileName(dataset, b1, n1) == ResultsFileName(dataset, b2, n2)
      ==> b1 == b2 && n1 == n2
    ensures n2 <= 1 ==> ResultsFileName(dataset, b2, n2) == ResultsFileName(dataset, 0, 0)
  {
    assert |ResultsFileName(dataset, b1, n1)| > |ResultsFileName(dataset, b2, 1)|;
    if n2 > 1 && ResultsFileName(dataset, b1, n1) == ResultsFileName(dataset, b2, n2) {
      MiddleDetermined(dataset + ".haspi", BatchSuffix(b1, n1), BatchSuffix(b2, n2), ".jsonl");
      BatchSuffixInjective(b1, n1, b2, n2);
    }
  }

  /** The suffix of a split run determines its batch settings. */
  lemma BatchSuffixInjective(b1: int, n1: int, b2: int, n2: int)
    requires n1 > 1 && n2 > 1
    requires BatchSuffix(b1, n1) == BatchSuffix(b2, n2)
    ensures b1 == b2 && n1 == n2
  {
    var s1, t1 := IntToDecimal(b1), IntToDecimal(n1);
    var s2, t2 := IntToDecimal(b2), IntToDecimal(n2);
    assert s1 + "_" + t1 == BatchSuffix(b1, n1)[1..];
    assert s2 + "_" + t2 == BatchSuffix(b2, n2)[1..];
    SeparatorSplitsUniquely(s1, t1, s2, t2, '_');
    IntToDecimalInjective(b1, b2);
    IntToDecimalInjective(n1, n2);
  }

  /**
   * The name of a split run reads back: after `{dataset}.haspi.` and before
   * `.jsonl` it holds two `_`-separated fields, the decimal batch index and
   * the decimal batch count; an unsplit run's name is `{dataset}.haspi.jsonl`.
   */
  lemma ResultsFileNameReadsBack(dataset: string, batch: int, nBatches: int)
    ensures nBatches <= 1 ==> ResultsFileName(dataset, batch, nBatches) == dataset + ".haspi.jsonl"
    ensures nBatches > 1 ==>
      exists fields: string ::
        && ResultsFileName(dataset, batch, nBatches) == dataset + ".haspi." + fields + ".jsonl"
        && |Split(fields, '_')| == 2
        && IsDecimal(Split(fields, '_')[0]) && ParseDecimal(Split(fields, '_')[0]) == batch
        && IsDecimal(Split(fields, '_')[1]) && ParseDecimal(Split(fields, '_')[1]) == nBatches
  {
    if nBatches > 1 {
      var b, n := IntToDecimal(batch), IntToDecimal(nBatches);
      var fields := b + "_" + n;
      assert Split(fields, '_') == [b, n] by {
        SplitAfterPrefix(b, n, '_');
        SplitWithoutSeparator(n, '_');
      }
      IntToDecimalRoundTrip(batch);
      IntToDecimalRoundTrip(nBatches);
      assert ResultsFileName(dataset, batch, nBatches) == dataset + ".haspi." + fields + ".jsonl";
    }
  }

  /** Equal strings with the same prefix and suffix have the same middle. */
  lemma MiddleDetermined(pre: string, m1: string, m2: string, suf: string)
    requires pre + m1 + suf == pre + m2 + suf
    ensures m1 == m2
  {
    var s := pre + m1 + suf;
    assert m1 == s[|pre|..|s| - |suf|];
    assert m2 == (pre + m2 + suf)[|pre|..|s| - |suf|];
  }

  // ---------------------------------------------------------------------
  // Reading the log and indexing it

  /** An absent results file reads as the empty log. */
  function ReadResults(file: Option<Log>): (log: Log)
    ensures file.Some? ==> log == file.value
    ensures file.None? ==> log == []
  {
    file.GetOr([])
  }

  /** The signals that have a record in `log`. */
  function LoggedSignals(log: Log): set<string>
  {
    set j | 0 <= j < |log| :: log[j].signal
  }

  /**
   * `{result["signal"]: result for result in results}`: keyed by exactly the
   * logged signals, each key mapping to a record of that signal taken from
   * the log: the last one, as later entries overwrite earlier ones
   * (`ResultsIndexLast`).
   */
  function ResultsIndex(log: Log): (index: map<string, ResultRecord>)
    ensures index.Keys == LoggedSignals(log)
    ensures |log| > 0 ==> index[log[|log| - 1].signal] == log[|log| - 1]
    decreases |log|
  {
    if |log| == 0 then map[]
    else
      var init := log[..|log| - 1];
      var last := log[|log| - 1];
      assert log == init + [last];
      LoggedSignalsSnoc(init, last);
      ResultsIndex(init)[last.signal := last]
  }

  /** Each signal maps to one of its own records in the log. */
  lemma {:induction false} ResultsIndexValues(log: Log)
    ensures var index := ResultsIndex(log);
      forall s :: s in index ==> index[s].signal == s && index[s] in log
    decreases |log|
  {
    if |log| > 0 {
      var init, last := log[..|log| - 1], log[|log| - 1];
      ResultsIndexValues(init);
      var index := ResultsIndex(log);
      assert index == ResultsIndex(init)[last.signal := last];
      forall s | s in index ensures index[s].signal == s && index[s] in log {
        if s != last.signal {
          var r := ResultsIndex(init)[s];
          assert r in init;
          var j :| 0 <= j < |init| && init[j] == r;
          assert log[j] == r;
        }
      }
    }
  }

  /** A record that no later record of its signal follows is the one the index keeps. */
  lemma {:induction false} ResultsIndexLast(log: Log, j: nat)
    requires j < |log|
    requires forall k :: j < k < |log| ==> log[k].signal != log[j].signal
    ensures ResultsIndex(log)[log[j].signal] == log[j]
    decreases |log|
  {
    if j < |log| - 1 {
      var init, last := log[..|log| - 1], log[|log| - 1];
      assert last.signal != log[j].signal;
      assert ResultsIndex(log) == ResultsIndex(init)[last.signal := last];
      forall k | j < k < |init| ensures init[k].signal != init[j].signal {
        assert init[k] == log[k];
      }
      ResultsIndexLast(init, j);
    }
  }

  /** Appending a record adds its signal to the logged ones. */
  lemma LoggedSignalsSnoc(init: Log, last: ResultRecord)
    ensures LoggedSignals(init + [last]) == LoggedSignals(init) + {last.signal}
  {
    var log := init + [last];
    assert log[|init|] == last;
    forall s | s in LoggedSignals(log) ensures s in LoggedSignals(init) + {last.signal} {
      var j :| 0 <= j < |log| && log[j].signal == s;
      if j < |init| {
        assert init[j] == log[j];
      }
    }
    forall s | s in LoggedSignals(init) ensures s in LoggedSignals(log) {
      var j :| 0 <= j < |init| && init[j].signal == s;
      assert log[j] == init[j];
    }
  }

  // ---------------------------------------------------------------------
  // The resume filter

  /** `xs` occurs in `ys` in order, possibly with gaps. */
  predicate IsSubsequence<T(==)>(xs: seq<T>, ys: seq<T>)
    decreases |ys|
  {
    if |xs| == 0 then true
    else if |ys| == 0 then false
    else (xs[0] == ys[0] && IsSubsequence(xs[1..], ys[1..])) || IsSubsequence(xs, ys[1..])
  }

  /**
   * `[record for record in records if record["signal"] not in done]`: the
   * manifest records whose signal is not done, in manifest order, each kept
   * as many times as it occurs.
   */
  function Pending(manifest: seq<ManifestRecord>, done: set<string>): (kept: seq<ManifestRecord>)
    ensures forall k :: 0 <= k < |kept| ==> kept[k].signal !in done
    decreases |manifest|
  {
    if |manifest| == 0 then []
    else if manifest[0].signal in done then Pending(manifest[1..], done)
    else [manifest[0]] + Pending(manifest[1..], done)
  }

  /**
   * The filter keeps every record whose signal is not done as often as the
   * manifest lists it, and no other.
   */
  lemma {:induction false} PendingCounts(manifest: seq<ManifestRecord>, done: set<string>)
    ensures forall x :: multiset(Pending(manifest, done))[x] == if x.signal in done then 0 else multiset(manifest)[x]
    decreases |manifest|
  {
    if |manifest| > 0 {
      var first, rest := manifest[0], Pending(manifest[1..], done);
      PendingCounts(manifest[1..], done);
      assert multiset(manifest) == multiset{first} + multiset(manifest[1..]) by {
        assert manifest == [first] + manifest[1..];
      }
      if first.signal !in done {
        assert multiset([first] + rest) == multiset{first} + multiset(rest);
      }
    }
  }

  /** The filter keeps the manifest order. */
  lemma {:induction false} PendingIsSubsequence(manifest: seq<ManifestRecord>, done: set<string>)
    ensures IsSubsequence(Pending(manifest, done), manifest)
    decreases |manifest|
  {
    if |manifest| > 0 {
      var rest := Pending(manifest[1..], done);
      PendingIsSubsequence(manifest[1..], done);
      if manifest[0].signal in done {
        SubsequenceOfTail(rest, manifest);
      } else {
        assert ([manifest[0]] + rest)[1..] == rest;
      }
    }
  }

  lemma SubsequenceOfTail<T>(xs: seq<T>, ys: seq<T>)
    requires |ys| > 0 && IsSubsequence(xs, ys[1..])
    ensures IsSubsequence(xs, ys)
  {
  }

  /** A record is kept if and only if it is in the manifest and not done. */
  lemma PendingMembership(manifest: seq<ManifestRecord>, done: set<string>, x: ManifestRecord)
    ensures x in Pending(manifest, done) <==> x in manifest && x.signal !in done
  {
    var kept := Pending(manifest, done);
    PendingCounts(manifest, done);
    assert x in kept <==> multiset(kept)[x] > 0;
    assert x in manifest <==> multiset(manifest)[x] > 0;
  }

  /** Filtering by one set and then another is filtering by their union. */
  lemma {:induction false} PendingTwice(manifest: seq<ManifestRecord>, a: set<string>, b: set<string>)
    ensures Pending(Pending(manifest, a), b) == Pending(manifest, a + b)
    decreases |manifest|
  {
    if |manifest| > 0 {
      PendingTwice(manifest[1..], a, b);
      var rest := Pending(manifest[1..], a);
      if manifest[0].signal !in a {
        assert ([manifest[0]] + rest)[1..] == rest;
      }
    }
  }

  /** Filtering distributes over concatenation. */
  lemma {:induction false} PendingAppend(xs: seq<ManifestRecord>, ys: seq<ManifestRecord>, done: set<string>)
    ensures Pending(xs + ys, done) == Pending(xs, done) + Pending(ys, done)
    decreases |xs|
  {
    if |xs| > 0 {
      assert (xs + ys)[1..] == xs[1..] + ys;
      PendingAppend(xs[1..], ys, done);
    } else {
      assert xs + ys == ys;
    }
  }

  /** Nothing is dropped when no manifest signal is done. */
  lemma {:induction false} PendingNothingDone(manifest: seq<ManifestRecord>, done: set<string>)
    requires forall k :: 0 <= k < |manifest| ==> manifest[k].signal !in done
    ensures Pending(manifest, done) == manifest
    decreases |manifest|
  {
    if |manifest| > 0 {
      PendingNothingDone(manifest[1..], done);
      assert [manifest[0]] + manifest[1..] == manifest;
    }
  }

  /** Everything is dropped when every manifest signal is done. */
  lemma {:induction false} PendingAllDone(manifest: seq<ManifestRecord>, done: set<string>)
    requires forall k :: 0 <= k < |manifest| ==> manifest[k].signal in done
    ensures Pending(manifest, done) == []
    decreases |manifest|
  {
    if |manifest| > 0 {
      PendingAllDone(manifest[1..], done);
    }
  }

  // ---------------------------------------------------------------------
  // Duplicates

  /** Each value occurs at most once. */
  ghost predicate NoDuplicates(xs: seq<ManifestRecord>)
  {
    forall x :: multiset(xs)[x] <= 1
  }

  /** The signals of some manifest records. */
  function SignalSet(records: seq<ManifestRecord>): set<string>
  {
    set j | 0 <= j < |records| :: records[j].signal
  }

  /** At most one record per signal: the invariant the results log keeps. */
  ghost predicate UniqueSignals(log: Log)
  {
    forall i, j :: 0 <= i < j < |log| ==> log[i].signal != log[j].signal
  }

  /** Two equal entries at distinct positions occur twice. */
  lemma TwoOccurrences<T>(xs: seq<T>, i: nat, j: nat)
    ensures i < j < |xs| && xs[i] == xs[j] ==> multiset(xs)[xs[i]] >= 2
  {
    if i < j < |xs| && xs[i] == xs[j] {
      assert xs == xs[..j] + xs[j..];
      assert xs[i] in xs[..j];
      assert xs[j..][0] == xs[j];
    }
  }

  /** Without duplicates, distinct positions hold distinct values. */
  lemma NoDuplicatesAt(xs: seq<ManifestRecord>, i: nat, j: nat)
    requires NoDuplicates(xs) && i < j < |xs|
    ensures xs[i] != xs[j]
  {
    TwoOccurrences(xs, i, j);
  }

  /** A smaller multiset of a duplicate-free list is duplicate-free. */
  lemma NoDuplicatesSub(xs: seq<ManifestRecord>, ys: seq<ManifestRecord>)
    requires NoDuplicates(ys) && multiset(xs) <= multiset(ys)
    ensures NoDuplicates(xs)
  {
    forall x ensures multiset(xs)[x] <= 1 {
      assert multiset(xs)[x] <= multiset(ys)[x];
    }
  }

  // ---------------------------------------------------------------------
  // Appending

  /**
   * `write_jsonl`: the file is opened in append mode, so the old lines stay
   * as they are and the new records follow them in order.
   */
  function WriteJsonl(file: Log, records: Log): (after: Log)
    ensures |after| == |file| + |records|
    ensures after[..|file|] == file
    ensures after[|file|..] == records
  {
    file + records
  }
}
