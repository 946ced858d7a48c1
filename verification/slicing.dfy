/**
 * Python's extended slice `xs[start::step]`, with CPython's index adjustment
 * for a negative or out-of-range start, a negative step, and the
 * `ValueError` for a zero step; and the static sharding the driver builds
 * on it, `records[batch - 1 :: n_batches]`.
 */
module Slicing {
  import opened Wrappers

  /** `ValueError: slice step cannot be zero`. */
  datatype SliceError = ZeroStep

  /**
   * Position `start + k * step`, the k-th position a slice visits. It is
   * defined by repeated addition so that the solver only ever sees linear
   * steps; `SlotIsAffine` relates it to the product.
   */
  function Slot(start: int, step: int, k: nat): int
    decreases k
  {
    if k == 0 then start else Slot(start, step, k - 1) + step
  }

  lemma {:induction false} SlotIsAffine(start: int, step: int, k: nat)
    ensures Slot(start, step, k) == start + k * step
    decreases k
  {
    if k > 0 {
      SlotIsAffine(start, step, k - 1);
      assert (k - 1) * step + step == k * step;
    }
  }

  /** Starting one step later (at `next`) is the same as taking one more step. */
  lemma SlotShift(start: int, step: int, next: int)
    requires next == start + step
    ensures forall k: nat :: Slot(next, step, k) == Slot(start, step, k + 1)
  {
    forall k: nat ensures Slot(next, step, k) == Slot(start, step, k + 1) {
      SlotShiftAt(start, step, k);
    }
  }

  lemma {:induction false} SlotShiftAt(start: int, step: int, k: nat)
    ensures Slot(start + step, step, k) == Slot(start, step, k + 1)
    decreases k
  {
    if k > 0 {
      SlotShiftAt(start, step, k - 1);
    }
  }

  /**
   * The elements at positions `start`, `start + step`, `start + 2*step`, ...
   * that lie inside `xs`, in that order (`StrideSlots` states it).
   */
  function Stride<T>(xs: seq<T>, start: nat, step: nat): (r: seq<T>)
    requires step > 0
    ensures |r| == 0 <==> start >= |xs|
    ensures start <= |xs| ==> |r| <= |xs| - start
    decreases |xs| - start
  {
    if start >= |xs| then [] else [xs[start]] + Stride(xs, start + step, step)
  }

  /**
   * The k-th element of a stride is the element at slot k, every listed slot
   * is inside the list, and the first slot not listed is past its end.
   */
  lemma {:induction false} StrideSlots<T>(xs: seq<T>, start: nat, step: nat)
    requires step > 0
    ensures var r := Stride(xs, start, step);
      && (forall k :: 0 <= k < |r| ==> 0 <= Slot(start, step, k) < |xs| && r[k] == xs[Slot(start, step, k)])
      && Slot(start, step, |r|) >= |xs|
    decreases |xs| - start
  {
    if start < |xs| {
      var rest := Stride(xs, start + step, step);
      var r := Stride(xs, start, step);
      StrideSlots(xs, start + step, step);
      SlotShift(start, step, start + step);
      forall k | 0 <= k < |r|
        ensures 0 <= Slot(start, step, k) < |xs| && r[k] == xs[Slot(start, step, k)]
      {
        if k > 0 {
          assert r[k] == rest[k - 1];
          assert Slot(start, step, k) == Slot(start + step, step, k - 1);
        }
      }
      assert Slot(start, step, |r|) == Slot(start + step, step, |rest|);
    }
  }

  /**
   * The elements at positions `start`, `start + step`, ... for a negative
   * step, down to position 0, for a start of -1 (nothing) up to the last
   * index (`StrideDownSlots` states it).
   */
  function StrideDown<T>(xs: seq<T>, start: int, step: int): (r: seq<T>)
    requires step < 0 && start < |xs|
    ensures |r| == 0 <==> start < 0
    ensures 0 <= start ==> |r| <= start + 1
    decreases start
  {
    if start < 0 then [] else [xs[start]] + StrideDown(xs, start + step, step)
  }

  /** The k-th element of a downward stride is the element at slot k. */
  lemma {:induction false} StrideDownSlots<T>(xs: seq<T>, start: int, step: int)
    requires step < 0 && start < |xs|
    ensures var r := StrideDown(xs, start, step);
      && (forall k :: 0 <= k < |r| ==> 0 <= Slot(start, step, k) < |xs| && r[k] == xs[Slot(start, step, k)])
      && Slot(start, step, |r|) < 0
    decreases start
  {
    if start >= 0 {
      var rest := StrideDown(xs, start + step, step);
      var r := StrideDown(xs, start, step);
      StrideDownSlots(xs, start + step, step);
      SlotShift(start, step, start + step);
      forall k | 0 <= k < |r|
        ensures 0 <= Slot(start, step, k) < |xs| && r[k] == xs[Slot(start, step, k)]
      {
        if k > 0 {
          assert r[k] == rest[k - 1];
          assert Slot(start, step, k) == Slot(start + step, step, k - 1);
        }
      }
      assert Slot(start, step, |r|) == Slot(start + step, step, |rest|);
    }
  }

  /** Every in-range position `Slot(start, step, k)` is listed by `Stride`. */
  lemma {:induction false} StrideCovers<T>(xs: seq<T>, start: nat, step: nat, k: nat)
    requires step > 0 && Slot(start, step, k) < |xs|
    ensures k < |Stride(xs, start, step)|
  {
    var r := Stride(xs, start, step);
    StrideSlots(xs, start, step);
    SlotMonotone(start, step, |r|, k);
  }

  /** With a positive step, later slots are further right. */
  lemma {:induction false} SlotMonotone(start: int, step: nat, j: nat, k: nat)
    ensures j <= k ==> Slot(start, step, j) <= Slot(start, step, k)
    decreases k
  {
    if j < k {
      SlotMonotone(start, step, j, k - 1);
    }
  }

  /** CPython's adjustment of a given slice start for a positive step. */
  function AdjustStartUp(start: int, len: nat): (i: nat)
    ensures i <= len
    ensures 0 <= start <= len ==> i == start
    ensures start < 0 && -start <= len ==> i == len + start
  {
    if start < 0 then (if start + len < 0 then 0 else start + len)
    else if start > len then len
    else start
  }

  /** CPython's adjustment of a given slice start for a negative step. */
  function AdjustStartDown(start: int, len: nat): (i: int)
    ensures -1 <= i < len
    ensures 0 <= start < len ==> i == start
    ensures start < 0 && -start <= len ==> i == len + start
  {
    if start < 0 then (if start + len < 0 then -1 else start + len)
    else if start >= len then len - 1
    else start
  }

  /** Python's `xs[start::step]`. */
  function SliceFrom<T>(xs: seq<T>, start: int, step: int): (r: Result<seq<T>, SliceError>)
    ensures r.Failure? <==> step == 0
    ensures step > 0 && 0 <= start ==> r == Success(Stride(xs, if start <= |xs| then start else |xs|, step))
  {
    if step == 0 then Failure(ZeroStep)
    else if step > 0 then Success(Stride(xs, AdjustStartUp(start, |xs|), step))
    else Success(StrideDown(xs, AdjustStartDown(start, |xs|), step))
  }

  /**
   * The driver's shard: `records[batch - 1 :: n_batches]`. For
   * `1 <= batch <= n_batches` its k-th element is record
   * `batch - 1 + k * n_batches`, and it has one element for every such index
   * inside the list.
   */
  function Shard<T>(records: seq<T>, batch: int, nBatches: int): (r: Result<seq<T>, SliceError>)
    ensures r.Failure? <==> nBatches == 0
    ensures 1 <= batch <= nBatches ==> r.Success?
    ensures 1 <= batch <= nBatches ==>
      forall k :: 0 <= k < |r.value| ==>
        0 <= Slot(batch - 1, nBatches, k) < |records| && r.value[k] == records[Slot(batch - 1, nBatches, k)]
    ensures 1 <= batch <= nBatches ==> Slot(batch - 1, nBatches, |r.value|) >= |records|
  {
    if 1 <= batch <= nBatches then
      StrideSlots(records, batch - 1, nBatches);
      SliceFrom(records, batch - 1, nBatches)
    else
      SliceFrom(records, batch - 1, nBatches)
  }

  /** For `1 <= batch <= n_batches` the driver's slice is the stride from `batch - 1`. */
  lemma ShardIsStride<T>(xs: seq<T>, batch: int, nBatches: int)
    requires 1 <= batch <= nBatches
    ensures Shard(xs, batch, nBatches) == Success(Stride(xs, AdjustStartUp(batch - 1, |xs|), nBatches))
    ensures batch - 1 <= |xs| ==> Shard(xs, batch, nBatches) == Success(Stride(xs, batch - 1, nBatches))
  {
  }

  // ---------------------------------------------------------------------
  // The shards of batches 1..n partition the list.

  /** Shards 1..`b` of an `n`-way split, concatenated in batch order. */
  function ShardsUpTo<T>(xs: seq<T>, n: nat, b: nat): seq<T>
    requires n > 0
  {
    if b == 0 then [] else ShardsUpTo(xs, n, b - 1) + Stride(xs, b - 1, n)
  }

  /** Skipping one whole round of `n` positions drops the first `n` elements. */
  lemma {:induction false} StrideShift<T>(xs: seq<T>, s: nat, n: nat)
    requires n > 0 && |xs| >= n
    ensures Stride(xs, s + n, n) == Stride(xs[n..], s, n)
    decreases |xs| - s
  {
    var ys := xs[n..];
    if s + n < |xs| {
      StrideShift(xs, s + n, n);
      assert Stride(xs, s + n, n) == [xs[s + n]] + Stride(xs, s + n + n, n);
      assert Stride(ys, s, n) == [ys[s]] + Stride(ys, s + n, n);
    } else {
      assert Stride(xs, s + n, n) == [];
      assert Stride(ys, s, n) == [];
    }
  }

  /** On a list of at least `n` elements, shard `s + 1` starts with `xs[s]`. */
  lemma FirstRound<T>(xs: seq<T>, s: nat, n: nat)
    requires 0 <= s < n <= |xs|
    ensures Stride(xs, s, n) == [xs[s]] + Stride(xs[n..], s, n)
  {
    StrideShift(xs, s, n);
  }

  /** Shard `b` of a list of at least `n` elements: its head, then the rest. */
  lemma OwnShardLong<T>(xs: seq<T>, n: nat, b: nat)
    requires 0 < b <= n <= |xs|
    ensures multiset(Stride(xs, b - 1, n)) == multiset([xs[b - 1]]) + multiset(Stride(xs[n..], b - 1, n))
  {
    var head, tail := [xs[b - 1]], Stride(xs[n..], b - 1, n);
    assert Stride(xs, b - 1, n) == head + tail by {
      FirstRound(xs, b - 1, n);
    }
    assert multiset(head + tail) == multiset(head) + multiset(tail);
  }

  /** The first `b` shards are the first `b - 1` shards, then shard `b`. */
  lemma NextShard<T>(xs: seq<T>, n: nat, b: nat)
    requires 0 < b && 0 < n
    ensures multiset(ShardsUpTo(xs, n, b)) == multiset(ShardsUpTo(xs, n, b - 1)) + multiset(Stride(xs, b - 1, n))
  {
  }

  lemma Interchange<T>(a: multiset<T>, b: multiset<T>, c: multiset<T>, d: multiset<T>)
    ensures (a + b) + (c + d) == (a + c) + (b + d)
  {
  }

  lemma PrefixStep<T>(xs: seq<T>, b: nat)
    requires 0 < b <= |xs|
    ensures multiset(xs[..b]) == multiset(xs[..b - 1]) + multiset([xs[b - 1]])
  {
    assert xs[..b] == xs[..b - 1] + [xs[b - 1]];
  }

  /**
   * On a list of at least `n` elements the first `b` shards hold the first
   * `b` elements plus the first `b` shards of the rest after one round.
   */
  lemma {:induction false} ShardsUpToLong<T>(xs: seq<T>, n: nat, b: nat)
    requires 0 < n <= |xs| && b <= n
    ensures multiset(ShardsUpTo(xs, n, b)) == multiset(xs[..b]) + multiset(ShardsUpTo(xs[n..], n, b))
    decreases b
  {
    if b > 0 {
      var front := multiset(xs[..b - 1]);
      var later := multiset(ShardsUpTo(xs[n..], n, b - 1));
      var head := multiset([xs[b - 1]]);
      var tail := multiset(Stride(xs[n..], b - 1, n));
      calc {
        multiset(ShardsUpTo(xs, n, b));
        == { NextShard(xs, n, b); }
        multiset(ShardsUpTo(xs, n, b - 1)) + multiset(Stride(xs, b - 1, n));
        == { ShardsUpToLong(xs, n, b - 1); OwnShardLong(xs, n, b); }
        (front + later) + (head + tail);
        == { Interchange(front, later, head, tail); }
        (front + head) + (later + tail);
        == { PrefixStep(xs, b); NextShard(xs[n..], n, b); }
        multiset(xs[..b]) + multiset(ShardsUpTo(xs[n..], n, b));
      }
    }
  }

  /** With fewer than `n` elements every shard holds at most one, so the shards come in list order. */
  lemma {:induction false} ShardsUpToShort<T>(xs: seq<T>, n: nat, b: nat)
    requires 0 < n && |xs| < n && b <= n
    ensures ShardsUpTo(xs, n, b) == xs[..if b <= |xs| then b else |xs|]
    decreases b
  {
    if b > 0 {
      ShardsUpToShort(xs, n, b - 1);
      StrideOfShort(xs, n, b - 1);
      if b - 1 < |xs| {
        assert xs[..b] == xs[..b - 1] + [xs[b - 1]];
      }
    }
  }

  /** In a list shorter than the step, a slice holds at most its first element. */
  lemma StrideOfShort<T>(xs: seq<T>, n: nat, s: nat)
    requires 0 < n && |xs| < n
    ensures Stride(xs, s, n) == if s < |xs| then [xs[s]] else []
  {
    if s < |xs| {
      assert Stride(xs, s + n, n) == [];
    }
  }

  /**
   * The shards of batches 1..n, taken together, hold every element of the
   * list exactly as often as the list does: nothing lost, nothing repeated.
   */
  lemma {:induction false} ShardsPartition<T>(xs: seq<T>, n: nat)
    requires n > 0
    ensures multiset(ShardsUpTo(xs, n, n)) == multiset(xs)
    decreases |xs|
  {
    if |xs| < n {
      ShardsUpToShort(xs, n, n);
      assert xs[..|xs|] == xs;
    } else {
      ShardsPartition(xs[n..], n);
      PartitionRound(xs, n);
    }
  }

  /** If the shards of the list after its first round partition it, those of the whole list do. */
  lemma PartitionRound<T>(xs: seq<T>, n: nat)
    requires 0 < n <= |xs|
    requires multiset(ShardsUpTo(xs[n..], n, n)) == multiset(xs[n..])
    ensures multiset(ShardsUpTo(xs, n, n)) == multiset(xs)
  {
    ShardsUpToLong(xs, n, n);
    assert xs == xs[..n] + xs[n..];
  }

  /**
   * Position `i` of the list is in shard `i % n + 1`, at place `i / n`, and in
   * no other place of any shard: slot `k` of batch `b` holds position
   * `b - 1 + k * n`, which is `i` only for that batch and place.
   */
  lemma ShardOfPosition<T>(xs: seq<T>, n: nat, i: nat, b: int, k: nat)
    requires n > 0 && i < |xs| && 1 <= b <= n
    ensures var home := Stride(xs, i % n, n); i / n < |home| && home[i / n] == xs[i]
    ensures b - 1 + k * n == i <==> b == i % n + 1 && k == i / n
  {
    HomeShard(xs, n, i);
    if b - 1 + k * n == i {
      DivModUnique(i, n, b - 1, k);
    }
  }

  /** Position `i` is in shard `i % n + 1`, at place `i / n`. */
  lemma HomeShard<T>(xs: seq<T>, n: nat, i: nat)
    requires n > 0 && i < |xs|
    ensures i % n <= i
    ensures var home := Stride(xs, i % n, n); i / n < |home| && home[i / n] == xs[i]
  {
    assert i == i % n + (i / n) * n;
    MulGap(0, i / n, n);
    SlotIsAffine(i % n, n, i / n);
    StrideCovers(xs, i % n, n, i / n);
    StrideSlots(xs, i % n, n);
  }

  /** Record `i` belongs to the slice that starts at `i % n`. */
  lemma InHomeShard<T>(xs: seq<T>, n: nat, i: nat)
    requires n > 0 && i < |xs|
    ensures i % n <= i && xs[i] in Stride(xs, i % n, n)
  {
    HomeShard(xs, n, i);
    var home := Stride(xs, i % n, n);
    assert home[i / n] == xs[i];
  }

  /** A smaller factor `a < b` leaves at least one `n` of room: `a * n + n <= b * n`. */
  lemma {:induction false} MulGap(a: nat, b: nat, n: nat)
    ensures a < b ==> a * n + n <= b * n
    decreases b
  {
    if a < b - 1 {
      MulGap(a, b - 1, n);
      assert (b - 1) * n + n == b * n;
    } else if a == b - 1 {
      assert (b - 1) * n + n == b * n;
    }
  }

  /** Euclidean division has one quotient and remainder. */
  lemma DivModUnique(i: nat, n: nat, r: nat, q: nat)
    requires n > 0 && r < n && i == r + q * n
    ensures r == i % n && q == i / n
  {
    var q' := i / n;
    var r' := i % n;
    assert i == r' + q' * n;
    MulGap(q, q', n);
    MulGap(q', q, n);
  }

  // ---------------------------------------------------------------------
  // A stride takes each element at most once.

  /** A stride uses no element more often than the list holds it. */
  lemma {:induction false} StrideSubMultiset<T>(xs: seq<T>, start: nat, step: nat)
    requires step > 0
    ensures multiset(Stride(xs, start, step)) <= multiset(xs)
    decreases |xs| - start
  {
    if start < |xs| {
      StrideSubMultisetFrom(xs, start, step);
      assert xs == xs[..start] + xs[start..];
    }
  }

  lemma {:induction false} StrideSubMultisetFrom<T>(xs: seq<T>, start: nat, step: nat)
    requires step > 0 && start <= |xs|
    ensures multiset(Stride(xs, start, step)) <= multiset(xs[start..])
    decreases |xs| - start
  {
    if start < |xs| {
      var next := if start + step <= |xs| then start + step else |xs|;
      var later := Stride(xs, start + step, step);
      assert multiset(later) <= multiset(xs[next..]) by {
        if start + step <= |xs| {
          StrideSubMultisetFrom(xs, start + step, step);
        } else {
          assert later == [];
        }
      }
      SplitThree(xs, start, next);
      SubAdd(multiset([xs[start]]), multiset(later), multiset(xs[start + 1..next]), multiset(xs[next..]));
      assert Stride(xs, start, step) == [xs[start]] + later;
    }
  }

  lemma SplitThree<T>(xs: seq<T>, i: nat, j: nat)
    requires i < j <= |xs|
    ensures multiset(xs[i..]) == multiset([xs[i]]) + (multiset(xs[i + 1..j]) + multiset(xs[j..]))
  {
    assert xs[i..] == [xs[i]] + (xs[i + 1..j] + xs[j..]);
  }

  lemma SubAdd<T>(a: multiset<T>, b: multiset<T>, m: multiset<T>, c: multiset<T>)
    requires b <= c
    ensures a + b <= a + (m + c)
  {
  }

  /** Stepping by one from the front takes the whole list. */
  lemma {:induction false} StrideByOne<T>(xs: seq<T>, start: nat)
    requires start <= |xs|
    ensures Stride(xs, start, 1) == xs[start..]
    decreases |xs| - start
  {
    if start < |xs| {
      StrideByOne(xs, start + 1);
      assert xs[start..] == [xs[start]] + xs[start + 1..];
    }
  }
}
