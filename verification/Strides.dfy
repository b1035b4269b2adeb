/**
 * Work split over threads by stride, and the reductions that add their results:
 * the shared-memory tree and the warp shuffle of
 * src/cuphoton/xbeam/cuda_front.py.
 */
module Strides {
  import opened Arithmetic
  import opened Threads

  /** f(0) + ... + f(n - 1). */
  function Total(f: nat -> int, n: nat): int {
    if n == 0 then 0 else Total(f, n - 1) + f(n - 1)
  }

  /** The part of the total at indices t, t + m, t + 2m, ... */
  function Strided(f: nat -> int, n: nat, t: nat, m: nat): int
    requires m > 0
  {
    if n == 0 then 0 else Strided(f, n - 1, t, m) + if (n - 1) % m == t then f(n - 1) else 0
  }

  /** The first n values added up. */
  function SumFirst(v: seq<int>, n: nat): int
    requires n <= |v|
  {
    if n == 0 then 0 else SumFirst(v, n - 1) + v[n - 1]
  }

  lemma {:induction false} SumFirstUpdate(v: seq<int>, n: nat, k: nat, x: int)
    requires k < n <= |v|
    ensures SumFirst(v[k := x], n) == SumFirst(v, n) - v[k] + x
  {
    if k < n - 1 {
      SumFirstUpdate(v, n - 1, k, x);
    } else {
      SumFirstSame(v, v[k := x], n - 1);
    }
  }

  lemma {:induction false} SumFirstSame(v: seq<int>, w: seq<int>, n: nat)
    requires n <= |v| && n <= |w| && forall i :: 0 <= i < n ==> v[i] == w[i]
    ensures SumFirst(v, n) == SumFirst(w, n)
  {
    if n > 0 {
      SumFirstSame(v, w, n - 1);
    }
  }

  function StridedSums(f: nat -> int, n: nat, m: nat): (r: seq<int>)
    requires m > 0
    ensures |r| == m
  {
    seq(m, t requires 0 <= t < m => Strided(f, n, t, m))
  }

  /** m threads with stride m together add every term once. */
  lemma {:induction false} StridesCover(f: nat -> int, n: nat, m: nat)
    requires m > 0
    ensures SumFirst(StridedSums(f, n, m), m) == Total(f, n)
  {
    if n == 0 {
      ZeroSum(StridedSums(f, 0, m), m);
    } else {
      StridesCover(f, n - 1, m);
      var before := StridedSums(f, n - 1, m);
      var k := (n - 1) % m;
      assert StridedSums(f, n, m) == before[k := before[k] + f(n - 1)];
      SumFirstUpdate(before, m, k, before[k] + f(n - 1));
    }
  }

  lemma {:induction false} ZeroSum(v: seq<int>, n: nat)
    requires n <= |v| && forall i :: 0 <= i < n ==> v[i] == 0
    ensures SumFirst(v, n) == 0
  {
    if n > 0 {
      ZeroSum(v, n - 1);
    }
  }

  /** Between j and j + m no index belongs to the thread of j. */
  lemma OtherThreads(j: nat, i: nat, m: nat)
    requires m > 0 && j < i < j + m
    ensures i % m != j % m
  {
    if i % m == j % m {
      assert i == m * (i / m) + j % m && j == m * (j / m) + j % m;
      MulStep(m, j / m, i / m);
    }
  }

  /** From one index of a thread to its next only that index adds anything. */
  lemma {:induction false} StridedStep(f: nat -> int, j: nat, hi: nat, t: nat, m: nat)
    requires m > 0 && j % m == t && j < hi <= j + m
    ensures Strided(f, hi, t, m) == Strided(f, j, t, m) + f(j)
    decreases hi
  {
    if hi > j + 1 {
      OtherThreads(j, hi - 1, m);
      StridedStep(f, j, hi - 1, t, m);
    }
  }

  /** Before its first index a thread adds nothing. */
  lemma {:induction false} StridedStart(f: nat -> int, hi: nat, t: nat, m: nat)
    requires m > 0 && hi <= t < m
    ensures Strided(f, hi, t, m) == 0
  {
    if hi > 0 {
      StridedStart(f, hi - 1, t, m);
      DivUnique(hi - 1, m, 0, hi - 1);
    }
  }

  lemma NextIndex(j: nat, m: nat)
    requires m > 0
    ensures (j + m) % m == j % m
  {
    DivUnique(j + m, m, j / m + 1, j % m);
  }

  // ----- adding up -----

  /** Adding the upper half onto the lower keeps the sum. */
  lemma {:induction false} FoldHalf(v: seq<int>, w: seq<int>, half: nat, n: nat)
    requires n <= half && 2 * half <= |v| && n <= |w|
    requires forall t :: 0 <= t < half && t < |w| ==> w[t] == v[t] + v[t + half]
    ensures SumFirst(w, n) + SumFirst(v, half) == SumFirst(v, n) + SumFirst(v, half + n)
  {
    if n > 0 {
      FoldHalf(v, w, half, n - 1);
    }
  }

  predicate Halving(stride: int) {
    stride in {128, 64, 32, 16, 8, 4, 2, 1, 0}
  }

  /** How many leading values still hold the sum before a round with this stride. */
  function Width(stride: nat): nat {
    if stride == 0 then 1 else 2 * stride
  }

  function TreeNext(v: seq<int>, stride: nat): (w: seq<int>)
    requires 2 * stride <= |v|
    ensures |w| == |v|
    ensures forall t :: 0 <= t < |v| ==> w[t] == if t < stride then v[t] + v[t + stride] else v[t]
  {
    seq(|v|, t requires 0 <= t < |v| => if t < stride then v[t] + v[t + stride] else v[t])
  }

  /** One round: threads below stride, in any order. */
  method TreeRound(counts: array<int>, stride: nat)
    requires 2 * stride <= counts.Length
    modifies counts
    ensures counts[..] == TreeNext(old(counts[..]), stride)
  {
    ghost var before := counts[..];
    ghost var after := TreeNext(before, stride);
    hide TreeNext;
    var pending := AllThreads(stride);
    while pending != {}
      invariant forall t :: t in pending ==> 0 <= t < stride
      invariant forall t :: 0 <= t < counts.Length ==> counts[t] == if t in pending then before[t] else after[t]
      decreases pending
    {
      var thread: int :| thread in pending;
      assert counts[thread] == before[thread] && counts[thread + stride] == before[thread + stride];
      counts[thread] := counts[thread] + counts[thread + stride];
      pending := pending - {thread};
    }
  }

  /** The shared-memory reduction of 256 counts leaves their sum in the first. */
  method TreeReduce(counts: array<int>)
    requires counts.Length == 256
    modifies counts
    ensures counts[0] == old(SumFirst(counts[..], 256))
  {
    var stride := 128;
    while stride > 0
      invariant Halving(stride)
      invariant SumFirst(counts[..], Width(stride)) == old(SumFirst(counts[..], 256))
    {
      FoldHalf(counts[..], TreeNext(counts[..], stride), stride, stride);
      TreeRound(counts, stride);
      stride := stride / 2;
    }
    assert SumFirst(counts[..], 1) == counts[0];
  }

  /** __shfl_down_sync over a full warp: a lane past the end reads its own value. */
  function ShuffleDown(lanes: seq<int>, lane: nat, offset: nat): int
    requires lane < |lanes|
  {
    if lane + offset < |lanes| then lanes[lane + offset] else lanes[lane]
  }

  /** The shuffle reduction of one warp. */
  method WarpReduce(lanes: seq<int>) returns (total: int)
    requires |lanes| == 32
    ensures total == SumFirst(lanes, 32)
  {
    var current := lanes;
    var offset := 16;
    while offset > 0
      invariant |current| == 32 && Halving(offset) && offset <= 16
      invariant SumFirst(current, Width(offset)) == SumFirst(lanes, 32)
    {
      var next := seq(32, lane requires 0 <= lane < 32 => current[lane] + ShuffleDown(current, lane, offset));
      FoldHalf(current, next, offset, offset);
      current := next;
      offset := offset / 2;
    }
    total := current[0];
    assert SumFirst(current, 1) == current[0];
  }

  lemma {:induction false} SumFirstSplit(v: seq<int>, n: nat, m: nat)
    requires n + m <= |v|
    ensures SumFirst(v, n + m) == SumFirst(v, n) + SumFirst(v[n..], m)
  {
    if m > 0 {
      SumFirstSplit(v, n, m - 1);
    }
  }

  function Terms(counts: seq<int>): nat -> int {
    (i: nat) => if i < |counts| then counts[i] else 0
  }

  /** What one of 64 threads adds before the shuffles. */
  method StridedSum(counts: seq<int>, thread: nat) returns (total: int)
    requires thread < 64
    ensures total == Strided(Terms(counts), |counts|, thread, 64)
  {
    hide Strided;
    ghost var f := Terms(counts);
    total := 0;
    var chunk := thread;
    StridedStart(f, MinNat(chunk, |counts|), thread, 64);
    while chunk < |counts|
      invariant chunk % 64 == thread
      invariant total == Strided(f, MinNat(chunk, |counts|), thread, 64)
    {
      total := total + counts[chunk];
      StridedStep(f, chunk, MinNat(chunk + 64, |counts|), thread, 64);
      chunk := chunk + 64;
    }
  }

  function MinNat(a: nat, b: nat): nat { if a <= b then a else b }

  /** finish_front_weights up to the division: two warps of strided sums. */
  method AddChunkCounts(counts: seq<int>) returns (total: int)
    ensures total == SumFirst(counts, |counts|)
  {
    ghost var f := Terms(counts);
    var totals: seq<int> := [];
    for thread := 0 to 64
      invariant |totals| == thread
      invariant forall t :: 0 <= t < thread ==> totals[t] == Strided(f, |counts|, t, 64)
    {
      var mine := StridedSum(counts, thread);
      totals := totals + [mine];
    }
    assert totals == StridedSums(f, |counts|, 64);
    StridesCover(f, |counts|, 64);
    TotalOfCounts(counts, |counts|);
    var low := WarpReduce(totals[..32]);
    var high := WarpReduce(totals[32..]);
    SumFirstSplit(totals, 32, 32);
    SumFirstSame(totals, totals[..32], 32);
    total := low + high;
  }

  lemma {:induction false} TotalOfCounts(counts: seq<int>, n: nat)
    requires n <= |counts|
    ensures Total(Terms(counts), n) == SumFirst(counts, n)
  {
    if n > 0 {
      TotalOfCounts(counts, n - 1);
    }
  }
}
