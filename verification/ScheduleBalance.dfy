/**
 * The balance of the schedule examples/benchmarks/run_campaign.py builds, counted
 * over its rows.
 */
module ScheduleBalance {
  import opened Arithmetic
  import opened Campaign

  /** No two treatments share a name. */
  predicate DistinctNames(treatments: seq<string>) {
    forall i, j :: 0 <= i < j < |treatments| ==> treatments[i] != treatments[j]
  }

  /** The row of a block and a position. */
  lemma RowOf(rows: seq<Row>, treatments: seq<string>, blocks: nat, block: nat, position: nat)
    requires treatments != [] && IsSchedule(rows, treatments, blocks * |treatments|)
    requires block < blocks && position < |treatments|
    ensures var n := |treatments|;
            && block * n + position < |rows|
            && rows[block * n + position] == Row(block, position, treatments[TreatmentAt(n, block, position)])
  {
    var n := |treatments|;
    MulStep(n, block, blocks);
    DivUnique(block * n + position, n, block, position);
    assert RowAt(rows[block * n + position], treatments, block * n + position);
  }

  /** Treatment t has its name at exactly one position of a block. */
  lemma NameAt(treatments: seq<string>, block: nat, position: nat, t: nat)
    requires DistinctNames(treatments) && t < |treatments| && position < |treatments|
    ensures treatments[TreatmentAt(|treatments|, block, position)] == treatments[t]
            <==> position == PositionOf(|treatments|, block, t)
  {
    BlockIsPermutation(|treatments|, block, t, position);
    hide TreatmentAt, PositionOf;
  }

  // ----- every position twice -----

  /** The rows that run a treatment at a position. */
  function CountRows(rows: seq<Row>, position: nat, treatment: string): nat {
    if rows == [] then 0
    else
      var last := rows[|rows| - 1];
      CountRows(rows[..|rows| - 1], position, treatment)
      + if last.position == position && last.treatment == treatment then 1 else 0
  }

  lemma {:induction false} CountConcat(a: seq<Row>, b: seq<Row>, position: nat, treatment: string)
    ensures CountRows(a + b, position, treatment) == CountRows(a, position, treatment) + CountRows(b, position, treatment)
  {
    if b == [] {
      assert a + b == a;
    } else {
      var last := |b| - 1;
      assert (a + b)[..|a + b| - 1] == a + b[..last];
      CountConcat(a, b[..last], position, treatment);
    }
  }

  /** Rows of a block from its start on: row j has position j. */
  predicate InOrder(rows: seq<Row>) {
    forall j :: 0 <= j < |rows| ==> rows[j].position == j
  }

  lemma {:induction false} CountInOrder(rows: seq<Row>, position: nat, treatment: string)
    requires InOrder(rows)
    ensures CountRows(rows, position, treatment)
            == if position < |rows| && rows[position].treatment == treatment then 1 else 0
  {
    if rows != [] {
      CountInOrder(rows[..|rows| - 1], position, treatment);
    }
  }

  /** The rows of m blocks from block `first` on. */
  function BlockRows(rows: seq<Row>, n: nat, first: nat, m: nat): seq<Row>
    requires first * n <= first * n + m * n <= |rows|
  {
    rows[first * n..first * n + m * n]
  }

  lemma BlocksFit(first: nat, m: nat, blocks: nat, n: nat)
    requires first + m <= blocks
    ensures first * n + m * n <= blocks * n
  {
    MulMonotone(n, first + m, blocks);
  }

  /** One block runs a treatment at a position once or not at all. */
  lemma CountBlock(rows: seq<Row>, treatments: seq<string>, blocks: nat, block: nat, t: nat, position: nat)
    requires treatments != [] && IsSchedule(rows, treatments, blocks * |treatments|) && DistinctNames(treatments)
    requires block < blocks && t < |treatments| && position < |treatments|
    ensures block * |treatments| + |treatments| <= |rows|
    ensures CountRows(rows[block * |treatments|..block * |treatments| + |treatments|], position, treatments[t])
            == if PositionOf(|treatments|, block, t) == position then 1 else 0
  {
    var n := |treatments|;
    MulStep(n, block, blocks);
    var mine := rows[block * n..block * n + n];
    forall j | 0 <= j < n ensures mine[j] == Row(block, j, treatments[TreatmentAt(n, block, j)]) {
      RowOf(rows, treatments, blocks, block, j);
    }
    CountInOrder(mine, position, treatments[t]);
    NameAt(treatments, block, position, t);
  }

  /** `f` says which blocks from `first` on run the treatment at the position. */
  lemma {:induction false} CountBlocks(rows: seq<Row>, treatments: seq<string>, blocks: nat, first: nat, m: nat,
                                       t: nat, position: nat, f: nat -> bool)
    requires treatments != [] && IsSchedule(rows, treatments, blocks * |treatments|) && DistinctNames(treatments)
    requires t < |treatments| && position < |treatments| && first + m <= blocks
    requires forall i: nat :: i < m ==> f(i) == (PositionOf(|treatments|, first + i, t) == position)
    ensures first * |treatments| + m * |treatments| <= |rows|
    ensures CountRows(BlockRows(rows, |treatments|, first, m), position, treatments[t]) == CountTrue(f, m)
  {
    var n := |treatments|;
    hide IsSchedule, PositionOf, DistinctNames;
    BlocksFit(first, m, blocks, n);
    ScheduleSize(rows, treatments, blocks);
    if m > 0 {
      CountBlocks(rows, treatments, blocks, first, m - 1, t, position, f);
      CountBlock(rows, treatments, blocks, first + (m - 1), t, position);
      NextBlock(rows, n, first, m);
      hide BlockRows, CountRows;
      var start := (first + (m - 1)) * n;
      CountConcat(BlockRows(rows, n, first, m - 1), rows[start..start + n], position, treatments[t]);
    }
  }

  lemma ScheduleSize(rows: seq<Row>, treatments: seq<string>, blocks: nat)
    requires treatments != [] && IsSchedule(rows, treatments, blocks * |treatments|)
    ensures |rows| == blocks * |treatments|
  {
  }

  lemma NextBlock(rows: seq<Row>, n: nat, first: nat, m: nat)
    requires m > 0 && first * n + m * n <= |rows|
    ensures (m - 1) * n + n == m * n && (first + (m - 1)) * n == first * n + (m - 1) * n
    ensures BlockRows(rows, n, first, m)
            == BlockRows(rows, n, first, m - 1) + rows[(first + (m - 1)) * n..(first + (m - 1)) * n + n]
  {
    Rows(first, m - 1, n);
    SliceJoin(rows, first * n, first * n + (m - 1) * n, first * n + m * n);
  }

  lemma Rows(first: nat, m: nat, n: nat)
    ensures (first + m) * n == first * n + m * n && (m + 1) * n == m * n + n
  {
  }

  lemma SliceJoin(rows: seq<Row>, a: nat, b: nat, c: nat)
    requires a <= b <= c <= |rows|
    ensures rows[a..c] == rows[a..b] + rows[b..c]
  {
  }

  /**
   * In the rows of each aligned run of 2n blocks every treatment takes every position
   * exactly twice.
   */
  lemma EveryPositionTwice(rows: seq<Row>, treatments: seq<string>, blocks: nat, k: nat, t: nat, position: nat)
    requires treatments != [] && IsSchedule(rows, treatments, blocks * |treatments|) && DistinctNames(treatments)
    requires t < |treatments| && position < |treatments|
    requires 2 * |treatments| * k + 2 * |treatments| <= blocks
    ensures var n := |treatments|;
            && 2 * n * k * n + 2 * n * n <= |rows|
            && CountRows(BlockRows(rows, n, 2 * n * k, 2 * n), position, treatments[t]) == 2
  {
    var n := |treatments|;
    var f := StandsAt(n, k, t, position);
    CountBlocks(rows, treatments, blocks, 2 * n * k, 2 * n, t, position, f);
    StandsTwice(n, k, t, position);
  }

  // ----- every pair balanced -----

  /** Some row of the block for the first treatment comes before one for the second. */
  ghost predicate RunsBefore(rows: seq<Row>, block: nat, first: string, second: string) {
    exists i, j :: 0 <= i < j < |rows| && IsRun(rows[i], block, first) && IsRun(rows[j], block, second)
  }

  predicate IsRun(row: Row, block: nat, treatment: string) {
    row.block == block && row.treatment == treatment
  }

  /** A row of the schedule for a block and a treatment is the one at its position. */
  lemma RunIndex(rows: seq<Row>, treatments: seq<string>, blocks: nat, block: nat, t: nat, i: nat)
    requires treatments != [] && IsSchedule(rows, treatments, blocks * |treatments|) && DistinctNames(treatments)
    requires block < blocks && t < |treatments| && i < |rows|
    ensures IsRun(rows[i], block, treatments[t]) <==> i == block * |treatments| + PositionOf(|treatments|, block, t)
  {
    var n := |treatments|;
    RowColumn(i, n, blocks);
    RowOf(rows, treatments, blocks, i / n, i % n);
    NameAt(treatments, i / n, i % n, t);
    if i == block * n + PositionOf(n, block, t) {
      DivUnique(i, n, block, PositionOf(n, block, t));
    }
  }

  lemma OnlyRuns(rows: seq<Row>, block: nat, first: string, second: string, i: nat, j: nat)
    requires i < |rows| && j < |rows|
    requires forall a :: 0 <= a < |rows| ==> (IsRun(rows[a], block, first) <==> a == i) && (IsRun(rows[a], block, second) <==> a == j)
    ensures RunsBefore(rows, block, first, second) <==> i < j
  {
    hide IsRun;
    assert IsRun(rows[i], block, first) && IsRun(rows[j], block, second);
  }

  lemma RunsBeforeExactly(rows: seq<Row>, treatments: seq<string>, blocks: nat, block: nat, t: nat, u: nat)
    requires treatments != [] && IsSchedule(rows, treatments, blocks * |treatments|) && DistinctNames(treatments)
    requires block < blocks && t < |treatments| && u < |treatments|
    ensures RunsBefore(rows, block, treatments[t], treatments[u])
            <==> PositionOf(|treatments|, block, t) < PositionOf(|treatments|, block, u)
  {
    hide *;
    var i := RunPlace(rows, treatments, blocks, block, t);
    var j := RunPlace(rows, treatments, blocks, block, u);
    OnlyRuns(rows, block, treatments[t], treatments[u], i, j);
  }

  /** The one row of a block that runs a treatment. */
  lemma RunPlace(rows: seq<Row>, treatments: seq<string>, blocks: nat, block: nat, t: nat) returns (i: nat)
    requires treatments != [] && IsSchedule(rows, treatments, blocks * |treatments|) && DistinctNames(treatments)
    requires block < blocks && t < |treatments|
    ensures i == block * |treatments| + PositionOf(|treatments|, block, t) < |rows|
    ensures forall a :: 0 <= a < |rows| ==> (IsRun(rows[a], block, treatments[t]) <==> a == i)
  {
    hide *;
    i := block * |treatments| + PositionOf(|treatments|, block, t);
    RowOf(rows, treatments, blocks, block, PositionOf(|treatments|, block, t));
    forall a | 0 <= a < |rows| ensures IsRun(rows[a], block, treatments[t]) <==> a == i {
      RunIndex(rows, treatments, blocks, block, t, a);
    }
  }

  ghost function RunsFirst(rows: seq<Row>, base: nat, first: string, second: string): nat -> bool {
    (i: nat) => RunsBefore(rows, base + i, first, second)
  }

  lemma {:induction false} CountSame(f: nat -> bool, g: nat -> bool, n: nat)
    requires forall i: nat :: i < n ==> f(i) == g(i)
    ensures CountTrue(f, n) == CountTrue(g, n)
  {
    if n > 0 {
      CountSame(f, g, n - 1);
    }
  }

  /**
   * Of any two treatments each runs before the other in exactly n blocks of each aligned
   * run of 2n.
   */
  lemma EveryPairBalanced(rows: seq<Row>, treatments: seq<string>, blocks: nat, k: nat, t: nat, u: nat)
    requires treatments != [] && IsSchedule(rows, treatments, blocks * |treatments|) && DistinctNames(treatments)
    requires t < |treatments| && u < |treatments| && t != u
    requires 2 * |treatments| * k + 2 * |treatments| <= blocks
    ensures var n := |treatments|;
            CountTrue(RunsFirst(rows, 2 * n * k, treatments[t], treatments[u]), 2 * n) == n
  {
    var n := |treatments|;
    var f, g := RunsFirst(rows, 2 * n * k, treatments[t], treatments[u]), Precedes(n, k, t, u);
    forall i: nat | i < 2 * n ensures f(i) == g(i) {
      RunsBeforeExactly(rows, treatments, blocks, 2 * n * k + i, t, u);
    }
    CountSame(f, g, 2 * n);
    PrecedesHalfTheTime(n, k, t, u);
  }
}
