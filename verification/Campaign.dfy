/**
 * The counterbalanced schedule of examples/benchmarks/run_campaign.py: every block
 * runs every treatment once, rotated block by block and reversed every other cycle.
 */
module Campaign {
  import opened Arithmetic

  datatype Row = Row(block: nat, position: nat, treatment: string)

  /** Which treatment block b of n treatments runs at a position. */
  function TreatmentAt(n: nat, block: nat, position: nat): (t: nat)
    requires position < n
    ensures t < n
  {
    var turned := (block % n + position) % n;
    if block / n % 2 == 0 then turned else n - 1 - turned
  }

  function Reversed(s: seq<string>): (r: seq<string>)
    ensures |r| == |s| && forall i :: 0 <= i < |r| ==> r[i] == s[|s| - 1 - i]
  {
    seq(|s|, i requires 0 <= i < |s| => s[|s| - 1 - i])
  }

  /** The rows in order: block b, position p is row b * n + p. */
  ghost predicate IsSchedule(rows: seq<Row>, treatments: seq<string>, count: nat)
    requires treatments != []
  {
    |rows| == count
    && forall i :: 0 <= i < count ==> RowAt(rows[i], treatments, i)
  }

  predicate RowAt(row: Row, treatments: seq<string>, i: nat)
    requires treatments != []
  {
    var n := |treatments|;
    DivMonotone(0, i, n);
    row == Row(i / n, i % n, treatments[TreatmentAt(n, i / n, i % n)])
  }

  lemma RotatedAt(treatments: seq<string>, block: nat, position: nat)
    requires treatments != [] && position < |treatments|
    ensures var n := |treatments|;
            var base := if block / n % 2 == 0 then treatments else Reversed(treatments);
            (base[block % n..] + base[..block % n])[position] == treatments[TreatmentAt(n, block, position)]
  {
    var n := |treatments|;
    var offset := block % n;
    if offset + position < n {
      DivUnique(offset + position, n, 0, offset + position);
    } else {
      DivUnique(offset + position, n, 1, offset + position - n);
    }
  }

  method BuildSchedule(treatments: seq<string>, blocks: nat) returns (schedule: seq<Row>)
    requires treatments != []
    ensures IsSchedule(schedule, treatments, blocks * |treatments|)
  {
    hide RowAt, TreatmentAt;
    var n := |treatments|;
    schedule := [];
    for block := 0 to blocks
      invariant IsSchedule(schedule, treatments, block * n)
    {
      var base := if block / n % 2 == 0 then treatments else Reversed(treatments);
      var offset := block % n;
      var order := base[offset..] + base[..offset];
      for position := 0 to n
        invariant IsSchedule(schedule, treatments, block * n + position)
      {
        RotatedAt(treatments, block, position);
        NextRow(treatments, block, position);
        schedule := schedule + [Row(block, position, order[position])];
      }
      assert (block + 1) * n == block * n + n;
    }
  }

  lemma NextRow(treatments: seq<string>, block: nat, position: nat)
    requires treatments != [] && position < |treatments|
    ensures RowAt(Row(block, position, treatments[TreatmentAt(|treatments|, block, position)]), treatments,
                  block * |treatments| + position)
  {
    DivUnique(block * |treatments| + position, |treatments|, block, position);
  }

  // ----- each block is a permutation -----

  /** Where a block runs treatment t. */
  function PositionOf(n: nat, block: nat, t: nat): (p: nat)
    requires t < n
    ensures p < n
  {
    var offset := block % n;
    var wanted := if block / n % 2 == 0 then t else n - 1 - t;
    if wanted >= offset then wanted - offset else wanted - offset + n
  }

  /** Position and treatment determine each other: no treatment is missing or repeated in a block. */
  lemma BlockIsPermutation(n: nat, block: nat, t: nat, position: nat)
    requires t < n && position < n
    ensures TreatmentAt(n, block, position) == t <==> position == PositionOf(n, block, t)
  {
    var offset := block % n;
    if offset + position < n {
      DivUnique(offset + position, n, 0, offset + position);
    } else {
      DivUnique(offset + position, n, 1, offset + position - n);
    }
  }

  // ----- counting blocks -----

  function CountTrue(f: nat -> bool, n: nat): nat {
    if n == 0 then 0 else CountTrue(f, n - 1) + if f(n - 1) then 1 else 0
  }

  lemma {:induction false} CountSplit(f: nat -> bool, g: nat -> bool, m: nat, n: nat)
    requires forall i: nat :: i < n ==> f(m + i) == g(i)
    ensures CountTrue(f, m + n) == CountTrue(f, m) + CountTrue(g, n)
  {
    if n > 0 {
      CountSplit(f, g, m, n - 1);
      assert m + n - 1 == m + (n - 1);
    }
  }

  /** A predicate true exactly on a range is true as often as the range is long. */
  lemma {:induction false} CountRange(f: nat -> bool, lo: nat, hi: nat, n: nat)
    requires lo <= hi && forall i: nat :: i < n ==> (f(i) <==> lo <= i < hi)
    ensures CountTrue(f, n) == if n <= lo then 0 else if n <= hi then n - lo else hi - lo
  {
    if n > 0 {
      CountRange(f, lo, hi, n - 1);
    }
  }

  lemma {:induction false} CountOutside(f: nat -> bool, lo: nat, hi: nat, n: nat)
    requires lo <= hi && forall i: nat :: i < n ==> (f(i) <==> !(lo <= i < hi))
    ensures CountTrue(f, n) == if n <= lo then n else if n <= hi then lo else n - (hi - lo)
  {
    if n > 0 {
      CountOutside(f, lo, hi, n - 1);
    }
  }

  /** Block number i of cycle pair k. */
  lemma Coordinates(n: nat, k: nat, half: nat, offset: nat)
    requires offset < n && half < 2
    ensures var block := 2 * n * k + half * n + offset; block / n % 2 == half && block % n == offset
  {
    var block := 2 * n * k + half * n + offset;
    assert block == n * (2 * k + half) + offset;
    DivUnique(block, n, 2 * k + half, offset);
    DivUnique(2 * k + half, 2, k, half);
  }

  /** Positions in the forward and the reversed cycle of a pair. */
  lemma PositionInHalf(n: nat, k: nat, half: nat, i: nat, t: nat)
    requires t < n && i < n && half < 2
    ensures var wanted := if half == 0 then t else n - 1 - t;
            PositionOf(n, 2 * n * k + (if half == 0 then i else n + i), t)
            == if wanted >= i then wanted - i else wanted - i + n
  {
    Coordinates(n, k, half, i);
    if half == 0 {
      assert 2 * n * k + 0 * n + i == 2 * n * k + i;
    } else {
      assert 2 * n * k + 1 * n + i == 2 * n * k + (n + i);
    }
  }

  /** The offset at which treatment t stands at a position in a forward cycle. */
  function OffsetFor(n: nat, t: nat, position: nat): (o: nat)
    requires t < n && position < n
    ensures o < n
  {
    if t >= position then t - position else t - position + n
  }

  function StandsAt(n: nat, k: nat, t: nat, position: nat): nat -> bool
    requires t < n && position < n
  {
    (i: nat) => PositionOf(n, 2 * n * k + i, t) == position
  }

  lemma StandsInHalf(n: nat, k: nat, t: nat, position: nat, half: nat, i: nat)
    requires t < n && position < n && half < 2 && i < n
    ensures StandsAt(n, k, t, position)(if half == 0 then i else n + i)
            <==> i == OffsetFor(n, if half == 0 then t else n - 1 - t, position)
  {
    PositionInHalf(n, k, half, i, t);
    hide PositionOf;
  }

  /** Over each aligned run of 2n blocks every treatment takes every position exactly twice. */
  lemma StandsTwice(n: nat, k: nat, t: nat, position: nat)
    requires t < n && position < n
    ensures CountTrue(StandsAt(n, k, t, position), 2 * n) == 2
  {
    var f := StandsAt(n, k, t, position);
    var second := (i: nat) => f(n + i);
    var a, b := OffsetFor(n, t, position), OffsetFor(n, n - 1 - t, position);
    forall i: nat | i < n ensures f(i) <==> a <= i < a + 1 {
      StandsInHalf(n, k, t, position, 0, i);
    }
    forall i: nat | i < n ensures second(i) <==> b <= i < b + 1 {
      StandsInHalf(n, k, t, position, 1, i);
    }
    CountRange(f, a, a + 1, n);
    CountRange(second, b, b + 1, n);
    CountSplit(f, second, n, n);
  }

  // ----- order of pairs -----

  function Precedes(n: nat, k: nat, t: nat, u: nat): nat -> bool
    requires t < n && u < n
  {
    (i: nat) => PositionOf(n, 2 * n * k + i, t) < PositionOf(n, 2 * n * k + i, u)
  }

  /** In a forward cycle u overtakes t, t < u, exactly at offsets t + 1 to u; a reversed cycle mirrors that. */
  lemma PrecedesInHalf(n: nat, k: nat, t: nat, u: nat, half: nat, i: nat)
    requires t < u < n && half < 2 && i < n
    ensures half == 0 ==> (Precedes(n, k, t, u)(i) <==> !(t + 1 <= i < u + 1))
    ensures half == 1 ==> (Precedes(n, k, t, u)(n + i) <==> n - u <= i < n - t)
  {
    PositionInHalf(n, k, half, i, t);
    PositionInHalf(n, k, half, i, u);
    hide PositionOf;
  }

  lemma EarlierFirst(n: nat, k: nat, t: nat, u: nat)
    requires t < u < n
    ensures CountTrue(Precedes(n, k, t, u), 2 * n) == n
  {
    var f := Precedes(n, k, t, u);
    var second := (i: nat) => f(n + i);
    forall i: nat | i < n ensures f(i) <==> !(t + 1 <= i < u + 1) {
      PrecedesInHalf(n, k, t, u, 0, i);
    }
    forall i: nat | i < n ensures second(i) <==> n - u <= i < n - t {
      PrecedesInHalf(n, k, t, u, 1, i);
    }
    CountOutside(f, t + 1, u + 1, n);
    CountRange(second, n - u, n - t, n);
    CountSplit(f, second, n, n);
  }

  lemma {:induction false} CountComplement(f: nat -> bool, g: nat -> bool, n: nat)
    requires forall i: nat :: i < n ==> f(i) == !g(i)
    ensures CountTrue(f, n) + CountTrue(g, n) == n
  {
    if n > 0 {
      CountComplement(f, g, n - 1);
    }
  }

  /** Two treatments of a block never share a position. */
  lemma PositionsDiffer(n: nat, block: nat, t: nat, u: nat)
    requires t < n && u < n && t != u
    ensures PositionOf(n, block, t) != PositionOf(n, block, u)
  {
    BlockIsPermutation(n, block, t, PositionOf(n, block, t));
    BlockIsPermutation(n, block, u, PositionOf(n, block, u));
  }

  /** Over each aligned run of 2n blocks, of any two treatments each precedes the other exactly n times. */
  lemma PrecedesHalfTheTime(n: nat, k: nat, t: nat, u: nat)
    requires t < n && u < n && t != u
    ensures CountTrue(Precedes(n, k, t, u), 2 * n) == n
  {
    if t < u {
      EarlierFirst(n, k, t, u);
    } else {
      EarlierFirst(n, k, u, t);
      var f, g := Precedes(n, k, t, u), Precedes(n, k, u, t);
      forall i: nat | i < 2 * n ensures f(i) == !g(i) {
        PositionsDiffer(n, 2 * n * k + i, t, u);
      }
      CountComplement(f, g, 2 * n);
    }
  }
}
