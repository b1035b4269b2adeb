/**
 * What the round identifiers and the measured durations of a benchmark
 * (src/cuphoton/core/benchmark.py) are: every planned round has an identifier of its
 * own, and the report lists the durations of the measured rounds in their order.
 */
module BenchmarkLaws {
  import opened Audit
  import opened BenchmarkReport
  import opened Decimals

  /** Entry i of the durations is that of measured round i, which follows the warmups. */
  lemma {:induction false} MeasuredPrefix(o: BenchmarkOptions, receipts: seq<RoundReceipt>, n: nat, i: nat)
    requires n <= |receipts| == |Rounds(o)| && AllReceiptsGood(receipts, o) && o.warmupRounds + i < n
    ensures i < |MeasuredUpTo(receipts, n)| && MeasuredUpTo(receipts, n)[i] == receipts[o.warmupRounds + i].batchWall
  {
    MeasuredCount(o, receipts, n);
    MeasuredCount(o, receipts, n - 1);
    hide RoundId;
    if o.warmupRounds + i < n - 1 {
      MeasuredPrefix(o, receipts, n - 1, i);
    } else {
      assert ReceiptGood(receipts, Rounds(o), n - 1);
    }
  }

  lemma MeasuredInOrder(o: BenchmarkOptions, receipts: seq<RoundReceipt>)
    requires |receipts| == |Rounds(o)| && AllReceiptsGood(receipts, o)
    ensures var measured := MeasuredUpTo(receipts, |receipts|);
            && |measured| == o.measureRounds
            && forall i :: 0 <= i < |measured| ==> measured[i] == receipts[o.warmupRounds + i].batchWall
  {
    MeasuredCount(o, receipts, |receipts|);
    forall i | 0 <= i < o.measureRounds
      ensures MeasuredUpTo(receipts, |receipts|)[i] == receipts[o.warmupRounds + i].batchWall
    {
      MeasuredPrefix(o, receipts, |receipts|, i);
    }
  }

  /** Four digits at least, zeros in front, that stand for the index. */
  lemma PaddedReads(index: nat)
    ensures |Padded(index)| >= 4 && Value(Padded(index)) == index
    ensures forall i :: 0 <= i < |Padded(index)| ==> IsDigit(Padded(index)[i])
    ensures |Padded(index)| > 4 ==> Padded(index)[0] != '0'
  {
    DigitsRead(index);
    hide Digits, Value;
    var digits := Digits(index);
    if |digits| < 4 {
      LeadingZeros(4 - |digits|, digits);
    } else if index == 0 {
      ZeroIsShort();
    }
  }

  lemma ZeroIsShort()
    ensures |Digits(0)| == 1
  {
  }

  /** "warmup-0003": the phase, a dash, the padded index. */
  lemma RoundIdReads(r: BenchmarkRound)
    ensures var name := if r.phase == Warmup then "warmup" else "measure";
            && |RoundId(r)| >= |name| + 5 && RoundId(r)[..|name| + 1] == name + "-"
            && Value(RoundId(r)[|name| + 1..]) == r.index
  {
    var name := if r.phase == Warmup then "warmup" else "measure";
    PaddedReads(r.index);
    hide Padded, Value;
    assert RoundId(r) == (name + "-") + Padded(r.index);
  }

  /** Different rounds have different identifiers, so different directories. */
  lemma RoundIdsDiffer(a: BenchmarkRound, b: BenchmarkRound)
    requires RoundId(a) == RoundId(b)
    ensures a == b
  {
    RoundIdReads(a);
    RoundIdReads(b);
    hide RoundId, Value;
    assert RoundId(a)[..7][0] == if a.phase == Warmup then 'w' else 'm';
    assert RoundId(b)[..7][0] == if b.phase == Warmup then 'w' else 'm';
  }
}
