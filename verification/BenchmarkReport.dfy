/**
 * Planned rounds and the report over them (src/cuphoton/core/benchmark.py), and
 * the Dragon coordinator's rounds from readiness to the exit audit
 * (src/cuphoton/core/dragon.py): what has to be true for a run to report success.
 */
module BenchmarkReport {
  import opened Audit
  import opened Decimals
  import opened RoundAudit
  import opened Sharding
  import opened Sums

  datatype Phase = Warmup | Measure

  datatype BenchmarkRound = BenchmarkRound(phase: Phase, index: nat)

  datatype BenchmarkOptions = BenchmarkOptions(warmupRounds: nat, measureRounds: nat)

  /** The warmup rounds in order, then the measured ones. */
  function Rounds(o: BenchmarkOptions): (r: seq<BenchmarkRound>)
    ensures |r| == o.warmupRounds + o.measureRounds
    ensures forall i :: 0 <= i < |r| ==>
      r[i] == if i < o.warmupRounds then BenchmarkRound(Warmup, i) else BenchmarkRound(Measure, i - o.warmupRounds)
  {
    seq(o.warmupRounds, i requires 0 <= i => BenchmarkRound(Warmup, i))
    + seq(o.measureRounds, i requires 0 <= i => BenchmarkRound(Measure, i))
  }

  function PhaseName(p: Phase): string {
    if p == Warmup then "warmup" else "measure"
  }

  /** f"{index:04d}". */
  function Padded(index: nat): string {
    var digits := Digits(index);
    if |digits| < 4 then seq(4 - |digits|, _ => '0') + digits else digits
  }

  function RoundId(r: BenchmarkRound): string {
    PhaseName(r.phase) + "-" + Padded(r.index)
  }

  /** A round receipt as the report reads it; durationsOk covers both duration fields. */
  datatype RoundReceipt = RoundReceipt(roundId: Json, phase: Json, index: Json, status: Json, durationsOk: bool, batchWall: real)

  function ReceiptFor(r: BenchmarkRound, success: bool, batchWall: real): RoundReceipt {
    RoundReceipt(Text(RoundId(r)), Text(PhaseName(r.phase)), Number(r.index),
                 Text(if success then "success" else "failed"), true, batchWall)
  }

  predicate Identified(x: RoundReceipt, r: BenchmarkRound) {
    x.roundId == Text(RoundId(r)) && x.phase == Text(PhaseName(r.phase)) && x.index == Number(r.index)
  }

  predicate Succeeded(x: RoundReceipt) {
    x.status == Text("success")
  }

  /** Receipt i is the i-th planned round, successful and sensibly timed. */
  predicate ReceiptGood(receipts: seq<RoundReceipt>, expected: seq<BenchmarkRound>, i: nat)
    requires i < |receipts|
  {
    i < |expected| && Identified(receipts[i], expected[i]) && Succeeded(receipts[i]) && receipts[i].durationsOk
  }

  predicate AllReceiptsGood(receipts: seq<RoundReceipt>, o: BenchmarkOptions) {
    |receipts| <= |Rounds(o)| && forall i :: 0 <= i < |receipts| ==> ReceiptGood(receipts, Rounds(o), i)
  }

  datatype Report = Report(success: bool, measured: seq<real>)

  /** The batch durations of the measured receipts among the first n. */
  function MeasuredUpTo(receipts: seq<RoundReceipt>, n: nat): seq<real>
    requires n <= |receipts|
  {
    if n == 0 then []
    else
      MeasuredUpTo(receipts, n - 1)
      + if receipts[n - 1].phase == Text("measure") then [receipts[n - 1].batchWall] else []
  }

  method BuildBenchmarkReport(o: BenchmarkOptions, receipts: seq<RoundReceipt>, errors: nat) returns (report: Report)
    ensures report.success <==>
      errors == 0 && |receipts| == |Rounds(o)| && AllReceiptsGood(receipts, o)
    ensures report.measured == if report.success then MeasuredUpTo(receipts, |receipts|) else []
  {
    var expected := Rounds(o);
    var problems := errors;
    if |receipts| != |expected| {
      problems := problems + 1;
    }
    ghost var start := problems;
    for i := 0 to |receipts|
      invariant problems >= start
      invariant problems == start <==> forall j :: 0 <= j < i ==> ReceiptGood(receipts, expected, j)
    {
      ghost var before := problems;
      if i >= |expected| || !Identified(receipts[i], expected[i]) {
        problems := problems + 1;
      }
      if !Succeeded(receipts[i]) {
        problems := problems + 1;
      }
      if !receipts[i].durationsOk {
        problems := problems + 1;
      }
      assert problems == before <==> ReceiptGood(receipts, expected, i);
    }
    report := Report(problems == 0, if problems == 0 then MeasuredUpTo(receipts, |receipts|) else []);
  }

  lemma {:induction false} MeasuredCount(o: BenchmarkOptions, receipts: seq<RoundReceipt>, n: nat)
    requires n <= |receipts| == |Rounds(o)| && AllReceiptsGood(receipts, o)
    ensures |MeasuredUpTo(receipts, n)| == if n <= o.warmupRounds then 0 else n - o.warmupRounds
  {
    hide RoundId;
    if n > 0 {
      MeasuredCount(o, receipts, n - 1);
      assert ReceiptGood(receipts, Rounds(o), n - 1);
    }
  }

  /** A successful report carries one duration for every measured round, warmups excluded. */
  lemma EveryMeasuredRoundReported(o: BenchmarkOptions, receipts: seq<RoundReceipt>)
    requires |receipts| == |Rounds(o)| && AllReceiptsGood(receipts, o)
    ensures |MeasuredUpTo(receipts, |receipts|)| == o.measureRounds
  {
    MeasuredCount(o, receipts, |receipts|);
  }

  // ----- a Dragon run -----

  /** What one round gave the coordinator: its evidence, errors of dispatch and collection, its duration. */
  datatype RoundInput = RoundInput(evidence: Evidence, identity: RoundIdentity, collectionErrors: nat, batchWall: real)

  predicate InputShaped(x: RoundInput) {
    |x.evidence.records| == |x.evidence.componentProblems|
  }

  /** Round r collected every message and audited clean. */
  predicate RoundGood(inputs: seq<RoundInput>, shards: seq<seq<WorkItem>>, r: nat)
    requires r < |inputs|
  {
    InputShaped(inputs[r]) && inputs[r].collectionErrors == 0 && RoundClean(inputs[r].evidence, inputs[r].identity, shards)
  }

  /** Every planned round did. */
  predicate AllRoundsGood(inputs: seq<RoundInput>, shards: seq<seq<WorkItem>>, n: nat)
    requires n <= |inputs|
  {
    forall r :: 0 <= r < n ==> RoundGood(inputs, shards, r)
  }

  lemma GoodSoFar(inputs: seq<RoundInput>, shards: seq<seq<WorkItem>>, n: nat)
    requires n <= |inputs|
    ensures AllRoundsGood(inputs, shards, 0)
    ensures n < |inputs| && AllRoundsGood(inputs, shards, n) && RoundGood(inputs, shards, n) ==> AllRoundsGood(inputs, shards, n + 1)
    ensures n < |inputs| && !RoundGood(inputs, shards, n) ==> !AllRoundsGood(inputs, shards, |inputs|)
  {
    hide RoundGood;
  }

  lemma ReceiptIsGood(receipts: seq<RoundReceipt>, o: BenchmarkOptions, batchWall: real)
    requires AllReceiptsGood(receipts, o) && |receipts| < |Rounds(o)|
    ensures AllReceiptsGood(receipts + [ReceiptFor(Rounds(o)[|receipts|], true, batchWall)], o)
  {
    var more := receipts + [ReceiptFor(Rounds(o)[|receipts|], true, batchWall)];
    forall i | 0 <= i < |more| ensures ReceiptGood(more, Rounds(o), i) {
      assert i < |receipts| ==> ReceiptGood(receipts, Rounds(o), i);
    }
  }

  /** Receipt i names round i, its own duration, and whether the round was good. */
  predicate IsReceiptOf(x: RoundReceipt, o: BenchmarkOptions, inputs: seq<RoundInput>, shards: seq<seq<WorkItem>>, i: nat)
    requires i < |inputs| == |Rounds(o)|
  {
    && Identified(x, Rounds(o)[i]) && x.batchWall == inputs[i].batchWall && x.durationsOk
    && x.status == Text(if RoundGood(inputs, shards, i) then "success" else "failed")
  }

  /** The receipts so far are those of the first rounds. */
  predicate ReceiptsWritten(receipts: seq<RoundReceipt>, o: BenchmarkOptions, inputs: seq<RoundInput>,
                            shards: seq<seq<WorkItem>>)
    requires |inputs| == |Rounds(o)|
  {
    |receipts| <= |inputs| && forall i :: 0 <= i < |receipts| ==> IsReceiptOf(receipts[i], o, inputs, shards, i)
  }

  lemma WrittenReceipt(o: BenchmarkOptions, inputs: seq<RoundInput>, shards: seq<seq<WorkItem>>, n: nat, success: bool)
    requires n < |inputs| == |Rounds(o)| && success == RoundGood(inputs, shards, n)
    ensures IsReceiptOf(ReceiptFor(Rounds(o)[n], success, inputs[n].batchWall), o, inputs, shards, n)
  {
  }

  /** The audit raises: an item is expected twice. */
  predicate Unaudited(shards: seq<seq<WorkItem>>) {
    !Distinct(Ids(Flatten(shards)))
  }

  /** The rounds, until one fails: receipts of those that ran and whether an exception ended them. */
  method RunRounds(o: BenchmarkOptions, inputs: seq<RoundInput>, shards: seq<seq<WorkItem>>)
    returns (receipts: seq<RoundReceipt>, failed: bool)
    requires |inputs| == |Rounds(o)| && forall r :: 0 <= r < |inputs| ==> InputShaped(inputs[r])
    ensures !failed <==> AllRoundsGood(inputs, shards, |inputs|)
    ensures !failed ==> |receipts| == |inputs| && AllReceiptsGood(receipts, o)
    ensures ReceiptsWritten(receipts, o, inputs, shards)
    ensures failed ==>
      || (|receipts| > 0 && !RoundGood(inputs, shards, |receipts| - 1) && AllRoundsGood(inputs, shards, |receipts| - 1))
      || (|receipts| < |inputs| && AllRoundsGood(inputs, shards, |receipts|) && Unaudited(shards))
  {
    hide AllReceiptsGood, AllRoundsGood, RoundGood, ReceiptFor, Unaudited, IsReceiptOf;
    receipts := [];
    NoReceipts(o);
    GoodSoFar(inputs, shards, 0);
    for n := 0 to |inputs|
      invariant |receipts| == n && ReceiptsWritten(receipts, o, inputs, shards)
      invariant AllRoundsGood(inputs, shards, n)
      invariant AllReceiptsGood(receipts, o)
    {
      var raised, success := AuditRound(inputs, shards, n);
      GoodSoFar(inputs, shards, n);
      if raised {
        return receipts, true;
      }
      if success {
        ReceiptIsGood(receipts, o, inputs[n].batchWall);
      }
      WrittenReceipt(o, inputs, shards, n, success);
      receipts := receipts + [ReceiptFor(Rounds(o)[n], success, inputs[n].batchWall)];
      if !success {
        return receipts, true;
      }
    }
    failed := false;
  }

  lemma NoReceipts(o: BenchmarkOptions)
    ensures AllReceiptsGood([], o)
  {
  }

  method AuditRound(inputs: seq<RoundInput>, shards: seq<seq<WorkItem>>, r: nat) returns (raised: bool, success: bool)
    requires r < |inputs| && InputShaped(inputs[r])
    ensures RoundGood(inputs, shards, r) <==> !raised && success
    ensures raised <==> Unaudited(shards)
  {
    var summary := FinalizeRound(inputs[r].evidence, inputs[r].identity, shards);
    raised := summary.AuditRaised?;
    success := summary.Summary? && summary.errors == [] && inputs[r].collectionErrors == 0;
  }

  /** Every worker's exit status is known and zero. */
  predicate ExitsClean(exits: seq<int>, workers: nat) {
    |exits| == workers && forall i :: 0 <= i < |exits| ==> exits[i] == 0
  }

  /**
   * The run as reported: startup and readiness, the rounds, close and join, the exit
   * audit, then the report. It is a success exactly when every part was.
   */
  method RunDragonWorkload(o: BenchmarkOptions, inputs: seq<RoundInput>, shards: seq<seq<WorkItem>>,
                           ready: bool, closed: bool, exits: seq<int>)
    returns (report: Report)
    requires |inputs| == |Rounds(o)| > 0 && forall r :: 0 <= r < |inputs| ==> InputShaped(inputs[r])
    ensures report.success <==>
      && ready && closed && |exits| == |shards| && (forall i :: 0 <= i < |exits| ==> exits[i] == 0)
      && AllRoundsGood(inputs, shards, |inputs|)
  {
    var receipts: seq<RoundReceipt> := [];
    var errors := 0;
    var failed := true;
    if ready {
      receipts, failed := RunRounds(o, inputs, shards);
    }
    if failed || !closed {
      errors := errors + 1;
    }
    if !ExitsClean(exits, |shards|) {
      errors := errors + 1;
    }
    report := BuildBenchmarkReport(o, receipts, errors);
  }

  /** A reported success is sound for every planned round and every item of the manifest. */
  lemma ReportedSuccessIsSound(items: seq<WorkItem>, workers: nat, inputs: seq<RoundInput>, r: nat, item: WorkItem)
    returns (k: nat, j: nat, i: nat)
    requires Partition(items, workers).Shards? && item in items && r < |inputs|
    requires AllRoundsGood(inputs, Partition(items, workers).shards, |inputs|)
    ensures var shards, records := Partition(items, workers).shards, inputs[r].evidence.records;
            && k < workers == |shards| && j < |shards[k]| && shards[k][j] == item
            && i < |records| == |items| && IsSuccessOf(records, i, shards, k, j)
            && forall other :: 0 <= other < |records| && records[other].itemId == Text(item.itemId) ==> other == i
  {
    hide Partition, RoundClean, IsSuccessOf;
    assert RoundGood(inputs, Partition(items, workers).shards, r);
    k, j, i := SuccessIsSound(items, workers, inputs[r].evidence, inputs[r].identity, item);
  }
}
