/**
 * The report of a Dragon run read off the protocol itself (src/cuphoton/core/dragon.py):
 * which phases the coordinator collected decides readiness, the rounds' collection
 * errors and the close, so a reported success says what the workers really sent.
 */
module DragonRun {
  import opened BenchmarkReport
  import opened DragonOutcome
  import opened DragonProtocol
  import opened Sharding

  /** The coordinator collected the receipts of phase p and found no failure among them. */
  predicate Collected(s: System, p: nat) {
    s.c.phase > p || s.c.mode == Finished
  }

  /** Phase r + 1 is round r; a phase that was not collected is an error of its round. */
  function Observed(rounds: seq<RoundInput>, s: System): (inputs: seq<RoundInput>)
    ensures |inputs| == |rounds|
    ensures forall r :: 0 <= r < |inputs| ==>
      inputs[r] == rounds[r].(collectionErrors := rounds[r].collectionErrors + if Collected(s, r + 1) then 0 else 1)
  {
    seq(|rounds|, r requires 0 <= r < |rounds| =>
      rounds[r].(collectionErrors := rounds[r].collectionErrors + if Collected(s, r + 1) then 0 else 1))
  }

  /** A collected phase has an ok receipt of every worker. */
  lemma CollectedMeansReceipts(workers: nat, rounds: nat, steps: seq<Step>, w: nat, p: nat)
    requires Legal(Start(workers, rounds), steps) && p <= rounds + 1
    requires w < workers && Collected(After(Start(workers, rounds), steps), p)
    ensures Receipt(w, p, true) in After(Start(workers, rounds), steps).sent
  {
    hide WorkerSound, CoordinatorSound;
    var s := After(Start(workers, rounds), steps);
    SameShape(Start(workers, rounds), steps);
    if s.c.mode == Finished {
      FinishIsComplete(workers, rounds, steps, w, p);
    } else {
      StartSound(workers, rounds);
      RunSound(Start(workers, rounds), steps);
    }
  }

  lemma ObservedRounds(rounds: seq<RoundInput>, shards: seq<seq<WorkItem>>, s: System)
    requires s.c.mode == Finished
    ensures AllRoundsGood(Observed(rounds, s), shards, |rounds|) <==> AllRoundsGood(rounds, shards, |rounds|)
  {
    var inputs := Observed(rounds, s);
    forall r | 0 <= r < |rounds| ensures inputs[r] == rounds[r] {
    }
    assert inputs == rounds;
  }

  /** Every worker has put an ok receipt of every phase and ended as it should. */
  predicate EveryoneDone(s: System) {
    && s.results == [] && s.aborted == {}
    && (forall w :: 0 <= w < |s.workers| ==> s.workers[w].pc == Ended)
    && forall w, p :: 0 <= w < |s.workers| && 0 <= p <= LastPhase(s) ==> Receipt(w, p, true) in s.sent
  }

  lemma FinishedMeansDone(workers: nat, rounds: nat, steps: seq<Step>)
    requires Legal(Start(workers, rounds), steps) && After(Start(workers, rounds), steps).c.mode == Finished && workers > 0
    ensures EveryoneDone(After(Start(workers, rounds), steps))
  {
    var s := After(Start(workers, rounds), steps);
    SameShape(Start(workers, rounds), steps);
    FinishIsComplete(workers, rounds, steps, 0, 0);
    forall w | 0 <= w < |s.workers| ensures s.workers[w].pc == Ended {
      FinishIsComplete(workers, rounds, steps, w, 0);
    }
    forall w, p | 0 <= w < |s.workers| && 0 <= p <= LastPhase(s) ensures Receipt(w, p, true) in s.sent {
      FinishIsComplete(workers, rounds, steps, w, p);
    }
  }

  /**
   * The run after `steps` of coordinator and workers as it is reported. What the protocol
   * does not decide stays given: each round's evidence, whether the READY provenance was
   * accepted, whether join and cleanup went through, the exit statuses.
   */
  method ReportRun(o: BenchmarkOptions, rounds: seq<RoundInput>, shards: seq<seq<WorkItem>>, s: System,
                   readyAccepted: bool, cleanedUp: bool, exits: seq<int>, ghost steps: seq<Step>)
    returns (report: Report)
    requires |rounds| == |Rounds(o)| > 0 && |shards| > 0 && forall r :: 0 <= r < |rounds| ==> InputShaped(rounds[r])
    requires Legal(Start(|shards|, |rounds|), steps) && s == After(Start(|shards|, |rounds|), steps)
    ensures report.success <==>
      && s.c.mode == Finished && readyAccepted && cleanedUp
      && |exits| == |shards| && (forall i :: 0 <= i < |exits| ==> exits[i] == 0)
      && AllRoundsGood(rounds, shards, |rounds|)
    ensures report.success ==> EveryoneDone(s)
  {
    hide AllRoundsGood, Rounds, After, Legal, Start;
    if s.c.mode == Finished {
      FinishedMeansDone(|shards|, |rounds|, steps);
      ObservedRounds(rounds, shards, s);
    }
    var ready := Collected(s, 0) && readyAccepted;
    // The queue is polled once more after the join, and must be empty.
    var closed := s.c.mode == Finished && s.results == [] && cleanedUp;
    report := RunDragonWorkload(o, Observed(rounds, s), shards, ready, closed, exits);
  }
}
