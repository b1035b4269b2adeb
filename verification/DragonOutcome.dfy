/**
 * How a run of the Dragon coordinator ends (src/cuphoton/core/dragon.py): the outcome
 * is final, and a phase fails exactly for a worker whose receipt was not ok.
 */
module DragonOutcome {
  import opened DragonProtocol

  /** Once the coordinator has stopped or finished, nothing the workers do changes what it knows. */
  lemma {:induction false} OutcomeIsFinal(s: System, steps: seq<Step>)
    requires Legal(s, steps) && s.c.mode != Running
    ensures After(s, steps).c == s.c
    decreases |steps|
  {
    if steps != [] {
      OutcomeIsFinal(Do(s, steps[0]), steps[1..]);
    }
  }

  /** Every worker put an ok receipt of the coordinator's phase. */
  predicate AllPassed(s: System) {
    forall w :: 0 <= w < |s.workers| ==> Receipt(w, s.c.phase, true) in s.sent
  }

  /** Those the coordinator counts as failed are the workers seen without an ok receipt. */
  lemma FailedIsNotOk(s: System, w: nat)
    requires Sound(s) && w < |s.workers| && w in s.c.seen
    ensures w in s.c.failed <==> Receipt(w, s.c.phase, true) !in s.sent
  {
    var stand, n := Standing(s, w);
    hide Mine, Sound;
  }

  /** The failed are among the seen, and a run that stopped for a failure has some. */
  predicate FailuresSeen(s: System) {
    s.c.failed <= s.c.seen && (s.c.mode == Stopped(PhaseFailed) ==> s.c.failed != {})
  }

  lemma {:induction false} FailuresStaySeen(s: System, steps: seq<Step>)
    requires Legal(s, steps) && FailuresSeen(s)
    ensures FailuresSeen(After(s, steps))
    decreases |steps|
  {
    if steps != [] {
      FailuresStaySeen(Do(s, steps[0]), steps[1..]);
    }
  }

  /** Steps change neither the number of workers nor that of rounds. */
  lemma {:induction false} SameShape(s: System, steps: seq<Step>)
    requires Legal(s, steps)
    ensures |After(s, steps).workers| == |s.workers| && After(s, steps).rounds == s.rounds
    decreases |steps|
  {
    if steps != [] {
      SameShape(Do(s, steps[0]), steps[1..]);
    }
  }

  /** Someone counts as failed exactly when, with everyone heard, some receipt is not ok. */
  lemma FailedExactly(s: System)
    requires Sound(s) && FailuresSeen(s)
    ensures s.c.failed != {} ==> !AllPassed(s)
    ensures |s.c.seen| >= |s.workers| && s.c.failed == {} ==> AllPassed(s)
  {
    if s.c.failed != {} {
      var w :| w in s.c.failed;
      assert CoordinatorSound(s) && w in s.c.seen;
      FailedIsNotOk(s, w);
    } else if |s.c.seen| >= |s.workers| {
      forall w | 0 <= w < |s.workers| ensures Receipt(w, s.c.phase, true) in s.sent {
        EveryoneSeen(s, w);
        FailedIsNotOk(s, w);
      }
    }
  }

  /** A run that stopped because a phase failed has a worker without an ok receipt of it. */
  lemma FailureIsSomeones(workers: nat, rounds: nat, steps: seq<Step>)
    requires Legal(Start(workers, rounds), steps)
    requires After(Start(workers, rounds), steps).c.mode == Stopped(PhaseFailed)
    ensures !AllPassed(After(Start(workers, rounds), steps))
  {
    StartSound(workers, rounds);
    RunSound(Start(workers, rounds), steps);
    FailuresStaySeen(Start(workers, rounds), steps);
    FailedExactly(After(Start(workers, rounds), steps));
  }

  /**
   * In every run a phase ends when every worker was heard. It fails exactly when some
   * worker put no ok receipt of it; after the last phase the run is finished, and
   * otherwise the next phase begins with no command sent and nobody heard.
   */
  lemma EndExactly(workers: nat, rounds: nat, steps: seq<Step>)
    requires Legal(Start(workers, rounds), steps) && Enabled(After(Start(workers, rounds), steps), EndPhase)
    ensures var s := After(Start(workers, rounds), steps);
            Do(s, EndPhase).c.mode ==
              if !AllPassed(s) then Stopped(PhaseFailed)
              else if s.c.phase == rounds + 1 then Finished
              else Running
    ensures var s := After(Start(workers, rounds), steps);
            AllPassed(s) && s.c.phase < rounds + 1 ==>
              var c := Do(s, EndPhase).c;
              c.phase == s.c.phase + 1 && c.dispatched == 0 && c.seen == {} && c.snapshot.None?
  {
    StartSound(workers, rounds);
    RunSound(Start(workers, rounds), steps);
    SameShape(Start(workers, rounds), steps);
    FailuresStaySeen(Start(workers, rounds), steps);
    FailedExactly(After(Start(workers, rounds), steps));
    hide Sound, Legal, After, AllPassed;
  }
}
