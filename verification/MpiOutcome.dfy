/**
 * How an MPI run (src/cuphoton/core/mpi.py) ends for every rank, from what goes wrong
 * where: an exception without a decision, a run that cannot be persisted, a failed
 * result that only rank zero returns, or success.
 */
module MpiOutcome {
  import opened MpiConsensus
  import opened MpiRanks
  import opened MpiSuccess
  import opened Options

  // ----- what goes wrong, said plainly -----

  /** The workload a rank runs: rank zero's when that one prepares it for all. */
  function Workload(envs: seq<Env>, r: nat): nat
    requires r < |envs|
  {
    if envs[0].prepareOnRoot then envs[0].spec else envs[r].spec
  }

  /** Nothing fails before the run directory: every later exception is on record. */
  predicate BeforeDirectory(envs: seq<Env>)
    requires envs != []
  {
    && (forall r :: 0 <= r < |envs| ==> envs[r].fails(Startup).None? && envs[r].fails(Context).None?)
    && (forall r :: 0 <= r < |envs| && (!envs[r].prepareOnRoot || r == 0) ==> envs[r].fails(Preflight).None?)
    && (forall r :: 0 <= r < |envs| ==> envs[r].prepareOnRoot == envs[0].prepareOnRoot)
    && (envs[0].prepareOnRoot ==> forall r :: 0 < r < |envs| ==> envs[r].fails(Descriptor).None?)
    && (forall r :: 0 <= r < |envs| ==>
          envs[r].options == envs[0].options && envs[r].benchmark == envs[0].benchmark
          && Workload(envs, r) == Workload(envs, 0))
    && envs[0].identifierValid
  }

  /** A directory is made by rank zero and reached by every rank. */
  predicate Reached(envs: seq<Env>, round: Option<nat>)
    requires envs != []
  {
    envs[0].rootDirectory(round) == Prepared && forall r :: 0 <= r < |envs| ==> envs[r].fails(Directory(round)).None?
  }

  /** Benchmark rounds have a directory of their own; every rank executes, rank zero accepts. */
  predicate RoundGood(envs: seq<Env>, j: nat)
    requires envs != []
  {
    && (envs[0].benchmark.Some? ==> Reached(envs, Some(j)))
    && (forall r :: 0 <= r < |envs| ==> envs[r].executes(j)) && envs[0].finalizes(j) == RoundOk
  }

  predicate AllWell(envs: seq<Env>)
    requires envs != []
  {
    && BeforeDirectory(envs) && Reached(envs, None)
    && (forall r :: 0 <= r < |envs| ==> envs[r].fails(Init).None?) && envs[0].fails(Readiness).None?
    && (forall j :: 0 <= j < (if envs[0].benchmark.Some? then envs[0].benchmark.value else 1) ==> RoundGood(envs, j))
    && (forall r :: 0 <= r < |envs| ==> envs[r].closes) && envs[0].persists
  }

  /** How the run ends: without a decision, or with the one every rank hears. */
  function Outcome(envs: seq<Env>): Option<Final>
    requires envs != []
  {
    if !BeforeDirectory(envs) then None
    else if envs[0].rootDirectory(None) == Unclaimed || !envs[0].persists then Some(CannotPersist)
    else if AllWell(envs) then Some(Success)
    else Some(FailedStatus)
  }

  // ----- it is what the checks add up to -----

  lemma EverywherePlainly(envs: seq<Env>, point: Point)
    requires envs != []
    ensures point == Startup || point == Context || point.Directory? || point == Init ==>
      (Everywhere(envs, point) <==> forall r :: 0 <= r < |envs| ==> envs[r].fails(point).None?)
    ensures point == Preflight ==>
      (Everywhere(envs, point) <==>
       forall r :: 0 <= r < |envs| && (!envs[r].prepareOnRoot || r == 0) ==> envs[r].fails(Preflight).None?)
    ensures point == Descriptor ==>
      (Everywhere(envs, point) <==> forall r :: 0 < r < |envs| ==> envs[r].fails(Descriptor).None?)
    ensures point == Readiness ==> (Everywhere(envs, point) <==> envs[0].fails(Readiness).None?)
  {
  }

  lemma BeforePlainly(envs: seq<Env>)
    requires envs != []
    ensures Upto(envs, 7) <==> BeforeDirectory(envs)
  {
    EverywherePlainly(envs, Startup);
    EverywherePlainly(envs, Context);
    EverywherePlainly(envs, Preflight);
    EverywherePlainly(envs, Descriptor);
    hide Everywhere;
    ChecksBefore(envs);
    hide Check;
    assert forall r :: 0 <= r < |envs| ==> SpecOf(envs, r) == Workload(envs, r);
  }

  lemma ChecksBefore(envs: seq<Env>)
    requires envs != []
    ensures Upto(envs, 7) <==>
      && Everywhere(envs, Startup) && Everywhere(envs, Context) && Everywhere(envs, Preflight) && SamePreparing(envs)
      && (envs[0].prepareOnRoot ==> Everywhere(envs, Descriptor)) && SameRun(envs) && envs[0].identifierValid
  {
    hide Everywhere, SamePreparing, SameRun;
    if Upto(envs, 7) {
      assert Check(envs, 0) && Check(envs, 1) && Check(envs, 2) && Check(envs, 3) && Check(envs, 4) && Check(envs, 5) && Check(envs, 6);
    }
  }

  lemma RoundPlainly(envs: seq<Env>, j: nat)
    requires envs != []
    ensures RoundReady(envs, j) && RoundRuns(envs, j) <==> RoundGood(envs, j)
  {
    EverywherePlainly(envs, Directory(Some(j)));
    hide Everywhere;
  }

  /** Nothing the code guards fails exactly when all is well. */
  lemma WellPlainly(envs: seq<Env>)
    requires envs != []
    ensures NothingFails(envs) <==> AllWell(envs)
  {
    BeforePlainly(envs);
    ChecksBefore(envs);
    EverywherePlainly(envs, Directory(None));
    EverywherePlainly(envs, Init);
    EverywherePlainly(envs, Readiness);
    forall j | 0 <= j < RoundCount(envs[0]) ensures RoundReady(envs, j) && RoundRuns(envs, j) <==> RoundGood(envs, j) {
      RoundPlainly(envs, j);
    }
    hide Everywhere, RoundReady, RoundRuns, RoundGood, BeforeDirectory, Upto, SamePreparing, SameRun;
  }

  // ----- the end of a run -----

  /** What rank zero's place says about the end. */
  predicate Placed(w: World)
    requires WellFormed(w)
  {
    var root := w.ranks[0];
    match root.pc
    case Left(_) => root.heard == Outcome(w.envs)
    case GetFinal => root.held.FinalOf? && Outcome(w.envs) == Some(root.held.f)
    case GatherClosed => BeforeDirectory(w.envs) && (root.claimed <==> w.envs[0].rootDirectory(None) != Unclaimed)
    case _ => true
  }

  lemma ClosedPlaced(w: World)
    requires InStep(w) && Aligned(w) && Exact(w) && Placed(w) && w.ranks[0].pc == GatherClosed
    ensures Placed(Round(w))
  {
    ClosedExact(w);
    var root, z := w.ranks[0], Round(w).ranks[0];
    assert z == RankAfter(w, 0) && z.pc == GetFinal && z.held.FinalOf?;
    assert z.held.f == CannotPersist <==> !root.claimed || !w.envs[0].persists;
    assert z.held.f == Success <==> NothingFails(w.envs);
    WellPlainly(w.envs);
    hide InStep, Aligned, Round, NothingFails, AllWell, BeforeDirectory;
  }

  /** What is behind a place inside the try block. */
  lemma InsidePlaced(envs: seq<Env>, s: Rank)
    requires envs != [] && Behind(envs, s.pc) && Claimed(s) && RootHolds(envs, s)
    requires (s.pc.Hear? && Guarded(s.pc.point)) || s.pc.GetDirectory? || s.pc.GetVerdict?
    ensures BeforeDirectory(envs) && (s.claimed <==> envs[0].rootDirectory(None) != Unclaimed)
  {
    BeforePlainly(envs);
    assert Upto(envs, 7);
    if Stage(s.pc) > 7 {
      assert Check(envs, 7);
    }
    hide Upto, RoundsGood, BeforeDirectory, Decides, RoundRuns;
  }

  lemma RaisePlaced(w: World, point: Point)
    requires InStep(w) && Aligned(w) && OnTrack(w.envs, w.ranks) && w.ranks[0].pc == Hear(point)
    requires !Clear(w.ranks[0].held) && w.ranks[0].heard.None?
    ensures Placed(Round(w))
  {
    HeardRank(w, 0);
    var z := Round(w).ranks[0];
    assert z == Raise(w.ranks[0], point);
    if Guarded(point) {
      InsidePlaced(w.envs, w.ranks[0]);
    } else {
      BeforePlainly(w.envs);
      assert !Decides(w.envs, point);
      UndecidedFails(w.envs, point);
    }
    hide InStep, Aligned, Round, OnTrack, BeforeDirectory, AllWell;
  }

  lemma UndecidedFails(envs: seq<Env>, point: Point)
    requires envs != [] && Behind(envs, Hear(point)) && !Decides(envs, point) && !Guarded(point)
    ensures !Upto(envs, 7)
  {
    hide Everywhere, SamePreparing, SameRun, RoundsGood;
    assert !Check(envs, PointStage(point));
  }

  lemma ProceedPlaced(w: World, point: Point)
    requires InStep(w) && Aligned(w) && OnTrack(w.envs, w.ranks) && w.ranks[0].pc == Hear(point) && Clear(w.ranks[0].held)
    ensures Placed(Round(w))
  {
    HeardRank(w, 0);
    assert Round(w).ranks[0] == Proceed(w.ranks[0], w.envs[0], 0, point);
    if point == Readiness {
      InsidePlaced(w.envs, w.ranks[0]);
    }
    hide InStep, Aligned, Round, OnTrack, BeforeDirectory, LocalError;
  }

  lemma RunIdPlaced(w: World)
    requires InStep(w) && Aligned(w) && OnTrack(w.envs, w.ranks) && w.ranks[0].pc == GetRunId && w.ranks[0].heard.None?
    ensures Placed(Round(w))
  {
    HeardRank(w, 0);
    hide InStep, Aligned, Round;
  }

  lemma DirectoryPlaced(w: World, round: Option<nat>)
    requires InStep(w) && Aligned(w) && OnTrack(w.envs, w.ranks) && w.ranks[0].pc == GetDirectory(round)
    ensures Placed(Round(w))
  {
    HeardRank(w, 0);
    InsidePlaced(w.envs, w.ranks[0]);
    hide InStep, Aligned, Round, OnTrack, BeforeDirectory, LocalError;
  }

  lemma VerdictPlaced(w: World, j: nat)
    requires InStep(w) && Aligned(w) && OnTrack(w.envs, w.ranks) && w.ranks[0].pc == GetVerdict(j)
    ensures Placed(Round(w))
  {
    HeardRank(w, 0);
    InsidePlaced(w.envs, w.ranks[0]);
    hide InStep, Aligned, Round, OnTrack, BeforeDirectory;
  }

  lemma BroadcastPlaced(w: World)
    requires InStep(w) && Aligned(w) && Exact(w) && Placed(w) && ShapeOf(w.ranks[0].pc) == Broadcasts && w.ranks[0].heard.None?
    ensures Placed(Round(w))
  {
    assert |w.ranks| > 0;
    HeardRank(w, 0);
    hide InStep, Aligned, Round, OnTrack, BeforeDirectory, Outcome;
    match w.ranks[0].pc {
      case Hear(point) =>
        if Clear(w.ranks[0].held) {
          ProceedPlaced(w, point);
        } else {
          RaisePlaced(w, point);
        }
      case GetRunId => RunIdPlaced(w);
      case GetDirectory(round) => DirectoryPlaced(w, round);
      case GetVerdict(j) => VerdictPlaced(w, j);
      case _ =>
    }
  }

  lemma GatherPlaced(w: World)
    requires InStep(w) && Aligned(w) && Exact(w) && Placed(w) && ShapeOf(w.ranks[0].pc) == Gathers
    ensures Placed(Round(w))
  {
    if w.ranks[0].pc == GatherClosed {
      ClosedPlaced(w);
    } else {
      assert Round(w).ranks[0] == RootGathered(w.ranks[0], w.envs[0], Offers(w));
      hide InStep, Aligned, Round, Exact, BeforeDirectory, Outcome, Offers, ConsensusRaises, LocalError;
    }
  }

  lemma RoundPlaced(w: World)
    requires InStep(w) && Aligned(w) && EndAgreed(w) && Exact(w) && Placed(w)
    ensures Placed(Round(w))
  {
    match ShapeOf(w.ranks[0].pc) {
      case Gathers => GatherPlaced(w);
      case Broadcasts => BroadcastPlaced(w);
      case _ => assert Round(w).ranks[0] == RankAfter(w, 0);
    }
  }

  lemma {:induction false} RunPlaced(envs: seq<Env>, n: nat)
    requires envs != []
    ensures Placed(Rounds(Launch(envs), n))
  {
    hide Exact, Round, InStep, EndAgreed, Placed;
    if n == 0 {
      LaunchPlaced(envs);
    } else {
      RunPlaced(envs, n - 1);
      RunExact(envs, n - 1);
      RanksStayAligned(envs, n - 1);
      OneDecision(envs, n - 1);
      RoundPlaced(Rounds(Launch(envs), n - 1));
    }
  }

  lemma LaunchPlaced(envs: seq<Env>)
    requires envs != []
    ensures Placed(Launch(envs))
  {
  }

  /**
   * Every rank ends the same way, and the way is decided by what went wrong: a failure
   * before the run directory raises everywhere; a run that was not claimed or cannot be
   * written raises everywhere; any other failure raises on every rank but zero, which
   * returns a failed result; otherwise every rank returns success.
   */
  lemma OutcomeExactly(envs: seq<Env>, n: nat, r: nat)
    requires r < |envs| && Rounds(Launch(envs), n).ranks[0].pc.Left?
    ensures var s := Rounds(Launch(envs), n).ranks[r];
            && s.pc.Left? && s.heard == Outcome(envs)
            && (s.pc.raised <==> match Outcome(envs)
                                 case None => true
                                 case Some(CannotPersist) => true
                                 case Some(FailedStatus) => r != 0
                                 case Some(Success) => false)
  {
    RunPlaced(envs, n);
    OneDecision(envs, n);
    hide Rounds, Outcome;
    assert EndsLike(Rounds(Launch(envs), n).ranks[r], Rounds(Launch(envs), n).ranks[0].heard, r);
  }
}
