/**
 * When an MPI run (src/cuphoton/core/mpi.py) reports success: exactly when nothing
 * the code guards has failed on any rank, in any round, and the ranks' inputs agree.
 */
module MpiSuccess {
  import opened MpiRanks
  import opened Options

  // ----- everything that can go wrong -----

  /** No rank fails the local work before a consensus. */
  predicate Everywhere(envs: seq<Env>, point: Point) {
    forall r :: 0 <= r < |envs| ==> LocalError(envs[r], r, point).None?
  }

  predicate SamePreparing(envs: seq<Env>) {
    forall r :: 0 <= r < |envs| ==> envs[r].prepareOnRoot == envs[0].prepareOnRoot
  }

  /** The workload a rank runs: its own, or the one rank zero described. */
  function SpecOf(envs: seq<Env>, r: nat): nat
    requires r < |envs|
  {
    if envs[0].prepareOnRoot then envs[0].spec else envs[r].spec
  }

  /** Options, workload and benchmark plan are the same on every rank. */
  predicate SameRun(envs: seq<Env>) {
    forall r :: 0 <= r < |envs| ==>
      envs[r].options == envs[0].options && envs[r].benchmark == envs[0].benchmark && SpecOf(envs, r) == SpecOf(envs, 0)
  }

  predicate DirectoryGood(envs: seq<Env>, round: Option<nat>)
    requires envs != []
  {
    envs[0].rootDirectory(round) == Prepared && Everywhere(envs, Directory(round))
  }

  /** Every rank executes round j and rank zero audits it as a success. */
  predicate RoundRuns(envs: seq<Env>, j: nat)
    requires envs != []
  {
    envs[0].finalizes(j).RoundOk? && forall r :: 0 <= r < |envs| ==> envs[r].executes(j)
  }

  predicate RoundReady(envs: seq<Env>, j: nat)
    requires envs != []
  {
    envs[0].benchmark.Some? ==> DirectoryGood(envs, Some(j))
  }

  predicate RoundsGood(envs: seq<Env>, n: nat)
    requires envs != []
  {
    forall j :: 0 <= j < n ==> RoundReady(envs, j) && RoundRuns(envs, j)
  }

  predicate AllClose(envs: seq<Env>) {
    forall r :: 0 <= r < |envs| ==> envs[r].closes
  }

  /** Setup: startup, context, preflight, agreements, run directory, workers, readiness. */
  predicate SetUp(envs: seq<Env>)
    requires envs != []
  {
    && Everywhere(envs, Startup) && Everywhere(envs, Context) && Everywhere(envs, Preflight)
    && SamePreparing(envs) && (envs[0].prepareOnRoot ==> Everywhere(envs, Descriptor))
    && SameRun(envs) && envs[0].identifierValid && DirectoryGood(envs, None)
    && Everywhere(envs, Init) && Everywhere(envs, Readiness)
  }

  /** Nothing the code guards goes wrong, and the inputs agree. */
  predicate NothingFails(envs: seq<Env>)
    requires envs != []
  {
    SetUp(envs) && RoundsGood(envs, RoundCount(envs[0])) && AllClose(envs) && envs[0].persists
  }

  // ----- how far a run has come -----

  /** What leaving setup stage k forward takes. */
  predicate Check(envs: seq<Env>, k: nat)
    requires envs != []
  {
    if k == 0 then Everywhere(envs, Startup)
    else if k == 1 then Everywhere(envs, Context)
    else if k == 2 then Everywhere(envs, Preflight)
    else if k == 3 then SamePreparing(envs)
    else if k == 4 then envs[0].prepareOnRoot ==> Everywhere(envs, Descriptor)
    else if k == 5 then SameRun(envs)
    else if k == 6 then envs[0].identifierValid
    else if k == 7 then envs[0].rootDirectory(None) == Prepared
    else if k == 8 then Everywhere(envs, Directory(None))
    else if k == 9 then Everywhere(envs, Init)
    else if k == 10 then Everywhere(envs, Readiness)
    else true
  }

  const SETUP: nat := 11

  predicate Upto(envs: seq<Env>, k: nat)
    requires envs != []
  {
    forall i :: 0 <= i < k ==> Check(envs, i)
  }

  lemma SetUpIsAllChecks(envs: seq<Env>)
    requires envs != []
    ensures SetUp(envs) <==> Upto(envs, SETUP)
  {
    hide Everywhere, SamePreparing, SameRun;
    if Upto(envs, SETUP) {
      assert Check(envs, 0) && Check(envs, 1) && Check(envs, 2) && Check(envs, 3) && Check(envs, 4) && Check(envs, 5)
             && Check(envs, 6) && Check(envs, 7) && Check(envs, 8) && Check(envs, 9) && Check(envs, 10);
    }
  }

  /** The stage a consensus point belongs to. */
  function PointStage(point: Point): nat {
    match point
    case Startup => 0
    case Context => 1
    case Preflight => 2
    case AgreeRoot => 3
    case Descriptor => 4
    case AgreeRun => 5
    case Directory(None) => 8
    case Init => 9
    case Readiness => 10
    case Directory(Some(_)) => SETUP
  }

  /** How many checks lie behind a rank at a place. */
  function Stage(pc: Pc): nat {
    match pc
    case Agree(p) => PointStage(p)
    case Hear(p) => PointStage(p)
    case Split => 1
    case Compare(atRoot) => if atRoot then 3 else 5
    case GetDescriptor => 4
    case GetRunId => 6
    case GetDirectory(None) => 7
    case GatherReady => 10
    case _ => SETUP
  }

  /** What a consensus at a point decides. */
  predicate Decides(envs: seq<Env>, point: Point)
    requires envs != []
  {
    match point
    case AgreeRoot => SamePreparing(envs)
    case AgreeRun => SameRun(envs)
    case _ => Everywhere(envs, point)
  }

  /** The rounds behind a rank at a place. */
  function RoundOf(pc: Pc): nat {
    match pc
    case Agree(Directory(Some(r))) => r
    case Hear(Directory(Some(r))) => r
    case GetDirectory(Some(r)) => r
    case Release(r) => r
    case Collect(r) => r
    case GetVerdict(r) => r
    case _ => 0
  }

  /** What is behind a run that is at a place without anything having failed. */
  predicate Behind(envs: seq<Env>, pc: Pc)
    requires envs != []
  {
    && Upto(envs, Stage(pc)) && RoundsGood(envs, RoundOf(pc)) && RoundOf(pc) <= RoundCount(envs[0])
    && (pc in {GetDescriptor, Agree(Descriptor), Hear(Descriptor)} ==> envs[0].prepareOnRoot)
    && (pc.Agree? && pc.point.Directory? && pc.point.round.Some? ==> InRound(envs, pc) && RootMade(envs, pc.point.round))
    && (pc.Hear? && pc.point.Directory? && pc.point.round.Some? ==> InRound(envs, pc) && RootMade(envs, pc.point.round))
    && (pc.GetDirectory? && pc.round.Some? ==> InRound(envs, pc) && envs[0].benchmark.Some?)
    && (pc.Release? || pc.Collect? || pc.GetVerdict? ==> InRound(envs, pc) && RoundReady(envs, RoundOf(pc)))
  }

  predicate InRound(envs: seq<Env>, pc: Pc)
    requires envs != []
  {
    RoundOf(pc) < RoundCount(envs[0])
  }

  predicate RootMade(envs: seq<Env>, round: Option<nat>)
    requires envs != []
  {
    envs[0].benchmark.Some? && envs[0].rootDirectory(round) == Prepared
  }

  // ----- what the registers hold -----

  /** The workload a rank knows at a stage. */
  predicate SpecKnown(envs: seq<Env>, s: Rank, r: nat)
    requires r < |envs|
  {
    && (Stage(s.pc) in {2, 3} || s.pc == GetDescriptor ==> (!envs[r].prepareOnRoot || r == 0 ==> s.spec == envs[r].spec))
    && (s.pc in {Agree(Descriptor), Hear(Descriptor), Compare(false)} ==> s.spec == SpecOf(envs, r))
  }

  /** The error a rank brings to a consensus is that of its local work or, on rank zero, of a comparison. */
  predicate ErrorBrought(envs: seq<Env>, s: Rank, r: nat)
    requires r < |envs|
  {
    s.pc.Agree? ==>
      (match s.pc.point
       case AgreeRoot => s.error.None? <==> r != 0 || SamePreparing(envs)
       case AgreeRun => s.error.None? <==> r != 0 || SameRun(envs)
       case point => s.error == LocalError(envs[r], r, point))
  }

  /** What rank zero is about to broadcast. */
  predicate RootHolds(envs: seq<Env>, s: Rank)
    requires envs != []
  {
    match s.pc
    case Hear(point) => s.held.Verdict? && (Clear(s.held) <==> Decides(envs, point))
    case GetDescriptor => s.held == DescriptorOf(envs[0].spec)
    case GetRunId => s.held == RunId(envs[0].identifierValid)
    case GetDirectory(round) =>
      s.held == DirectoryMade(envs[0].rootDirectory(round) == Prepared)
      && (s.claimed <==> Stage(s.pc) == SETUP || envs[0].rootDirectory(None) != Unclaimed)
    case GetVerdict(r) => s.held.RoundVerdictOf? && (s.held.v.RoundOk? <==> RoundRuns(envs, r))
    case _ => true
  }

  /** Inside the try block the run directory is rank zero's own. */
  predicate Claimed(s: Rank) {
    (s.pc.Agree? && Guarded(s.pc.point)) || (s.pc.Hear? && Guarded(s.pc.point))
    || s.pc in {GatherReady, GatherClosed} || s.pc.Release? || s.pc.Collect? || s.pc.GetVerdict?
    ==> s.claimed
  }

  /** A run in which nothing has failed so far. */
  predicate OnTrack(envs: seq<Env>, ranks: seq<Rank>)
    requires |envs| == |ranks| > 0
  {
    && !ranks[0].aborted && !ranks[0].roundsBad && Claimed(ranks[0])
    && Behind(envs, ranks[0].pc) && RootHolds(envs, ranks[0])
    && forall r :: 0 <= r < |envs| ==> SpecKnown(envs, ranks[r], r) && ErrorBrought(envs, ranks[r], r)
  }

  /** A run that is closing: rank zero's record and what really happened agree. */
  predicate ClosingExact(envs: seq<Env>, root: Rank)
    requires envs != []
  {
    if root.aborted || root.roundsBad then !NothingFails(envs)
    else root.claimed && Upto(envs, SETUP) && RoundsGood(envs, RoundCount(envs[0]))
  }

  /** What holds before every collective. */
  predicate Exact(w: World)
    requires WellFormed(w)
  {
    var root := w.ranks[0];
    match root.pc
    case Left(_) => root.heard == Some(Success) <==> NothingFails(w.envs)
    case GetFinal => root.held.FinalOf? && (root.held.f == Success <==> NothingFails(w.envs))
    case GatherClosed => ClosingExact(w.envs, root)
    case _ => OnTrack(w.envs, w.ranks)
  }

  lemma LaunchExact(envs: seq<Env>)
    requires envs != []
    ensures Exact(Launch(envs))
  {
  }

  // ----- gathers -----

  lemma RankOnTrack(w: World, r: nat)
    requires InStep(w) && Aligned(w) && OnTrack(w.envs, w.ranks) && !w.ranks[0].pc.Left? && r < |w.ranks|
    ensures w.ranks[r].pc == w.ranks[0].pc
    ensures SpecKnown(w.envs, w.ranks[r], r) && ErrorBrought(w.envs, w.ranks[r], r)
    ensures Round(w).ranks[r] == RankAfter(w, r)
  {
    PlaceAt(w, r);
  }

  /** The errors brought to a consensus say what it decides. */
  lemma ErrorsDecide(w: World, point: Point)
    requires InStep(w) && Aligned(w) && OnTrack(w.envs, w.ranks) && w.ranks[0].pc == Agree(point)
    ensures (forall r :: 0 <= r < |w.ranks| ==> w.ranks[r].error.None?) <==> Decides(w.envs, point)
  {
    forall r | 0 <= r < |w.ranks|
      ensures w.ranks[r].pc == Agree(point) && ErrorBrought(w.envs, w.ranks[r], r)
    {
      RankOnTrack(w, r);
    }
    hide InStep, Aligned, OnTrack, LocalError, SamePreparing, SameRun;
    if Decides(w.envs, point) {
      forall r | 0 <= r < |w.ranks| ensures w.ranks[r].error.None? {
        assert ErrorBrought(w.envs, w.ranks[r], r);
      }
    } else if point != AgreeRoot && point != AgreeRun {
      var r :| 0 <= r < |w.envs| && LocalError(w.envs[r], r, point).Some?;
      assert ErrorBrought(w.envs, w.ranks[r], r);
    } else {
      assert ErrorBrought(w.envs, w.ranks[0], 0);
    }
  }

  lemma AgreeExact(w: World, point: Point)
    requires InStep(w) && Aligned(w) && OnTrack(w.envs, w.ranks) && w.ranks[0].pc == Agree(point)
    ensures Exact(Round(w))
  {
    ErrorsDecide(w, point);
    ConsensusHeld(w, point);
    var z := Round(w);
    forall r | 0 <= r < |w.ranks| ensures SpecKnown(w.envs, z.ranks[r], r) && ErrorBrought(w.envs, z.ranks[r], r) {
      AgreeingRank(w, point, r);
    }
    AgreeingRoot(w, point);
    hide InStep, Aligned, Round, RankAfter, Upto, RoundsGood, Decides, SpecKnown, ErrorBrought, Clear;
    BehindHear(w.envs, point);
  }

  lemma AgreeingRank(w: World, point: Point, r: nat)
    requires InStep(w) && Aligned(w) && OnTrack(w.envs, w.ranks) && w.ranks[0].pc == Agree(point) && r < |w.ranks|
    ensures SpecKnown(w.envs, Round(w).ranks[r], r) && ErrorBrought(w.envs, Round(w).ranks[r], r)
  {
    RankOnTrack(w, r);
    hide InStep, Aligned, OnTrack, Round, Offers, ConsensusRaises, LocalError;
  }

  lemma AgreeingRoot(w: World, point: Point)
    requires InStep(w) && Aligned(w) && OnTrack(w.envs, w.ranks) && w.ranks[0].pc == Agree(point)
    ensures Round(w).ranks[0] == w.ranks[0].(pc := Hear(point), held := Verdict(ConsensusRaises(Offers(w))))
  {
    RankOnTrack(w, 0);
    hide InStep, Aligned, OnTrack, Offers, ConsensusRaises;
  }

  lemma BehindHear(envs: seq<Env>, point: Point)
    requires envs != [] && Behind(envs, Agree(point))
    ensures Behind(envs, Hear(point))
  {
    hide Upto, RoundsGood, RootMade;
  }

  /** Comparing payloads compares what has to be the same. */
  lemma ComparisonDecides(w: World, atRoot: bool)
    requires InStep(w) && Aligned(w) && OnTrack(w.envs, w.ranks) && w.ranks[0].pc == Compare(atRoot)
    ensures AllSame(Offers(w)) <==> Decides(w.envs, Compared(atRoot))
  {
    forall r | 0 <= r < |w.ranks|
      ensures Offers(w)[r] == if atRoot then Identity(0, 0, None, w.envs[r].prepareOnRoot)
                              else Identity(w.envs[r].options, SpecOf(w.envs, r), w.envs[r].benchmark, true)
    {
      RankOnTrack(w, r);
    }
    hide InStep, Aligned, OnTrack, Offers, SpecOf;
  }

  lemma CompareKeepsExact(w: World, atRoot: bool)
    requires InStep(w) && Aligned(w) && OnTrack(w.envs, w.ranks) && w.ranks[0].pc == Compare(atRoot)
    ensures Exact(Round(w))
  {
    ComparisonDecides(w, atRoot);
    var z := Round(w);
    forall r | 0 <= r < |w.ranks| ensures SpecKnown(w.envs, z.ranks[r], r) && ErrorBrought(w.envs, z.ranks[r], r) {
      ComparingRank(w, atRoot, r);
    }
    ComparingRoot(w, atRoot);
    hide InStep, Aligned, Round, RankAfter, Upto, RoundsGood, Decides, SpecKnown, ErrorBrought, AllSame;
  }

  lemma ComparingRank(w: World, atRoot: bool, r: nat)
    requires InStep(w) && Aligned(w) && OnTrack(w.envs, w.ranks) && w.ranks[0].pc == Compare(atRoot) && r < |w.ranks|
    requires AllSame(Offers(w)) <==> Decides(w.envs, Compared(atRoot))
    ensures SpecKnown(w.envs, Round(w).ranks[r], r) && ErrorBrought(w.envs, Round(w).ranks[r], r)
  {
    RankOnTrack(w, r);
    hide InStep, Aligned, OnTrack, Round, Offers, AllSame, SamePreparing, SameRun, LocalError;
  }

  lemma ComparingRoot(w: World, atRoot: bool)
    requires InStep(w) && Aligned(w) && OnTrack(w.envs, w.ranks) && w.ranks[0].pc == Compare(atRoot)
    ensures Round(w).ranks[0]
            == w.ranks[0].(pc := Agree(Compared(atRoot)), error := if AllSame(Offers(w)) then None else Some(DIFFERS))
  {
    RankOnTrack(w, 0);
    hide InStep, Aligned, OnTrack, Offers, AllSame;
  }

  /** Ranks that arrive at a consensus with the error of their local work. */
  lemma Arrived(envs: seq<Env>, ranks: seq<Rank>, point: Point)
    requires |envs| == |ranks| > 0 && point != AgreeRoot && point != AgreeRun
    requires forall r :: 0 <= r < |envs| ==>
      ranks[r].pc == Agree(point) && ranks[r].error == LocalError(envs[r], r, point) && SpecKnown(envs, ranks[r], r)
    ensures forall r :: 0 <= r < |envs| ==> SpecKnown(envs, ranks[r], r) && ErrorBrought(envs, ranks[r], r)
    ensures RootHolds(envs, ranks[0])
  {
    hide LocalError, SpecKnown;
  }

  lemma SplitExact(w: World)
    requires InStep(w) && Aligned(w) && OnTrack(w.envs, w.ranks) && w.ranks[0].pc == Split
    ensures Exact(Round(w))
  {
    var z := Round(w);
    forall r | 0 <= r < |w.ranks|
      ensures z.ranks[r] == w.ranks[r].(pc := Agree(Context), error := LocalError(w.envs[r], r, Context))
      ensures SpecKnown(w.envs, z.ranks[r], r)
    {
      RankOnTrack(w, r);
    }
    Arrived(w.envs, z.ranks, Context);
    hide InStep, Aligned, Round, RankAfter, Upto, RoundsGood, SpecKnown, ErrorBrought, LocalError;
  }

  lemma ReadyExact(w: World)
    requires InStep(w) && Aligned(w) && OnTrack(w.envs, w.ranks) && w.ranks[0].pc == GatherReady
    ensures Exact(Round(w))
  {
    var z := Round(w);
    forall r | 0 <= r < |w.ranks|
      ensures z.ranks[r] == w.ranks[r].(pc := Agree(Readiness), error := LocalError(w.envs[r], r, Readiness))
      ensures SpecKnown(w.envs, z.ranks[r], r)
    {
      RankOnTrack(w, r);
    }
    Arrived(w.envs, z.ranks, Readiness);
    hide InStep, Aligned, Round, RankAfter, Upto, RoundsGood, SpecKnown, ErrorBrought, LocalError;
  }

  /** The verdict on a round is success exactly when it ran. */
  lemma VerdictExact(w: World, j: nat)
    requires InStep(w) && Aligned(w) && OnTrack(w.envs, w.ranks) && w.ranks[0].pc == Collect(j)
    ensures (exists i :: 0 <= i < |w.ranks| && Offers(w)[i].Executed? && !Offers(w)[i].ok)
            <==> exists i :: 0 <= i < |w.envs| && !w.envs[i].executes(j)
  {
    forall r | 0 <= r < |w.ranks| ensures Offers(w)[r] == Executed(w.envs[r].executes(j)) {
      RankOnTrack(w, r);
    }
    hide InStep, Aligned, OnTrack, Offers;
    if i :| 0 <= i < |w.envs| && !w.envs[i].executes(j) {
      assert Offers(w)[i].Executed? && !Offers(w)[i].ok;
    }
  }

  lemma CollectExact(w: World, j: nat)
    requires InStep(w) && Aligned(w) && OnTrack(w.envs, w.ranks) && w.ranks[0].pc == Collect(j)
    ensures Exact(Round(w))
  {
    VerdictExact(w, j);
    var z := Round(w);
    forall r | 0 <= r < |w.ranks|
      ensures z.ranks[r].pc == GetVerdict(j) && SpecKnown(w.envs, z.ranks[r], r) && ErrorBrought(w.envs, z.ranks[r], r)
    {
      RankOnTrack(w, r);
    }
    RankOnTrack(w, 0);
    var bad := exists i :: 0 <= i < |w.envs| && !w.envs[i].executes(j);
    var e := w.envs[0];
    assert z.ranks[0] == w.ranks[0].(pc := GetVerdict(j), held :=
      RoundVerdictOf(if e.finalizes(j).RoundOk? && bad then RoundFailed else e.finalizes(j)));
    hide InStep, Aligned, Round, RankAfter, Upto, RoundsGood, SpecKnown, ErrorBrought, Offers, RoundReady;
  }

  lemma ClosedExact(w: World)
    requires InStep(w) && Aligned(w) && w.ranks[0].pc == GatherClosed && ClosingExact(w.envs, w.ranks[0])
    ensures Exact(Round(w))
  {
    var z, root, e := Round(w), w.ranks[0], w.envs[0];
    forall r | 0 <= r < |w.ranks| ensures Offers(w)[r] == ClosedOk(w.envs[r].closes) {
      PlaceAt(w, r);
    }
    SetUpIsAllChecks(w.envs);
    assert z.ranks[0] == RootGathered(root, e, Offers(w));
    hide InStep, Aligned, Round, RankAfter, Upto, RoundsGood, SetUp, Offers;
    var closeBad := exists i :: 0 <= i < |w.ranks| && Offers(w)[i].ClosedOk? && !Offers(w)[i].closed;
    assert closeBad <==> !AllClose(w.envs) by {
      if i :| 0 <= i < |w.envs| && !w.envs[i].closes {
        assert Offers(w)[i].ClosedOk? && !Offers(w)[i].closed;
      }
    }
  }

  // ----- broadcasts -----

  lemma HeardRank(w: World, r: nat)
    requires InStep(w) && Aligned(w) && ShapeOf(w.ranks[0].pc) == Broadcasts && r < |w.ranks|
    ensures w.ranks[r].pc == w.ranks[0].pc
    ensures Round(w).ranks[r] == Heard(w.ranks[r], w.envs[r], r, w.ranks[0].held)
  {
    PlaceAt(w, r);
    assert Round(w).ranks[r] == RankAfter(w, r);
    hide Heard, Agreed;
  }

  /** One more check behind. */
  lemma OneMore(envs: seq<Env>, k: nat)
    requires envs != [] && Upto(envs, k) && Check(envs, k)
    ensures Upto(envs, k + 1)
  {
    hide Check;
  }

  lemma CheckOfPoint(envs: seq<Env>, point: Point)
    requires envs != [] && Decides(envs, point) && !(point.Directory? && point.round.Some?)
    ensures Check(envs, PointStage(point))
  {
    hide Everywhere, SamePreparing, SameRun;
  }

  /** A rank after a consensus without failures, where that is not the start of a round. */
  lemma ProceedKnown(envs: seq<Env>, s: Rank, r: nat, point: Point)
    requires r < |envs| && s.pc == Hear(point) && SpecKnown(envs, s, r)
    requires point == AgreeRoot ==> SamePreparing(envs)
    ensures var t := Proceed(s, envs[r], r, point); SpecKnown(envs, t, r) && ErrorBrought(envs, t, r)
  {
    hide LocalError;
  }

  /** Where rank zero is after a consensus without failures. */
  lemma ProceedBehind(envs: seq<Env>, point: Point)
    requires envs != [] && Behind(envs, Hear(point)) && Decides(envs, point) && point != Readiness
    ensures Behind(envs, ProceedPc(envs[0].prepareOnRoot, envs[0].benchmark, point))
  {
    hide RoundsGood, Everywhere, Check;
    if point.Directory? && point.round.Some? {
    } else {
      CheckOfPoint(envs, point);
      hide Decides;
      OneMore(envs, PointStage(point));
      if point == AgreeRoot && !envs[0].prepareOnRoot {
        NoDescriptor(envs);
        OneMore(envs, 4);
      }
    }
  }

  lemma NoDescriptor(envs: seq<Env>)
    requires envs != [] && !envs[0].prepareOnRoot
    ensures Check(envs, 4)
  {
  }

  lemma ProceedRoot(envs: seq<Env>, s: Rank, point: Point)
    requires envs != [] && s.pc == Hear(point) && point != Readiness && SpecKnown(envs, s, 0) && Claimed(s)
    ensures var t := Proceed(s, envs[0], 0, point);
            RootHolds(envs, t) && Claimed(t) && t.aborted == s.aborted && t.roundsBad == s.roundsBad
  {
    hide LocalError;
  }

  lemma ProceedExact(w: World, point: Point)
    requires InStep(w) && Aligned(w) && OnTrack(w.envs, w.ranks) && w.ranks[0].pc == Hear(point)
    requires Clear(w.ranks[0].held) && point != Readiness
    ensures Exact(Round(w))
  {
    var z := Round(w);
    forall r | 0 <= r < |w.ranks| ensures SpecKnown(w.envs, z.ranks[r], r) && ErrorBrought(w.envs, z.ranks[r], r) {
      ProceedingRank(w, point, r);
    }
    HeardRank(w, 0);
    ProceedRoot(w.envs, w.ranks[0], point);
    ProceedPlace(w.ranks[0], w.envs[0], 0, point);
    ProceedBehind(w.envs, point);
    hide InStep, Aligned, Round, Proceed, SpecKnown, ErrorBrought, RootHolds, Claimed, Behind;
  }

  lemma ProceedingRank(w: World, point: Point, r: nat)
    requires InStep(w) && Aligned(w) && OnTrack(w.envs, w.ranks) && w.ranks[0].pc == Hear(point)
    requires Clear(w.ranks[0].held) && r < |w.ranks|
    ensures Round(w).ranks[r] == Proceed(w.ranks[r], w.envs[r], r, point)
    ensures SpecKnown(w.envs, Round(w).ranks[r], r) && ErrorBrought(w.envs, Round(w).ranks[r], r)
  {
    HeardRank(w, r);
    assert RootHolds(w.envs, w.ranks[0]);
    ProceedKnown(w.envs, w.ranks[r], r, point);
    hide InStep, Aligned, Round, Proceed, SpecKnown, ErrorBrought, Behind;
  }

  /** A round starts, or all have run. */
  lemma StartExact(envs: seq<Env>, s: Rank, r: nat)
    requires envs != [] && Upto(envs, SETUP) && RoundsGood(envs, r) && r <= RoundCount(envs[0])
    requires s.claimed && !s.aborted && !s.roundsBad
    ensures var t := StartRound(s, envs[0], 0, r);
            && !t.aborted && !t.roundsBad && Claimed(t)
            && if t.pc == GatherClosed then ClosingExact(envs, t) else Behind(envs, t.pc) && RootHolds(envs, t)
  {
    hide Upto, RoundsGood;
  }

  /** No rank that starts a round brings an error or needs its workload any more. */
  lemma StartKnown(envs: seq<Env>, s: Rank, i: nat, r: nat)
    requires i < |envs|
    ensures var t := StartRound(s, envs[i], i, r); SpecKnown(envs, t, i) && ErrorBrought(envs, t, i)
    ensures StartRound(s, envs[i], i, r).pc == GatherClosed || StartRound(s, envs[i], i, r).pc.GetDirectory?
            || StartRound(s, envs[i], i, r).pc.Release?
  {
  }

  lemma ReadinessExact(w: World)
    requires InStep(w) && Aligned(w) && OnTrack(w.envs, w.ranks) && w.ranks[0].pc == Hear(Readiness)
    requires Clear(w.ranks[0].held)
    ensures Exact(Round(w))
  {
    var z := Round(w);
    forall r | 0 <= r < |w.ranks| ensures SpecKnown(w.envs, z.ranks[r], r) && ErrorBrought(w.envs, z.ranks[r], r) {
      HeardRank(w, r);
      StartKnown(w.envs, w.ranks[r], r, 0);
    }
    HeardRank(w, 0);
    assert z.ranks[0] == StartRound(w.ranks[0], w.envs[0], 0, 0);
    CheckOfPoint(w.envs, Readiness);
    OneMore(w.envs, 10);
    StartExact(w.envs, w.ranks[0], 0);
    StartKnown(w.envs, w.ranks[0], 0, 0);
    hide InStep, Aligned, Round, StartRound, SpecKnown, ErrorBrought, RootHolds, Behind;
  }

  /** A consensus that raises means something did fail. */
  lemma DecidesOrFails(envs: seq<Env>, point: Point)
    requires envs != [] && Behind(envs, Hear(point)) && !Decides(envs, point)
    ensures !NothingFails(envs)
  {
    hide Upto, Everywhere, RoundRuns, AllClose, SamePreparing, SameRun;
    if point.Directory? && point.round.Some? {
      assert !RoundReady(envs, point.round.value);
    }
  }

  lemma RaiseExact(w: World, point: Point)
    requires InStep(w) && Aligned(w) && OnTrack(w.envs, w.ranks) && w.ranks[0].pc == Hear(point)
    requires !Clear(w.ranks[0].held) && w.ranks[0].heard.None?
    ensures Exact(Round(w))
  {
    HeardRank(w, 0);
    assert !Decides(w.envs, point);
    DecidesOrFails(w.envs, point);
    hide InStep, Aligned, Round, NothingFails, Behind, OnTrack;
  }

  lemma DescriptorExact(w: World)
    requires InStep(w) && Aligned(w) && OnTrack(w.envs, w.ranks) && w.ranks[0].pc == GetDescriptor
    ensures Exact(Round(w))
  {
    var z := Round(w);
    forall r | 0 <= r < |w.ranks|
      ensures z.ranks[r] == w.ranks[r].(pc := Agree(Descriptor), spec := w.envs[0].spec,
                                        error := LocalError(w.envs[r], r, Descriptor))
      ensures SpecKnown(w.envs, z.ranks[r], r)
    {
      HeardRank(w, r);
    }
    Arrived(w.envs, z.ranks, Descriptor);
    hide InStep, Aligned, Round, Upto, RoundsGood, SpecKnown, ErrorBrought, LocalError;
  }

  lemma RunIdExact(w: World)
    requires InStep(w) && Aligned(w) && OnTrack(w.envs, w.ranks) && w.ranks[0].pc == GetRunId
    requires w.ranks[0].heard.None?
    ensures Exact(Round(w))
  {
    var z := Round(w);
    forall r | 0 <= r < |w.ranks|
      ensures z.ranks[r] == HearRunId(w.ranks[r], w.envs[r], r, RunId(w.envs[0].identifierValid))
    {
      HeardRank(w, r);
    }
    if w.envs[0].identifierValid {
      assert Check(w.envs, 6);
      OneMore(w.envs, 6);
    }
    hide InStep, Aligned, Round, Upto, RoundsGood, Check, LocalError;
  }

  lemma DirectoryExact(w: World, round: Option<nat>)
    requires InStep(w) && Aligned(w) && OnTrack(w.envs, w.ranks) && w.ranks[0].pc == GetDirectory(round)
    ensures Exact(Round(w))
  {
    var z := Round(w);
    var made := w.envs[0].rootDirectory(round) == Prepared;
    forall r | 0 <= r < |w.ranks|
      ensures z.ranks[r] == HearDirectory(w.ranks[r], w.envs[r], r, round, DirectoryMade(made))
    {
      HeardRank(w, r);
    }
    if made {
      forall r | 0 <= r < |w.ranks| ensures SpecKnown(w.envs, z.ranks[r], r) {
      }
      Arrived(w.envs, z.ranks, Directory(round));
      if round.None? {
        assert Check(w.envs, 7);
        OneMore(w.envs, 7);
      }
      hide InStep, Aligned, Round, Upto, RoundsGood, Check, LocalError, SpecKnown, ErrorBrought;
    } else {
      NotMade(w.envs, round);
      hide InStep, Aligned, Round, NothingFails;
    }
  }

  lemma NotMade(envs: seq<Env>, round: Option<nat>)
    requires envs != [] && Behind(envs, GetDirectory(round)) && envs[0].rootDirectory(round) != Prepared
    ensures !NothingFails(envs)
  {
    hide Upto, Everywhere, RoundRuns, AllClose, SamePreparing, SameRun;
    if round.Some? {
      assert !RoundReady(envs, round.value);
    }
  }

  lemma ReleaseExact(w: World, j: nat)
    requires InStep(w) && Aligned(w) && OnTrack(w.envs, w.ranks) && w.ranks[0].pc == Release(j)
    ensures Exact(Round(w))
  {
    var z := Round(w);
    forall r | 0 <= r < |w.ranks|
      ensures z.ranks[r] == w.ranks[r].(pc := Collect(j))
      ensures SpecKnown(w.envs, z.ranks[r], r) && ErrorBrought(w.envs, z.ranks[r], r)
    {
      HeardRank(w, r);
    }
    hide InStep, Aligned, Round, Upto, RoundsGood, SpecKnown, ErrorBrought, RoundReady;
  }

  lemma RoundVerdictExact(w: World, j: nat)
    requires InStep(w) && Aligned(w) && OnTrack(w.envs, w.ranks) && w.ranks[0].pc == GetVerdict(j)
    ensures Exact(Round(w))
  {
    var z := Round(w);
    HeardRank(w, 0);
    if RoundRuns(w.envs, j) {
      forall r | 0 <= r < |w.ranks| ensures SpecKnown(w.envs, z.ranks[r], r) && ErrorBrought(w.envs, z.ranks[r], r) {
        HeardRank(w, r);
        StartKnown(w.envs, w.ranks[r], r, j + 1);
      }
      assert z.ranks[0] == StartRound(w.ranks[0], w.envs[0], 0, j + 1);
      assert RoundsGood(w.envs, j + 1);
      StartExact(w.envs, w.ranks[0], j + 1);
      StartKnown(w.envs, w.ranks[0], 0, j + 1);
      hide InStep, Aligned, Round, StartRound, SpecKnown, ErrorBrought, RootHolds, Behind, RoundRuns;
    } else {
      assert !RoundsGood(w.envs, RoundCount(w.envs[0]));
      hide InStep, Aligned, Round, RoundsGood, SetUp, Behind;
    }
  }

  lemma FinalExact(w: World)
    requires InStep(w) && Aligned(w) && Exact(w) && w.ranks[0].pc == GetFinal
    ensures Exact(Round(w))
  {
    HeardRank(w, 0);
    hide InStep, Aligned, Round, NothingFails;
  }

  // ----- runs -----

  lemma GatherStep(w: World)
    requires InStep(w) && Aligned(w) && Exact(w) && ShapeOf(w.ranks[0].pc) == Gathers
    ensures Exact(Round(w))
  {
    assert |w.ranks| > 0;
    hide InStep, Aligned, Round, OnTrack, ClosingExact;
    match w.ranks[0].pc {
      case Agree(point) => AgreeExact(w, point);
      case Compare(atRoot) => CompareKeepsExact(w, atRoot);
      case GatherReady => ReadyExact(w);
      case Collect(j) => CollectExact(w, j);
      case GatherClosed => ClosedExact(w);
    }
  }

  lemma BroadcastStep(w: World)
    requires InStep(w) && Aligned(w) && Exact(w) && ShapeOf(w.ranks[0].pc) == Broadcasts && w.ranks[0].heard.None?
    ensures Exact(Round(w))
  {
    assert |w.ranks| > 0;
    hide InStep, Aligned, Round, OnTrack, ClosingExact;
    match w.ranks[0].pc {
      case Hear(point) =>
        if !Clear(w.ranks[0].held) {
          RaiseExact(w, point);
        } else if point == Readiness {
          ReadinessExact(w);
        } else {
          ProceedExact(w, point);
        }
      case GetDescriptor => DescriptorExact(w);
      case GetRunId => RunIdExact(w);
      case GetDirectory(round) => DirectoryExact(w, round);
      case Release(j) => ReleaseExact(w, j);
      case GetVerdict(j) => RoundVerdictExact(w, j);
      case GetFinal => FinalExact(w);
    }
  }

  lemma RoundExact(w: World)
    requires InStep(w) && Aligned(w) && EndAgreed(w) && Exact(w)
    ensures Exact(Round(w))
  {
    match ShapeOf(w.ranks[0].pc) {
      case Gathers => GatherStep(w);
      case Broadcasts => BroadcastStep(w);
      case Splits => SplitExact(w);
      case Done => assert Round(w).ranks[0] == RankAfter(w, 0);
    }
  }

  lemma {:induction false} RunExact(envs: seq<Env>, n: nat)
    requires envs != []
    ensures Exact(Rounds(Launch(envs), n))
  {
    hide Exact, Round, InStep, EndAgreed;
    if n == 0 {
      LaunchExact(envs);
    } else {
      RunExact(envs, n - 1);
      RanksStayAligned(envs, n - 1);
      OneDecision(envs, n - 1);
      RoundExact(Rounds(Launch(envs), n - 1));
    }
  }

  /**
   * Once a rank has left, every rank has heard success exactly when nothing the code
   * guards failed anywhere: setup, every planned round on every rank, close and the
   * final summary, with the same workload, options and benchmark plan on all of them.
   */
  lemma SuccessExactly(envs: seq<Env>, n: nat, r: nat)
    requires r < |envs| && Rounds(Launch(envs), n).ranks[0].pc.Left?
    ensures Rounds(Launch(envs), n).ranks[r].heard == Some(Success) <==> NothingFails(envs)
  {
    RunExact(envs, n);
    OneDecision(envs, n);
    hide Rounds, NothingFails;
    assert EndsLike(Rounds(Launch(envs), n).ranks[r], Rounds(Launch(envs), n).ranks[0].heard, r);
  }

  /** A run in which nothing fails ends in success on every rank, without an exception. */
  lemma CleanRunSucceeds(envs: seq<Env>, r: nat)
    requires r < |envs| && NothingFails(envs)
    ensures var s := Rounds(Launch(envs), FirstRound(RoundCount(envs[0])) + 32).ranks[r];
            s.pc == Left(false) && s.heard == Some(Success)
  {
    var n := FirstRound(RoundCount(envs[0])) + 32;
    EveryRankLeaves(envs, 0);
    SuccessExactly(envs, n, r);
    OneDecision(envs, n);
    hide Rounds, NothingFails;
    assert EndsLike(Rounds(Launch(envs), n).ranks[r], Rounds(Launch(envs), n).ranks[0].heard, r);
  }
}
