/**
 * run_mpi_work_items (src/cuphoton/core/mpi.py) as one program a rank. A rank
 * knows only its own environment and what collectives hand it; `Round` runs one
 * collective when every rank has arrived at one of the same kind, and a world in
 * which they have not is diverged for good. Collectives themselves succeed.
 */
module MpiRanks {
  import opened MpiConsensus
  import opened Options

  /** Places where local failures are agreed on; a directory belongs to the run or to a round. */
  datatype Point =
    | Startup | Context | Preflight | AgreeRoot | Descriptor | AgreeRun
    | Directory(round: Option<nat>) | Init | Readiness

  datatype RoundVerdict = RoundOk | RoundFailed | RoundError

  /** How far rank zero got with a directory: mkdir refused, claimed but not prepared, ready. */
  datatype Made = Unclaimed | Unprepared | Prepared

  datatype Final = Success | FailedStatus | CannotPersist

  /**
   * What differs between ranks: inputs (option and workload identities as numbers),
   * and every local failure that the code guards.
   */
  datatype Env = Env(
    prepareOnRoot: bool, benchmark: Option<nat>, options: nat, spec: nat, identifierValid: bool,
    fails: Point -> Option<Fault>,  // the guarded local work before each consensus
    rootDirectory: Option<nat> -> Made,
    executes: nat -> bool, finalizes: nat -> RoundVerdict,
    closes: bool, persists: bool)

  /** The collective a rank takes part in next. */
  datatype Pc =
    | Agree(point: Point)      // the gather of a consensus
    | Hear(point: Point)       // its broadcast
    | Split                    // comm.Split_type
    | Compare(atRoot: bool)    // the gather of payloads to compare: prepare_on_root, or the whole run
    | GetDescriptor | GetRunId | GetDirectory(round: Option<nat>) | GatherReady
    | Release(r: nat) | Collect(r: nat) | GetVerdict(r: nat)
    | GatherClosed | GetFinal
    | Left(raised: bool)

  /** What a collective carries from one rank. */
  datatype Value =
    | Nothing | Failure(error: Option<Fault>) | Identity(options: nat, spec: nat, benchmark: Option<nat>, root: bool)
    | Verdict(raises: bool) | DescriptorOf(spec: nat) | RunId(valid: bool) | DirectoryMade(made: bool)
    | Executed(ok: bool) | RoundVerdictOf(v: RoundVerdict) | ClosedOk(closed: bool) | FinalOf(f: Final)

  /** `held` is what rank zero broadcasts next; `aborted` that an exception is on record. */
  datatype Rank = Rank(pc: Pc, error: Option<Fault>, spec: nat, held: Value,
                       aborted: bool, claimed: bool, roundsBad: bool, closeBad: bool, heard: Option<Final>)

  datatype Shape = Gathers | Broadcasts | Splits | Done

  function ShapeOf(pc: Pc): Shape {
    match pc
    case Agree(_) => Gathers
    case Compare(_) => Gathers
    case GatherReady => Gathers
    case Collect(_) => Gathers
    case GatherClosed => Gathers
    case Split => Splits
    case Left(_) => Done
    case _ => Broadcasts
  }

  function RoundCount(e: Env): nat {
    if e.benchmark.Some? then e.benchmark.value else 1
  }

  /** The outcome of the guarded local work a rank does for a consensus. */
  function LocalError(e: Env, rank: nat, point: Point): Option<Fault> {
    match point
    case Preflight => if !e.prepareOnRoot || rank == 0 then e.fails(point) else None
    case Descriptor => if rank != 0 then e.fails(point) else None
    case Readiness => if rank == 0 then e.fails(point) else None
    case AgreeRoot => None
    case AgreeRun => None
    case _ => e.fails(point)
  }

  /** Arrive at the consensus of a point with its local error. */
  function Arrive(s: Rank, e: Env, rank: nat, point: Point): Rank {
    s.(pc := Agree(point), error := LocalError(e, rank, point))
  }

  /** What a rank contributes: to a gather, or as root to a broadcast. */
  function Offer(s: Rank, e: Env, rank: nat): Value {
    match s.pc
    case Agree(_) => Failure(s.error)
    case Compare(true) => Identity(0, 0, None, e.prepareOnRoot)
    case Compare(false) => Identity(e.options, s.spec, e.benchmark, true)
    case Collect(r) => Executed(e.executes(r))
    case GatherClosed => ClosedOk(e.closes)
    case _ => s.held
  }

  /** A consensus decision without failures. */
  predicate Clear(v: Value) {
    v.Verdict? && !v.raises
  }

  function StartRound(s: Rank, e: Env, rank: nat, r: nat): Rank {
    if r >= RoundCount(e) then s.(pc := GatherClosed)
    else if e.benchmark.Some? then s.(pc := GetDirectory(Some(r)), held := DirectoryMade(e.rootDirectory(Some(r)) == Prepared))
    else s.(pc := Release(r))
  }

  /** After a consensus without failures. */
  function Proceed(s: Rank, e: Env, rank: nat, point: Point): Rank {
    match point
    case Startup => s.(pc := Split)
    case Context => Arrive(s.(spec := if !e.prepareOnRoot || rank == 0 then e.spec else 0), e, rank, Preflight)
    case Preflight => s.(pc := Compare(true))
    case AgreeRoot =>
      if e.prepareOnRoot then s.(pc := GetDescriptor, held := DescriptorOf(s.spec)) else s.(pc := Compare(false))
    case Descriptor => s.(pc := Compare(false))
    case AgreeRun => s.(pc := GetRunId, held := RunId(e.identifierValid))
    case Directory(None) => Arrive(s, e, rank, Init)
    case Directory(Some(r)) => s.(pc := Release(r))
    case Init => s.(pc := GatherReady)
    case Readiness => StartRound(s, e, rank, 0)
  }

  /** Points inside the try block are followed by close and the final report. */
  predicate Guarded(point: Point) {
    point.Directory? || point.Init? || point.Readiness?
  }

  function Abort(s: Rank): Rank {
    s.(pc := GatherClosed, aborted := true)
  }

  function Raise(s: Rank, point: Point): Rank {
    if Guarded(point) then Abort(s) else s.(pc := Left(true))
  }

  /** Whether the decision on the gathered errors raises; the phase text does not matter here. */
  predicate ConsensusRaises(values: seq<Value>) {
    Decision("", RankItems(Errors(values)), |values|).Some?
  }

  function Errors(values: seq<Value>): (errors: seq<Option<Fault>>)
    ensures |errors| == |values|
  {
    seq(|values|, i requires 0 <= i < |values| => if values[i].Failure? then values[i].error else None)
  }

  predicate AllSame(values: seq<Value>) {
    forall i :: 0 <= i < |values| ==> values[i] == values[0]
  }

  const DIFFERS: Fault := Fault("ValueError", "MPI workload, run options, or benchmark plans differ")

  /** The run's summary: failed after any error on record, any round or close that was not good. */
  function FinalDecision(s: Rank, e: Env): Final {
    if !s.claimed || !e.persists then CannotPersist
    else if s.aborted || s.roundsBad || s.closeBad then FailedStatus
    else Success
  }

  /** The consensus that follows a comparison. */
  function Compared(atRoot: bool): Point {
    if atRoot then AgreeRoot else AgreeRun
  }

  /** Rank zero after a gather. */
  function RootGathered(s: Rank, e: Env, values: seq<Value>): Rank {
    match s.pc
    case Agree(point) => s.(pc := Hear(point), held := Verdict(ConsensusRaises(values)))
    case Compare(atRoot) => s.(pc := Agree(Compared(atRoot)), error := if AllSame(values) then None else Some(DIFFERS))
    case GatherReady => Arrive(s, e, 0, Readiness)
    case Collect(r) =>
      var bad := exists i :: 0 <= i < |values| && values[i].Executed? && !values[i].ok;
      var verdict := if e.finalizes(r).RoundOk? && bad then RoundFailed else e.finalizes(r);
      s.(pc := GetVerdict(r), held := RoundVerdictOf(verdict))
    case GatherClosed =>
      var t := s.(closeBad := exists i :: 0 <= i < |values| && values[i].ClosedOk? && !values[i].closed);
      t.(pc := GetFinal, held := FinalOf(FinalDecision(t, e)))
    case _ => s
  }

  /** Any other rank after a gather. */
  function PeerGathered(s: Rank, e: Env, rank: nat): Rank {
    match s.pc
    case Agree(point) => s.(pc := Hear(point))
    case Compare(atRoot) => s.(pc := Agree(Compared(atRoot)), error := None)
    case GatherReady => Arrive(s, e, rank, Readiness)
    case Collect(r) => s.(pc := GetVerdict(r))
    case GatherClosed => s.(pc := GetFinal)
    case _ => s
  }

  function HearDecision(s: Rank, e: Env, rank: nat, point: Point, v: Value): Rank {
    if Clear(v) then Proceed(s, e, rank, point) else Raise(s, point)
  }

  function HearRunId(s: Rank, e: Env, rank: nat, v: Value): Rank {
    if v.RunId? && v.valid then
      s.(pc := GetDirectory(None), held := DirectoryMade(e.rootDirectory(None) == Prepared),
         claimed := e.rootDirectory(None) != Unclaimed)
    else s.(pc := Left(true))
  }

  function HearDirectory(s: Rank, e: Env, rank: nat, round: Option<nat>, v: Value): Rank {
    if v.DirectoryMade? && v.made then Arrive(s, e, rank, Directory(round)) else Abort(s)
  }

  function HearVerdict(s: Rank, e: Env, rank: nat, r: nat, v: Value): Rank {
    if v.RoundVerdictOf? && v.v.RoundOk? then StartRound(s, e, rank, r + 1)
    else if v.RoundVerdictOf? && v.v.RoundFailed? then s.(pc := GatherClosed, roundsBad := true)
    else Abort(s)
  }

  function HearFinal(s: Rank, rank: nat, v: Value): Rank {
    var f := if v.FinalOf? then v.f else CannotPersist;
    s.(pc := Left(f == CannotPersist || (rank != 0 && f != Success)), heard := Some(f))
  }

  /** Any rank after a broadcast of v. */
  function Heard(s: Rank, e: Env, rank: nat, v: Value): Rank {
    match s.pc
    case Hear(point) => HearDecision(s, e, rank, point, v)
    case GetDescriptor => Arrive(s.(spec := if v.DescriptorOf? then v.spec else s.spec), e, rank, Descriptor)
    case GetRunId => HearRunId(s, e, rank, v)
    case GetDirectory(round) => HearDirectory(s, e, rank, round, v)
    case Release(r) => s.(pc := Collect(r))
    case GetVerdict(r) => HearVerdict(s, e, rank, r, v)
    case GetFinal => HearFinal(s, rank, v)
    case _ => s
  }

  // ----- the world -----

  datatype World = World(envs: seq<Env>, ranks: seq<Rank>)

  function Launch(envs: seq<Env>): World {
    World(envs, seq(|envs|, r requires 0 <= r < |envs| =>
      Arrive(Rank(Split, None, 0, Nothing, false, false, false, false, None), envs[r], r, Startup)))
  }

  predicate WellFormed(w: World) {
    |w.envs| == |w.ranks| > 0
  }

  /** Every rank has arrived at a collective of the same kind. */
  predicate Aligned(w: World)
    requires WellFormed(w)
  {
    forall r :: 0 <= r < |w.ranks| ==> ShapeOf(w.ranks[r].pc) == ShapeOf(w.ranks[0].pc)
  }

  function Offers(w: World): (values: seq<Value>)
    requires WellFormed(w)
    ensures |values| == |w.ranks|
  {
    seq(|w.ranks|, r requires 0 <= r < |w.ranks| => Offer(w.ranks[r], w.envs[r], r))
  }

  function RankAfter(w: World, r: nat): Rank
    requires WellFormed(w) && r < |w.ranks|
  {
    var s, e := w.ranks[r], w.envs[r];
    match ShapeOf(w.ranks[0].pc)
    case Gathers => if r == 0 then RootGathered(s, e, Offers(w)) else PeerGathered(s, e, r)
    case Broadcasts => Heard(s, e, r, Offer(w.ranks[0], w.envs[0], 0))
    case Splits => Arrive(s, e, r, Context)
    case Done => s
  }

  /** One collective. */
  function Round(w: World): (z: World)
    requires WellFormed(w)
    ensures WellFormed(z) && z.envs == w.envs && |z.ranks| == |w.ranks|
  {
    if Aligned(w) then w.(ranks := seq(|w.ranks|, r requires 0 <= r < |w.ranks| => RankAfter(w, r)))
    else w
  }

  function Rounds(w: World, n: nat): (z: World)
    requires WellFormed(w)
    ensures WellFormed(z) && z.envs == w.envs && |z.ranks| == |w.ranks|
  {
    if n == 0 then w else Round(Rounds(w, n - 1))
  }

  // ----- all ranks stay at the same place -----

  /** A benchmark plan agreed by all ranks. */
  predicate SameBenchmark(w: World)
    requires WellFormed(w)
  {
    forall r :: 0 <= r < |w.envs| ==> w.envs[r].benchmark == w.envs[0].benchmark
  }

  predicate SamePreparation(w: World)
    requires WellFormed(w)
  {
    forall r :: 0 <= r < |w.envs| ==> w.envs[r].prepareOnRoot == w.envs[0].prepareOnRoot
  }

  /** From the agreed options on, until the run is closed. */
  predicate OptionsAgreed(pc: Pc) {
    match pc
    case Agree(p) => p.Directory? || p.Init? || p.Readiness?
    case Hear(p) => p.Directory? || p.Init? || p.Readiness?
    case GetRunId => true
    case GetDirectory(_) => true
    case GatherReady => true
    case Release(_) => true
    case Collect(_) => true
    case GetVerdict(_) => true
    case _ => false
  }

  /** What rank zero's state says about the agreements. */
  predicate Agreed(w: World)
    requires WellFormed(w)
  {
    var root := w.ranks[0];
    && (root.pc == Agree(AgreeRoot) && root.error.None? ==> SamePreparation(w))
    && (root.pc == Hear(AgreeRoot) && Clear(root.held) ==> SamePreparation(w))
    && (root.pc == Agree(AgreeRun) && root.error.None? ==> SameBenchmark(w))
    && (root.pc == Hear(AgreeRun) && Clear(root.held) ==> SameBenchmark(w))
    && (OptionsAgreed(root.pc) ==> SameBenchmark(w))
  }

  /** Two ranks take part in the same collective, or have both left. */
  predicate SamePlace(a: Pc, b: Pc) {
    a == b || (a.Left? && b.Left?)
  }

  predicate InStep(w: World) {
    WellFormed(w) && Agreed(w) && forall r :: 0 <= r < |w.ranks| ==> SamePlace(w.ranks[r].pc, w.ranks[0].pc)
  }

  lemma LaunchInStep(envs: seq<Env>)
    requires envs != []
    ensures InStep(Launch(envs))
  {
  }

  lemma InStepAligned(w: World)
    requires InStep(w)
    ensures Aligned(w)
  {
    forall r | 0 <= r < |w.ranks| ensures ShapeOf(w.ranks[r].pc) == ShapeOf(w.ranks[0].pc) {
      assert SamePlace(w.ranks[r].pc, w.ranks[0].pc);
    }
  }

  function StartPc(benchmark: Option<nat>, r: nat): Pc {
    if r >= (if benchmark.Some? then benchmark.value else 1) then GatherClosed
    else if benchmark.Some? then GetDirectory(Some(r))
    else Release(r)
  }

  function ProceedPc(prepare: bool, benchmark: Option<nat>, point: Point): Pc {
    match point
    case Startup => Split
    case Context => Agree(Preflight)
    case Preflight => Compare(true)
    case AgreeRoot => if prepare then GetDescriptor else Compare(false)
    case Descriptor => Compare(false)
    case AgreeRun => GetRunId
    case Directory(None) => Agree(Init)
    case Directory(Some(r)) => Release(r)
    case Init => GatherReady
    case Readiness => StartPc(benchmark, 0)
  }

  function RaisePc(point: Point): Pc {
    if Guarded(point) then GatherClosed else Left(true)
  }

  /** Where a broadcast of v takes a rank: its registers and its number do not matter. */
  function HeardPc(pc: Pc, prepare: bool, benchmark: Option<nat>, v: Value): Pc {
    match pc
    case Hear(point) => if Clear(v) then ProceedPc(prepare, benchmark, point) else RaisePc(point)
    case GetDescriptor => Agree(Descriptor)
    case GetRunId => if v.RunId? && v.valid then GetDirectory(None) else Left(true)
    case GetDirectory(round) => if v.DirectoryMade? && v.made then Agree(Directory(round)) else GatherClosed
    case Release(r) => Collect(r)
    case GetVerdict(r) => if v.RoundVerdictOf? && v.v.RoundOk? then StartPc(benchmark, r + 1) else GatherClosed
    case GetFinal => Left(true)
    case _ => pc
  }

  lemma ProceedPlace(s: Rank, e: Env, rank: nat, point: Point)
    ensures Proceed(s, e, rank, point).pc == ProceedPc(e.prepareOnRoot, e.benchmark, point)
  {
    hide LocalError;
  }

  lemma DecisionPlace(s: Rank, e: Env, rank: nat, point: Point, v: Value)
    ensures HearDecision(s, e, rank, point, v).pc
            == if Clear(v) then ProceedPc(e.prepareOnRoot, e.benchmark, point) else RaisePc(point)
  {
    ProceedPlace(s, e, rank, point);
    RaisePlace(s, point);
    hide Proceed, Raise, ProceedPc, RaisePc, Clear;
  }

  lemma VerdictPlace(s: Rank, e: Env, rank: nat, r: nat, v: Value)
    ensures HearVerdict(s, e, rank, r, v).pc
            == if v.RoundVerdictOf? && v.v.RoundOk? then StartPc(e.benchmark, r + 1) else GatherClosed
  {
    StartPlace(s, e, rank, r + 1);
    hide StartRound, StartPc;
  }

  lemma OtherPlaces(s: Rank, e: Env, rank: nat, round: Option<nat>, v: Value)
    ensures HearRunId(s, e, rank, v).pc == if v.RunId? && v.valid then GetDirectory(None) else Left(true)
    ensures HearDirectory(s, e, rank, round, v).pc
            == if v.DirectoryMade? && v.made then Agree(Directory(round)) else GatherClosed
    ensures HearFinal(s, rank, v).pc.Left?
  {
    hide LocalError;
  }

  lemma HeardPlace(s: Rank, e: Env, rank: nat, v: Value)
    ensures SamePlace(Heard(s, e, rank, v).pc, HeardPc(s.pc, e.prepareOnRoot, e.benchmark, v))
  {
    if s.pc.Hear? {
      DecisionPlace(s, e, rank, s.pc.point, v);
      hide HearDecision, ProceedPc, RaisePc, Clear;
    } else if s.pc.GetVerdict? {
      VerdictPlace(s, e, rank, s.pc.r, v);
      hide HearVerdict, StartPc;
    } else {
      OtherHeardPlace(s, e, rank, v);
      hide Heard, HeardPc;
    }
  }

  lemma OtherHeardPlace(s: Rank, e: Env, rank: nat, v: Value)
    requires !s.pc.Hear? && !s.pc.GetVerdict?
    ensures SamePlace(Heard(s, e, rank, v).pc, HeardPc(s.pc, e.prepareOnRoot, e.benchmark, v))
  {
    OtherPlaces(s, e, rank, if s.pc.GetDirectory? then s.pc.round else None, v);
    hide LocalError, HearDecision, HearRunId, HearDirectory, HearVerdict, HearFinal, ProceedPc, RaisePc, StartPc, Clear;
  }

  lemma RaisePlace(s: Rank, point: Point)
    ensures Raise(s, point).pc == RaisePc(point)
  {
  }

  lemma StartPlace(s: Rank, e: Env, rank: nat, r: nat)
    ensures StartRound(s, e, rank, r).pc == StartPc(e.benchmark, r)
  {
  }

  /** After a broadcast, ranks at the same place with the same options go to the same place. */
  lemma HeardTogether(s: Rank, t: Rank, d: Env, e: Env, i: nat, j: nat, v: Value)
    requires s.pc == t.pc && ShapeOf(s.pc) == Broadcasts
    requires s.pc == Hear(AgreeRoot) && Clear(v) ==> d.prepareOnRoot == e.prepareOnRoot
    requires s.pc == Hear(Readiness) || s.pc.GetVerdict? ==> d.benchmark == e.benchmark
    ensures SamePlace(Heard(s, d, i, v).pc, Heard(t, e, j, v).pc)
  {
    hide Heard;
    HeardPlace(s, d, i, v);
    HeardPlace(t, e, j, v);
    assert HeardPc(s.pc, d.prepareOnRoot, d.benchmark, v) == HeardPc(t.pc, e.prepareOnRoot, e.benchmark, v);
  }

  /** Where a gather takes a rank, rank zero included. */
  function GatheredPc(pc: Pc): Pc {
    match pc
    case Agree(point) => Hear(point)
    case Compare(atRoot) => Agree(Compared(atRoot))
    case GatherReady => Agree(Readiness)
    case Collect(r) => GetVerdict(r)
    case GatherClosed => GetFinal
    case _ => pc
  }

  lemma GatherPlace(s: Rank, e: Env, rank: nat, values: seq<Value>)
    ensures RootGathered(s, e, values).pc == GatheredPc(s.pc)
    ensures PeerGathered(s, e, rank).pc == GatheredPc(s.pc)
  {
    hide ConsensusRaises, AllSame, FinalDecision, LocalError;
  }

  lemma RoundTogether(w: World, r: nat)
    requires InStep(w) && Aligned(w) && r < |w.ranks|
    ensures SamePlace(RankAfter(w, r).pc, RankAfter(w, 0).pc)
  {
    assert SamePlace(w.ranks[r].pc, w.ranks[0].pc);
    var s, root := w.ranks[r], w.ranks[0];
    match ShapeOf(root.pc) {
      case Broadcasts =>
        HeardTogether(s, root, w.envs[r], w.envs[0], r, 0, Offer(root, w.envs[0], 0));
        hide Heard, InStep, Agreed, Aligned;
      case Gathers =>
        GatherPlace(s, w.envs[r], r, Offers(w));
        GatherPlace(root, w.envs[0], 0, Offers(w));
        hide RootGathered, PeerGathered, InStep, Agreed, Aligned;
      case _ => hide LocalError, InStep, Agreed, Aligned;
    }
  }

  // ----- the agreements hold when they are relied on -----

  lemma ConsensusExact(values: seq<Value>)
    requires forall i :: 0 <= i < |values| ==> values[i].Failure?
    ensures !ConsensusRaises(values) <==> forall i :: 0 <= i < |values| ==> values[i].error.None?
  {
    RaisesExactly("", Errors(values));
    hide Decision, RankItems;
    assert forall i :: 0 <= i < |values| ==> Errors(values)[i] == values[i].error;
  }

  lemma OffersAreErrors(w: World)
    requires InStep(w) && w.ranks[0].pc.Agree?
    ensures forall r :: 0 <= r < |w.ranks| ==> w.ranks[r].pc == w.ranks[0].pc && Offers(w)[r] == Failure(w.ranks[r].error)
  {
    forall r | 0 <= r < |w.ranks| ensures w.ranks[r].pc == w.ranks[0].pc && Offers(w)[r] == Failure(w.ranks[r].error) {
      assert SamePlace(w.ranks[r].pc, w.ranks[0].pc);
    }
    hide Agreed;
  }

  lemma CompareExact(w: World)
    requires InStep(w) && w.ranks[0].pc.Compare? && AllSame(Offers(w))
    ensures w.ranks[0].pc == Compare(true) ==> SamePreparation(w)
    ensures w.ranks[0].pc != Compare(true) ==> SameBenchmark(w)
  {
    hide Agreed;
    forall r | 0 <= r < |w.envs|
      ensures w.ranks[0].pc == Compare(true) ==> w.envs[r].prepareOnRoot == w.envs[0].prepareOnRoot
      ensures w.ranks[0].pc != Compare(true) ==> w.envs[r].benchmark == w.envs[0].benchmark
    {
      assert SamePlace(w.ranks[r].pc, w.ranks[0].pc);
      assert Offers(w)[r] == Offers(w)[0];
    }
  }

  lemma RoundAgreed(w: World)
    requires InStep(w) && Aligned(w)
    ensures Agreed(Round(w))
  {
    match ShapeOf(w.ranks[0].pc) {
      case Gathers => GatherAgreed(w);
      case Broadcasts => BroadcastAgreed(w);
      case _ => hide LocalError;
    }
  }

  lemma GatherAgreed(w: World)
    requires InStep(w) && Aligned(w) && ShapeOf(w.ranks[0].pc) == Gathers
    ensures Agreed(Round(w))
  {
    var root, e := w.ranks[0], w.envs[0];
    GatherPlace(root, e, 0, Offers(w));
    assert Round(w).ranks[0] == RootGathered(root, e, Offers(w));
    if root.pc.Agree? {
      DecisionAgreed(w);
    } else if root.pc.Compare? {
      ComparisonAgreed(w);
    } else {
      hide RootGathered, RankAfter, InStep, Aligned, Offers;
    }
  }

  lemma DecisionAgreed(w: World)
    requires InStep(w) && Aligned(w) && w.ranks[0].pc.Agree?
    ensures Agreed(Round(w))
  {
    var point := w.ranks[0].pc.point;
    OffersAreErrors(w);
    ConsensusExact(Offers(w));
    assert Offers(w)[0] == Failure(w.ranks[0].error);
    assert Round(w).ranks[0] == w.ranks[0].(pc := Hear(point), held := Verdict(ConsensusRaises(Offers(w))));
    hide ConsensusRaises, Offers, InStep, RankAfter, Round;
  }

  lemma ComparisonAgreed(w: World)
    requires InStep(w) && Aligned(w) && w.ranks[0].pc.Compare?
    ensures Agreed(Round(w))
  {
    if AllSame(Offers(w)) {
      CompareExact(w);
    }
    var z := Round(w);
    assert z.ranks[0].pc == Agree(Compared(w.ranks[0].pc.atRoot)) && (z.ranks[0].error.None? <==> AllSame(Offers(w)));
    hide Offers, AllSame, InStep, RankAfter, Round;
  }

  /** The place a broadcast leads to relies on the options only when they are agreed. */
  lemma BroadcastAgreed(w: World)
    requires InStep(w) && Aligned(w) && ShapeOf(w.ranks[0].pc) == Broadcasts
    ensures Agreed(Round(w))
  {
    var root, e := w.ranks[0], w.envs[0];
    var v := Offer(root, e, 0);
    var z := Round(w);
    assert z.ranks[0] == Heard(root, e, 0, v) && v == root.held;
    HeardPlace(root, e, 0, v);
    hide Heard, RankAfter, InStep, Round;
    HeardPcAgreed(root.pc, e.prepareOnRoot, e.benchmark, v);
    hide HeardPc, OptionsAgreed;
  }

  lemma HeardPcAgreed(pc: Pc, prepare: bool, benchmark: Option<nat>, v: Value)
    requires ShapeOf(pc) == Broadcasts
    ensures var next := HeardPc(pc, prepare, benchmark, v);
            && (OptionsAgreed(next) ==> OptionsAgreed(pc) || (pc == Hear(AgreeRun) && Clear(v)))
            && next != Agree(AgreeRoot) && next != Hear(AgreeRoot) && next != Agree(AgreeRun) && next != Hear(AgreeRun)
  {
  }

  lemma RoundInStep(w: World)
    requires InStep(w)
    ensures InStep(Round(w)) && Aligned(w)
  {
    InStepAligned(w);
    RoundAgreed(w);
    hide Agreed, RankAfter;
    forall r | 0 <= r < |w.ranks| ensures SamePlace(Round(w).ranks[r].pc, Round(w).ranks[0].pc) {
      RoundTogether(w, r);
    }
  }

  /**
   * Ranks never diverge: whatever fails locally on whichever ranks, and however their
   * inputs differ, before every collective all ranks have arrived at the same one.
   */
  lemma {:induction false} RanksStayAligned(envs: seq<Env>, n: nat)
    requires envs != []
    ensures InStep(Rounds(Launch(envs), n)) && Aligned(Rounds(Launch(envs), n))
  {
    hide InStep, Round;
    if n == 0 {
      LaunchInStep(envs);
    } else {
      RanksStayAligned(envs, n - 1);
      RoundInStep(Rounds(Launch(envs), n - 1));
    }
    RoundInStep(Rounds(Launch(envs), n));
  }

  // ----- a consensus raises on all ranks or on none -----

  lemma PlaceAt(w: World, r: nat)
    requires InStep(w) && r < |w.ranks| && !w.ranks[0].pc.Left?
    ensures w.ranks[r].pc == w.ranks[0].pc && ShapeOf(w.ranks[r].pc) == ShapeOf(w.ranks[0].pc)
  {
    hide Agreed;
    assert SamePlace(w.ranks[r].pc, w.ranks[0].pc);
  }

  /** What rank zero holds after the gather of a consensus. */
  lemma ConsensusHeld(w: World, point: Point)
    requires InStep(w) && w.ranks[0].pc == Agree(point)
    ensures var z := Round(w);
            && z.ranks[0].held.Verdict?
            && (Clear(z.ranks[0].held) <==> forall r :: 0 <= r < |w.ranks| ==> w.ranks[r].error.None?)
            && forall r :: 0 <= r < |w.ranks| ==>
                 z.ranks[r].pc == Hear(point) && z.ranks[r].aborted == w.ranks[r].aborted
  {
    InStepAligned(w);
    OffersAreErrors(w);
    ConsensusExact(Offers(w));
    forall r | 0 <= r < |w.ranks|
      ensures Round(w).ranks[r].pc == Hear(point) && Round(w).ranks[r].aborted == w.ranks[r].aborted
      ensures r == 0 ==> Round(w).ranks[r].held == Verdict(ConsensusRaises(Offers(w)))
    {
      GatheredForConsensus(w, point, r);
    }
    hide ConsensusRaises, Agreed, Round, RankAfter, Offer;
    assert forall r :: 0 <= r < |w.ranks| ==> Offers(w)[r].error == w.ranks[r].error;
  }

  lemma GatheredForConsensus(w: World, point: Point, r: nat)
    requires InStep(w) && Aligned(w) && w.ranks[0].pc == Agree(point) && r < |w.ranks|
    ensures Round(w).ranks[r].pc == Hear(point) && Round(w).ranks[r].aborted == w.ranks[r].aborted
    ensures r == 0 ==> Round(w).ranks[r].held == Verdict(ConsensusRaises(Offers(w)))
  {
    PlaceAt(w, r);
    assert Round(w).ranks[r] == RankAfter(w, r);
    hide Agreed, Offers, ConsensusRaises, Aligned, InStep, Round;
  }

  /**
   * A consensus point raises on all ranks or on none, and exactly when some rank
   * arrived with an error. Before the run directory exists the ranks leave; afterwards
   * they all go on to close their workers.
   */
  lemma ConsensusAllOrNone(w: World, point: Point, r: nat)
    requires InStep(w) && w.ranks[0].pc == Agree(point) && r < |w.ranks|
    ensures var z := Round(Round(w));
            if exists k :: 0 <= k < |w.ranks| && w.ranks[k].error.Some? then
              z.ranks[r].pc == RaisePc(point) && (Guarded(point) ==> z.ranks[r].aborted)
            else
              z.ranks[r].pc == ProceedPc(w.envs[r].prepareOnRoot, w.envs[r].benchmark, point)
              && z.ranks[r].aborted == w.ranks[r].aborted
  {
    ConsensusHeld(w, point);
    RoundInStep(w);
    var y := Round(w);
    InStepAligned(y);
    assert Round(y).ranks[r] == Heard(y.ranks[r], y.envs[r], r, y.ranks[0].held);
    ProceedPlace(y.ranks[r], y.envs[r], r, point);
    RaisePlace(y.ranks[r], point);
    ProceedAborted(y.ranks[r], y.envs[r], r, point);
    hide Round, Proceed, Raise, InStep;
    RaiseAborts(y.ranks[r], point);
  }

  lemma ProceedAborted(s: Rank, e: Env, rank: nat, point: Point)
    ensures Proceed(s, e, rank, point).aborted == s.aborted
  {
    hide LocalError;
  }

  lemma RaiseAborts(s: Rank, point: Point)
    ensures Guarded(point) ==> Raise(s, point).aborted
  {
  }

  // ----- the end -----

  /** Ranks that have left hold the same final decision, or all left before there was one. */
  predicate EndAgreed(w: World) {
    WellFormed(w)
    && (w.ranks[0].pc.Left? ==> forall r :: 0 <= r < |w.ranks| ==> EndsLike(w.ranks[r], w.ranks[0].heard, r))
    && (!w.ranks[0].pc.Left? ==> forall r :: 0 <= r < |w.ranks| ==> w.ranks[r].heard.None?)
  }

  predicate EndsLike(s: Rank, final: Option<Final>, rank: nat) {
    && s.pc.Left? && s.heard == final
    && (s.pc.raised <==> final.None? || final.value == CannotPersist || (rank != 0 && final.value == FailedStatus))
  }

  lemma HeardFinal(s: Rank, e: Env, rank: nat, v: Value)
    ensures var t := Heard(s, e, rank, v);
            if s.pc.GetFinal? then EndsLike(t, Some(if v.FinalOf? then v.f else CannotPersist), rank)
            else t.heard == s.heard && (t.pc.Left? && !s.pc.Left? ==> t.pc.raised)
  {
    hide LocalError, HearDecision, HearVerdict, HearRunId, HearDirectory, HearFinal, EndsLike;
    match s.pc {
      case Hear(point) => DecisionFinal(s, e, rank, point, v);
      case GetVerdict(r) => VerdictFinal(s, e, rank, r, v);
      case GetRunId => OthersFinal(s, e, rank, None, v);
      case GetDirectory(round) => OthersFinal(s, e, rank, round, v);
      case GetFinal => LastBroadcast(s, rank, v);
      case _ =>
    }
  }

  lemma DecisionFinal(s: Rank, e: Env, rank: nat, point: Point, v: Value)
    ensures var t := HearDecision(s, e, rank, point, v); t.heard == s.heard && (t.pc.Left? ==> t.pc.raised)
  {
    ProceedFinal(s, e, rank, point);
    hide Proceed;
  }

  lemma VerdictFinal(s: Rank, e: Env, rank: nat, r: nat, v: Value)
    ensures var t := HearVerdict(s, e, rank, r, v); t.heard == s.heard && !t.pc.Left?
  {
    StartFinal(s, e, rank, r + 1);
    hide StartRound;
  }

  lemma OthersFinal(s: Rank, e: Env, rank: nat, round: Option<nat>, v: Value)
    ensures var t := HearRunId(s, e, rank, v); t.heard == s.heard && (t.pc.Left? ==> t.pc.raised)
    ensures var t := HearDirectory(s, e, rank, round, v); t.heard == s.heard && !t.pc.Left?
  {
    hide LocalError;
  }

  lemma LastBroadcast(s: Rank, rank: nat, v: Value)
    ensures EndsLike(HearFinal(s, rank, v), Some(if v.FinalOf? then v.f else CannotPersist), rank)
  {
  }

  lemma ProceedFinal(s: Rank, e: Env, rank: nat, point: Point)
    ensures Proceed(s, e, rank, point).heard == s.heard && !Proceed(s, e, rank, point).pc.Left?
  {
    hide LocalError;
  }

  lemma StartFinal(s: Rank, e: Env, rank: nat, r: nat)
    ensures StartRound(s, e, rank, r).heard == s.heard && !StartRound(s, e, rank, r).pc.Left?
  {
  }

  lemma GatherKeepsHeard(w: World, r: nat)
    requires InStep(w) && Aligned(w) && ShapeOf(w.ranks[0].pc) in {Gathers, Splits} && r < |w.ranks|
    ensures RankAfter(w, r).heard == w.ranks[r].heard && !RankAfter(w, r).pc.Left?
  {
    PlaceAt(w, r);
    hide ConsensusRaises, AllSame, FinalDecision, LocalError, Agreed, Offers;
  }

  lemma RoundEndAgreed(w: World)
    requires InStep(w) && EndAgreed(w)
    ensures EndAgreed(Round(w))
  {
    InStepAligned(w);
    RoundInStep(w);
    var z := Round(w);
    forall r | 0 <= r < |w.ranks|
      ensures z.ranks[0].pc.Left? ==> EndsLike(z.ranks[r], z.ranks[0].heard, r)
      ensures !z.ranks[0].pc.Left? ==> z.ranks[r].heard.None?
    {
      RankEnd(w, r);
    }
  }

  lemma RankEnd(w: World, r: nat)
    requires InStep(w) && EndAgreed(w) && Aligned(w) && r < |w.ranks|
    ensures var z := Round(w);
            && (z.ranks[0].pc.Left? ==> EndsLike(z.ranks[r], z.ranks[0].heard, r))
            && (!z.ranks[0].pc.Left? ==> z.ranks[r].heard.None?)
  {
    var z := Round(w);
    assert z.ranks[r] == RankAfter(w, r) && z.ranks[0] == RankAfter(w, 0);
    RoundTogether(w, r);
    if !w.ranks[0].pc.Left? {
      PlaceAt(w, r);
      if ShapeOf(w.ranks[0].pc) == Broadcasts {
        HeardFinal(w.ranks[r], w.envs[r], r, w.ranks[0].held);
        HeardFinal(w.ranks[0], w.envs[0], 0, w.ranks[0].held);
        hide Heard, InStep, Aligned;
      } else {
        GatherKeepsHeard(w, r);
        if r != 0 {
          GatherKeepsHeard(w, 0);
        }
        hide RankAfter, InStep, Aligned;
      }
    } else {
      hide InStep, Aligned;
    }
  }

  /** All ranks hold the same final decision whenever one of them holds one. */
  lemma {:induction false} OneDecision(envs: seq<Env>, n: nat)
    requires envs != []
    ensures EndAgreed(Rounds(Launch(envs), n))
  {
    hide EndAgreed, Round, InStep;
    if n == 0 {
      LaunchEndAgreed(envs);
    } else {
      OneDecision(envs, n - 1);
      RanksStayAligned(envs, n - 1);
      RoundEndAgreed(Rounds(Launch(envs), n - 1));
    }
  }

  lemma LaunchEndAgreed(envs: seq<Env>)
    requires envs != []
    ensures EndAgreed(Launch(envs))
  {
  }

  // ----- every run ends -----

  /** Collectives still ahead of a rank, at most; a round takes six. */
  function Budget(pc: Pc, rounds: nat): nat {
    match pc
    case Left(_) => 0
    case GetFinal => 1
    case GatherClosed => 2
    case GetVerdict(r) => AfterRound(r, rounds) + 1
    case Collect(r) => AfterRound(r, rounds) + 2
    case Release(r) => AfterRound(r, rounds) + 3
    case Hear(Directory(Some(r))) => AfterRound(r, rounds) + 4
    case Agree(Directory(Some(r))) => AfterRound(r, rounds) + 5
    case GetDirectory(Some(r)) => AfterRound(r, rounds) + 6
    case Hear(p) => FirstRound(rounds) + 2 * PointsLeft(p)
    case Agree(p) => FirstRound(rounds) + 2 * PointsLeft(p) + 1
    case GatherReady => FirstRound(rounds) + 4
    case GetDirectory(None) => FirstRound(rounds) + 10
    case GetRunId => FirstRound(rounds) + 11
    case Compare(false) => FirstRound(rounds) + 14
    case GetDescriptor => FirstRound(rounds) + 18
    case Compare(true) => FirstRound(rounds) + 22
    case Split => FirstRound(rounds) + 28
  }

  function AfterRound(r: nat, rounds: nat): nat { 2 + if r < rounds then 6 * (rounds - r - 1) else 0 }

  function FirstRound(rounds: nat): nat { 2 + 6 * rounds }

  /** Consensus points from p on, spaced to leave room for the collectives between them. */
  function PointsLeft(p: Point): nat {
    match p
    case Readiness => 1
    case Init => 3
    case Directory(_) => 4
    case AgreeRun => 6
    case Descriptor => 8
    case AgreeRoot => 10
    case Preflight => 12
    case Context => 13
    case Startup => 15
  }

  lemma GatherSpends(pc: Pc, rounds: nat)
    requires ShapeOf(pc) == Gathers
    ensures Budget(GatheredPc(pc), rounds) < Budget(pc, rounds)
  {
  }

  lemma StartSpends(benchmark: Option<nat>, r: nat, rounds: nat)
    requires rounds == if benchmark.Some? then benchmark.value else 1
    ensures Budget(StartPc(benchmark, r), rounds) <= if r < rounds then 2 + 6 * (rounds - r) else 2
  {
  }

  lemma BroadcastSpends(pc: Pc, prepare: bool, benchmark: Option<nat>, v: Value, rounds: nat)
    requires ShapeOf(pc) == Broadcasts && rounds == if benchmark.Some? then benchmark.value else 1
    ensures Budget(HeardPc(pc, prepare, benchmark, v), rounds) < Budget(pc, rounds)
  {
    hide StartPc, Clear;
    match pc {
      case GetVerdict(r) => StartSpends(benchmark, r + 1, rounds);
      case Hear(point) =>
        ProceedSpends(prepare, benchmark, point, rounds);
        hide ProceedPc, RaisePc, Budget;
      case _ =>
    }
  }

  lemma ProceedSpends(prepare: bool, benchmark: Option<nat>, point: Point, rounds: nat)
    requires rounds == if benchmark.Some? then benchmark.value else 1
    ensures Budget(ProceedPc(prepare, benchmark, point), rounds) < Budget(Hear(point), rounds)
    ensures Budget(RaisePc(point), rounds) < Budget(Hear(point), rounds)
  {
    hide StartPc;
    if point == Readiness {
      StartSpends(benchmark, 0, rounds);
    }
  }

  /** Each collective brings rank zero nearer to leaving. */
  lemma RoundSpends(w: World)
    requires InStep(w) && !w.ranks[0].pc.Left?
    ensures Budget(Round(w).ranks[0].pc, RoundCount(w.envs[0])) < Budget(w.ranks[0].pc, RoundCount(w.envs[0]))
  {
    InStepAligned(w);
    var root, e := w.ranks[0], w.envs[0];
    assert Round(w).ranks[0] == RankAfter(w, 0);
    match ShapeOf(root.pc) {
      case Gathers =>
        GatherPlace(root, e, 0, Offers(w));
        GatherSpends(root.pc, RoundCount(e));
        hide RootGathered, Budget, GatheredPc, InStep, Aligned;
      case Broadcasts =>
        HeardPlace(root, e, 0, Offer(root, e, 0));
        BroadcastSpends(root.pc, e.prepareOnRoot, e.benchmark, Offer(root, e, 0), RoundCount(e));
        LeftSpent(Round(w).ranks[0].pc, HeardPc(root.pc, e.prepareOnRoot, e.benchmark, Offer(root, e, 0)), RoundCount(e));
        hide Heard, Budget, HeardPc, InStep, Aligned;
      case _ => hide LocalError, InStep, Aligned;
    }
  }

  lemma LeftSpent(a: Pc, b: Pc, rounds: nat)
    requires SamePlace(a, b)
    ensures Budget(a, rounds) == Budget(b, rounds)
  {
  }

  lemma {:induction false} BudgetFalls(envs: seq<Env>, n: nat)
    requires envs != []
    ensures var w := Rounds(Launch(envs), n);
            w.ranks[0].pc.Left? || Budget(w.ranks[0].pc, RoundCount(envs[0])) + n <= FirstRound(RoundCount(envs[0])) + 31
  {
    hide Round, Budget, InStep;
    if n == 0 {
      LaunchBudget(envs);
    } else {
      BudgetFalls(envs, n - 1);
      RanksStayAligned(envs, n - 1);
      var w := Rounds(Launch(envs), n - 1);
      if w.ranks[0].pc.Left? {
        LeftStays(w);
      } else {
        RoundSpends(w);
      }
    }
  }

  lemma LaunchBudget(envs: seq<Env>)
    requires envs != []
    ensures Budget(Launch(envs).ranks[0].pc, RoundCount(envs[0])) <= FirstRound(RoundCount(envs[0])) + 31
  {
  }

  lemma LeftStays(w: World)
    requires WellFormed(w) && w.ranks[0].pc.Left?
    ensures Round(w).ranks[0].pc.Left?
  {
  }

  /** Every run ends on every rank after a bounded number of collectives. */
  lemma EveryRankLeaves(envs: seq<Env>, r: nat)
    requires r < |envs|
    ensures Rounds(Launch(envs), FirstRound(RoundCount(envs[0])) + 32).ranks[r].pc.Left?
  {
    var n := FirstRound(RoundCount(envs[0])) + 32;
    BudgetFalls(envs, n);
    RanksStayAligned(envs, n);
    hide Round, Rounds, Budget, FirstRound, Agreed, Launch;
    assert SamePlace(Rounds(Launch(envs), n).ranks[r].pc, Rounds(Launch(envs), n).ranks[0].pc);
  }
}
