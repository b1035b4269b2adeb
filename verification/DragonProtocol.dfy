/**
 * The Dragon coordinator and its workers (src/cuphoton/core/dragon.py) as a
 * transition system: bounded queues, receipts phase by phase, workers that leave
 * early or exit silently, and the snapshot-then-drain exit detection. Queues
 * deliver in order and lose nothing; a worker is listed as inactive only once it
 * has exited; waits for a command do not time out; any coordinator failure that is
 * not modelled step by step is the step GiveUp.
 */
module DragonProtocol {
  import opened FiniteSets
  import opened Options

  /** Phase 0 collects READY, phase r + 1 round r, the last phase CLOSED. */
  datatype Kind = Ready | Round(r: nat) | Closed

  datatype Message = Message(worker: nat, kind: Kind, ok: bool)

  datatype Pc =
    | Waiting(phase: nat)  // for the command of a phase
    | At(phase: nat)       // working towards the receipt of a phase
    | Failing              // a failed receipt is out, the closed message is not
    | Ended                // the closed message is out
    | Confused             // an unexpected command arrived

  /** `slot` is the worker's command queue of size one. */
  datatype Worker = Worker(pc: Pc, alive: bool, slot: Option<nat>)

  datatype Reason = PhaseFailed | InvalidIdentity | ExitedEarly(missing: set<nat>) | Other

  datatype Mode = Running | Stopped(reason: Reason) | Finished

  /** Workers below `dispatched` have been sent the command of the phase. */
  datatype Coordinator = Coordinator(
    phase: nat, dispatched: nat, seen: set<nat>, failed: set<nat>, closed: set<nat>,
    snapshot: Option<set<nat>>, polled: bool, mode: Mode)

  /** A worker put the receipt of a phase. */
  datatype Receipt = Receipt(worker: nat, phase: nat, ok: bool)

  /** `sent` remembers every receipt ever put, `aborted` every worker that left without a failed receipt. */
  datatype System = System(
    rounds: nat, workers: seq<Worker>, results: seq<Message>, c: Coordinator, sent: set<Receipt>, aborted: set<nat>)

  datatype Step =
    | SendReceipt(w: nat, ok: bool)
    | TakeCommand(w: nat)
    | SendClosed(w: nat)
    | Abort(w: nat)  // leave for the closing block before the receipt, as on SystemExit
    | Exit(w: nat)
    | Crash(w: nat)
    | GetMessage
    | GetEmpty
    | TakeSnapshot(exits: set<nat>)
    | EndPhase
    | PutCommand
    | GiveUp

  function LastPhase(s: System): nat { s.rounds + 1 }

  function KindOf(s: System, phase: nat): Kind {
    if phase == 0 then Ready else if phase <= s.rounds then Round(phase - 1) else Closed
  }

  /** worker_count results fit twice. */
  function Capacity(s: System): nat { 2 * |s.workers| }

  function Start(workers: nat, rounds: nat): System {
    System(rounds, seq(workers, _ => Worker(At(0), true, None)), [],
           Coordinator(0, workers, {}, {}, {}, None, false, Running), {}, {})
  }

  predicate Collecting(s: System) {
    s.c.mode == Running && s.c.dispatched >= |s.workers| && |s.c.seen| < |s.workers|
  }

  predicate Enabled(s: System, step: Step) {
    match step
    case SendReceipt(w, _) => w < |s.workers| && s.workers[w].alive && s.workers[w].pc.At? && |s.results| < Capacity(s)
    case TakeCommand(w) =>
      w < |s.workers| && s.workers[w].alive && s.workers[w].pc.Waiting? && s.workers[w].slot.Some?
    case SendClosed(w) => w < |s.workers| && s.workers[w].alive && s.workers[w].pc == Failing && |s.results| < Capacity(s)
    case Abort(w) =>
      w < |s.workers| && s.workers[w].alive && (s.workers[w].pc.At? || s.workers[w].pc.Waiting?)
      && |s.results| < Capacity(s)
    case Exit(w) => w < |s.workers| && s.workers[w].alive && s.workers[w].pc == Ended
    case Crash(w) => w < |s.workers| && s.workers[w].alive
    case GetMessage => Collecting(s) && !s.c.polled && s.results != []
    case GetEmpty => Collecting(s) && !s.c.polled && s.results == []
    case TakeSnapshot(exits) =>
      Collecting(s) && s.c.polled && forall w :: w in exits ==> w < |s.workers| && !s.workers[w].alive
    case EndPhase => s.c.mode == Running && s.c.dispatched >= |s.workers| && |s.c.seen| >= |s.workers|
    case PutCommand =>
      s.c.mode == Running && s.c.dispatched < |s.workers| && s.workers[s.c.dispatched].slot.None?
    case GiveUp => s.c.mode == Running
  }

  function SetWorker(s: System, w: nat, worker: Worker): System
    requires w < |s.workers|
  {
    s.(workers := s.workers[w := worker])
  }

  /** The coordinator's treatment of one message. */
  function Receive(s: System, m: Message): Coordinator {
    var c := s.c;
    if c.phase != LastPhase(s) && m.kind == Closed then
      if m.worker !in c.failed || m.worker in c.closed then c.(mode := Stopped(InvalidIdentity))
      else c.(closed := c.closed + {m.worker})
    else if m.kind != KindOf(s, c.phase) || m.worker >= |s.workers| || m.worker in c.seen then
      c.(mode := Stopped(InvalidIdentity))
    else c.(seen := c.seen + {m.worker}, failed := if m.ok then c.failed else c.failed + {m.worker})
  }

  function Do(s: System, step: Step): System
    requires Enabled(s, step)
  {
    match step
    case SendReceipt(w, ok) =>
      var p := s.workers[w].pc.phase;
      var next := if p == LastPhase(s) then Ended else if ok then Waiting(p + 1) else Failing;
      SetWorker(s, w, s.workers[w].(pc := next)).(
        results := s.results + [Message(w, KindOf(s, p), ok)], sent := s.sent + {Receipt(w, p, ok)})
    case TakeCommand(w) =>
      var worker := s.workers[w];
      var pc := if worker.slot.value == worker.pc.phase then At(worker.pc.phase) else Confused;
      SetWorker(s, w, Worker(pc, true, None))
    case SendClosed(w) =>
      SetWorker(s, w, s.workers[w].(pc := Ended)).(results := s.results + [Message(w, Closed, false)])
    case Abort(w) =>
      SetWorker(s, w, s.workers[w].(pc := Ended)).(
        results := s.results + [Message(w, Closed, false)], aborted := s.aborted + {w})
    case Exit(w) => SetWorker(s, w, s.workers[w].(alive := false))
    case Crash(w) => SetWorker(s, w, s.workers[w].(alive := false))
    case GetMessage => s.(results := s.results[1..], c := Receive(s, s.results[0]))
    case GetEmpty =>
      if s.c.snapshot.None? then s.(c := s.c.(polled := true))
      else
        var missing := s.c.snapshot.value - s.c.seen;
        s.(c := if missing != {} then s.c.(mode := Stopped(ExitedEarly(missing))) else s.c.(snapshot := None))
    case TakeSnapshot(exits) => s.(c := s.c.(polled := false, snapshot := if exits == {} then None else Some(exits)))
    case EndPhase =>
      s.(c := if s.c.failed != {} then s.c.(mode := Stopped(PhaseFailed))
              else if s.c.phase == LastPhase(s) then s.c.(mode := Finished)
              else Coordinator(s.c.phase + 1, 0, {}, {}, s.c.closed, None, false, Running))
    case PutCommand =>
      var k := s.c.dispatched;
      SetWorker(s, k, s.workers[k].(slot := Some(s.c.phase))).(c := s.c.(dispatched := k + 1))
    case GiveUp => s.(c := s.c.(mode := Stopped(Other)))
  }

  // ----- messages of one worker -----

  /** The messages of worker w still in the queue, in order. */
  function Mine(results: seq<Message>, w: nat): seq<Message> {
    if results == [] then []
    else
      var last := |results| - 1;
      Mine(results[..last], w) + if results[last].worker == w then [results[last]] else []
  }

  lemma MineAppend(results: seq<Message>, m: Message, w: nat)
    ensures Mine(results + [m], w) == Mine(results, w) + if m.worker == w then [m] else []
  {
    assert (results + [m])[..|results|] == results;
  }

  lemma {:induction false} MineHead(results: seq<Message>, w: nat)
    requires results != []
    ensures Mine(results, w) == (if results[0].worker == w then [results[0]] else []) + Mine(results[1..], w)
  {
    var last := |results| - 1;
    if last > 0 {
      MineHead(results[..last], w);
      assert results[..last][1..] == results[1..][..last - 1];
    }
  }

  // ----- what every run keeps -----

  /** Where a worker stands against the coordinator's phase, and what of it is still in the queue. */
  datatype Stand =
    | Untold   // the command of the phase is not sent
    | Told     // it waits in the worker's command queue
    | Busy     // the receipt is not put
    | Passed   // an ok receipt is put
    | Failed   // a failed receipt is put, nothing after it
    | Gone     // a failed receipt and the closed message are put
    | Quit     // the closed message is put and no receipt
    | PassedQuit  // an ok receipt and the closed message are put

  /** The worker's own state. */
  predicate Stands(s: System, w: nat, stand: Stand)
    requires w < |s.workers|
  {
    var p, worker := s.c.phase, s.workers[w];
    match stand
    case Untold => worker.pc == Waiting(p) && worker.slot == None
    case Told => worker.pc == Waiting(p) && worker.slot == Some(p)
    case Busy => worker.pc == At(p) && worker.slot == None
    case Passed => worker.pc == (if p == LastPhase(s) then Ended else Waiting(p + 1)) && worker.slot == None
    case Failed => worker.pc == (if p == LastPhase(s) then Ended else Failing) && worker.slot == None
    case Gone => worker.pc == Ended && worker.slot == None && p < LastPhase(s)
    case Quit =>
      worker.pc == Ended && worker.slot in {None, Some(p)} && (w >= s.c.dispatched ==> worker.slot == None)
    case PassedQuit => worker.pc == Ended && worker.slot == None && p < LastPhase(s)
  }

  /** What it has put in the phase, in order. */
  function Put(s: System, w: nat, stand: Stand): seq<Message> {
    var p := s.c.phase;
    match stand
    case Passed => [Message(w, KindOf(s, p), true)]
    case Failed => [Message(w, KindOf(s, p), false)]
    case Gone => [Message(w, KindOf(s, p), false), Message(w, Closed, false)]
    case Quit => [Message(w, Closed, false)]
    case PassedQuit => [Message(w, KindOf(s, p), true), Message(w, Closed, false)]
    case _ => []
  }

  /** The coordinator has taken a closed message it does not accept before the last phase. */
  predicate Refused(s: System, stand: Stand, n: nat) {
    s.c.phase < LastPhase(s) && ((stand.Quit? && n >= 1) || (stand.PassedQuit? && n >= 2))
  }

  /** How many of those the coordinator has taken. */
  predicate Taken(s: System, w: nat, stand: Stand, n: nat) {
    && n <= |Put(s, w, stand)|
    && (w in s.c.seen <==> n >= 1 && !(stand.Quit? && s.c.phase < LastPhase(s)))
    && (w in s.c.failed <==> w in s.c.seen && !stand.Passed? && !stand.PassedQuit?)
    && (w in s.c.closed <==> stand.Gone? && n == 2)
    && (Refused(s, stand, n) ==> s.c.mode == Stopped(InvalidIdentity))
  }

  predicate StandsAt(s: System, w: nat, stand: Stand, n: nat)
    requires w < |s.workers|
  {
    && Stands(s, w, stand) && Taken(s, w, stand, n)
    && Mine(s.results, w) == Put(s, w, stand)[n..]
    && (stand.Quit? || (stand.Untold? <==> w >= s.c.dispatched))
    && (Receipt(w, s.c.phase, true) in s.sent <==> stand.Passed? || stand.PassedQuit?)
    && (Receipt(w, s.c.phase, false) in s.sent <==> stand.Failed? || stand.Gone?)
    && (w in s.aborted <==> stand.Quit? || stand.PassedQuit?)
  }

  ghost predicate WorkerSound(s: System, w: nat)
    requires w < |s.workers|
  {
    exists stand, n :: StandsAt(s, w, stand, n)
  }

  /** Receipts belong to phases reached, failed ones to the current one, and everyone passed every earlier phase. */
  predicate HistorySound(s: System) {
    && (forall r :: r in s.sent ==> r.worker < |s.workers| && r.phase <= s.c.phase && (!r.ok ==> r.phase == s.c.phase))
    && (forall w :: w in s.aborted ==> w < |s.workers|)
    && forall w, p :: 0 <= w < |s.workers| && 0 <= p < s.c.phase ==> Receipt(w, p, true) in s.sent
  }

  /** The coordinator's sets speak of workers, its snapshot of exited ones. */
  predicate CoordinatorSound(s: System) {
    && s.c.phase <= LastPhase(s) && s.c.dispatched <= |s.workers|
    && (s.c.mode == Finished ==> s.c.phase == LastPhase(s) && s.c.failed == {} && |s.c.seen| >= |s.workers|)
    && (forall w :: w in s.c.seen ==> w < |s.workers|)
    && (s.c.snapshot.Some? ==> forall w :: w in s.c.snapshot.value ==> w < |s.workers| && !s.workers[w].alive)
    && (forall i :: 0 <= i < |s.results| ==> s.results[i].worker < |s.workers|)
  }

  ghost predicate Sound(s: System) {
    && CoordinatorSound(s) && HistorySound(s)
    && forall w :: 0 <= w < |s.workers| ==> WorkerSound(s, w)
  }

  lemma StartSound(workers: nat, rounds: nat)
    ensures Sound(Start(workers, rounds))
  {
    var s := Start(workers, rounds);
    forall w | 0 <= w < |s.workers| ensures WorkerSound(s, w) {
      assert StandsAt(s, w, Busy, 0);
    }
  }

  lemma StandingSound(s: System, w: nat, stand: Stand, n: nat)
    requires w < |s.workers| && StandsAt(s, w, stand, n)
    ensures WorkerSound(s, w)
  {
  }

  lemma Standing(s: System, w: nat) returns (stand: Stand, n: nat)
    requires w < |s.workers| && WorkerSound(s, w)
    ensures StandsAt(s, w, stand, n)
  {
    stand, n :| StandsAt(s, w, stand, n);
  }

  // ----- worker steps -----

  /** What a step of worker w leaves alone. */
  ghost predicate OnlyWorker(s: System, z: System, w: nat) {
    && z.c == s.c && z.rounds == s.rounds && |z.workers| == |s.workers|
    && (forall v :: 0 <= v < |s.workers| && v != w ==> z.workers[v] == s.workers[v])
    && (forall v :: 0 <= v < |s.workers| && v != w ==> Mine(z.results, v) == Mine(s.results, v))
    && (forall r: Receipt :: r.worker != w ==> (r in z.sent <==> r in s.sent))
    && (forall v :: v != w ==> (v in z.aborted <==> v in s.aborted))
  }

  lemma OthersSound(s: System, z: System, w: nat, v: nat)
    requires v < |s.workers| && v != w && OnlyWorker(s, z, w) && WorkerSound(s, v)
    ensures WorkerSound(z, v)
  {
    hide OnlyWorker;
    var stand, n := Standing(s, v);
    OthersStand(s, z, w, v, stand, n);
  }

  lemma OthersStand(s: System, z: System, w: nat, v: nat, stand: Stand, n: nat)
    requires v < |s.workers| && v != w && OnlyWorker(s, z, w) && StandsAt(s, v, stand, n)
    ensures |z.workers| == |s.workers| && StandsAt(z, v, stand, n)
  {
    hide Mine;
  }

  lemma WorkerStepSound(s: System, z: System, w: nat)
    requires Sound(s) && w < |s.workers| && OnlyWorker(s, z, w) && CoordinatorSound(z) && HistorySound(z)
    requires WorkerSound(z, w)
    ensures Sound(z)
  {
    hide OnlyWorker, CoordinatorSound, HistorySound;
    forall v | 0 <= v < |z.workers| ensures WorkerSound(z, v) {
      if v != w {
        SameWorkers(s, z, w);
        OthersSound(s, z, w, v);
      }
    }
  }

  lemma SameWorkers(s: System, z: System, w: nat)
    requires OnlyWorker(s, z, w)
    ensures |z.workers| == |s.workers|
  {
    hide Mine;
  }

  lemma ReceiptStands(s: System, w: nat, ok: bool)
    requires Enabled(s, SendReceipt(w, ok)) && StandsAt(s, w, Busy, 0)
    ensures WorkerSound(Do(s, SendReceipt(w, ok)), w)
  {
    var z := Do(s, SendReceipt(w, ok));
    var m := Message(w, KindOf(s, s.c.phase), ok);
    var stand := if ok then Passed else Failed;
    MineAppend(s.results, m, w);
    assert Mine(s.results, w) == [] && Mine(z.results, w) == [] + [m];
    hide Mine;
    assert Stands(z, w, stand);
    assert Put(z, w, stand) == [m];
    assert Taken(z, w, stand, 0);
    hide Stands, Taken, Put;
    assert StandsAt(z, w, stand, 0);
  }

  lemma SendReceiptSound(s: System, w: nat, ok: bool)
    requires Sound(s) && Enabled(s, SendReceipt(w, ok))
    ensures Sound(Do(s, SendReceipt(w, ok)))
  {
    var stand, n := Standing(s, w);
    assert stand == Busy && s.workers[w].pc.phase == s.c.phase;
    ReceiptStands(s, w, ok);
    ReceiptFrame(s, w, ok);
    hide *;
    WorkerStepSound(s, Do(s, SendReceipt(w, ok)), w);
  }

  lemma ReceiptFrame(s: System, w: nat, ok: bool)
    requires Sound(s) && Enabled(s, SendReceipt(w, ok)) && s.workers[w].pc.phase == s.c.phase
    ensures var z := Do(s, SendReceipt(w, ok));
            |z.workers| == |s.workers| && OnlyWorker(s, z, w) && CoordinatorSound(z) && HistorySound(z)
  {
    hide WorkerSound, Mine, OnlyWorker;
    PutTouchesOne(s, Do(s, SendReceipt(w, ok)), w, Message(w, KindOf(s, s.c.phase), ok));
  }

  lemma TakeCommandSound(s: System, w: nat)
    requires Sound(s) && Enabled(s, TakeCommand(w))
    ensures Sound(Do(s, TakeCommand(w)))
  {
    var z := Do(s, TakeCommand(w));
    var stand, n := Standing(s, w);
    hide Mine;
    assert stand == Told;
    assert StandsAt(z, w, Busy, 0);
    WorkerStepSound(s, z, w);
  }

  /** One more message of w changes what is in the queue of w only. */
  lemma PutOne(results: seq<Message>, m: Message)
    ensures forall v: nat :: Mine(results + [m], v) == Mine(results, v) + if v == m.worker then [m] else []
    ensures forall v: nat :: v != m.worker ==> Mine(results + [m], v) == Mine(results, v)
  {
    forall v: nat
      ensures Mine(results + [m], v) == Mine(results, v) + if v == m.worker then [m] else []
      ensures v != m.worker ==> Mine(results + [m], v) == Mine(results, v)
    {
      MineAppend(results, m, v);
    }
  }

  lemma ClosedStands(s: System, w: nat, n: nat)
    requires s.c.phase <= LastPhase(s) && Enabled(s, SendClosed(w)) && StandsAt(s, w, Failed, n)
    ensures StandsAt(Do(s, SendClosed(w)), w, Gone, n)
  {
    var z := Do(s, SendClosed(w));
    MineAppend(s.results, Message(w, Closed, false), w);
    hide Mine;
    assert Put(s, w, Gone)[n..] == Put(s, w, Failed)[n..] + [Message(w, Closed, false)];
    assert Stands(z, w, Gone) && Taken(z, w, Gone, n) && Put(z, w, Gone) == Put(s, w, Gone);
    hide Stands, Taken, Put;
  }

  lemma SendClosedSound(s: System, w: nat)
    requires Sound(s) && Enabled(s, SendClosed(w))
    ensures Sound(Do(s, SendClosed(w)))
  {
    var stand, n := Standing(s, w);
    assert stand == Failed;
    ClosedStands(s, w, n);
    ClosedFrame(s, w);
    hide *;
    StandingSound(Do(s, SendClosed(w)), w, Gone, n);
    WorkerStepSound(s, Do(s, SendClosed(w)), w);
  }

  lemma ClosedFrame(s: System, w: nat)
    requires Sound(s) && Enabled(s, SendClosed(w))
    ensures var z := Do(s, SendClosed(w));
            |z.workers| == |s.workers| && OnlyWorker(s, z, w) && CoordinatorSound(z) && HistorySound(z)
  {
    hide WorkerSound, Mine, OnlyWorker;
    PutTouchesOne(s, Do(s, SendClosed(w)), w, Message(w, Closed, false));
    SameHistory(s, Do(s, SendClosed(w)));
  }

  lemma AbortStands(s: System, w: nat, stand: Stand, n: nat)
    requires s.c.phase <= LastPhase(s) && Enabled(s, Abort(w)) && StandsAt(s, w, stand, n)
    ensures StandsAt(Do(s, Abort(w)), w, if stand.Passed? then PassedQuit else Quit, n)
  {
    var quit := if stand.Passed? then PassedQuit else Quit;
    MineAppend(s.results, Message(w, Closed, false), w);
    hide Mine;
    var z := Do(s, Abort(w));
    assert Put(s, w, quit)[n..] == Put(s, w, stand)[n..] + [Message(w, Closed, false)];
    assert Stands(z, w, quit) && Taken(z, w, quit, n) && Put(z, w, quit) == Put(s, w, quit);
    hide Stands, Taken, Put;
  }

  lemma AbortSound(s: System, w: nat)
    requires Sound(s) && Enabled(s, Abort(w))
    ensures Sound(Do(s, Abort(w)))
  {
    var stand, n := Standing(s, w);
    AbortStands(s, w, stand, n);
    AbortFrame(s, w);
    hide *;
    StandingSound(Do(s, Abort(w)), w, if stand.Passed? then PassedQuit else Quit, n);
    WorkerStepSound(s, Do(s, Abort(w)), w);
  }

  lemma AbortFrame(s: System, w: nat)
    requires Sound(s) && Enabled(s, Abort(w))
    ensures var z := Do(s, Abort(w));
            |z.workers| == |s.workers| && OnlyWorker(s, z, w) && CoordinatorSound(z) && HistorySound(z)
  {
    hide WorkerSound, Mine, OnlyWorker;
    PutTouchesOne(s, Do(s, Abort(w)), w, Message(w, Closed, false));
    SameHistory(s, Do(s, Abort(w)));
  }

  lemma SameHistory(s: System, z: System)
    requires HistorySound(s) && z.sent == s.sent && z.c.phase == s.c.phase && |z.workers| == |s.workers|
    requires forall w :: w in z.aborted ==> w in s.aborted || w < |s.workers|
    ensures HistorySound(z)
  {
  }

  /** Putting a message touches its worker only. */
  lemma PutTouchesOne(s: System, z: System, w: nat, m: Message)
    requires CoordinatorSound(s) && w < |s.workers| && m.worker == w
    requires z.c == s.c && z.rounds == s.rounds && z.results == s.results + [m]
    requires |z.workers| == |s.workers| && z.workers == s.workers[w := z.workers[w]]
    requires z.workers[w].alive == s.workers[w].alive
    requires forall r: Receipt :: r.worker != w ==> (r in z.sent <==> r in s.sent)
    requires forall v :: v != w ==> (v in z.aborted <==> v in s.aborted)
    ensures OnlyWorker(s, z, w) && CoordinatorSound(z)
  {
    PutOne(s.results, m);
    hide Mine;
    forall i | 0 <= i < |z.results| ensures z.results[i].worker < |z.workers| {
      assert i < |s.results| ==> z.results[i] == s.results[i];
    }
  }

  lemma DieSound(s: System, w: nat)
    requires Sound(s) && w < |s.workers|
    ensures Sound(SetWorker(s, w, s.workers[w].(alive := false)))
  {
    var stand, n := Standing(s, w);
    DeadStands(s, w, stand, n);
    DeadFrame(s, w);
    hide *;
    StandingSound(SetWorker(s, w, s.workers[w].(alive := false)), w, stand, n);
    WorkerStepSound(s, SetWorker(s, w, s.workers[w].(alive := false)), w);
  }

  lemma DeadFrame(s: System, w: nat)
    requires Sound(s) && w < |s.workers|
    ensures var z := SetWorker(s, w, s.workers[w].(alive := false));
            |z.workers| == |s.workers| && OnlyWorker(s, z, w) && CoordinatorSound(z) && HistorySound(z)
  {
    hide Mine, WorkerSound;
  }

  lemma DeadStands(s: System, w: nat, stand: Stand, n: nat)
    requires w < |s.workers| && StandsAt(s, w, stand, n)
    ensures StandsAt(SetWorker(s, w, s.workers[w].(alive := false)), w, stand, n)
  {
    hide Mine;
  }

  // ----- coordinator steps -----

  /** The message at the head is what its worker put next. */
  lemma HeadIsNext(s: System, w: nat, stand: Stand, n: nat)
    requires s.results != [] && s.results[0].worker == w < |s.workers| && StandsAt(s, w, stand, n)
    ensures n < |Put(s, w, stand)| && s.results[0] == Put(s, w, stand)[n]
    ensures Mine(s.results[1..], w) == Put(s, w, stand)[n + 1..]
  {
    MineHead(s.results, w);
    var put := Put(s, w, stand);
    assert put[n..] == [s.results[0]] + Mine(s.results[1..], w);
    assert put[n..][0] == s.results[0];
    assert put[n..][1..] == Mine(s.results[1..], w);
  }

  /**
   * A message taken is its worker's next: a first receipt, the closed message of a
   * failed worker, or that of an aborted one. Only the last is refused, and only before
   * the last phase.
   */
  lemma ReceiveNext(s: System, w: nat, stand: Stand, n: nat)
    requires Sound(s) && Collecting(s) && s.results != [] && s.results[0].worker == w
    requires w < |s.workers| && StandsAt(s, w, stand, n)
    ensures var c := Receive(s, s.results[0]);
            && c.phase == s.c.phase && c.dispatched == s.c.dispatched
            && c.snapshot == s.c.snapshot && c.polled == s.c.polled
            && (if Refused(s, stand, n + 1) then c == s.c.(mode := Stopped(InvalidIdentity))
                else
                  && c.mode == Running
                  && (n == 0 ==> c.seen == s.c.seen + {w} && c.closed == s.c.closed
                                 && c.failed == if stand.Passed? || stand.PassedQuit? then s.c.failed else s.c.failed + {w})
                  && (n == 1 ==> c.closed == s.c.closed + {w} && c.seen == s.c.seen && c.failed == s.c.failed))
  {
    HeadIsNext(s, w, stand, n);
    assert s.c.phase <= LastPhase(s) && s.c.mode == Running && Taken(s, w, stand, n);
    assert stand.Gone? || stand.PassedQuit? ==> s.c.phase < LastPhase(s);
    hide Mine, WorkerSound, Sound, StandsAt, Stands;
  }

  lemma GetMessageTaken(s: System, stand: Stand, n: nat)
    requires Sound(s) && Enabled(s, GetMessage)
    requires s.results[0].worker < |s.workers| && StandsAt(s, s.results[0].worker, stand, n)
    ensures StandsAt(Do(s, GetMessage), s.results[0].worker, stand, n + 1)
  {
    var w := s.results[0].worker;
    HeadIsNext(s, w, stand, n);
    ReceiveNext(s, w, stand, n);
    hide Receive, Mine, Sound;
  }

  /** Nothing about worker v differs. */
  predicate SameFor(s: System, z: System, v: nat) {
    && z.rounds == s.rounds && z.workers == s.workers && z.sent == s.sent && z.aborted == s.aborted
    && z.c.phase == s.c.phase && z.c.dispatched == s.c.dispatched && s.c.mode == Running
    && (v in z.c.seen <==> v in s.c.seen) && (v in z.c.failed <==> v in s.c.failed)
    && (v in z.c.closed <==> v in s.c.closed) && Mine(z.results, v) == Mine(s.results, v)
  }

  /** Taking the message of one worker leaves the others alone. */
  lemma OtherUntouched(s: System, v: nat)
    requires Sound(s) && Enabled(s, GetMessage) && v < |s.workers| && v != s.results[0].worker
    ensures SameFor(s, Do(s, GetMessage), v)
  {
    hide *;
    var stand, n := HeadStanding(s);
    ReceiveOne(s, s.results[0].worker, stand, n);
    DropHead(s.results, v);
    TakenSameFor(s, v);
  }

  /** The sender of the head, and what taking it changes. */
  lemma HeadStanding(s: System) returns (stand: Stand, n: nat)
    requires Sound(s) && Enabled(s, GetMessage)
    ensures s.results != [] && s.results[0].worker < |s.workers| && Collecting(s) && s.c.mode == Running
    ensures StandsAt(s, s.results[0].worker, stand, n)
    ensures Do(s, GetMessage) == s.(results := s.results[1..], c := Receive(s, s.results[0]))
  {
    hide WorkerSound, StandsAt, Receive;
    stand, n := Standing(s, s.results[0].worker);
  }

  lemma TakenSameFor(s: System, v: nat)
    requires Enabled(s, GetMessage) && s.c.mode == Running && s.results != []
    requires Do(s, GetMessage) == s.(results := s.results[1..], c := Receive(s, s.results[0]))
    requires Mine(s.results[1..], v) == Mine(s.results, v)
    requires var c := Receive(s, s.results[0]);
             && c.phase == s.c.phase && c.dispatched == s.c.dispatched
             && (v in c.seen <==> v in s.c.seen) && (v in c.failed <==> v in s.c.failed) && (v in c.closed <==> v in s.c.closed)
    ensures SameFor(s, Do(s, GetMessage), v)
  {
    hide Receive, Mine, Do, Enabled;
  }

  lemma DropHead(results: seq<Message>, v: nat)
    requires results != [] && results[0].worker != v
    ensures Mine(results[1..], v) == Mine(results, v)
  {
    MineHead(results, v);
    assert [] + Mine(results[1..], v) == Mine(results[1..], v);
  }

  /** Only the sender's standing changes. */
  lemma ReceiveOne(s: System, w: nat, stand: Stand, n: nat)
    requires Sound(s) && Collecting(s) && s.results != [] && s.results[0].worker == w
    requires w < |s.workers| && StandsAt(s, w, stand, n)
    ensures var c := Receive(s, s.results[0]);
            && c.phase == s.c.phase && c.dispatched == s.c.dispatched
            && forall v: nat :: v != w ==>
                 (v in c.seen <==> v in s.c.seen) && (v in c.failed <==> v in s.c.failed) && (v in c.closed <==> v in s.c.closed)
  {
    ReceiveNext(s, w, stand, n);
    HeadIsNext(s, w, stand, n);
    PutAtMostTwo(s, w, stand);
    hide Receive, Sound, StandsAt, Mine;
  }

  lemma PutAtMostTwo(s: System, w: nat, stand: Stand)
    ensures |Put(s, w, stand)| <= 2
  {
  }

  lemma GetMessageOther(s: System, v: nat, stand: Stand, n: nat)
    requires Sound(s) && Enabled(s, GetMessage)
    requires v < |s.workers| && v != s.results[0].worker && StandsAt(s, v, stand, n)
    ensures StandsAt(Do(s, GetMessage), v, stand, n)
  {
    OtherUntouched(s, v);
    hide StandsAt, Sound, SameFor;
    SameStand(s, Do(s, GetMessage), v, stand, n);
  }

  lemma SameStand(s: System, z: System, v: nat, stand: Stand, n: nat)
    requires v < |s.workers| && StandsAt(s, v, stand, n)
    requires SameFor(s, z, v)
    ensures v < |z.workers| && StandsAt(z, v, stand, n)
  {
    hide Mine;
  }

  lemma GetMessageSound(s: System)
    requires Sound(s) && Enabled(s, GetMessage)
    ensures Sound(Do(s, GetMessage))
  {
    var z := Do(s, GetMessage);
    GetMessageFrame(s);
    forall v | 0 <= v < |z.workers| ensures WorkerSound(z, v) {
      GetMessageWorker(s, v);
    }
    hide WorkerSound, Receive, CoordinatorSound, HistorySound, Do;
  }

  lemma GetMessageWorker(s: System, v: nat)
    requires Sound(s) && Enabled(s, GetMessage) && v < |s.workers|
    ensures v < |Do(s, GetMessage).workers| && WorkerSound(Do(s, GetMessage), v)
  {
    GetMessageFrame(s);
    var stand, n := Standing(s, v);
    hide *;
    var first, k := HeadStanding(s);
    if v == s.results[0].worker {
      GetMessageTaken(s, stand, n);
      StandingSound(Do(s, GetMessage), v, stand, n + 1);
    } else {
      GetMessageOther(s, v, stand, n);
      StandingSound(Do(s, GetMessage), v, stand, n);
    }
  }

  lemma GetMessageFrame(s: System)
    requires Sound(s) && Enabled(s, GetMessage)
    ensures var z := Do(s, GetMessage);
            |z.workers| == |s.workers| && CoordinatorSound(z) && HistorySound(z)
  {
    hide *;
    var stand, n := HeadStanding(s);
    ReceiveFrame(s, s.results[0].worker, stand, n);
    SoundParts(s);
    FrameKept(s, Do(s, GetMessage), s.results[0].worker);
  }

  lemma SoundParts(s: System)
    requires Sound(s)
    ensures CoordinatorSound(s) && HistorySound(s)
  {
  }

  lemma ReceiveFrame(s: System, w: nat, stand: Stand, n: nat)
    requires Sound(s) && Collecting(s) && s.results != [] && s.results[0].worker == w
    requires w < |s.workers| && StandsAt(s, w, stand, n)
    ensures var c := Receive(s, s.results[0]);
            && c.phase == s.c.phase && c.dispatched == s.c.dispatched && c.snapshot == s.c.snapshot
            && c.mode != Finished && forall v :: v in c.seen ==> v in s.c.seen || v == w
  {
    hide *;
    ReceiveNext(s, w, stand, n);
    HeadIsNext(s, w, stand, n);
    PutAtMostTwo(s, w, stand);
  }

  lemma FrameKept(s: System, z: System, w: nat)
    requires CoordinatorSound(s) && HistorySound(s) && w < |s.workers| && s.results != []
    requires z == s.(results := s.results[1..], c := z.c)
    requires z.c.phase == s.c.phase && z.c.dispatched == s.c.dispatched && z.c.snapshot == s.c.snapshot
    requires z.c.mode != Finished && forall v :: v in z.c.seen ==> v in s.c.seen || v == w
    ensures CoordinatorSound(z) && HistorySound(z)
  {
    assert forall i :: 0 <= i < |z.results| ==> z.results[i] == s.results[i + 1];
  }

  /** Steps that change nothing but the coordinator's exit detection or its mode. */
  ghost predicate OnlyDetection(s: System, z: System) {
    z == s.(c := s.c.(snapshot := z.c.snapshot, polled := z.c.polled, mode := z.c.mode))
  }

  lemma DetectionSound(s: System, z: System)
    requires Sound(s) && OnlyDetection(s, z) && s.c.mode == Running
    requires z.c.snapshot.Some? ==> forall w :: w in z.c.snapshot.value ==> w < |s.workers| && !s.workers[w].alive
    requires z.c.mode == Finished ==> s.c.phase == LastPhase(s) && s.c.failed == {} && |s.c.seen| >= |s.workers|
    ensures Sound(z)
  {
    forall v | 0 <= v < |z.workers| ensures WorkerSound(z, v) {
      var stand, n := Standing(s, v);
      DetectionStands(s, z, v, stand, n);
    }
    hide Mine, WorkerSound;
  }

  lemma DetectionStands(s: System, z: System, v: nat, stand: Stand, n: nat)
    requires OnlyDetection(s, z) && s.c.mode == Running && v < |s.workers| && StandsAt(s, v, stand, n)
    ensures StandsAt(z, v, stand, n)
  {
    hide Mine;
  }

  lemma EveryoneSeen(s: System, w: nat)
    requires Sound(s) && |s.c.seen| >= |s.workers| && w < |s.workers|
    ensures w in s.c.seen
  {
    hide WorkerSound;
    FullSet(|s.workers|, s.c.seen, w);
  }

  /** When a phase ends without a failure every worker has passed it; at most the closed message of a worker that left since is in the queue. */
  lemma PhasePassed(s: System, w: nat)
    requires Sound(s) && |s.c.seen| >= |s.workers| && s.c.failed == {} && w < |s.workers|
    requires s.c.mode != Stopped(InvalidIdentity)
    ensures StandsAt(s, w, Passed, 1) || (StandsAt(s, w, PassedQuit, 1) && s.c.phase < LastPhase(s))
    ensures StandsAt(s, w, Passed, 1) ==> Mine(s.results, w) == []
  {
    EveryoneSeen(s, w);
    var stand, n := Standing(s, w);
    hide Mine, Sound;
    assert (stand.Passed? || stand.PassedQuit?) && n == 1;
  }

  /** A worker that passed waits for the next command, or has left already. */
  lemma PassedIsUntold(s: System, w: nat) returns (stand: Stand)
    requires Sound(s) && Enabled(s, EndPhase) && s.c.failed == {} && s.c.phase < LastPhase(s) && w < |s.workers|
    ensures stand.Untold? || stand.Quit?
    ensures StandsAt(Do(s, EndPhase), w, stand, 0)
    ensures forall p :: 0 <= p <= s.c.phase ==> Receipt(w, p, true) in s.sent
  {
    PhasePassed(s, w);
    assert Receipt(w, s.c.phase + 1, true) !in s.sent && Receipt(w, s.c.phase + 1, false) !in s.sent;
    stand := if StandsAt(s, w, Passed, 1) then Untold else Quit;
    hide Mine, WorkerSound;
  }

  lemma EndPhaseSound(s: System)
    requires Sound(s) && Enabled(s, EndPhase)
    ensures Sound(Do(s, EndPhase))
  {
    var z := Do(s, EndPhase);
    if s.c.failed != {} || s.c.phase == LastPhase(s) {
      DetectionSound(s, z);
    } else {
      forall v | 0 <= v < |z.workers| ensures WorkerSound(z, v) {
        var stand := PassedIsUntold(s, v);
        hide StandsAt;
      }
      NextHistory(s);
      hide WorkerSound, StandsAt, HistorySound;
    }
  }

  lemma NextHistory(s: System)
    requires Sound(s) && Enabled(s, EndPhase) && s.c.failed == {} && s.c.phase < LastPhase(s)
    ensures HistorySound(Do(s, EndPhase))
  {
    forall w, p: nat | 0 <= w < |s.workers| && p <= s.c.phase ensures Receipt(w, p, true) in s.sent {
      var stand := PassedIsUntold(s, w);
    }
    forall r | r in s.sent ensures r.ok {
      PhasePassed(s, r.worker);
      assert r == Receipt(r.worker, r.phase, r.ok);
    }
    hide WorkerSound, StandsAt, Mine;
  }

  /** The command queue of the next worker is empty, so putting its command never blocks. */
  lemma CommandQueueEmpty(s: System)
    requires Sound(s) && s.c.dispatched < |s.workers|
    ensures s.workers[s.c.dispatched].slot == None
  {
    var stand, n := Standing(s, s.c.dispatched);
  }

  lemma PutCommandSound(s: System)
    requires Sound(s) && Enabled(s, PutCommand)
    ensures Sound(Do(s, PutCommand))
  {
    var z := Do(s, PutCommand);
    forall v | 0 <= v < |z.workers| ensures WorkerSound(z, v) {
      var stand, n := Standing(s, v);
      CommandStands(s, v, stand, n);
    }
    hide Mine, WorkerSound;
  }

  lemma CommandStands(s: System, v: nat, stand: Stand, n: nat)
    requires Enabled(s, PutCommand) && v < |s.workers| && StandsAt(s, v, stand, n)
    ensures StandsAt(Do(s, PutCommand), v, if v == s.c.dispatched && stand.Untold? then Told else stand, n)
  {
    var z := Do(s, PutCommand);
    var told := if v == s.c.dispatched && stand.Untold? then Told else stand;
    assert Stands(z, v, told) && (told.Quit? || (told.Untold? <==> v >= z.c.dispatched));
    assert Taken(z, v, told, n) && Put(z, v, told) == Put(s, v, stand);
    hide Mine, Stands, Taken, Put;
  }

  lemma StepSound(s: System, step: Step)
    requires Sound(s) && Enabled(s, step)
    ensures Sound(Do(s, step))
  {
    match step
    case SendReceipt(w, ok) => SendReceiptSound(s, w, ok);
    case TakeCommand(w) => TakeCommandSound(s, w);
    case SendClosed(w) => SendClosedSound(s, w);
    case Abort(w) => AbortSound(s, w);
    case Exit(w) => DieSound(s, w);
    case Crash(w) => DieSound(s, w);
    case GetMessage => GetMessageSound(s);
    case GetEmpty => DetectionSound(s, Do(s, GetEmpty));
    case TakeSnapshot(exits) => DetectionSound(s, Do(s, TakeSnapshot(exits)));
    case EndPhase => EndPhaseSound(s);
    case PutCommand => PutCommandSound(s);
    case GiveUp => DetectionSound(s, Do(s, GiveUp));
  }

  // ----- runs -----

  predicate Legal(s: System, steps: seq<Step>)
    decreases |steps|
  {
    steps == [] || (Enabled(s, steps[0]) && Legal(Do(s, steps[0]), steps[1..]))
  }

  function After(s: System, steps: seq<Step>): System
    requires Legal(s, steps)
    decreases |steps|
  {
    if steps == [] then s else After(Do(s, steps[0]), steps[1..])
  }

  lemma {:induction false} RunSound(s: System, steps: seq<Step>)
    requires Sound(s) && Legal(s, steps)
    ensures Sound(After(s, steps))
    decreases |steps|
  {
    hide Sound, Do, Enabled;
    if steps != [] {
      StepSound(s, steps[0]);
      RunSound(Do(s, steps[0]), steps[1..]);
    }
  }

  // ----- queues never block -----

  function Others(results: seq<Message>, w: nat): seq<Message> {
    if results == [] then []
    else
      var last := |results| - 1;
      Others(results[..last], w) + if results[last].worker != w then [results[last]] else []
  }

  lemma {:induction false} SplitQueue(results: seq<Message>, w: nat)
    ensures |results| == |Mine(results, w)| + |Others(results, w)|
  {
    if results != [] {
      SplitQueue(results[..|results| - 1], w);
    }
  }

  lemma {:induction false} OthersMembers(results: seq<Message>, w: nat, m: Message)
    requires m in Others(results, w)
    ensures m in results && m.worker != w
  {
    var last := |results| - 1;
    if m in Others(results[..last], w) {
      OthersMembers(results[..last], w, m);
    }
  }

  lemma {:induction false} OthersMine(results: seq<Message>, w: nat, v: nat)
    ensures Mine(Others(results, w), v) == if v == w then [] else Mine(results, v)
  {
    if results != [] {
      var last := |results| - 1;
      OthersMine(results[..last], w, v);
      var rest := Others(results[..last], w);
      if results[last].worker != w {
        MineAppend(rest, results[last], v);
        assert Others(results, w) == rest + [results[last]];
      } else {
        assert Others(results, w) == rest;
      }
    }
  }

  /** Every message comes from one of n workers, at most two from each. */
  ghost predicate FewEach(results: seq<Message>, n: nat) {
    && (forall m :: m in results ==> m.worker < n)
    && forall w: nat :: w < n ==> |Mine(results, w)| <= 2
  }

  /** Without worker n - 1 the other workers keep their messages. */
  lemma OthersBound(results: seq<Message>, n: nat)
    requires n > 0 && FewEach(results, n)
    ensures FewEach(Others(results, n - 1), n - 1)
    ensures |results| == |Mine(results, n - 1)| + |Others(results, n - 1)| <= 2 + |Others(results, n - 1)|
  {
    SplitQueue(results, n - 1);
    assert |Mine(results, n - 1)| <= 2;
    FewOthers(results, n, Others(results, n - 1));
  }

  lemma FewOthers(results: seq<Message>, n: nat, rest: seq<Message>)
    requires n > 0 && FewEach(results, n) && rest == Others(results, n - 1)
    ensures FewEach(rest, n - 1)
  {
    forall m | m in rest ensures m.worker < n - 1 {
      OthersMembers(results, n - 1, m);
    }
    forall v: nat | v < n - 1 ensures |Mine(rest, v)| <= 2 {
      FewLeft(results, n, v);
    }
  }

  lemma FewLeft(results: seq<Message>, n: nat, v: nat)
    requires n > 0 && FewEach(results, n) && v < n - 1
    ensures |Mine(Others(results, n - 1), v)| <= 2
  {
    FewMine(results, n, v);
    hide FewEach;
    OthersMine(results, n - 1, v);
  }

  lemma FewMine(results: seq<Message>, n: nat, v: nat)
    requires FewEach(results, n) && v < n
    ensures |Mine(results, v)| <= 2
  {
  }

  lemma SomeWorker(results: seq<Message>, n: nat)
    requires results != [] && FewEach(results, n)
    ensures n > 0
  {
    assert results[0] in results;
  }

  /** A queue with at most two messages of each of n workers holds at most 2n. */
  lemma {:induction false} QueueBound(results: seq<Message>, n: nat)
    requires FewEach(results, n)
    ensures |results| <= 2 * n
    decreases n
  {
    hide FewEach;
    if n == 0 {
      if results != [] {
        SomeWorker(results, n);
      }
    } else {
      OthersBound(results, n);
      QueueBound(Others(results, n - 1), n - 1);
    }
  }

  lemma MineBound(s: System, w: nat)
    requires Sound(s) && w < |s.workers|
    ensures |Mine(s.results, w)| <= 2
    ensures MayPut(s.workers[w]) ==> |Mine(s.results, w)| <= 1
  {
    var stand, n := Standing(s, w);
    hide Mine;
  }

  /** A worker that may still put a message: a receipt, or the closed message at any time. */
  predicate MayPut(worker: Worker) {
    worker.pc.At? || worker.pc.Waiting? || worker.pc == Failing
  }

  /** In every run the result queue has room whenever a worker wants to put, and so does its command queue. */
  lemma QueuesNeverBlock(workers: nat, rounds: nat, steps: seq<Step>, w: nat)
    requires Legal(Start(workers, rounds), steps)
    ensures var s := After(Start(workers, rounds), steps);
            && |s.results| <= 2 * |s.workers|
            && (w < |s.workers| && MayPut(s.workers[w]) ==> |s.results| < 2 * |s.workers|)
            && (s.c.dispatched < |s.workers| ==> s.workers[s.c.dispatched].slot == None)
  {
    StartSound(workers, rounds);
    RunSound(Start(workers, rounds), steps);
    var s := After(Start(workers, rounds), steps);
    ResultsFit(s, w);
    if s.c.dispatched < |s.workers| {
      CommandQueueEmpty(s);
    }
  }

  lemma ResultsFit(s: System, w: nat)
    requires Sound(s)
    ensures |s.results| <= 2 * |s.workers|
    ensures w < |s.workers| && MayPut(s.workers[w]) ==> |s.results| < 2 * |s.workers|
  {
    forall v: nat | v < |s.workers| ensures |Mine(s.results, v)| <= 2 {
      MineBound(s, v);
    }
    assert forall m :: m in s.results ==> m.worker < |s.workers|;
    if w < |s.workers| && MayPut(s.workers[w]) {
      MineBound(s, w);
      OneLess(s.results, |s.workers|, w);
    } else {
      QueueBound(s.results, |s.workers|);
    }
  }

  lemma {:induction false} OneLess(results: seq<Message>, n: nat, w: nat)
    requires w < n && |Mine(results, w)| <= 1 && FewEach(results, n)
    ensures |results| < 2 * n
    decreases n
  {
    hide FewEach;
    OthersBound(results, n);
    if w == n - 1 {
      QueueBound(Others(results, n - 1), n - 1);
    } else {
      OthersMine(results, n - 1, w);
      OneLess(Others(results, n - 1), n - 1, w);
    }
  }

  // ----- identities and commands -----

  /** No worker ever gets an unexpected command. */
  lemma CommandsMatch(workers: nat, rounds: nat, steps: seq<Step>, w: nat)
    requires Legal(Start(workers, rounds), steps)
    ensures var s := After(Start(workers, rounds), steps);
            w < |s.workers| ==> s.workers[w].pc != Confused
  {
    StartSound(workers, rounds);
    RunSound(Start(workers, rounds), steps);
    var s := After(Start(workers, rounds), steps);
    if w < |s.workers| {
      var stand, n := Standing(s, w);
    }
  }

  /** The coordinator is about to take the closed message of an aborted worker before the last phase. */
  predicate AbortAtHead(s: System) {
    s.results != [] && s.c.phase < LastPhase(s) && s.results[0].kind == Closed && s.results[0].worker in s.aborted
  }

  /** Somewhere in the run it takes such a message. */
  predicate TakesAbort(s: System, steps: seq<Step>)
    requires Legal(s, steps)
    decreases |steps|
  {
    steps != [] && ((steps[0].GetMessage? && AbortAtHead(s)) || TakesAbort(Do(s, steps[0]), steps[1..]))
  }

  /** Whether the head is refused depends on nothing but that. */
  lemma HeadRefused(s: System)
    requires Sound(s) && Enabled(s, GetMessage)
    ensures Do(s, GetMessage).c.mode == (if AbortAtHead(s) then Stopped(InvalidIdentity) else Running)
  {
    var w := s.results[0].worker;
    var stand, n := Standing(s, w);
    ReceiveNext(s, w, stand, n);
    HeadIsNext(s, w, stand, n);
    hide Mine, WorkerSound, Receive;
  }

  lemma IdentityStep(s: System, step: Step)
    requires Sound(s) && Enabled(s, step)
    ensures Do(s, step).c.mode == Stopped(InvalidIdentity) <==>
      s.c.mode == Stopped(InvalidIdentity) || (step.GetMessage? && AbortAtHead(s))
  {
    if step.GetMessage? {
      HeadRefused(s);
    }
    hide Sound, AbortAtHead, Receive;
  }

  lemma {:induction false} IdentityRun(s: System, steps: seq<Step>)
    requires Sound(s) && Legal(s, steps)
    ensures After(s, steps).c.mode == Stopped(InvalidIdentity) <==>
      s.c.mode == Stopped(InvalidIdentity) || TakesAbort(s, steps)
    decreases |steps|
  {
    hide Sound, Do, Enabled, AbortAtHead;
    if steps != [] {
      IdentityStep(s, steps[0]);
      StepSound(s, steps[0]);
      IdentityRun(Do(s, steps[0]), steps[1..]);
    }
  }

  /**
   * A run stops with an identity error exactly when the coordinator takes, before the
   * last phase, the closed message of a worker that left without a failed receipt.
   */
  lemma IdentityErrorExactly(workers: nat, rounds: nat, steps: seq<Step>)
    requires Legal(Start(workers, rounds), steps)
    ensures After(Start(workers, rounds), steps).c.mode == Stopped(InvalidIdentity) <==>
      TakesAbort(Start(workers, rounds), steps)
  {
    StartSound(workers, rounds);
    IdentityRun(Start(workers, rounds), steps);
  }

  /** The aborted workers are those that took the step. */
  lemma {:induction false} AbortedExactly(s: System, steps: seq<Step>, w: nat)
    requires Legal(s, steps)
    ensures w in After(s, steps).aborted <==> w in s.aborted || Abort(w) in steps
    decreases |steps|
  {
    if steps != [] {
      assert steps == [steps[0]] + steps[1..];
      AbortedExactly(Do(s, steps[0]), steps[1..], w);
    }
  }

  /** And none of them ever put a failed receipt. */
  lemma AbortedNeverFailed(workers: nat, rounds: nat, steps: seq<Step>, w: nat, p: nat)
    requires Legal(Start(workers, rounds), steps) && Abort(w) in steps
    ensures Receipt(w, p, false) !in After(Start(workers, rounds), steps).sent
  {
    AbortedExactly(Start(workers, rounds), steps, w);
    StartSound(workers, rounds);
    RunSound(Start(workers, rounds), steps);
    var s := After(Start(workers, rounds), steps);
    var stand, n := Standing(s, w);
  }

  /** One worker that leaves on SystemExit before it is ready is taken for an impostor. */
  lemma AbortedWorkerRefused(rounds: nat)
    ensures var steps := [Abort(0), GetMessage];
            Legal(Start(1, rounds), steps) && After(Start(1, rounds), steps).c.mode == Stopped(InvalidIdentity)
  {
    var s := Start(1, rounds);
    var z := Do(s, Abort(0));
    assert z.results == [Message(0, Closed, false)] && Enabled(z, GetMessage);
    var y := Do(z, GetMessage);
    var steps := [Abort(0), GetMessage];
    assert steps[1..] == [GetMessage] && steps[1..][1..] == [];
    assert Legal(y, []) && Legal(z, [GetMessage]) && Legal(s, steps);
    assert After(z, [GetMessage]) == After(y, []);
  }

  // ----- exit detection -----

  /** Worker w has ever put the receipt of phase p. */
  predicate ReceiptPut(s: System, w: nat, p: nat) {
    Receipt(w, p, true) in s.sent || Receipt(w, p, false) in s.sent
  }

  /** When the drain after a snapshot ends, a worker not seen never put its receipt, nor a closed message instead. */
  lemma DrainedMeansNeverPut(s: System, w: nat)
    requires Sound(s) && s.results == [] && w < |s.workers| && w !in s.c.seen
    ensures !ReceiptPut(s, w, s.c.phase)
    ensures s.c.mode == Running ==> w !in s.aborted
  {
    var stand, n := Standing(s, w);
    assert Mine(s.results, w) == [];
  }

  /** An exited worker puts nothing any more. */
  lemma {:induction false} ExitedStaysSilent(s: System, steps: seq<Step>, w: nat, r: Receipt)
    requires Legal(s, steps) && w < |s.workers| && !s.workers[w].alive && r.worker == w && r !in s.sent
    requires w !in s.aborted
    ensures r !in After(s, steps).sent && w !in After(s, steps).aborted
    decreases |steps|
  {
    if steps != [] {
      var z := Do(s, steps[0]);
      assert w < |z.workers| && !z.workers[w].alive && r !in z.sent && w !in z.aborted;
      hide Enabled, Do;
      ExitedStaysSilent(z, steps[1..], w, r);
    }
  }

  /**
   * No false alarm: "exited before completion" is raised only for workers that exited
   * without ever putting the receipt of the phase or a closed message instead, and they
   * never will.
   */
  lemma NoFalseAlarm(workers: nat, rounds: nat, before: seq<Step>, later: seq<Step>, w: nat)
    requires Legal(Start(workers, rounds), before)
    requires var s := After(Start(workers, rounds), before);
             && Enabled(s, GetEmpty) && Do(s, GetEmpty).c.mode.Stopped?
             && Do(s, GetEmpty).c.mode.reason.ExitedEarly? && w in Do(s, GetEmpty).c.mode.reason.missing
             && Legal(Do(s, GetEmpty), later)
    ensures var s := After(Start(workers, rounds), before);
            && w < |s.workers| && !s.workers[w].alive
            && !ReceiptPut(After(Do(s, GetEmpty), later), w, s.c.phase)
            && w !in After(Do(s, GetEmpty), later).aborted
  {
    StartSound(workers, rounds);
    RunSound(Start(workers, rounds), before);
    var s := After(Start(workers, rounds), before);
    DrainedMeansNeverPut(s, w);
    ExitedStaysSilent(Do(s, GetEmpty), later, w, Receipt(w, s.c.phase, true));
    ExitedStaysSilent(Do(s, GetEmpty), later, w, Receipt(w, s.c.phase, false));
  }

  /** A phase under way with worker w in the exit snapshot, neither receipt nor closed message put. */
  predicate SilentlyGone(s: System, w: nat, p: nat) {
    && w < |s.workers| && !s.workers[w].alive && s.c.phase == p && !ReceiptPut(s, w, p) && w !in s.aborted
    && s.c.mode == Running && s.c.dispatched >= |s.workers| && !s.c.polled
    && s.c.snapshot.Some? && w in s.c.snapshot.value && w !in s.c.seen
  }

  lemma SilentWorkerUnseen(s: System, w: nat)
    requires Sound(s) && w < |s.workers| && !ReceiptPut(s, w, s.c.phase) && w !in s.aborted
    ensures w !in s.c.seen && Mine(s.results, w) == []
  {
    var stand, n := Standing(s, w);
    hide Mine;
  }

  /** While the queue is drained the phase cannot end and the snapshot stands, unless an aborted worker is met first. */
  lemma DrainStep(s: System, step: Step, w: nat, p: nat)
    requires Sound(s) && SilentlyGone(s, w, p) && Enabled(s, step) && !step.GetEmpty? && !step.GiveUp?
    requires !(step.GetMessage? && AbortAtHead(s))
    ensures SilentlyGone(Do(s, step), w, p)
  {
    if step.EndPhase? {
      EveryoneSeen(s, w);
    } else if step.GetMessage? {
      DrainGet(s, w, p);
    } else {
      hide Sound, KindOf;
    }
  }

  lemma DrainGet(s: System, w: nat, p: nat)
    requires Sound(s) && SilentlyGone(s, w, p) && Enabled(s, GetMessage) && !AbortAtHead(s)
    ensures SilentlyGone(Do(s, GetMessage), w, p)
  {
    HeadRefused(s);
    SilentWorkerUnseen(s, w);
    MineHead(s.results, w);
    var v := s.results[0].worker;
    var stand, n := Standing(s, v);
    ReceiveNext(s, v, stand, n);
    PutAtMostTwo(s, v, stand);
    HeadIsNext(s, v, stand, n);
    hide Receive, Sound, StandsAt, Mine, Put, AbortAtHead;
  }

  /**
   * A worker that really exits silently is reported: after a snapshot that lists it, any
   * run that drains the queue without giving up raises the error for it, or has met the
   * closed message of an aborted worker and stopped for that one.
   */
  lemma {:induction false} SilentExitReported(s: System, drain: seq<Step>, w: nat, p: nat)
    requires Sound(s) && SilentlyGone(s, w, p) && Legal(s, drain)
    requires forall i :: 0 <= i < |drain| ==> !drain[i].GetEmpty? && !drain[i].GiveUp?
    requires After(s, drain).results == []
    ensures var z := After(s, drain);
            if TakesAbort(s, drain) then z.c.mode == Stopped(InvalidIdentity)
            else
              && Enabled(z, GetEmpty)
              && Do(z, GetEmpty).c.mode.Stopped? && Do(z, GetEmpty).c.mode.reason.ExitedEarly?
              && w in Do(z, GetEmpty).c.mode.reason.missing
    decreases |drain|
  {
    IdentityRun(s, drain);
    if drain == [] {
      UnseenMeansCollecting(s, w);
      assert w in s.c.snapshot.value - s.c.seen;
    } else if !TakesAbort(s, drain) {
      hide Sound, SilentlyGone, Do, Enabled, AbortAtHead;
      DrainStep(s, drain[0], w, p);
      StepSound(s, drain[0]);
      SilentExitReported(Do(s, drain[0]), drain[1..], w, p);
    }
  }

  lemma UnseenMeansCollecting(s: System, w: nat)
    requires Sound(s) && w < |s.workers| && w !in s.c.seen
    ensures |s.c.seen| < |s.workers|
  {
    if |s.c.seen| >= |s.workers| {
      EveryoneSeen(s, w);
    }
  }

  // ----- no deadlock -----

  lemma {:induction false} SomeoneMissing(n: nat, seen: set<nat>) returns (w: nat)
    requires |seen| < n
    ensures w < n && w !in seen
  {
    if n - 1 !in seen {
      w := n - 1;
    } else {
      w := SomeoneMissing(n - 1, seen - {n - 1});
    }
  }

  /** A worker whose receipt the coordinator still waits for, with nothing of it in the queue. */
  lemma UnseenCanAct(s: System, w: nat)
    requires Sound(s) && Collecting(s) && w < |s.workers| && w !in s.c.seen && Mine(s.results, w) == []
    ensures !s.workers[w].alive || Enabled(s, TakeCommand(w)) || Enabled(s, SendReceipt(w, true))
  {
    var stand, n := Standing(s, w);
    ResultsFit(s, w);
    assert Put(s, w, stand)[n..] == [] && n == 0;
    hide Sound, Mine;
  }

  /**
   * Coordinator and workers never deadlock: in every run, while a phase waits on an
   * empty queue, some worker it waits for can take its command or put its receipt, or
   * has exited and is there for the exit detection to find.
   */
  lemma PhaseNeverStalls(workers: nat, rounds: nat, steps: seq<Step>) returns (w: nat)
    requires Legal(Start(workers, rounds), steps)
    requires Collecting(After(Start(workers, rounds), steps)) && After(Start(workers, rounds), steps).results == []
    ensures var s := After(Start(workers, rounds), steps);
            && w < |s.workers| && w !in s.c.seen
            && (!s.workers[w].alive || Enabled(s, TakeCommand(w)) || Enabled(s, SendReceipt(w, true)))
  {
    StartSound(workers, rounds);
    RunSound(Start(workers, rounds), steps);
    var s := After(Start(workers, rounds), steps);
    w := SomeoneMissing(|s.workers|, s.c.seen);
    UnseenCanAct(s, w);
  }

  // ----- success -----

  /**
   * A run that finishes has taken every message, every worker has put an ok receipt of
   * every phase, ready, each round and closed, and none has aborted.
   */
  lemma FinishIsComplete(workers: nat, rounds: nat, steps: seq<Step>, w: nat, p: nat)
    requires Legal(Start(workers, rounds), steps) && After(Start(workers, rounds), steps).c.mode == Finished
    requires w < |After(Start(workers, rounds), steps).workers| && p <= LastPhase(After(Start(workers, rounds), steps))
    ensures var s := After(Start(workers, rounds), steps);
            && s.results == [] && s.aborted == {}
            && s.workers[w].pc == Ended && Receipt(w, p, true) in s.sent
  {
    StartSound(workers, rounds);
    RunSound(Start(workers, rounds), steps);
    var s := After(Start(workers, rounds), steps);
    forall v | 0 <= v < |s.workers| ensures Mine(s.results, v) == [] && v !in s.aborted {
      PhasePassed(s, v);
    }
    NothingLeft(s);
    PhasePassed(s, w);
  }

  lemma NothingLeft(s: System)
    requires Sound(s) && forall v :: 0 <= v < |s.workers| ==> Mine(s.results, v) == []
    ensures s.results == []
  {
    if s.results != [] {
      MineHead(s.results, s.results[0].worker);
    }
  }
}
