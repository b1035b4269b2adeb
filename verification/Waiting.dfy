/**
 * What runs of a payload progress promise its consumer: a finished wait has
 * ordered every valid slot after its upload, published stays published, and a
 * blocked waiter is woken by every step that could release it.
 */
module Waiting {
  import opened Arithmetic
  import opened Options
  import opened Readiness
  import opened ReadinessRuns

  predicate Legal(w: World, steps: seq<Step>)
    decreases |steps|
  {
    steps == [] || (Coherent(w) && Enabled(w, steps[0]) && Legal(Do(w, steps[0]), steps[1..]))
  }

  function After(w: World, steps: seq<Step>): World
    requires Legal(w, steps)
    decreases |steps|
  {
    if steps == [] then w else After(Do(w, steps[0]), steps[1..])
  }

  lemma {:induction false} RunSound(w: World, steps: seq<Step>)
    requires Sound(w) && Legal(w, steps)
    ensures Sound(After(w, steps)) && Coherent(After(w, steps))
    decreases |steps|
  {
    hide Sound, Do, Enabled;
    if steps == [] {
      SoundCoherent(w);
    } else {
      StepSound(w, steps[0]);
      RunSound(Do(w, steps[0]), steps[1..]);
    }
  }

  lemma StartSound(slotCount: nat, dynamic: bool, staticValidity: Option<seq<bool>>)
    requires staticValidity.Some? ==> |staticValidity.value| == slotCount
    ensures Sound(Start(slotCount, dynamic, staticValidity))
  {
    FreshAccounted(slotCount, dynamic, staticValidity);
    hide Accounted;
  }

  /**
   * In every run with one consumer, publishing each slot once: a ticket's counter is
   * the number of slots that carry it, its event is kept exactly while that is
   * positive, and the consumer never looks up a ticket that is gone.
   */
  lemma TicketsCounted(slotCount: nat, dynamic: bool, staticValidity: Option<seq<bool>>, steps: seq<Step>, t: int)
    requires staticValidity.Some? ==> |staticValidity.value| == slotCount
    requires Legal(Start(slotCount, dynamic, staticValidity), steps)
    ensures var w := After(Start(slotCount, dynamic, staticValidity), steps);
            && !w.consumer.KeyError?
            && (t in w.p.remaining <==> t > 0 && Carriers(w.p.tickets, t) > 0)
            && (t in w.p.events <==> t in w.p.remaining)
            && (t in w.p.remaining ==> w.p.remaining[t] == Carriers(w.p.tickets, t))
  {
    StartSound(slotCount, dynamic, staticValidity);
    RunSound(Start(slotCount, dynamic, staticValidity), steps);
    assert CountOf(After(Start(slotCount, dynamic, staticValidity), steps).p, t);
  }

  // ----- a whole wait -----

  predicate ProducerStep(step: Step) {
    step.PublishStep? || step.ThroughStep? || step.FinishStep?
  }

  predicate ProducersOnly(steps: seq<Step>) {
    forall i :: 0 <= i < |steps| ==> ProducerStep(steps[i])
  }

  lemma {:induction false} ProducersLeaveConsumer(w: World, steps: seq<Step>)
    requires Legal(w, steps) && ProducersOnly(steps)
    ensures After(w, steps).consumer == w.consumer && After(w, steps).stream == w.stream
    decreases |steps|
  {
    hide PublishValidated, PublishThrough, Enabled, SetAll;
    if steps != [] {
      assert ProducerStep(steps[0]);
      ProducersLeaveConsumer(Do(w, steps[0]), steps[1..]);
    }
  }

  /** Slot s needs no more waiting: nothing was uploaded into it, or the stream waits for the upload's event. */
  predicate IsOrdered(w: World, s: nat)
    requires s < |w.uploads| == |w.p.tickets|
  {
    w.p.tickets[s] == -1 && (w.uploads[s].None? || w.uploads[s].value in w.stream)
  }

  lemma CommitOrders(w: World, s: nat)
    requires Sound(w) && Coherent(w) && w.consumer.Ordered? && s in w.consumer.valid
    ensures s < |w.uploads| == |w.p.tickets| && IsOrdered(Do(w, CommitStep), s)
  {
    var valid, tickets := w.consumer.valid, w.consumer.tickets;
    HeldCounters(w.p, valid, tickets, w.consumer.events);
    var i :| 0 <= i < |valid| && valid[i] == s;
    CommitTickets(w.p, valid, tickets, s);
    StepSound(w, CommitStep);
    hide Accounted, Commit;
    assert UploadOf(Do(w, CommitStep), s);
  }

  lemma {:induction false} RunConcat(w: World, first: seq<Step>, second: seq<Step>)
    requires Legal(w, first + second)
    ensures Legal(w, first) && Legal(After(w, first), second)
    ensures After(w, first + second) == After(After(w, first), second)
    decreases |first|
  {
    hide Coherent, Enabled, Do;
    if first == [] {
      assert first + second == second;
    } else {
      assert (first + second)[1..] == first[1..] + second;
      RunConcat(Do(w, first[0]), first[1..], second);
    }
  }

  /** One call of wait_samples, with what producers do between its critical sections. */
  function WholeWait(a: nat, b: int, validity: seq<bool>, between: seq<Step>, later: seq<Step>): seq<Step> {
    [SnapshotStep(a, b, validity)] + (between + ([StreamStep] + (later + [CommitStep])))
  }

  /**
   * wait_samples as a whole: whatever producers do meanwhile, on return every valid
   * slot of the interval is ordered after its upload.
   */
  lemma WaitOrders(w: World, a: nat, b: int, validity: seq<bool>, between: seq<Step>, later: seq<Step>, s: nat)
    requires Sound(w) && Legal(w, WholeWait(a, b, validity, between, later))
    requires ProducersOnly(between) && ProducersOnly(later)
    requires a <= s < b && b <= |validity| && validity[s]
    ensures var z := After(w, WholeWait(a, b, validity, between, later));
            z.consumer == Idle && s < |z.uploads| == |z.p.tickets| && IsOrdered(z, s)
  {
    var rest := [StreamStep] + (later + [CommitStep]);
    RunConcat(w, [SnapshotStep(a, b, validity)], between + rest);
    OneStep(w, SnapshotStep(a, b, validity));
    StepSound(w, SnapshotStep(a, b, validity));
    var held := Do(w, SnapshotStep(a, b, validity));
    hide Sound, Do, Enabled, IsOrdered;
    RunConcat(held, between, rest);
    RunSound(held, between);
    ProducersLeaveConsumer(held, between);
    StreamNeedsHolding(After(held, between), later + [CommitStep]);
    SnapshotTakes(w, a, b, validity, s);
    WaitFinishes(After(held, between), later, s);
  }

  lemma OneStep(w: World, step: Step)
    requires Legal(w, [step])
    ensures Coherent(w) && Enabled(w, step) && After(w, [step]) == Do(w, step)
  {
    assert [step][1..] == [];
    assert After(w, [step]) == After(Do(w, step), []);
  }

  lemma StreamNeedsHolding(w: World, later: seq<Step>)
    requires Legal(w, [StreamStep] + later)
    ensures w.consumer.Holding?
  {
    var steps := [StreamStep] + later;
    assert steps[0] == StreamStep && Coherent(w) && Enabled(w, steps[0]);
  }

  /** The consumer holds every valid slot of the interval. */
  lemma SnapshotTakes(w: World, a: nat, b: int, validity: seq<bool>, s: nat)
    requires Sound(w) && Coherent(w) && Enabled(w, SnapshotStep(a, b, validity))
    requires a <= s < b && validity[s]
    requires Do(w, SnapshotStep(a, b, validity)).consumer.Holding?
    ensures s in Do(w, SnapshotStep(a, b, validity)).consumer.valid
  {
    AccountedSized(w.p);
    SnapshotValid(w.p, a, b, validity);
    hide Sound, TakeSnapshot, EventsKept, Coherent;
  }

  lemma SnapshotValid(p: Progress, a: nat, b: int, validity: seq<bool>)
    requires b <= |validity| && b <= |p.tickets| && EventsKept(p)
    ensures TakeSnapshot(p, a, b, validity).Pending? ==>
      forall s :: a <= s < b && validity[s] ==> s in TakeSnapshot(p, a, b, validity).valid
  {
    hide PendingTickets, Published;
  }

  lemma WaitFinishes(w: World, later: seq<Step>, s: nat)
    requires Sound(w) && Coherent(w) && w.consumer.Holding? && s in w.consumer.valid
    requires ProducersOnly(later) && Legal(w, [StreamStep] + (later + [CommitStep]))
    ensures var z := After(w, [StreamStep] + (later + [CommitStep]));
            z.consumer == Idle && s < |z.uploads| == |z.p.tickets| && IsOrdered(z, s)
  {
    RunConcat(w, [StreamStep], later + [CommitStep]);
    OneStep(w, StreamStep);
    StepSound(w, StreamStep);
    var streaming := Do(w, StreamStep);
    assert streaming.consumer.Ordered? && streaming.consumer.valid == w.consumer.valid;
    hide Sound, Enabled, IsOrdered;
    RunConcat(streaming, later, [CommitStep]);
    RunSound(streaming, later);
    ProducersLeaveConsumer(streaming, later);
    OneStep(After(streaming, later), CommitStep);
    CommitOrders(After(streaming, later), s);
    StepSound(After(streaming, later), CommitStep);
    CommitIdle(After(streaming, later));
  }

  lemma CommitIdle(w: World)
    requires Sound(w) && Coherent(w) && w.consumer.Ordered?
    ensures Enabled(w, CommitStep) && Do(w, CommitStep).consumer == Idle
  {
    HeldCounters(w.p, w.consumer.valid, w.consumer.tickets, w.consumer.events);
  }

  // ----- published stays published -----

  lemma StepKeepsPublished(w: World, step: Step, s: nat)
    requires Sound(w) && Coherent(w) && Enabled(w, step) && s < |w.p.tickets|
    ensures var z := Do(w, step);
            && |z.p.tickets| == |w.p.tickets| && z.p.dynamic == w.p.dynamic
            && (w.p.tickets[s] != 0 ==> z.p.tickets[s] != 0)
  {
    match step {
      case PublishStep(slots, event) => PublishKeepsPublished(w, slots, event, s);
      case ThroughStep(stop, event, validity) => ThroughKeepsPublished(w, stop, event, validity, s);
      case CommitStep => CommitKeepsPublished(w, s);
      case _ =>
    }
  }

  lemma PublishKeepsPublished(w: World, slots: seq<nat>, event: Event, s: nat)
    requires Sound(w) && Coherent(w) && Enabled(w, PublishStep(slots, event)) && s < |w.p.tickets|
    ensures var z := Do(w, PublishStep(slots, event));
            && |z.p.tickets| == |w.p.tickets| && z.p.dynamic == w.p.dynamic
            && (w.p.tickets[s] != 0 ==> z.p.tickets[s] != 0)
  {
    AccountedSized(w.p);
    SelectedSlots(w.p, slots);
    hide Sound, Selected, SetAll;
    SetAllAt(w.p.tickets, Selected(w.p, slots), w.p.nextTicket, s);
  }

  lemma ThroughKeepsPublished(w: World, stop: int, event: Event, validity: seq<bool>, s: nat)
    requires Sound(w) && Coherent(w) && Enabled(w, ThroughStep(stop, event, validity)) && s < |w.p.tickets|
    ensures var z := Do(w, ThroughStep(stop, event, validity));
            && |z.p.tickets| == |w.p.tickets| && z.p.dynamic == w.p.dynamic
            && (w.p.tickets[s] != 0 ==> z.p.tickets[s] != 0)
  {
    ThroughDynamic(w.p, stop, event, validity);
    if SelectedStop(w.p, stop) > w.p.coveredStop {
      ThroughCovers(w.p, stop, event, validity);
      hide Sound, PublishThrough, Slots, ThroughValid;
    }
  }

  lemma ThroughDynamic(p: Progress, stop: int, event: Event, validity: seq<bool>)
    requires Sized(p) && !ThroughRefused(p, stop, validity)
    ensures PublishThrough(p, stop, event, validity).dynamic == p.dynamic
  {
    hide SetAll, Slots, Kept;
  }

  lemma CommitKeepsPublished(w: World, s: nat)
    requires Sound(w) && Coherent(w) && Enabled(w, CommitStep) && s < |w.p.tickets|
    ensures var z := Do(w, CommitStep);
            && |z.p.tickets| == |w.p.tickets| && z.p.dynamic == w.p.dynamic
            && (w.p.tickets[s] != 0 ==> z.p.tickets[s] != 0)
  {
    HeldCounters(w.p, w.consumer.valid, w.consumer.tickets, w.consumer.events);
    CommitTickets(w.p, w.consumer.valid, w.consumer.tickets, s);
    CommitDynamic(w.p, w.consumer.valid, w.consumer.tickets);
    hide Sound, Commit;
  }

  lemma {:induction false} CommitDynamic(p: Progress, valid: seq<nat>, tickets: seq<int>)
    requires InRange(valid, |p.tickets|) && Distinct(tickets)
    requires forall t :: t in tickets ==> t in p.remaining
    ensures var q := Commit(p, valid, tickets);
            q.dynamic == p.dynamic && q.finished == p.finished && q.error == p.error && q.generation == p.generation
  {
    if tickets != [] {
      CommitPrefix(tickets);
      CommitDynamic(p, valid, tickets[..|tickets| - 1]);
    }
  }

  lemma {:induction false} RunKeepsPublished(w: World, steps: seq<Step>, s: nat)
    requires Sound(w) && Legal(w, steps) && s < |w.p.tickets|
    ensures var z := After(w, steps);
            && |z.p.tickets| == |w.p.tickets| && z.p.dynamic == w.p.dynamic
            && (w.p.tickets[s] != 0 ==> z.p.tickets[s] != 0)
    decreases |steps|
  {
    hide Sound, Do, Enabled;
    if steps != [] {
      StepSound(w, steps[0]);
      StepKeepsPublished(w, steps[0], s);
      RunKeepsPublished(Do(w, steps[0]), steps[1..], s);
    }
  }

  /**
   * Once samples_published has answered true it answers true, and wait_samples neither
   * blocks nor reports missing frames, at every later point without an upload error.
   */
  lemma ReadyStaysReady(w: World, steps: seq<Step>, a: nat, b: int, validity: seq<bool>)
    requires Sound(w) && Legal(w, steps) && b <= |validity| && b <= |w.p.tickets|
    requires SamplesPublished(w.p, a, b, validity) == Ready
    ensures var z := After(w, steps);
            && b <= |z.p.tickets| && EventsKept(z.p) && !Blocked(z.p, a, b, validity)
            && TakeSnapshot(z.p, a, b, validity) != Missing
            && (z.p.error.None? ==> SamplesPublished(z.p, a, b, validity) == Ready)
            && (z.p.error.Some? ==> TakeSnapshot(z.p, a, b, validity) == Failed(z.p.error.value))
  {
    var z := After(w, steps);
    RunSound(w, steps);
    AccountedSized(z.p);
    if a < b {
      RunKeepsPublished(w, steps, a);
      RequiredInRange(w.p, a, b, validity);
      RequiredInRange(z.p, a, b, validity);
      var required := Required(w.p, a, b, validity);
      forall i | 0 <= i < |required| ensures z.p.tickets[required[i]] != 0 {
        RunKeepsPublished(w, steps, required[i]);
      }
      hide Sound;
      ValidArePublished(z.p, a, b, validity);
    } else {
      RunLength(w, steps);
    }
  }

  lemma {:induction false} RunLength(w: World, steps: seq<Step>)
    requires Sound(w) && Legal(w, steps)
    ensures |After(w, steps).p.tickets| == |w.p.tickets|
    decreases |steps|
  {
    hide Sound, Enabled;
    if steps != [] {
      StepSound(w, steps[0]);
      StepLength(w, steps[0]);
      RunLength(Do(w, steps[0]), steps[1..]);
    }
  }

  lemma StepLength(w: World, step: Step)
    requires Sound(w) && Coherent(w) && Enabled(w, step)
    ensures |Do(w, step).p.tickets| == |w.p.tickets|
  {
    if w.p.tickets != [] {
      StepKeepsPublished(w, step, 0);
    } else {
      StepSound(w, step);
    }
  }

  lemma ValidArePublished(p: Progress, a: nat, b: int, validity: seq<bool>)
    requires a < b && b <= |validity| && b <= |p.tickets|
    requires InRange(Required(p, a, b, validity), |p.tickets|) && Published(p, Required(p, a, b, validity))
    ensures InRange(ValidSlots(a, b, validity), |p.tickets|) && Published(p, ValidSlots(a, b, validity))
  {
    RequiredInRange(p, a, b, validity);
    if p.dynamic {
      var valid := ValidSlots(a, b, validity);
      forall i | 0 <= i < |valid| ensures p.tickets[valid[i]] != 0 {
        assert valid[i] in valid;
        assert Slots(a, b)[valid[i] - a] == valid[i];
      }
    }
  }

  /** Some slot of [a, b) is unpublished although no valid one is. */
  predicate OnlyInvalidMissing(p: Progress, a: nat, b: nat, validity: seq<bool>)
    requires a < b <= |validity| && b <= |p.tickets|
  {
    RequiredInRange(p, a, b, validity);
    Published(p, ValidSlots(a, b, validity)) && exists s :: a <= s < b && p.tickets[s] == 0
  }

  /**
   * samples_published answers true exactly when wait_samples would return without
   * blocking, but for one case: a finished streaming upload that left an invalid
   * slot unpublished, which only samples_published reports.
   */
  lemma PublishedMeansNoWait(p: Progress, a: nat, b: nat, validity: seq<bool>)
    requires a < b <= |validity| && b <= |p.tickets| && EventsKept(p) && p.error.None?
    ensures SamplesPublished(p, a, b, validity) == Ready <==>
      && !Blocked(p, a, b, validity) && TakeSnapshot(p, a, b, validity) != Missing
      && !(p.dynamic && p.finished && OnlyInvalidMissing(p, a, b, validity))
  {
    RequiredInRange(p, a, b, validity);
    if Published(p, Required(p, a, b, validity)) {
      ValidArePublished(p, a, b, validity);
      forall s | a <= s < b && p.dynamic ensures p.tickets[s] != 0 {
        assert Slots(a, b)[s - a] == s;
      }
    } else if p.dynamic {
      var i :| 0 <= i < |Slots(a, b)| && p.tickets[Slots(a, b)[i]] == 0;
    }
  }

  /** A streaming upload that covers a valid frame, not the invalid one after it, and finishes. */
  function GapSteps(): seq<Step> {
    [ThroughStep(1, Event(0), [true, false]), FinishStep(None)]
  }

  /** Slot 0 carries ticket 1, slot 1 nothing. */
  predicate HasGap(p: Progress) {
    && p.tickets == [1, 0] && p.events == map[1 := Event(0)] && p.dynamic && p.error.None?
    && p.staticValidity.None? && p.coveredStop == 1
  }

  lemma GapSlots()
    ensures Slots(0, 1) == [0] && Slots(0, 2) == [0, 1]
    ensures Kept([0], [true, false]) == [0] && Kept([0, 1], [true, false]) == [0]
  {
    assert Slots(0, 1) == Slots(0, 0) + [0] && Slots(0, 2) == Slots(0, 1) + [1];
    assert [0, 1][..1] == [0] && [0][..0] == [];
  }

  lemma GapCovered()
    ensures var p := Fresh(2, true, None);
            !ThroughRefused(p, 1, [true, false]) && HasGap(PublishThrough(p, 1, Event(0), [true, false]))
  {
    GapSlots();
    var p := Fresh(2, true, None);
    assert p.tickets == [0, 0] && [0][..0] == [];
    assert SetAll([0, 0], [0], -1) == [-1, 0] && SetAll([-1, 0], [0], 1) == [1, 0];
    hide Slots, Kept, SetAll;
  }

  lemma GapStep()
    ensures var w, step := Start(2, true, None), GapSteps()[0];
            Coherent(w) && Enabled(w, step) && HasGap(Do(w, step).p) && Coherent(Do(w, step))
  {
    GapCovered();
    GapSlots();
    var w := Start(2, true, None);
    StartSound(2, true, None);
    SoundCoherent(w);
    assert Enabled(w, GapSteps()[0]);
    StepSound(w, GapSteps()[0]);
    hide PublishThrough, HasGap, Sound, Coherent;
  }

  lemma GapAnswers(p: Progress)
    requires HasGap(p) && p.finished
    ensures EventsKept(p) && SamplesPublished(p, 0, 2, [true, false]) == MissingFrames
    ensures !Blocked(p, 0, 2, [true, false]) && TakeSnapshot(p, 0, 2, [true, false]).Pending?
  {
    GapSlots();
    assert Required(p, 0, 2, [true, false]) == [0, 1] && ValidSlots(0, 2, [true, false]) == [0];
    RequiredInRange(p, 0, 2, [true, false]);
    assert p.tickets[[0, 1][1]] == 0;
    hide Slots, Kept;
  }

  /** The exception is reached: there samples_published reports missing frames and wait_samples goes through. */
  lemma StreamingGap()
    ensures Legal(Start(2, true, None), GapSteps())
    ensures var p := After(Start(2, true, None), GapSteps()).p;
            && |p.tickets| == 2 && EventsKept(p) && p.error.None?
            && SamplesPublished(p, 0, 2, [true, false]) == MissingFrames
            && !Blocked(p, 0, 2, [true, false]) && TakeSnapshot(p, 0, 2, [true, false]).Pending?
  {
    var w, first, second := Start(2, true, None), GapSteps()[0], GapSteps()[1];
    assert GapSteps() == [first, second];
    GapStep();
    GapFinished(Do(w, first));
    hide *;
    TwoSteps(w, first, second);
    GapAnswers(Do(Do(w, first), second).p);
  }

  lemma GapFinished(w: World)
    requires Coherent(w) && HasGap(w.p)
    ensures var step := GapSteps()[1];
            && Enabled(w, step) && HasGap(Do(w, step).p) && Do(w, step).p.finished
            && |Do(w, step).p.tickets| == 2 && Do(w, step).p.error.None?
  {
  }

  lemma TwoSteps(w: World, first: Step, second: Step)
    requires Coherent(w) && Enabled(w, first) && Coherent(Do(w, first)) && Enabled(Do(w, first), second)
    ensures Legal(w, [first, second]) && After(w, [first, second]) == Do(Do(w, first), second)
  {
    hide Coherent, Enabled, Do;
    var y := Do(w, first);
    assert [first, second][1..] == [second] && [second][1..] == [];
    assert Legal(Do(y, second), []) && Legal(y, [second]) && After(y, [second]) == Do(y, second);
  }

  // ----- waking the waiter -----

  /** Only steps that notify change whether a waiter blocks. */
  lemma WakeupsNotify(w: World, step: Step, a: nat, b: int, validity: seq<bool>)
    requires Sound(w) && Coherent(w) && Enabled(w, step) && b <= |validity| && b <= |w.p.tickets|
    ensures b <= |Do(w, step).p.tickets|
    ensures Blocked(w.p, a, b, validity) != Blocked(Do(w, step).p, a, b, validity) ==>
      Do(w, step).p.generation == w.p.generation + 1
  {
    StepLength(w, step);
    var z := Do(w, step);
    match step {
      case CommitStep =>
        HeldCounters(w.p, w.consumer.valid, w.consumer.tickets, w.consumer.events);
        CommitDynamic(w.p, w.consumer.valid, w.consumer.tickets);
        if a < b {
          RequiredInRange(w.p, a, b, validity);
          CommitKeepsZeros(w, Required(w.p, a, b, validity));
        }
      case _ =>
    }
  }

  lemma CommitKeepsZeros(w: World, slots: seq<nat>)
    requires Sound(w) && Coherent(w) && Enabled(w, CommitStep) && InRange(slots, |w.p.tickets|)
    ensures InRange(slots, |Do(w, CommitStep).p.tickets|)
    ensures Published(w.p, slots) <==> Published(Do(w, CommitStep).p, slots)
  {
    StepLength(w, CommitStep);
    HeldCounters(w.p, w.consumer.valid, w.consumer.tickets, w.consumer.events);
    var z := Do(w, CommitStep);
    forall s | 0 <= s < |w.p.tickets| ensures z.p.tickets[s] == 0 <==> w.p.tickets[s] == 0 {
      CommitTickets(w.p, w.consumer.valid, w.consumer.tickets, s);
    }
  }

  // ----- which frames an interval needs -----

  /** Frame f holds a sample of [first, stop). */
  predicate Meets(f: int, first: int, stop: int, samplesPerFrame: nat) {
    first < stop && f * samplesPerFrame < stop && first < (f + 1) * samplesPerFrame
  }

  lemma CeilingMeaning(stop: int, d: nat, f: int)
    requires d > 0
    ensures f < -((-stop) / d) <==> f * d < stop
  {
    var q, r := (-stop) / d, (-stop) % d;
    assert -stop == d * q + r;
    if f < -q {
      MulStep(d, f, -q);
      assert d * -q == stop + r;
      MulMonotone(d, f + 1, -q);
    } else {
      MulMonotone(d, -q, f);
      assert d * -q == -(d * q);
    }
  }

  lemma FloorMeaning(first: int, d: nat, f: int)
    requires d > 0
    ensures first / d <= f <==> first < (f + 1) * d
  {
    var q, r := first / d, first % d;
    assert first == d * q + r;
    if q <= f {
      MulMonotone(d, q, f);
      assert (f + 1) * d == d * f + d;
    } else {
      MulMonotone(d, f + 1, q);
    }
  }

  predicate AskedFor(f: int, first: int, stop: int, d: nat, n: nat)
    requires d > 0
  {
    FirstFrame(first, d) <= f < StopFrame(stop, d, n)
  }

  /**
   * The frames [first_frame, stop_frame) asked about are exactly the frames of the plan
   * that meet the sample interval, if and only if the interval is not empty or its
   * frame bounds do not enclose a frame of the plan.
   */
  lemma FrameRangeExact(first: int, stop: int, d: nat, n: nat)
    requires d > 0
    ensures (forall f :: AskedFor(f, first, stop, d, n) <==> 0 <= f < n && Meets(f, first, stop, d))
            <==> first < stop || stop <= 0 || n * d <= first || stop <= first / d * d
  {
    forall f ensures AskedFor(f, first, stop, d, n) <==> 0 <= f < n && InBounds(f, first, stop, d) {
      FrameInRange(first, stop, d, n, f);
    }
    if first >= stop {
      EmptyInterval(first, stop, d, n);
      hide AskedFor;
      forall f ensures !Meets(f, first, stop, d) {
      }
      if exists f :: 0 <= f < n && InBounds(f, first, stop, d) {
        var f :| 0 <= f < n && InBounds(f, first, stop, d);
        assert AskedFor(f, first, stop, d, n) && !Meets(f, first, stop, d);
      }
    } else {
      hide AskedFor;
      forall f ensures Meets(f, first, stop, d) <==> InBounds(f, first, stop, d) {
      }
    }
  }

  predicate InBounds(f: int, first: int, stop: int, d: nat) {
    f * d < stop && first < (f + 1) * d
  }

  lemma FrameInRange(first: int, stop: int, d: nat, n: nat, f: int)
    requires d > 0
    ensures AskedFor(f, first, stop, d, n) <==> 0 <= f < n && InBounds(f, first, stop, d)
  {
    CeilingMeaning(stop, d, f);
    FloorMeaning(first, d, f);
    if first < 0 {
      assert first / d < 0;
    }
  }

  /** The frame that holds an empty interval is in its bounds unless the interval starts on its edge. */
  lemma EmptyInterval(first: int, stop: int, d: nat, n: nat)
    requires d > 0 && stop <= first
    ensures (exists f :: 0 <= f < n && InBounds(f, first, stop, d))
            <==> !(stop <= 0 || n * d <= first || stop <= first / d * d)
  {
    var q := first / d;
    FloorMeaning(first, d, q);
    assert q * d <= first;
    if stop > 0 && first < n * d && q * d < stop {
      if q >= n {
        MulMonotone(d, n, q);
      }
      assert InBounds(q, first, stop, d);
    }
    forall f | 0 <= f < n && InBounds(f, first, stop, d)
      ensures !(stop <= 0 || n * d <= first || stop <= q * d)
    {
      MulMonotone(d, f + 1, n);
      MulMonotone(d, 0, f);
      FloorMeaning(first, d, f);
      MulMonotone(d, q, f);
    }
  }

  /** An empty interval inside a frame still asks for that frame. */
  lemma EmptyIntervalAsksForFrame()
    ensures FirstFrame(5, 10) == 0 && StopFrame(5, 10, 3) == 1 && !Meets(0, 5, 5, 10)
  {
  }
}
