/**
 * What the answers and steps of a payload progress
 * (src/cuphoton/xbeam/ingest_scheduler.py) mean slot by slot, and that the error of a
 * failed upload reaches everyone who asks or waits afterwards.
 */
module ReadinessLaws {
  import opened Options
  import opened Readiness
  import opened ReadinessRuns
  import opened Waiting

  // ----- answers -----

  /** The answer for frames [a, b) depends on slot s: every slot of a streaming upload, the valid ones otherwise. */
  predicate Depends(p: Progress, a: nat, b: int, validity: seq<bool>, s: int)
    requires b <= |validity|
  {
    a <= s < b && (p.dynamic || validity[s])
  }

  lemma RequiredMembers(p: Progress, a: nat, b: nat, validity: seq<bool>, s: nat)
    requires b <= |validity| && b <= |p.tickets|
    ensures s in Required(p, a, b, validity) <==> Depends(p, a, b, validity, s)
    ensures s in ValidSlots(a, b, validity) <==> a <= s < b && validity[s]
  {
  }

  lemma PublishedMembers(p: Progress, slots: seq<nat>)
    requires InRange(slots, |p.tickets|)
    ensures Published(p, slots) <==> forall s :: s in slots ==> s < |p.tickets| && p.tickets[s] != 0
  {
    forall i | 0 <= i < |slots| ensures slots[i] in slots {
    }
  }

  /** Every slot the interval depends on is published. */
  ghost predicate AllThere(p: Progress, a: nat, b: int, validity: seq<bool>)
    requires b <= |validity| && b <= |p.tickets|
  {
    forall s :: Depends(p, a, b, validity, s) ==> p.tickets[s] != 0
  }

  lemma RequiredThere(p: Progress, a: nat, b: nat, validity: seq<bool>)
    requires b <= |validity| && b <= |p.tickets| && InRange(Required(p, a, b, validity), |p.tickets|)
    ensures Published(p, Required(p, a, b, validity)) <==> AllThere(p, a, b, validity)
  {
    var required := Required(p, a, b, validity);
    PublishedMembers(p, required);
    forall s: nat ensures s in required <==> Depends(p, a, b, validity, s) {
      RequiredMembers(p, a, b, validity, s);
    }
    hide Required, Published;
  }

  /** samples_published, answer by answer. */
  lemma AnswerExactly(p: Progress, a: nat, b: int, validity: seq<bool>)
    requires b <= |validity| && b <= |p.tickets|
    ensures match SamplesPublished(p, a, b, validity)
            case UploadError(fault) => p.error == Some(fault)
            case Ready => p.error.None? && AllThere(p, a, b, validity)
            case MissingFrames => p.error.None? && !AllThere(p, a, b, validity) && p.finished
            case NotReady => p.error.None? && !AllThere(p, a, b, validity) && !p.finished
    ensures Blocked(p, a, b, validity) <==> !AllThere(p, a, b, validity) && !p.finished
  {
    if a < b {
      RequiredInRange(p, a, b, validity);
      RequiredThere(p, a, b, validity);
      hide Required, Published, AllThere;
    }
  }

  /** What a wait takes away: the valid slots, their pending tickets and the events of those. */
  ghost predicate Takes(p: Progress, a: nat, b: int, validity: seq<bool>, valid: seq<nat>, tickets: seq<int>, events: seq<Event>)
    requires b <= |validity| && b <= |p.tickets|
  {
    && valid != [] && (forall s: nat :: s in valid <==> a <= s < b && validity[s])
    && (forall s :: a <= s < b && validity[s] ==> p.tickets[s] != 0)
    && (forall t :: t in tickets <==> t > 0 && exists s :: a <= s < b && validity[s] && p.tickets[s] == t)
    && |events| == |tickets|
    && forall i :: 0 <= i < |tickets| ==> tickets[i] in p.events && events[i] == p.events[tickets[i]]
  }

  /** The first critical section of wait_samples, outcome by outcome. */
  lemma SnapshotExactly(p: Progress, a: nat, b: int, validity: seq<bool>)
    requires b <= |validity| && b <= |p.tickets| && EventsKept(p)
    ensures match TakeSnapshot(p, a, b, validity)
            case Failed(fault) => p.error == Some(fault)
            case Done => p.error.None? && forall s :: a <= s < b ==> !validity[s]
            case Missing => p.error.None? && exists s :: a <= s < b && validity[s] && p.tickets[s] == 0
            case Pending(valid, tickets, events) => p.error.None? && Takes(p, a, b, validity, valid, tickets, events)
  {
    if a < b && p.error.None? {
      var valid := ValidSlots(a, b, validity);
      RequiredInRange(p, a, b, validity);
      forall s: nat ensures s in valid <==> a <= s < b && validity[s] {
        RequiredMembers(p, a, b, validity, s);
      }
      PublishedMembers(p, valid);
      hide ValidSlots, Published;
      if valid == [] {
        forall s | a <= s < b ensures !validity[s] {
          assert s !in valid;
        }
      } else if Published(p, valid) {
        var tickets := PendingTickets(p.tickets, valid);
        assert forall i :: 0 <= i < |tickets| ==> tickets[i] in tickets;
        SnapshotTakesAway(p, a, b, validity, valid, tickets);
      } else {
        var s :| s in valid && !(s < |p.tickets| && p.tickets[s] != 0);
        assert a <= s < b && validity[s] && p.tickets[s] == 0;
      }
    }
  }

  lemma SnapshotTakesAway(p: Progress, a: nat, b: int, validity: seq<bool>, valid: seq<nat>, tickets: seq<int>)
    requires b <= |validity| && b <= |p.tickets| && EventsKept(p) && valid != [] && InRange(valid, |p.tickets|)
    requires forall s: nat :: s in valid <==> a <= s < b && validity[s]
    requires forall s :: s in valid ==> s < |p.tickets| && p.tickets[s] != 0
    requires tickets == PendingTickets(p.tickets, valid) && forall i :: 0 <= i < |tickets| ==> tickets[i] in p.events
    ensures Takes(p, a, b, validity, valid, tickets, EventsOf(p, tickets))
  {
    forall t ensures t in tickets <==> t > 0 && exists s :: a <= s < b && validity[s] && p.tickets[s] == t {
      if t in tickets {
        var i :| 0 <= i < |valid| && p.tickets[valid[i]] == t;
        assert valid[i] in valid;
      }
      if s :| t > 0 && a <= s < b && validity[s] && p.tickets[s] == t {
        assert s in valid;
        var i :| 0 <= i < |valid| && valid[i] == s;
        assert p.tickets[valid[i]] == t;
      }
    }
  }

  // ----- publishing -----

  /** publish_validated uploads into slot s. */
  predicate Uploads(p: Progress, slots: seq<nat>, s: nat)
    requires Sized(p) && s < |p.tickets|
  {
    s in slots && (p.staticValidity.None? || p.staticValidity.value[s])
  }

  /** Its slots get one new ticket for the event, the others keep theirs; without a slot nothing happens. */
  lemma PublishExactly(p: Progress, slots: seq<nat>, event: Event, s: nat)
    requires Sized(p) && InRange(slots, |p.tickets|) && s < |p.tickets|
    ensures var z := PublishValidated(p, slots, event);
            && |z.tickets| == |p.tickets|
            && z.tickets[s] == (if Uploads(p, slots, s) then p.nextTicket else p.tickets[s])
            && (Uploads(p, slots, s) ==>
                  z.nextTicket == p.nextTicket + 1 && z.events == p.events[p.nextTicket := event]
                  && z.generation == p.generation + 1)
            && ((forall u :: u in slots ==> !Uploads(p, slots, u)) ==> z == p)
  {
    SelectedSlots(p, slots);
    var selected := Selected(p, slots);
    hide Selected;
    if selected == [] {
      assert s !in selected;
    } else {
      SetAllAt(p.tickets, selected, p.nextTicket, s);
      assert selected[0] in selected;
    }
  }

  /** Where publish_through ends: its stop, kept inside the slots, and never before what is covered. */
  function CoverageAfter(p: Progress, stop: int): int {
    var inside := if stop > |p.tickets| then |p.tickets| else stop;
    if inside > p.coveredStop then inside else p.coveredStop
  }

  /** publish_through covers the slots up to there: the valid ones with one new ticket, the others as done. */
  lemma ThroughExactly(p: Progress, stop: int, event: Event, validity: seq<bool>, s: nat)
    requires Sized(p) && s < |p.tickets|
    ensures ThroughRefused(p, stop, validity) <==> CoverageAfter(p, stop) > p.coveredStop && |validity| < CoverageAfter(p, stop)
    ensures !ThroughRefused(p, stop, validity) ==>
              var z := PublishThrough(p, stop, event, validity);
              && z.coveredStop == CoverageAfter(p, stop) && |z.tickets| == |p.tickets|
              && z.tickets[s] == (if p.coveredStop <= s < z.coveredStop then if validity[s] then p.nextTicket else -1
                                  else p.tickets[s])
              && (p.coveredStop <= s < z.coveredStop && validity[s] ==> z.events == p.events[p.nextTicket := event])
              && (z.generation == p.generation + if z.coveredStop > p.coveredStop then 1 else 0)
  {
    var selectedStop := SelectedStop(p, stop);
    if selectedStop > p.coveredStop && |validity| >= selectedStop {
      var covered := Slots(p.coveredStop, selectedStop);
      var valid := Kept(covered, validity);
      KeptInRange(covered, validity, |p.tickets|);
      SetAllAt(p.tickets, covered, -1, s);
      SetAllAt(SetAll(p.tickets, covered, -1), valid, p.nextTicket, s);
      hide SetAll, Slots, Kept;
      if p.coveredStop <= s < selectedStop && validity[s] {
        assert s in valid;
      }
      if valid == [] {
        assert s !in valid;
      }
    }
  }

  /**
   * At first nothing is published: a question that depends on any slot is not ready and
   * blocks, nothing is missing, and the first coverage starts at slot zero.
   */
  lemma NothingAtFirst(slotCount: nat, dynamic: bool, declared: Option<seq<bool>>, a: nat, b: int, validity: seq<bool>)
    requires b <= |validity| && b <= slotCount
    ensures var p := Fresh(slotCount, dynamic, declared);
            && SamplesPublished(p, a, b, validity) == (if exists s :: Depends(p, a, b, validity, s) then NotReady else Ready)
            && (Blocked(p, a, b, validity) <==> exists s :: Depends(p, a, b, validity, s))
            && p.coveredStop == 0
  {
    AnswerExactly(Fresh(slotCount, dynamic, declared), a, b, validity);
  }

  // ----- a failed upload -----

  predicate NoFinish(steps: seq<Step>) {
    forall i :: 0 <= i < |steps| ==> !steps[i].FinishStep?
  }

  lemma StepKeepsEnd(w: World, step: Step)
    requires Sound(w) && Coherent(w) && Enabled(w, step) && !step.FinishStep?
    ensures Do(w, step).p.error == w.p.error && Do(w, step).p.finished == w.p.finished
  {
    match step {
      case PublishStep(slots, event) => hide SetAll, Selected;
      case ThroughStep(stop, event, validity) => hide SetAll, Kept, Slots;
      case CommitStep =>
        HeldCounters(w.p, w.consumer.valid, w.consumer.tickets, w.consumer.events);
        CommitDynamic(w.p, w.consumer.valid, w.consumer.tickets);
        hide Commit;
      case _ =>
    }
  }

  lemma {:induction false} RunKeepsEnd(w: World, steps: seq<Step>)
    requires Sound(w) && Legal(w, steps) && NoFinish(steps)
    ensures After(w, steps).p.error == w.p.error && After(w, steps).p.finished == w.p.finished
    decreases |steps|
  {
    hide Sound, Do, Enabled;
    if steps != [] {
      StepSound(w, steps[0]);
      StepKeepsEnd(w, steps[0]);
      RunKeepsEnd(Do(w, steps[0]), steps[1..]);
    }
  }

  /**
   * Once an upload has ended, whatever is published or retired later: with an error,
   * every question and every wait, for whatever interval, gets that very error; without
   * one nobody gets an error, and nobody blocks.
   */
  lemma EndReachesEveryone(w: World, error: Option<Fault>, later: seq<Step>, a: nat, b: int, validity: seq<bool>)
    requires Sound(w) && Legal(w, [FinishStep(error)] + later) && NoFinish(later)
    requires b <= |validity| && b <= |w.p.tickets|
    ensures var z := After(w, [FinishStep(error)] + later);
            && |z.p.tickets| == |w.p.tickets| && EventsKept(z.p) && !Blocked(z.p, a, b, validity)
            && (if error.Some? then
                  SamplesPublished(z.p, a, b, validity) == UploadError(error.value)
                  && TakeSnapshot(z.p, a, b, validity) == Failed(error.value)
                else !SamplesPublished(z.p, a, b, validity).UploadError? && !TakeSnapshot(z.p, a, b, validity).Failed?)
  {
    var steps := [FinishStep(error)] + later;
    RunConcat(w, [FinishStep(error)], later);
    OneStep(w, FinishStep(error));
    StepSound(w, FinishStep(error));
    RunSound(w, steps);
    RunLength(w, steps);
    RunKeepsEnd(Do(w, FinishStep(error)), later);
    var z := After(w, steps);
    AccountedSized(z.p);
    assert z.p.error == error && z.p.finished;
    hide Sound, Legal, After, Do, Required, Published, ValidSlots;
  }
}
