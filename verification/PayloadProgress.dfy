/**
 * _PayloadProgress and _PayloadProgressNotifier of
 * src/cuphoton/xbeam/ingest_scheduler.py with their fields updated in place. Each
 * method is one critical section (wait_samples is two), stated by Readiness.
 */
module PayloadProgresses {
  import opened Options
  import opened Readiness
  import opened ReadinessRuns

  /** Generation-counted wakeup shared by all producers. */
  class PayloadProgressNotifier {
    var generation: nat

    constructor ()
      ensures generation == 0
    {
      generation := 0;
    }

    method NotifyLocked()
      modifies this
      ensures generation == old(generation) + 1
    {
      generation := generation + 1;
    }
  }

  class PayloadProgress {
    const tickets: array<int>
    const notifier: PayloadProgressNotifier
    const dynamicValidity: bool
    const staticValidity: Option<seq<bool>>
    var events: map<int, Event>
    var remaining: map<int, int>
    var nextTicket: int
    var coveredStop: nat
    var finished: bool
    var error: Option<Fault>

    ghost function State(): Progress
      reads this, tickets, notifier
    {
      Progress(tickets[..], events, remaining, nextTicket, coveredStop, dynamicValidity, staticValidity,
               finished, error, notifier.generation)
    }

    constructor (slotCount: nat, dynamic: bool, validity: Option<seq<bool>>, shared: PayloadProgressNotifier)
      requires validity.Some? ==> |validity.value| == slotCount
      ensures State() == Fresh(slotCount, dynamic, validity).(generation := shared.generation)
      ensures fresh(tickets) && notifier == shared
    {
      tickets := new int[slotCount](_ => 0);
      notifier := shared;
      dynamicValidity := dynamic;
      staticValidity := validity;
      events, remaining := map[], map[];
      nextTicket := 1;
      coveredStop := 0;
      finished := false;
      error := None;
    }

    /** self._tickets[slots] = value. */
    method Assign(slots: seq<nat>, value: int)
      requires InRange(slots, tickets.Length)
      modifies tickets
      ensures tickets[..] == SetAll(old(tickets[..]), slots, value)
    {
      for i := 0 to |slots|
        invariant tickets[..] == SetAll(old(tickets[..]), slots[..i], value)
      {
        assert slots[..i + 1][..i] == slots[..i];
        tickets[slots[i]] := value;
      }
      assert slots[..|slots|] == slots;
    }

    /** Register `event` for `slots` under the next ticket. */
    method IssueTicket(slots: seq<nat>, event: Event)
      requires InRange(slots, tickets.Length)
      modifies this`nextTicket, this`events, this`remaining, tickets
      ensures State() == Issue(old(State()), slots, event)
    {
      var ticket := nextTicket;
      nextTicket := nextTicket + 1;
      events := events[ticket := event];
      remaining := remaining[ticket := |slots|];
      Assign(slots, ticket);
    }

    method PublishSlots(destinations: seq<nat>, event: Event)
      requires Sized(State()) && InRange(destinations, tickets.Length)
      modifies this, tickets, notifier
      ensures State() == PublishValidated(old(State()), destinations, event)
    {
      SelectedSlots(State(), destinations);
      var selected := if staticValidity.Some? then Kept(destinations, staticValidity.value) else destinations;
      if selected == [] {
        return;
      }
      IssueTicket(selected, event);
      notifier.NotifyLocked();
    }

    /** publish: drop negative destinations and repetitions first. */
    method Publish(destinations: seq<int>, event: Event)
      requires Sized(State()) && forall i :: 0 <= i < |destinations| ==> destinations[i] < tickets.Length
      modifies this, tickets, notifier
      ensures State() == PublishValidated(old(State()), UniqueDestinations(destinations, tickets.Length), event)
    {
      PublishSlots(UniqueDestinations(destinations, tickets.Length), event);
    }

    /** publish_through; `refused` is the ValueError for validity that is too short. */
    method PublishCoverage(stop: int, event: Event, validity: seq<bool>) returns (refused: bool)
      requires Sized(State())
      modifies this, tickets, notifier
      ensures refused == ThroughRefused(old(State()), stop, validity)
      ensures State() == if refused then old(State()) else PublishThrough(old(State()), stop, event, validity)
    {
      hide SetAll, Kept, Slots, Issue;
      var selectedStop: nat := if stop < 0 then 0 else if stop < tickets.Length then stop else tickets.Length;
      var start := coveredStop;
      if selectedStop <= start {
        return false;
      }
      if |validity| < selectedStop {
        return true;
      }
      CoverSlots(Slots(start, selectedStop), event, validity);
      coveredStop := selectedStop;
      notifier.NotifyLocked();
      refused := false;
    }

    /** Mark covered slots as needing no wait, then give the valid ones a ticket. */
    method CoverSlots(covered: seq<nat>, event: Event, validity: seq<bool>)
      requires InRange(covered, tickets.Length) && InRange(covered, |validity|)
      modifies this`nextTicket, this`events, this`remaining, tickets
      ensures InRange(Kept(covered, validity), tickets.Length)
      ensures var bare := old(State()).(tickets := SetAll(old(State()).tickets, covered, -1));
              var valid := Kept(covered, validity);
              State() == if valid == [] then bare else Issue(bare, valid, event)
    {
      hide SetAll, Kept;
      var valid := Kept(covered, validity);
      KeptInRange(covered, validity, tickets.Length);
      Assign(covered, -1);
      if valid != [] {
        IssueTicket(valid, event);
      }
    }

    method FinishUpload(fault: Option<Fault>)
      modifies this`finished, this`error, notifier
      ensures State() == Finish(old(State()), fault)
      ensures finished && error == fault && notifier.generation == old(notifier.generation) + 1
    {
      finished := true;
      error := fault;
      notifier.NotifyLocked();
    }

    method AskPublished(firstFrame: nat, stopFrame: int, validity: seq<bool>) returns (answer: Answer)
      requires stopFrame <= |validity| && stopFrame <= tickets.Length
      ensures answer == SamplesPublished(State(), firstFrame, stopFrame, validity)
    {
      if error.Some? {
        return UploadError(error.value);
      }
      if firstFrame >= stopFrame {
        return Ready;
      }
      var required := if dynamicValidity then Slots(firstFrame, stopFrame) else ValidSlots(firstFrame, stopFrame, validity);
      RequiredInRange(State(), firstFrame, stopFrame, validity);
      var ready := AllPublished(required);
      if !ready && finished {
        return MissingFrames;
      }
      answer := if ready then Ready else NotReady;
    }

    /** not np.any(self._tickets[slots] == 0). */
    method AllPublished(slots: seq<nat>) returns (all: bool)
      requires InRange(slots, tickets.Length)
      ensures all == Published(State(), slots)
    {
      for i := 0 to |slots|
        invariant forall j :: 0 <= j < i ==> tickets[slots[j]] != 0
      {
        if tickets[slots[i]] == 0 {
          return false;
        }
      }
      all := true;
    }

    /** The first critical section of wait_samples, once nothing blocks it. */
    method BeginWait(firstFrame: nat, stopFrame: int, validity: seq<bool>) returns (r: Snapshot)
      requires stopFrame <= |validity| && stopFrame <= tickets.Length && EventsKept(State())
      ensures r == TakeSnapshot(State(), firstFrame, stopFrame, validity)
    {
      if error.Some? {
        return Failed(error.value);
      }
      if firstFrame >= stopFrame {
        return Done;
      }
      RequiredInRange(State(), firstFrame, stopFrame, validity);
      var valid := ValidSlots(firstFrame, stopFrame, validity);
      if valid == [] {
        return Done;
      }
      var all := AllPublished(valid);
      if !all {
        return Missing;
      }
      var pending := PendingTickets(tickets[..], valid);
      assert forall i :: 0 <= i < |pending| ==> pending[i] in pending;
      var known := events;
      r := Pending(valid, pending, seq(|pending|, i requires 0 <= i < |pending| && pending[i] in known => known[pending[i]]));
    }

    /** The second critical section: retire the tickets the stream now waits for. */
    method EndWait(valid: seq<nat>, pending: seq<int>)
      requires InRange(valid, tickets.Length) && Distinct(pending) && CountersKept(State(), pending)
      modifies this`remaining, this`events, tickets
      ensures State() == Commit(old(State()), valid, pending)
    {
      ghost var before := State();
      assert pending[..0] == [];
      for i := 0 to |pending|
        invariant CommitReady(before, valid, pending, i)
        invariant State() == Commit(before, valid, pending[..i])
      {
        CommitNext(before, valid, pending, i);
        RetireTicket(valid, pending[i]);
      }
      assert pending[..|pending|] == pending;
    }

    method RetireTicket(valid: seq<nat>, ticket: int)
      requires InRange(valid, tickets.Length) && ticket in remaining
      modifies this`remaining, this`events, tickets
      ensures State() == Retire(old(State()), valid, ticket)
    {
      var selected := Carrying(tickets[..], valid, ticket);
      CarryingUnique(tickets[..], valid, ticket);
      Assign(selected, -1);
      var left := remaining[ticket] - |selected|;
      if left == 0 {
        remaining := remaining - {ticket};
        events := events - {ticket};
      } else {
        remaining := remaining[ticket := left];
      }
    }
  }

  /** The constructor as callers see it: None is the ValueError for static validity of another length. */
  method MakeProgress(slotCount: nat, dynamic: bool, validity: Option<seq<bool>>, shared: PayloadProgressNotifier)
    returns (made: Option<PayloadProgress>)
    ensures made.None? <==> validity.Some? && |validity.value| != slotCount
    ensures made.Some? ==>
      && fresh(made.value) && fresh(made.value.tickets) && made.value.notifier == shared
      && made.value.State() == Fresh(slotCount, dynamic, validity).(generation := shared.generation)
      && Sized(made.value.State())
  {
    if validity.Some? && |validity.value| != slotCount {
      return None;
    }
    var progress := new PayloadProgress(slotCount, dynamic, validity, shared);
    made := Some(progress);
  }

  /** The first i tickets can be committed and the counters of the rest survive it. */
  ghost predicate CommitReady(p: Progress, valid: seq<nat>, pending: seq<int>, i: nat) {
    && i <= |pending| && InRange(valid, |p.tickets|) && Distinct(pending[..i])
    && CountersKept(p, pending[..i])
  }

  lemma CommitNext(p: Progress, valid: seq<nat>, pending: seq<int>, i: nat)
    requires i < |pending| && InRange(valid, |p.tickets|) && Distinct(pending) && CountersKept(p, pending)
    requires CommitReady(p, valid, pending, i)
    ensures CommitReady(p, valid, pending, i + 1)
    ensures pending[i] in Commit(p, valid, pending[..i]).remaining
    ensures Commit(p, valid, pending[..i + 1]) == Retire(Commit(p, valid, pending[..i]), valid, pending[i])
  {
    assert pending[..i + 1][..i] == pending[..i];
    assert pending[i] in pending && pending[i] !in pending[..i];
    assert forall t :: t in pending[..i + 1] ==> t in pending;
  }

  /** numpy.unique of the destinations that are not negative. */
  function UniqueDestinations(destinations: seq<int>, n: nat): (r: seq<nat>)
    requires forall i :: 0 <= i < |destinations| ==> destinations[i] < n
    ensures forall s: nat :: s in r <==> s in destinations
    ensures forall i, j :: 0 <= i < j < |r| ==> r[i] < r[j]
    ensures Unique(r) && InRange(r, n)
  {
    if destinations == [] then []
    else
      var last := |destinations| - 1;
      var rest := UniqueDestinations(destinations[..last], n);
      assert forall s :: s in destinations <==> s in destinations[..last] || s == destinations[last];
      if destinations[last] < 0 then rest else InsertSlot(destinations[last], rest, n)
  }

  function InsertSlot(d: nat, sorted: seq<nat>, n: nat): (r: seq<nat>)
    requires forall i, j :: 0 <= i < j < |sorted| ==> sorted[i] < sorted[j]
    requires InRange(sorted, n) && d < n
    ensures forall i, j :: 0 <= i < j < |r| ==> r[i] < r[j]
    ensures InRange(r, n)
    ensures forall s :: s in r <==> s in sorted || s == d
  {
    if sorted == [] || sorted[|sorted| - 1] < d then sorted + [d]
    else if sorted[|sorted| - 1] == d then sorted
    else
      var last := |sorted| - 1;
      assert sorted == sorted[..last] + [sorted[last]];
      var r := InsertSlot(d, sorted[..last], n);
      assert forall i :: 0 <= i < |r| ==> r[i] in r;
      assert forall i :: 0 <= i < last ==> sorted[..last][i] < sorted[last];
      r + [sorted[last]]
  }
}
