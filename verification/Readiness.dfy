/**
 * Readiness of payload slots (_PayloadProgress of
 * src/cuphoton/xbeam/ingest_scheduler.py) as values: every method is one or two
 * critical sections, and every critical section is a function here.
 * PayloadProgress computes them in place.
 */
module Readiness {
  import opened Options

  datatype Event = Event(id: nat)

  datatype Fault = Fault(id: nat)

  /**
   * tickets[s] is 0 while slot s is unpublished, the ticket of its upload while
   * the consumer still has to wait, and -1 once nothing is left to wait for.
   */
  datatype Progress = Progress(
    tickets: seq<int>, events: map<int, Event>, remaining: map<int, int>, nextTicket: int, coveredStop: nat,
    dynamic: bool, staticValidity: Option<seq<bool>>, finished: bool, error: Option<Fault>, generation: nat)

  function Fresh(slotCount: nat, dynamic: bool, staticValidity: Option<seq<bool>>): Progress {
    Progress(seq(slotCount, _ => 0), map[], map[], 1, 0, dynamic, staticValidity, false, None, 0)
  }

  /** The arrays of a progress have the sizes the constructor and publishers keep. */
  predicate Sized(p: Progress) {
    && p.coveredStop <= |p.tickets|
    && (p.staticValidity.Some? ==> |p.staticValidity.value| == |p.tickets|)
  }

  // ----- assigning and counting tickets -----

  predicate InRange(slots: seq<nat>, n: nat) {
    forall i :: 0 <= i < |slots| ==> slots[i] < n
  }

  predicate Unique(slots: seq<nat>) {
    forall i, j :: 0 <= i < j < |slots| ==> slots[i] != slots[j]
  }

  /** values[slots] = v. */
  function SetAll<T>(values: seq<T>, slots: seq<nat>, v: T): (r: seq<T>)
    requires InRange(slots, |values|)
    ensures |r| == |values|
  {
    if slots == [] then values
    else
      var last := |slots| - 1;
      SetAll(values, slots[..last], v)[slots[last] := v]
  }

  lemma {:induction false} SetAllAt<T>(values: seq<T>, slots: seq<nat>, v: T, s: nat)
    requires InRange(slots, |values|) && s < |values|
    ensures SetAll(values, slots, v)[s] == if s in slots then v else values[s]
  {
    if slots != [] {
      SetAllAt(values, slots[..|slots| - 1], v, s);
      assert s in slots <==> s in slots[..|slots| - 1] || s == slots[|slots| - 1];
    }
  }

  /** How many slots carry ticket t. */
  function Carriers(tickets: seq<int>, t: int): nat {
    multiset(tickets)[t]
  }

  /** How many of the listed slots carry ticket t. */
  function Hits(tickets: seq<int>, slots: seq<nat>, t: int): nat
    requires InRange(slots, |tickets|)
  {
    if slots == [] then 0
    else
      var last := |slots| - 1;
      Hits(tickets, slots[..last], t) + if tickets[slots[last]] == t then 1 else 0
  }

  lemma {:induction false} SetAllCarriers(tickets: seq<int>, slots: seq<nat>, v: int, t: int)
    requires InRange(slots, |tickets|) && Unique(slots)
    ensures Carriers(SetAll(tickets, slots, v), t)
            == Carriers(tickets, t) - Hits(tickets, slots, t) + if t == v then |slots| else 0
  {
    if slots != [] {
      var last := |slots| - 1;
      SetAllCarriers(tickets, slots[..last], v, t);
      SetAllAt(tickets, slots[..last], v, slots[last]);
    }
  }

  lemma {:induction false} HitsUniform(tickets: seq<int>, slots: seq<nat>, t: int)
    requires InRange(slots, |tickets|)
    ensures (forall i :: 0 <= i < |slots| ==> tickets[slots[i]] != t) <==> Hits(tickets, slots, t) == 0
    ensures (forall i :: 0 <= i < |slots| ==> tickets[slots[i]] == t) ==> Hits(tickets, slots, t) == |slots|
  {
    if slots != [] {
      HitsUniform(tickets, slots[..|slots| - 1], t);
    }
  }

  lemma CarrierExists(tickets: seq<int>, t: int)
    ensures Carriers(tickets, t) > 0 <==> exists s :: 0 <= s < |tickets| && tickets[s] == t
  {
    if Carriers(tickets, t) > 0 {
      assert t in multiset(tickets);
      assert t in tickets;
    }
    if exists s :: 0 <= s < |tickets| && tickets[s] == t {
      assert t in tickets;
      assert t in multiset(tickets);
    }
  }

  // ----- choosing slots -----

  /** The slots of a validity filter. */
  function Kept(slots: seq<nat>, validity: seq<bool>): (r: seq<nat>)
    requires InRange(slots, |validity|)
    ensures forall s :: s in r <==> s in slots && validity[s]
  {
    if slots == [] then []
    else
      var last := |slots| - 1;
      assert forall s :: s in slots <==> s in slots[..last] || s == slots[last];
      Kept(slots[..last], validity) + if validity[slots[last]] then [slots[last]] else []
  }

  lemma {:induction false} KeptUnique(slots: seq<nat>, validity: seq<bool>)
    requires InRange(slots, |validity|)
    ensures Unique(slots) ==> Unique(Kept(slots, validity))
  {
    if slots != [] {
      var last := |slots| - 1;
      KeptUnique(slots[..last], validity);
      if Unique(slots) {
        assert slots[last] !in slots[..last];
      }
    }
  }

  lemma KeptInRange(slots: seq<nat>, validity: seq<bool>, n: nat)
    requires InRange(slots, |validity|) && InRange(slots, n)
    ensures InRange(Kept(slots, validity), n)
  {
    var kept := Kept(slots, validity);
    forall i | 0 <= i < |kept| ensures kept[i] < n {
      assert kept[i] in kept;
    }
  }

  /** first, first + 1, ..., stop - 1. */
  function Slots(first: nat, stop: nat): (r: seq<nat>)
    ensures first <= stop ==> |r| == stop - first
    ensures forall i :: 0 <= i < |r| ==> r[i] == first + i
    ensures Unique(r)
    ensures forall s :: s in r <==> first <= s < stop
  {
    if first >= stop then [] else Slots(first, stop - 1) + [stop - 1]
  }

  // ----- the critical sections of publishing -----

  /** The destinations left after the static validity filter. */
  function Selected(p: Progress, slots: seq<nat>): seq<nat>
    requires Sized(p) && InRange(slots, |p.tickets|)
  {
    if p.staticValidity.Some? then Kept(slots, p.staticValidity.value) else slots
  }

  lemma SelectedSlots(p: Progress, slots: seq<nat>)
    requires Sized(p) && InRange(slots, |p.tickets|)
    ensures InRange(Selected(p, slots), |p.tickets|)
    ensures Unique(slots) ==> Unique(Selected(p, slots))
    ensures forall s :: s in Selected(p, slots) <==> s in slots && (p.staticValidity.Some? ==> p.staticValidity.value[s])
  {
    if p.staticValidity.Some? {
      KeptUnique(slots, p.staticValidity.value);
      KeptInRange(slots, p.staticValidity.value, |p.tickets|);
    }
  }

  /** Give a fresh ticket for `event` to nonempty `slots`. */
  function Issue(p: Progress, slots: seq<nat>, event: Event): Progress
    requires InRange(slots, |p.tickets|)
  {
    p.(nextTicket := p.nextTicket + 1,
       events := p.events[p.nextTicket := event],
       remaining := p.remaining[p.nextTicket := |slots|],
       tickets := SetAll(p.tickets, slots, p.nextTicket))
  }

  function Notify(p: Progress): Progress {
    p.(generation := p.generation + 1)
  }

  /** publish_validated. */
  function PublishValidated(p: Progress, slots: seq<nat>, event: Event): Progress
    requires Sized(p) && InRange(slots, |p.tickets|)
  {
    SelectedSlots(p, slots);
    var selected := Selected(p, slots);
    if selected == [] then p else Notify(Issue(p, selected, event))
  }

  function SelectedStop(p: Progress, stop: int): nat {
    if stop < 0 then 0 else if stop < |p.tickets| then stop else |p.tickets|
  }

  /** publish_through raises when the validity is shorter than the coverage. */
  predicate ThroughRefused(p: Progress, stop: int, validity: seq<bool>) {
    SelectedStop(p, stop) > p.coveredStop && |validity| < SelectedStop(p, stop)
  }

  /** publish_through. */
  function PublishThrough(p: Progress, stop: int, event: Event, validity: seq<bool>): Progress
    requires Sized(p) && !ThroughRefused(p, stop, validity)
  {
    var selectedStop := SelectedStop(p, stop);
    if selectedStop <= p.coveredStop then p
    else
      var covered := Slots(p.coveredStop, selectedStop);
      var valid := Kept(covered, validity);
      var bare := p.(tickets := SetAll(p.tickets, covered, -1));
      assert InRange(covered, |p.tickets|);
      KeptInRange(covered, validity, |p.tickets|);
      var issued := if valid == [] then bare else Issue(bare, valid, event);
      Notify(issued.(coveredStop := selectedStop))
  }

  function Finish(p: Progress, error: Option<Fault>): Progress {
    Notify(p.(finished := true, error := error))
  }

  // ----- asking and waiting -----

  /** first_sample // samples_per_frame, not below 0. */
  function FirstFrame(first: int, samplesPerFrame: nat): nat
    requires samplesPerFrame > 0
  {
    if first < 0 then 0 else first / samplesPerFrame
  }

  /** ceil(stop_sample / samples_per_frame), not above the slot count. */
  function StopFrame(stop: int, samplesPerFrame: nat, slotCount: nat): int
    requires samplesPerFrame > 0
  {
    var ceiling := -((-stop) / samplesPerFrame);
    if ceiling < slotCount then ceiling else slotCount
  }

  /** The valid slots of [a, b). */
  function ValidSlots(a: nat, b: nat, validity: seq<bool>): seq<nat>
    requires b <= |validity|
  {
    Kept(Slots(a, b), validity)
  }

  /** The slots whose publication an interval depends on. */
  function Required(p: Progress, a: nat, b: nat, validity: seq<bool>): seq<nat>
    requires b <= |validity|
  {
    if p.dynamic then Slots(a, b) else ValidSlots(a, b, validity)
  }

  predicate Published(p: Progress, slots: seq<nat>)
    requires InRange(slots, |p.tickets|)
  {
    forall i :: 0 <= i < |slots| ==> p.tickets[slots[i]] != 0
  }

  lemma RequiredInRange(p: Progress, a: nat, b: nat, validity: seq<bool>)
    requires b <= |validity| && b <= |p.tickets|
    ensures InRange(Required(p, a, b, validity), |p.tickets|)
    ensures InRange(ValidSlots(a, b, validity), |p.tickets|) && Unique(ValidSlots(a, b, validity))
  {
    KeptUnique(Slots(a, b), validity);
    KeptInRange(Slots(a, b), validity, |p.tickets|);
  }

  datatype Answer = Ready | NotReady | UploadError(fault: Fault) | MissingFrames

  /** samples_published over the frames [a, b). */
  function SamplesPublished(p: Progress, a: nat, b: int, validity: seq<bool>): Answer
    requires b <= |validity| && b <= |p.tickets|
  {
    if p.error.Some? then UploadError(p.error.value)
    else if a >= b then Ready
    else
      RequiredInRange(p, a, b, validity);
      if Published(p, Required(p, a, b, validity)) then Ready
      else if p.finished then MissingFrames
      else NotReady
  }

  /** wait_samples would block on the condition. */
  predicate Blocked(p: Progress, a: nat, b: int, validity: seq<bool>)
    requires b <= |validity| && b <= |p.tickets|
  {
    && a < b && !p.finished
    && (RequiredInRange(p, a, b, validity);
        !Published(p, Required(p, a, b, validity)))
  }

  datatype Snapshot =
    | Done | Failed(fault: Fault) | Missing
    | Pending(valid: seq<nat>, tickets: seq<int>, events: seq<Event>)

  /** numpy.unique of the positive tickets the slots carry. */
  function PendingTickets(tickets: seq<int>, slots: seq<nat>): (r: seq<int>)
    requires InRange(slots, |tickets|)
    ensures forall t :: t in r <==> t > 0 && exists i :: 0 <= i < |slots| && tickets[slots[i]] == t
    ensures forall i, j :: 0 <= i < j < |r| ==> r[i] < r[j]
  {
    if slots == [] then []
    else
      var last := |slots| - 1;
      InsertTicket(tickets[slots[last]], PendingTickets(tickets, slots[..last]))
  }

  function InsertTicket(t: int, sorted: seq<int>): (r: seq<int>)
    requires forall i, j :: 0 <= i < j < |sorted| ==> sorted[i] < sorted[j]
    ensures forall i, j :: 0 <= i < j < |r| ==> r[i] < r[j]
    ensures forall u :: u in r <==> u in sorted || (u == t && t > 0)
  {
    if t <= 0 then sorted
    else if sorted == [] then [t]
    else
      var last := |sorted| - 1;
      if t > sorted[last] then sorted + [t]
      else if t == sorted[last] then sorted
      else
        assert sorted == sorted[..last] + [sorted[last]];
        var r := InsertTicket(t, sorted[..last]);
        assert forall i :: 0 <= i < |r| ==> r[i] in r;
        assert forall i :: 0 <= i < last ==> sorted[..last][i] < sorted[last];
        r + [sorted[last]]
  }

  predicate EventsKept(p: Progress) {
    forall i :: 0 <= i < |p.tickets| && p.tickets[i] > 0 ==> p.tickets[i] in p.events
  }

  /** The first critical section of wait_samples, when it does not block. */
  function TakeSnapshot(p: Progress, a: nat, b: int, validity: seq<bool>): Snapshot
    requires b <= |validity| && b <= |p.tickets| && EventsKept(p)
  {
    if p.error.Some? then Failed(p.error.value)
    else if a >= b then Done
    else
      RequiredInRange(p, a, b, validity);
      var valid := ValidSlots(a, b, validity);
      if valid == [] then Done
      else if !Published(p, valid) then Missing
      else
        var tickets := PendingTickets(p.tickets, valid);
        assert forall i :: 0 <= i < |tickets| ==> tickets[i] in tickets;
        Pending(valid, tickets, EventsOf(p, tickets))
  }

  function EventsOf(p: Progress, tickets: seq<int>): (r: seq<Event>)
    requires forall i :: 0 <= i < |tickets| ==> tickets[i] in p.events
    ensures |r| == |tickets| && forall i :: 0 <= i < |r| ==> r[i] == p.events[tickets[i]]
  {
    seq(|tickets|, i requires 0 <= i < |tickets| => p.events[tickets[i]])
  }

  /** The slots of `valid` that carry ticket t. */
  function Carrying(tickets: seq<int>, valid: seq<nat>, t: int): (r: seq<nat>)
    requires InRange(valid, |tickets|)
    ensures forall s :: s in r <==> s in valid && tickets[s] == t
  {
    if valid == [] then []
    else
      var last := |valid| - 1;
      assert forall s :: s in valid <==> s in valid[..last] || s == valid[last];
      Carrying(tickets, valid[..last], t) + if tickets[valid[last]] == t then [valid[last]] else []
  }

  lemma {:induction false} CarryingUnique(tickets: seq<int>, valid: seq<nat>, t: int)
    requires InRange(valid, |tickets|)
    ensures InRange(Carrying(tickets, valid, t), |tickets|)
    ensures Unique(valid) ==> Unique(Carrying(tickets, valid, t))
  {
    if valid != [] {
      var last := |valid| - 1;
      CarryingUnique(tickets, valid[..last], t);
      if Unique(valid) {
        assert valid[last] !in valid[..last];
      }
    }
  }

  /** The second critical section for one ticket. */
  function Retire(p: Progress, valid: seq<nat>, t: int): Progress
    requires InRange(valid, |p.tickets|) && t in p.remaining
  {
    CarryingUnique(p.tickets, valid, t);
    RetireSlots(p, Carrying(p.tickets, valid, t), t)
  }

  function RetireSlots(p: Progress, selected: seq<nat>, t: int): Progress
    requires InRange(selected, |p.tickets|) && t in p.remaining
  {
    var left := p.remaining[t] - |selected|;
    var q := p.(tickets := SetAll(p.tickets, selected, -1));
    if left == 0 then q.(remaining := q.remaining - {t}, events := q.events - {t})
    else q.(remaining := q.remaining[t := left])
  }

  /** The second critical section. */
  function Commit(p: Progress, valid: seq<nat>, tickets: seq<int>): (q: Progress)
    requires InRange(valid, |p.tickets|)
    requires (forall t :: t in tickets ==> t in p.remaining) && Distinct(tickets)
    ensures |q.tickets| == |p.tickets|
    ensures forall t :: t in p.remaining && t !in tickets ==> t in q.remaining
  {
    if tickets == [] then p
    else
      var last := |tickets| - 1;
      assert forall t :: t in tickets <==> t in tickets[..last] || t == tickets[last];
      assert tickets[last] !in tickets[..last];
      Retire(Commit(p, valid, tickets[..last]), valid, tickets[last])
  }

  predicate Distinct(tickets: seq<int>) {
    forall i, j :: 0 <= i < j < |tickets| ==> tickets[i] != tickets[j]
  }
}
