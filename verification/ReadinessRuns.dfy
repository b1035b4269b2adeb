/**
 * Publishers and one consumer of a payload progress as a transition system: what
 * every run keeps, and what a finished wait has ordered.
 */
module ReadinessRuns {
  import opened Options
  import opened Readiness

  // ----- tickets are counted -----

  /** Ticket t has its counter and its event exactly while some slot carries it. */
  predicate CountOf(p: Progress, t: int) {
    && (t in p.remaining <==> t > 0 && Carriers(p.tickets, t) > 0)
    && (t in p.events <==> t in p.remaining)
    && (t in p.remaining ==> p.remaining[t] == Carriers(p.tickets, t))
  }

  predicate TicketsBelow(p: Progress) {
    p.nextTicket >= 1 && forall i :: 0 <= i < |p.tickets| ==> -1 <= p.tickets[i] < p.nextTicket
  }

  ghost predicate Accounted(p: Progress) {
    Sized(p) && TicketsBelow(p) && forall t :: CountOf(p, t)
  }

  /** None of the slots waits for an upload already. */
  predicate NonePending(p: Progress, slots: seq<nat>)
    requires InRange(slots, |p.tickets|)
  {
    forall i :: 0 <= i < |slots| ==> p.tickets[slots[i]] <= 0
  }

  lemma FreshAccounted(slotCount: nat, dynamic: bool, staticValidity: Option<seq<bool>>)
    requires staticValidity.Some? ==> |staticValidity.value| == slotCount
    ensures Accounted(Fresh(slotCount, dynamic, staticValidity))
  {
    var p := Fresh(slotCount, dynamic, staticValidity);
    forall t ensures CountOf(p, t) {
      CarrierExists(p.tickets, t);
    }
  }

  lemma SetAllTickets(p: Progress, slots: seq<nat>, v: int)
    requires InRange(slots, |p.tickets|) && TicketsBelow(p) && -1 <= v
    ensures forall i :: 0 <= i < |p.tickets| ==> -1 <= SetAll(p.tickets, slots, v)[i] <= (if v >= p.nextTicket then v else p.nextTicket - 1)
  {
    forall i | 0 <= i < |p.tickets|
      ensures -1 <= SetAll(p.tickets, slots, v)[i] <= (if v >= p.nextTicket then v else p.nextTicket - 1)
    {
      SetAllAt(p.tickets, slots, v, i);
    }
  }

  lemma NewTicketUnused(p: Progress)
    requires TicketsBelow(p)
    ensures Carriers(p.tickets, p.nextTicket) == 0
  {
    CarrierExists(p.tickets, p.nextTicket);
  }

  /** Issuing a ticket to slots that are not pending keeps every count. */
  lemma IssueCounts(p: Progress, slots: seq<nat>, event: Event, t: int)
    requires Accounted(p) && InRange(slots, |p.tickets|) && Unique(slots) && slots != []
    requires NonePending(p, slots)
    ensures CountOf(Issue(p, slots, event), t)
  {
    hide SetAll, Carriers, Hits;
    assert CountOf(p, t);
    NewTicketUnused(p);
    SetAllCarriers(p.tickets, slots, p.nextTicket, t);
    HitsUniform(p.tickets, slots, t);
    CarrierExists(p.tickets, t);
  }

  lemma IssueAccounted(p: Progress, slots: seq<nat>, event: Event)
    requires Accounted(p) && InRange(slots, |p.tickets|) && Unique(slots) && slots != []
    requires NonePending(p, slots)
    ensures Accounted(Issue(p, slots, event))
  {
    hide CountOf, SetAll;
    SetAllTickets(p, slots, p.nextTicket);
    forall t ensures CountOf(Issue(p, slots, event), t) {
      IssueCounts(p, slots, event, t);
    }
  }

  /** Marking slots that are not pending as needing no wait keeps every count. */
  lemma CoverAccounted(p: Progress, slots: seq<nat>)
    requires Accounted(p) && InRange(slots, |p.tickets|) && Unique(slots) && NonePending(p, slots)
    ensures Accounted(p.(tickets := SetAll(p.tickets, slots, -1)))
  {
    var q := p.(tickets := SetAll(p.tickets, slots, -1));
    SetAllTickets(p, slots, -1);
    hide SetAll, Carriers, Hits;
    forall t ensures CountOf(q, t) {
      assert CountOf(p, t);
      SetAllCarriers(p.tickets, slots, -1, t);
      HitsUniform(p.tickets, slots, t);
    }
  }

  /** Overwriting a pending ticket breaks its count. */
  lemma OverwriteBreaksCount(p: Progress, slots: seq<nat>, event: Event)
    requires Accounted(p) && InRange(slots, |p.tickets|) && Unique(slots) && !NonePending(p, slots)
    ensures !Accounted(Issue(p, slots, event))
  {
    hide SetAll, Carriers, Hits;
    var i :| 0 <= i < |slots| && p.tickets[slots[i]] > 0;
    var t := p.tickets[slots[i]];
    assert CountOf(p, t);
    CarrierExists(p.tickets, t);
    SetAllCarriers(p.tickets, slots, p.nextTicket, t);
    HitsUniform(p.tickets, slots, t);
    assert !CountOf(Issue(p, slots, event), t);
  }

  /** Publishing keeps the accounts exactly when no slot it publishes is still pending. */
  lemma PublishAccounted(p: Progress, slots: seq<nat>, event: Event)
    requires Accounted(p) && InRange(slots, |p.tickets|) && Unique(slots)
    ensures InRange(Selected(p, slots), |p.tickets|)
    ensures Accounted(PublishValidated(p, slots, event)) <==> NonePending(p, Selected(p, slots))
  {
    SelectedSlots(p, slots);
    var selected := Selected(p, slots);
    if selected != [] {
      var q := Issue(p, selected, event);
      assert Accounted(Notify(q)) <==> Accounted(q) by {
        NotifyAccounted(q);
      }
      if NonePending(p, selected) {
        IssueAccounted(p, selected, event);
      } else {
        OverwriteBreaksCount(p, selected, event);
      }
    }
  }

  lemma NotifyAccounted(p: Progress)
    ensures Accounted(Notify(p)) <==> Accounted(p)
  {
    hide Carriers;
    forall t ensures CountOf(Notify(p), t) <==> CountOf(p, t) {
    }
  }

  lemma ThroughAccounted(p: Progress, stop: int, event: Event, validity: seq<bool>)
    requires Accounted(p) && !ThroughRefused(p, stop, validity)
    requires InRange(Slots(p.coveredStop, SelectedStop(p, stop)), |p.tickets|)
    requires NonePending(p, Slots(p.coveredStop, SelectedStop(p, stop)))
    ensures Accounted(PublishThrough(p, stop, event, validity))
  {
    var selectedStop := SelectedStop(p, stop);
    if selectedStop > p.coveredStop {
      var covered := Slots(p.coveredStop, selectedStop);
      var valid := Kept(covered, validity);
      KeptUnique(covered, validity);
      KeptInRange(covered, validity, |p.tickets|);
      var bare := p.(tickets := SetAll(p.tickets, covered, -1));
      CoverAccounted(p, covered);
      if valid != [] {
        forall i | 0 <= i < |valid| ensures bare.tickets[valid[i]] <= 0 {
          SetAllAt(p.tickets, covered, -1, valid[i]);
          assert valid[i] in valid;
        }
        IssueAccounted(bare, valid, event);
      }
      CoveredAccounted(if valid == [] then bare else Issue(bare, valid, event), selectedStop);
    }
  }

  lemma CoveredAccounted(p: Progress, coveredStop: nat)
    requires Accounted(p) && coveredStop <= |p.tickets|
    ensures Accounted(Notify(p.(coveredStop := coveredStop)))
  {
    hide Carriers;
    var q := Notify(p.(coveredStop := coveredStop));
    forall t ensures CountOf(q, t) {
      assert CountOf(p, t);
    }
  }

  /** Retiring slots of ticket t leaves the count of the slots that still carry it. */
  lemma RetireCounts(p: Progress, selected: seq<nat>, t: int, u: int)
    requires InRange(selected, |p.tickets|) && Unique(selected) && t in p.remaining
    requires forall i :: 0 <= i < |selected| ==> p.tickets[selected[i]] == t
    requires CountOf(p, t) && CountOf(p, u)
    ensures CountOf(RetireSlots(p, selected, t), u)
  {
    HitsUniform(p.tickets, selected, u);
    SetAllCarriers(p.tickets, selected, -1, u);
    RetireMaps(p, selected, t, u);
    hide SetAll, Carriers, Hits, InRange, Unique, RetireSlots;
    var q := RetireSlots(p, selected, t);
    assert u > 0 ==> Carriers(q.tickets, u) == Carriers(p.tickets, u) - if u == t then |selected| else 0;
  }

  lemma RetireMaps(p: Progress, selected: seq<nat>, t: int, u: int)
    requires InRange(selected, |p.tickets|) && t in p.remaining && (t in p.events <==> t in p.remaining)
    requires u in p.events <==> u in p.remaining
    ensures var q := RetireSlots(p, selected, t);
            && q.tickets == SetAll(p.tickets, selected, -1)
            && (u in q.events <==> u in q.remaining)
            && (u != t ==> (u in q.remaining <==> u in p.remaining)
                           && (u in p.remaining ==> q.remaining[u] == p.remaining[u]))
            && (u == t ==> (u in q.remaining <==> p.remaining[t] != |selected|)
                           && (u in q.remaining ==> q.remaining[u] == p.remaining[t] - |selected|))
  {
    hide SetAll;
  }

  lemma CarryingHits(tickets: seq<int>, valid: seq<nat>, t: int)
    requires InRange(valid, |tickets|)
    ensures forall i :: 0 <= i < |Carrying(tickets, valid, t)| ==>
      Carrying(tickets, valid, t)[i] < |tickets| && tickets[Carrying(tickets, valid, t)[i]] == t
  {
    var r := Carrying(tickets, valid, t);
    CarryingUnique(tickets, valid, t);
    forall i | 0 <= i < |r| ensures r[i] < |tickets| && tickets[r[i]] == t {
      assert r[i] in r;
    }
  }

  lemma RetireAccounted(p: Progress, valid: seq<nat>, t: int)
    requires Accounted(p) && InRange(valid, |p.tickets|) && Unique(valid) && t in p.remaining
    ensures Accounted(Retire(p, valid, t))
  {
    hide CountOf, SetAll, Carrying;
    var selected := Carrying(p.tickets, valid, t);
    CarryingUnique(p.tickets, valid, t);
    CarryingHits(p.tickets, valid, t);
    SetAllTickets(p, selected, -1);
    forall u ensures CountOf(Retire(p, valid, t), u) {
      RetireCounts(p, selected, t, u);
    }
  }

  lemma {:induction false} CommitAccounted(p: Progress, valid: seq<nat>, tickets: seq<int>)
    requires Accounted(p) && InRange(valid, |p.tickets|) && Unique(valid) && Distinct(tickets)
    requires forall t :: t in tickets ==> t in p.remaining
    ensures Accounted(Commit(p, valid, tickets))
  {
    hide Accounted, Retire;
    if tickets != [] {
      var last := |tickets| - 1;
      CommitPrefix(tickets);
      CommitAccounted(p, valid, tickets[..last]);
      RetireAccounted(Commit(p, valid, tickets[..last]), valid, tickets[last]);
    }
  }

  lemma CommitPrefix(tickets: seq<int>)
    requires tickets != [] && Distinct(tickets)
    ensures Distinct(tickets[..|tickets| - 1]) && tickets[|tickets| - 1] !in tickets[..|tickets| - 1]
    ensures forall t :: t in tickets <==> t in tickets[..|tickets| - 1] || t == tickets[|tickets| - 1]
  {
  }

  // ----- the system -----

  /** Where the consumer is inside wait_samples. */
  datatype Consumer =
    | Idle
    | Holding(valid: seq<nat>, tickets: seq<int>, events: seq<Event>)
    | Ordered(valid: seq<nat>, tickets: seq<int>, events: seq<Event>)
    | KeyError

  /** `uploads[s]` is the event of the upload into slot s; `stream` the events the consumer's stream waits for. */
  datatype World = World(p: Progress, uploads: seq<Option<Event>>, stream: set<Event>, consumer: Consumer)

  datatype Step =
    | PublishStep(slots: seq<nat>, event: Event)
    | ThroughStep(stop: int, event: Event, validity: seq<bool>)
    | FinishStep(error: Option<Fault>)
    | SnapshotStep(a: nat, b: int, validity: seq<bool>)
    | StreamStep
    | CommitStep

  function Start(slotCount: nat, dynamic: bool, staticValidity: Option<seq<bool>>): World {
    World(Fresh(slotCount, dynamic, staticValidity), seq(slotCount, _ => None), {}, Idle)
  }

  /** Every slot is published at most once. */
  predicate Unpublished(p: Progress, slots: seq<nat>)
    requires InRange(slots, |p.tickets|)
  {
    forall i :: 0 <= i < |slots| ==> p.tickets[slots[i]] == 0
  }

  predicate Coherent(w: World) {
    && Sized(w.p) && |w.uploads| == |w.p.tickets|
    && (w.consumer.Holding? || w.consumer.Ordered? ==>
          InRange(w.consumer.valid, |w.p.tickets|) && Distinct(w.consumer.tickets))
  }

  predicate Enabled(w: World, step: Step)
    requires Coherent(w)
  {
    match step
    case PublishStep(slots, _) =>
      InRange(slots, |w.p.tickets|) && Unique(slots)
      && (SelectedSlots(w.p, slots);
          Unpublished(w.p, Selected(w.p, slots)))
    case ThroughStep(stop, _, validity) =>
      !ThroughRefused(w.p, stop, validity)
      && (ThroughRange(w.p, stop);
          Unpublished(w.p, Slots(w.p.coveredStop, SelectedStop(w.p, stop))))
    case FinishStep(_) => true
    case SnapshotStep(a, b, validity) =>
      w.consumer == Idle && b <= |validity| && b <= |w.p.tickets| && !Blocked(w.p, a, b, validity)
    case StreamStep => w.consumer.Holding?
    case CommitStep => w.consumer.Ordered?
  }

  lemma ThroughRange(p: Progress, stop: int)
    ensures InRange(Slots(p.coveredStop, SelectedStop(p, stop)), |p.tickets|)
  {
  }

  function ThroughValid(p: Progress, stop: int, validity: seq<bool>): seq<nat>
    requires !ThroughRefused(p, stop, validity)
  {
    if SelectedStop(p, stop) <= p.coveredStop then [] else Kept(Slots(p.coveredStop, SelectedStop(p, stop)), validity)
  }

  lemma ThroughValidRange(p: Progress, stop: int, validity: seq<bool>)
    requires !ThroughRefused(p, stop, validity)
    ensures InRange(ThroughValid(p, stop, validity), |p.tickets|)
  {
    if SelectedStop(p, stop) > p.coveredStop {
      KeptInRange(Slots(p.coveredStop, SelectedStop(p, stop)), validity, |p.tickets|);
    }
  }

  function Do(w: World, step: Step): World
    requires Coherent(w) && Enabled(w, step)
  {
    match step
    case PublishStep(slots, event) =>
      SelectedSlots(w.p, slots);
      w.(p := PublishValidated(w.p, slots, event), uploads := SetAll(w.uploads, Selected(w.p, slots), Some(event)))
    case ThroughStep(stop, event, validity) =>
      ThroughValidRange(w.p, stop, validity);
      w.(p := PublishThrough(w.p, stop, event, validity),
         uploads := SetAll(w.uploads, ThroughValid(w.p, stop, validity), Some(event)))
    case FinishStep(error) => w.(p := Finish(w.p, error))
    case SnapshotStep(a, b, validity) =>
      if !EventsKept(w.p) then w.(consumer := KeyError)
      else
        (match TakeSnapshot(w.p, a, b, validity)
         case Pending(valid, tickets, events) => w.(consumer := Holding(valid, tickets, events))
         case _ => w)
    case StreamStep =>
      w.(stream := w.stream + (set e | e in w.consumer.events),
         consumer := Ordered(w.consumer.valid, w.consumer.tickets, w.consumer.events))
    case CommitStep =>
      if !CountersKept(w.p, w.consumer.tickets) then w.(consumer := KeyError)
      else w.(p := Commit(w.p, w.consumer.valid, w.consumer.tickets), consumer := Idle)
  }

  /** Every ticket still has its counter. */
  predicate CountersKept(p: Progress, tickets: seq<int>) {
    forall t :: t in tickets ==> t in p.remaining
  }

  // ----- what every run keeps -----

  /** The upload into slot s is known by its ticket, or the stream already waits for it. */
  predicate UploadOf(w: World, s: nat)
    requires s < |w.p.tickets| == |w.uploads|
  {
    var t := w.p.tickets[s];
    && (t == 0 ==> w.uploads[s].None?)
    && (t > 0 ==> t in w.p.events && w.uploads[s] == Some(w.p.events[t]))
    && (t < 0 ==> w.uploads[s].None? || w.uploads[s].value in w.stream)
  }

  predicate UploadsKnown(w: World) {
    |w.uploads| == |w.p.tickets| && forall s :: 0 <= s < |w.uploads| ==> UploadOf(w, s)
  }

  /** What the consumer copied in its first critical section is still true. */
  predicate HeldStillTrue(p: Progress, valid: seq<nat>, tickets: seq<int>, events: seq<Event>) {
    && InRange(valid, |p.tickets|) && Unique(valid) && Distinct(tickets) && |events| == |tickets|
    && (forall i :: 0 <= i < |valid| ==> p.tickets[valid[i]] == -1 || p.tickets[valid[i]] in tickets)
    && (forall i :: 0 <= i < |tickets| ==> tickets[i] > 0 && TicketHeld(p, tickets[i], events[i]))
  }

  predicate TicketHeld(p: Progress, t: int, event: Event) {
    t in p.remaining && t in p.events && p.events[t] == event
  }

  predicate ConsumerSound(w: World) {
    match w.consumer
    case Idle => true
    case Holding(valid, tickets, events) => HeldStillTrue(w.p, valid, tickets, events)
    case Ordered(valid, tickets, events) =>
      HeldStillTrue(w.p, valid, tickets, events) && forall i :: 0 <= i < |events| ==> events[i] in w.stream
    case KeyError => false
  }

  ghost predicate Sound(w: World) {
    Accounted(w.p) && UploadsKnown(w) && ConsumerSound(w)
  }

  lemma SoundCoherent(w: World)
    requires Sound(w)
    ensures Coherent(w)
  {
    hide Accounted, UploadOf;
    assert Sized(w.p) by { AccountedSized(w.p); }
  }

  lemma AccountedSized(p: Progress)
    requires Accounted(p)
    ensures Sized(p) && TicketsBelow(p) && EventsKept(p)
    ensures forall i :: 0 <= i < |p.tickets| && p.tickets[i] > 0 ==> p.tickets[i] in p.remaining
    ensures p.nextTicket !in p.events && p.nextTicket !in p.remaining
  {
    forall i | 0 <= i < |p.tickets| && p.tickets[i] > 0
      ensures p.tickets[i] in p.events && p.tickets[i] in p.remaining
    {
      assert CountOf(p, p.tickets[i]);
      CarrierExists(p.tickets, p.tickets[i]);
    }
    assert CountOf(p, p.nextTicket);
    NewTicketUnused(p);
  }

  /** Publishing adds tickets and touches unpublished slots only. */
  ghost predicate Extends(p: Progress, q: Progress) {
    && |q.tickets| == |p.tickets|
    && (forall i :: 0 <= i < |p.tickets| && p.tickets[i] != 0 ==> q.tickets[i] == p.tickets[i])
    && (forall t :: t in p.events ==> t in q.events && q.events[t] == p.events[t])
    && (forall t :: t in p.remaining ==> t in q.remaining)
  }

  lemma HeldExtends(p: Progress, q: Progress, valid: seq<nat>, tickets: seq<int>, events: seq<Event>)
    requires HeldStillTrue(p, valid, tickets, events) && Extends(p, q)
    ensures HeldStillTrue(q, valid, tickets, events)
  {
    forall i | 0 <= i < |valid| ensures q.tickets[valid[i]] == -1 || q.tickets[valid[i]] in tickets {
      if p.tickets[valid[i]] in tickets {
        var j :| 0 <= j < |tickets| && tickets[j] == p.tickets[valid[i]];
      }
    }
    forall i | 0 <= i < |tickets| ensures tickets[i] > 0 && TicketHeld(q, tickets[i], events[i]) {
      assert TicketHeld(p, tickets[i], events[i]);
    }
  }

  lemma ConsumerExtends(w: World, z: World)
    requires ConsumerSound(w) && Extends(w.p, z.p) && z.stream == w.stream && z.consumer == w.consumer
    ensures ConsumerSound(z)
  {
    hide HeldStillTrue, Extends;
    if w.consumer.Holding? || w.consumer.Ordered? {
      HeldExtends(w.p, z.p, w.consumer.valid, w.consumer.tickets, w.consumer.events);
    }
  }

  lemma IssueExtends(p: Progress, slots: seq<nat>, event: Event)
    requires Accounted(p) && InRange(slots, |p.tickets|) && Unpublished(p, slots)
    ensures Extends(p, Issue(p, slots, event))
    ensures forall s :: s in slots ==>
      Issue(p, slots, event).tickets[s] == p.nextTicket && Issue(p, slots, event).events[p.nextTicket] == event
    ensures forall s :: 0 <= s < |p.tickets| && s !in slots ==> Issue(p, slots, event).tickets[s] == p.tickets[s]
  {
    AccountedSized(p);
    hide Accounted;
    var q := Issue(p, slots, event);
    forall s | 0 <= s < |p.tickets| ensures q.tickets[s] == if s in slots then p.nextTicket else p.tickets[s] {
      SetAllAt(p.tickets, slots, p.nextTicket, s);
    }
    hide SetAll;
    forall s | s in slots ensures s < |p.tickets| && p.tickets[s] == 0 {
      var i :| 0 <= i < |slots| && slots[i] == s;
    }
  }

  lemma PublishSound(w: World, slots: seq<nat>, event: Event)
    requires Sound(w) && Coherent(w) && Enabled(w, PublishStep(slots, event))
    ensures Sound(Do(w, PublishStep(slots, event)))
  {
    SelectedSlots(w.p, slots);
    var selected := Selected(w.p, slots);
    var z := Do(w, PublishStep(slots, event));
    PublishAccounted(w.p, slots, event);
    if selected != [] {
      IssueExtends(w.p, selected, event);
      AccountedSized(w.p);
      hide Accounted, Selected, Issue;
      forall s | 0 <= s < |z.uploads| ensures UploadOf(z, s) {
        assert UploadOf(w, s);
        SetAllAt(w.uploads, selected, Some(event), s);
      }
      ConsumerExtends(w, z);
    }
  }

  lemma ThroughParts(p: Progress, stop: int, event: Event, validity: seq<bool>)
    requires Sized(p) && !ThroughRefused(p, stop, validity) && SelectedStop(p, stop) > p.coveredStop
    requires InRange(Slots(p.coveredStop, SelectedStop(p, stop)), |p.tickets|)
    requires InRange(ThroughValid(p, stop, validity), |p.tickets|)
    ensures var q, valid := PublishThrough(p, stop, event, validity), ThroughValid(p, stop, validity);
            var bare := SetAll(p.tickets, Slots(p.coveredStop, SelectedStop(p, stop)), -1);
            && q.tickets == (if valid == [] then bare else SetAll(bare, valid, p.nextTicket))
            && q.events == (if valid == [] then p.events else p.events[p.nextTicket := event])
            && q.remaining == (if valid == [] then p.remaining else p.remaining[p.nextTicket := |valid|])
  {
    hide SetAll;
  }

  lemma ThroughTicket(p: Progress, covered: seq<nat>, valid: seq<nat>, s: nat)
    requires InRange(covered, |p.tickets|) && InRange(valid, |p.tickets|) && s < |p.tickets|
    ensures SetAll(SetAll(p.tickets, covered, -1), valid, p.nextTicket)[s]
            == if s in valid then p.nextTicket else if s in covered then -1 else p.tickets[s]
    ensures SetAll(p.tickets, covered, -1)[s] == if s in covered then -1 else p.tickets[s]
  {
    SetAllAt(p.tickets, covered, -1, s);
    SetAllAt(SetAll(p.tickets, covered, -1), valid, p.nextTicket, s);
  }

  lemma UnpublishedAt(p: Progress, slots: seq<nat>)
    requires InRange(slots, |p.tickets|) && Unpublished(p, slots)
    ensures forall s :: s in slots ==> s < |p.tickets| && p.tickets[s] == 0
  {
    forall s | s in slots ensures s < |p.tickets| && p.tickets[s] == 0 {
      var i :| 0 <= i < |slots| && slots[i] == s;
    }
  }

  /** q covers the slots of `covered`, giving a ticket for `event` to those of `valid`. */
  ghost predicate Covers(p: Progress, q: Progress, covered: seq<nat>, valid: seq<nat>, event: Event) {
    && Extends(p, q)
    && (valid != [] ==> p.nextTicket in q.events && q.events[p.nextTicket] == event)
    && forall s :: 0 <= s < |p.tickets| ==>
         q.tickets[s] == if s in valid then p.nextTicket else if s in covered then -1 else p.tickets[s]
  }

  lemma CoversParts(p: Progress, q: Progress, covered: seq<nat>, valid: seq<nat>, event: Event)
    requires Sized(p) && InRange(covered, |p.tickets|) && InRange(valid, |p.tickets|)
    requires p.nextTicket !in p.events && Unpublished(p, covered) && forall s :: s in valid ==> s in covered
    requires var bare := SetAll(p.tickets, covered, -1);
             q.tickets == if valid == [] then bare else SetAll(bare, valid, p.nextTicket)
    requires q.events == if valid == [] then p.events else p.events[p.nextTicket := event]
    requires q.remaining == if valid == [] then p.remaining else p.remaining[p.nextTicket := |valid|]
    ensures Covers(p, q, covered, valid, event)
  {
    UnpublishedAt(p, covered);
    forall s | 0 <= s < |p.tickets|
      ensures q.tickets[s] == if s in valid then p.nextTicket else if s in covered then -1 else p.tickets[s]
    {
      ThroughTicket(p, covered, valid, s);
    }
    hide SetAll;
  }

  lemma ThroughCovers(p: Progress, stop: int, event: Event, validity: seq<bool>)
    requires Accounted(p) && !ThroughRefused(p, stop, validity) && SelectedStop(p, stop) > p.coveredStop
    requires InRange(Slots(p.coveredStop, SelectedStop(p, stop)), |p.tickets|)
    requires Unpublished(p, Slots(p.coveredStop, SelectedStop(p, stop)))
    ensures Covers(p, PublishThrough(p, stop, event, validity), Slots(p.coveredStop, SelectedStop(p, stop)),
                   ThroughValid(p, stop, validity), event)
  {
    AccountedSized(p);
    ThroughValidRange(p, stop, validity);
    ThroughParts(p, stop, event, validity);
    var covered, valid := Slots(p.coveredStop, SelectedStop(p, stop)), ThroughValid(p, stop, validity);
    assert forall s :: s in valid ==> s in covered;
    hide Accounted, SetAll, PublishThrough, ThroughValid, Slots, ThroughRefused;
    CoversParts(p, PublishThrough(p, stop, event, validity), covered, valid, event);
  }

  lemma ThroughSound(w: World, stop: int, event: Event, validity: seq<bool>)
    requires Sound(w) && Coherent(w) && Enabled(w, ThroughStep(stop, event, validity))
    ensures Sound(Do(w, ThroughStep(stop, event, validity)))
  {
    var z := Do(w, ThroughStep(stop, event, validity));
    ThroughRange(w.p, stop);
    ThroughAccounted(w.p, stop, event, validity);
    if SelectedStop(w.p, stop) > w.p.coveredStop {
      ThroughCovers(w.p, stop, event, validity);
      ThroughValidRange(w.p, stop, validity);
      AccountedSized(w.p);
      var covered, valid := Slots(w.p.coveredStop, SelectedStop(w.p, stop)), ThroughValid(w.p, stop, validity);
      assert forall s :: s in valid ==> s in covered;
      UnpublishedAt(w.p, covered);
      hide Accounted, PublishThrough, ThroughValid, Slots;
      forall s | 0 <= s < |z.uploads| ensures UploadOf(z, s) {
        assert UploadOf(w, s);
        SetAllAt(w.uploads, valid, Some(event), s);
      }
      ConsumerExtends(w, z);
    }
  }

  lemma FinishSound(w: World, error: Option<Fault>)
    requires Sound(w) && Coherent(w)
    ensures Sound(Do(w, FinishStep(error)))
  {
    var z := Do(w, FinishStep(error));
    forall t ensures CountOf(z.p, t) {
      assert CountOf(w.p, t);
    }
    hide Accounted;
    forall s | 0 <= s < |z.uploads| ensures UploadOf(z, s) {
      assert UploadOf(w, s);
    }
    ConsumerExtends(w, z);
  }

  lemma SnapshotHolds(p: Progress, a: nat, b: int, validity: seq<bool>)
    requires Accounted(p) && b <= |validity| && b <= |p.tickets| && EventsKept(p)
    ensures var r := TakeSnapshot(p, a, b, validity);
            r.Pending? ==> HeldStillTrue(p, r.valid, r.tickets, r.events)
  {
    var r := TakeSnapshot(p, a, b, validity);
    if r.Pending? {
      AccountedSized(p);
      RequiredInRange(p, a, b, validity);
      assert forall i :: 0 <= i < |r.valid| ==> p.tickets[r.valid[i]] == -1 || p.tickets[r.valid[i]] in r.tickets;
      forall i | 0 <= i < |r.tickets| ensures r.tickets[i] > 0 && TicketHeld(p, r.tickets[i], r.events[i]) {
        assert r.tickets[i] in r.tickets;
        assert CountOf(p, r.tickets[i]);
      }
    }
  }

  lemma SnapshotSound(w: World, a: nat, b: int, validity: seq<bool>)
    requires Sound(w) && Coherent(w) && Enabled(w, SnapshotStep(a, b, validity))
    ensures Sound(Do(w, SnapshotStep(a, b, validity)))
  {
    AccountedSized(w.p);
    SnapshotHolds(w.p, a, b, validity);
    hide Accounted, TakeSnapshot, HeldStillTrue;
    var z := Do(w, SnapshotStep(a, b, validity));
    forall s | 0 <= s < |z.uploads| ensures UploadOf(z, s) {
      assert UploadOf(w, s);
    }
  }

  lemma StreamSound(w: World)
    requires Sound(w) && Coherent(w) && Enabled(w, StreamStep)
    ensures Sound(Do(w, StreamStep))
  {
    hide Accounted, HeldStillTrue;
    var z := Do(w, StreamStep);
    forall s | 0 <= s < |z.uploads| ensures UploadOf(z, s) {
      assert UploadOf(w, s);
    }
    var events := w.consumer.events;
    assert forall i :: 0 <= i < |events| ==> events[i] in events;
  }

  lemma RetireTickets(p: Progress, valid: seq<nat>, t: int, s: nat)
    requires InRange(valid, |p.tickets|) && t in p.remaining && s < |p.tickets|
    ensures Retire(p, valid, t).tickets[s] == if s in valid && p.tickets[s] == t then -1 else p.tickets[s]
  {
    CarryingUnique(p.tickets, valid, t);
    SetAllAt(p.tickets, Carrying(p.tickets, valid, t), -1, s);
  }

  lemma {:induction false} CommitTickets(p: Progress, valid: seq<nat>, tickets: seq<int>, s: nat)
    requires InRange(valid, |p.tickets|) && Distinct(tickets) && s < |p.tickets|
    requires forall i :: 0 <= i < |tickets| ==> tickets[i] > 0
    requires forall t :: t in tickets ==> t in p.remaining
    ensures Commit(p, valid, tickets).tickets[s]
            == if s in valid && p.tickets[s] in tickets then -1 else p.tickets[s]
  {
    hide Retire;
    if tickets != [] {
      var last := |tickets| - 1;
      CommitPrefix(tickets);
      CommitTickets(p, valid, tickets[..last], s);
      RetireTickets(Commit(p, valid, tickets[..last]), valid, tickets[last], s);
    }
  }

  lemma {:induction false} CommitEvents(p: Progress, valid: seq<nat>, tickets: seq<int>)
    requires InRange(valid, |p.tickets|) && Distinct(tickets)
    requires forall t :: t in tickets ==> t in p.remaining
    ensures forall t :: t in Commit(p, valid, tickets).events ==> t in p.events && Commit(p, valid, tickets).events[t] == p.events[t]
  {
    if tickets != [] {
      var last := |tickets| - 1;
      CommitPrefix(tickets);
      CommitEvents(p, valid, tickets[..last]);
    }
  }

  lemma HeldCounters(p: Progress, valid: seq<nat>, tickets: seq<int>, events: seq<Event>)
    requires HeldStillTrue(p, valid, tickets, events)
    ensures CountersKept(p, tickets)
  {
    forall t | t in tickets ensures t in p.remaining {
      var i :| 0 <= i < |tickets| && tickets[i] == t;
      assert TicketHeld(p, tickets[i], events[i]);
    }
  }

  lemma CommitUpload(w: World, s: nat)
    requires Sound(w) && Coherent(w) && w.consumer.Ordered? && s < |w.p.tickets|
    requires CountersKept(w.p, w.consumer.tickets) && Accounted(Do(w, CommitStep).p)
    ensures UploadOf(Do(w, CommitStep), s)
  {
    var z := Do(w, CommitStep);
    var tickets, events := w.consumer.tickets, w.consumer.events;
    assert UploadOf(w, s);
    CommitTickets(w.p, w.consumer.valid, tickets, s);
    CommitEvents(w.p, w.consumer.valid, tickets);
    AccountedSized(z.p);
    hide Accounted, Commit;
    if w.p.tickets[s] in tickets {
      var i :| 0 <= i < |tickets| && tickets[i] == w.p.tickets[s];
      assert TicketHeld(w.p, tickets[i], events[i]) && events[i] in w.stream;
    }
  }

  lemma CommitSound(w: World)
    requires Sound(w) && Coherent(w) && Enabled(w, CommitStep)
    ensures Sound(Do(w, CommitStep))
  {
    HeldCounters(w.p, w.consumer.valid, w.consumer.tickets, w.consumer.events);
    CommitAccounted(w.p, w.consumer.valid, w.consumer.tickets);
    var z := Do(w, CommitStep);
    hide Accounted, Commit, UploadOf;
    forall s | 0 <= s < |z.uploads| ensures UploadOf(z, s) {
      CommitUpload(w, s);
    }
  }

  /** Every step keeps every ticket counted, every upload known and the consumer's copy true. */
  lemma StepSound(w: World, step: Step)
    requires Sound(w) && Coherent(w) && Enabled(w, step)
    ensures Sound(Do(w, step)) && Coherent(Do(w, step))
  {
    hide Sound, Do, Enabled;
    match step {
      case PublishStep(slots, event) => PublishSound(w, slots, event);
      case ThroughStep(stop, event, validity) => ThroughSound(w, stop, event, validity);
      case FinishStep(error) => FinishSound(w, error);
      case SnapshotStep(a, b, validity) => SnapshotSound(w, a, b, validity);
      case StreamStep => StreamSound(w);
      case CommitStep => CommitSound(w);
    }
    SoundCoherent(Do(w, step));
  }
}
