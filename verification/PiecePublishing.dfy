/**
 * Why the readiness tickets may take for granted that every slot is published once:
 * the frontier pieces of an accepted plan (src/cuphoton/xbeam/ingest_scheduler.py)
 * publish slots of their own, so every run of their publishers is one of the runs
 * the tickets are proved for.
 */
module PiecePublishing {
  import opened Options
  import opened Readiness
  import opened ReadinessRuns
  import opened Waiting
  import Completion
  import Frontier
  import Slicing

  // ----- publishing apart is publishing once -----

  /** The guards of a step but for the one that slots are unpublished. */
  predicate Possible(w: World, step: Step)
    requires Coherent(w)
  {
    if step.PublishStep? then InRange(step.slots, |w.p.tickets|) && Unique(step.slots)
    else !step.ThroughStep? && Enabled(w, step)
  }

  /** A run of an indexed upload as far as it goes by those guards. */
  predicate Runs(w: World, steps: seq<Step>)
    decreases |steps|
  {
    steps == []
    || (Coherent(w) && Possible(w, steps[0]) && (Enabled(w, steps[0]) ==> Runs(Do(w, steps[0]), steps[1..])))
  }

  /** No two steps publish the same slot. */
  predicate Apart(steps: seq<Step>) {
    forall i, j :: 0 <= i < j < |steps| && steps[i].PublishStep? && steps[j].PublishStep? ==>
      Disjoint(steps[i].slots, steps[j].slots)
  }

  predicate Disjoint(a: seq<nat>, b: seq<nat>) {
    forall s :: s in a ==> s !in b
  }

  /** Only slots in `before` are published. */
  predicate OnlyPublished(w: World, before: set<nat>) {
    forall s :: 0 <= s < |w.p.tickets| && w.p.tickets[s] != 0 ==> s in before
  }

  function SlotsOf(step: Step): set<nat> {
    if step.PublishStep? then set s | s in step.slots else {}
  }

  lemma PublishTouches(w: World, slots: seq<nat>, event: Event, s: nat)
    requires Sound(w) && Coherent(w) && Enabled(w, PublishStep(slots, event)) && s < |w.p.tickets| && s !in slots
    ensures var z := Do(w, PublishStep(slots, event));
            |z.p.tickets| == |w.p.tickets| && z.p.tickets[s] == w.p.tickets[s]
  {
    SelectedSlots(w.p, slots);
    SetAllAt(w.p.tickets, Selected(w.p, slots), w.p.nextTicket, s);
    hide SetAll, Sound;
  }

  lemma CommitTouches(w: World, s: nat)
    requires Sound(w) && Coherent(w) && Enabled(w, CommitStep) && s < |w.p.tickets| && w.p.tickets[s] == 0
    ensures var z := Do(w, CommitStep);
            |z.p.tickets| == |w.p.tickets| && z.p.tickets[s] == 0
  {
    var c := w.consumer;
    HeldCounters(w.p, c.valid, c.tickets, c.events);
    CommitTickets(w.p, c.valid, c.tickets, s);
    hide Commit, Sound;
  }

  lemma StepPublishes(w: World, step: Step, before: set<nat>)
    requires Sound(w) && Coherent(w) && Enabled(w, step) && !step.ThroughStep? && OnlyPublished(w, before)
    ensures OnlyPublished(Do(w, step), before + SlotsOf(step))
  {
    var z := Do(w, step);
    StepLength(w, step);
    forall s: nat | s < |z.p.tickets| && z.p.tickets[s] != 0 ensures s in before + SlotsOf(step) {
      if s !in before {
        match step {
          case PublishStep(slots, event) =>
            if s !in slots {
              PublishTouches(w, slots, event, s);
            }
          case CommitStep => CommitTouches(w, s);
          case _ =>
        }
      }
    }
  }

  /** A step that shares no slot with those published is enabled. */
  lemma FreshEnabled(w: World, step: Step, before: set<nat>)
    requires Coherent(w) && Possible(w, step) && OnlyPublished(w, before) && SlotsOf(step) !! before
    ensures Enabled(w, step)
  {
    if step.PublishStep? {
      SelectedSlots(w.p, step.slots);
      var selected := Selected(w.p, step.slots);
      forall i | 0 <= i < |selected| ensures w.p.tickets[selected[i]] == 0 {
        assert selected[i] in selected && selected[i] in SlotsOf(step);
      }
    }
  }

  /** Later steps publish nothing that is published already. */
  predicate Ahead(steps: seq<Step>, before: set<nat>) {
    forall i :: 0 <= i < |steps| ==> SlotsOf(steps[i]) !! before
  }

  lemma StillAhead(steps: seq<Step>, before: set<nat>)
    requires steps != [] && Apart(steps) && Ahead(steps, before)
    ensures Apart(steps[1..]) && Ahead(steps[1..], before + SlotsOf(steps[0]))
  {
    forall i | 0 <= i < |steps[1..]| ensures SlotsOf(steps[1..][i]) !! before + SlotsOf(steps[0]) {
      assert steps[1..][i] == steps[i + 1] && SlotsOf(steps[i + 1]) !! before;
      if steps[0].PublishStep? && steps[i + 1].PublishStep? {
        assert Disjoint(steps[0].slots, steps[i + 1].slots);
      }
    }
  }

  lemma {:induction false} ApartRunsLegal(w: World, steps: seq<Step>, before: set<nat>)
    requires Sound(w) && Runs(w, steps) && Apart(steps) && Ahead(steps, before) && OnlyPublished(w, before)
    ensures Legal(w, steps)
    decreases |steps|
  {
    assert steps != [] ==> !steps[0].ThroughStep?;
    hide Sound, Coherent, Enabled, Do, Possible, Apart, OnlyPublished;
    if steps != [] {
      FreshEnabled(w, steps[0], before);
      StepSound(w, steps[0]);
      StepPublishes(w, steps[0], before);
      StillAhead(steps, before);
      ApartRunsLegal(Do(w, steps[0]), steps[1..], before + SlotsOf(steps[0]));
    }
  }

  // ----- the pieces publish apart -----

  /** A piece publishes `destinations` of its sliced plan, or something else happens. */
  datatype Action = Publication(task: nat, destinations: seq<int>, event: Event) | Other(step: Step)

  /** What the loader publishes for plan p of a task: slots the sliced plan writes, each once in a call. */
  ghost predicate FromTask(task: Frontier.Task, p: nat, destinations: seq<int>) {
    && p < |task.plans| && 0 <= task.firstSlot < task.stopSlot
    && Completion.WindowOnce(destinations, task.stopSlot - task.firstSlot)
    && forall i :: 0 <= i < |destinations| && destinations[i] >= 0 ==> IsWritten(task.plans[p], destinations[i])
  }

  ghost predicate IsWritten(plan: Frontier.Plan, slot: int) {
    exists source :: Slicing.PlanWrites(plan, Slicing.Write(slot, source))
  }

  /** Actions on plan p of group g; the calls for one task share no destination. */
  ghost predicate FromPieces(tasks: seq<Frontier.Task>, g: nat, p: nat, actions: seq<Action>) {
    && (forall i :: 0 <= i < |actions| && actions[i].Publication? ==>
          actions[i].task < |tasks| && tasks[actions[i].task].group == g
          && FromTask(tasks[actions[i].task], p, actions[i].destinations))
    && (forall i :: 0 <= i < |actions| && actions[i].Other? ==> !actions[i].step.PublishStep?)
    && forall i, j :: 0 <= i < j < |actions| && actions[i].Publication? && actions[j].Publication?
                      && actions[i].task == actions[j].task ==>
         forall d :: d in actions[i].destinations && d >= 0 ==> d !in actions[j].destinations
  }

  /** The step an action is for the plan's progress. */
  function StepOf(tasks: seq<Frontier.Task>, action: Action): Step
    requires action.Publication? ==> action.task < |tasks| && tasks[action.task].firstSlot >= 0
  {
    match action
    case Publication(t, destinations, event) =>
      PublishStep(Completion.Shifted(destinations, tasks[t].firstSlot), event)
    case Other(step) => step
  }

  function StepsOf(tasks: seq<Frontier.Task>, actions: seq<Action>): (steps: seq<Step>)
    requires forall i :: 0 <= i < |actions| && actions[i].Publication? ==>
      actions[i].task < |tasks| && tasks[actions[i].task].firstSlot >= 0
    ensures |steps| == |actions|
    ensures forall i :: 0 <= i < |steps| ==> steps[i] == StepOf(tasks, actions[i])
  {
    seq(|actions|, i requires 0 <= i < |actions| => StepOf(tasks, actions[i]))
  }

  /** A slot a piece publishes is one its task writes. */
  lemma PublishedIsWritten(task: Frontier.Task, p: nat, destinations: seq<int>, s: nat) returns (source: Slicing.Source)
    requires FromTask(task, p, destinations) && s in Completion.Shifted(destinations, task.firstSlot)
    ensures s - task.firstSlot in destinations && s >= task.firstSlot
    ensures Slicing.TaskWrites(task, p, Slicing.Write(s, source))
  {
    Completion.ShiftedMembers(destinations, task.firstSlot, s);
    var i :| 0 <= i < |destinations| && destinations[i] == s - task.firstSlot;
    assert IsWritten(task.plans[p], destinations[i]);
    hide Slicing.PlanWrites;
    source :| Slicing.PlanWrites(task.plans[p], Slicing.Write(destinations[i], source));
  }

  /** Two publications of a plan never share a slot. */
  lemma PublicationsApart(groups: seq<seq<Frontier.Plan>>, chunkBytes: seq<int>, frontierCount: int, g: nat, p: nat,
                          a: Action, b: Action, s: nat)
    requires Frontier.PlanUploads(groups, chunkBytes, frontierCount).Tasks?
    requires a.Publication? && b.Publication?
    requires var tasks := Frontier.PlanUploads(groups, chunkBytes, frontierCount).tasks;
             && a.task < |tasks| && b.task < |tasks| && tasks[a.task].group == tasks[b.task].group
             && FromTask(tasks[a.task], p, a.destinations) && FromTask(tasks[b.task], p, b.destinations)
             && s in Completion.Shifted(a.destinations, tasks[a.task].firstSlot)
             && s in Completion.Shifted(b.destinations, tasks[b.task].firstSlot)
    ensures a.task == b.task
    ensures var d := s - Frontier.PlanUploads(groups, chunkBytes, frontierCount).tasks[a.task].firstSlot;
            d >= 0 && d in a.destinations && d in b.destinations
  {
    hide *;
    var tasks := Frontier.PlanUploads(groups, chunkBytes, frontierCount).tasks;
    var x := PublishedIsWritten(tasks[a.task], p, a.destinations, s);
    var y := PublishedIsWritten(tasks[b.task], p, b.destinations, s);
    Slicing.SlotHasOneTask(groups, chunkBytes, frontierCount, p, a.task, Slicing.Write(s, x), b.task, Slicing.Write(s, y));
  }

  lemma PiecesApart(groups: seq<seq<Frontier.Plan>>, chunkBytes: seq<int>, frontierCount: int, g: nat, p: nat,
                    actions: seq<Action>)
    requires Frontier.PlanUploads(groups, chunkBytes, frontierCount).Tasks?
    requires FromPieces(Frontier.PlanUploads(groups, chunkBytes, frontierCount).tasks, g, p, actions)
    ensures Apart(StepsOf(Frontier.PlanUploads(groups, chunkBytes, frontierCount).tasks, actions))
  {
    var tasks := Frontier.PlanUploads(groups, chunkBytes, frontierCount).tasks;
    var steps := StepsOf(tasks, actions);
    hide Frontier.PlanUploads, Completion.Shifted;
    forall i, j | 0 <= i < j < |steps| && steps[i].PublishStep? && steps[j].PublishStep?
      ensures Disjoint(steps[i].slots, steps[j].slots)
    {
      assert actions[i].Publication? && actions[j].Publication?;
      forall s | s in steps[i].slots ensures s !in steps[j].slots {
        if s in steps[j].slots {
          PublicationsApart(groups, chunkBytes, frontierCount, g, p, actions[i], actions[j], s);
        }
      }
    }
  }

  /**
   * "Each slot once" is no assumption for sliced plans: whatever the pieces of an
   * accepted plan publish, in any order and between any steps of the consumer, the run
   * is one the tickets are proved for.
   */
  lemma PiecesPublishOnce(groups: seq<seq<Frontier.Plan>>, chunkBytes: seq<int>, frontierCount: int, g: nat, p: nat,
                          actions: seq<Action>, slotCount: nat, dynamic: bool, staticValidity: Option<seq<bool>>)
    requires Frontier.PlanUploads(groups, chunkBytes, frontierCount).Tasks?
    requires FromPieces(Frontier.PlanUploads(groups, chunkBytes, frontierCount).tasks, g, p, actions)
    requires staticValidity.Some? ==> |staticValidity.value| == slotCount
    requires Runs(Start(slotCount, dynamic, staticValidity),
                  StepsOf(Frontier.PlanUploads(groups, chunkBytes, frontierCount).tasks, actions))
    ensures Legal(Start(slotCount, dynamic, staticValidity),
                  StepsOf(Frontier.PlanUploads(groups, chunkBytes, frontierCount).tasks, actions))
  {
    var steps := StepsOf(Frontier.PlanUploads(groups, chunkBytes, frontierCount).tasks, actions);
    PiecesApart(groups, chunkBytes, frontierCount, g, p, actions);
    hide Frontier.PlanUploads, Apart, Sound;
    StartSound(slotCount, dynamic, staticValidity);
    assert Ahead(steps, {}) && OnlyPublished(Start(slotCount, dynamic, staticValidity), {});
    ApartRunsLegal(Start(slotCount, dynamic, staticValidity), steps, {});
  }
}
