/**
 * Cutting indexed payload plans into destination frontiers
 * (_mapped_frontier_upload_tasks of src/cuphoton/xbeam/ingest_scheduler.py):
 * validation, physical envelopes and the sliced plans of every task, as
 * functions of the plans. FrontierPlanner computes them.
 */
module Frontier {
  import opened Envelopes
  import opened Options
  import opened Arithmetic

  datatype FileStamp = FileStamp(sizeBytes: int, mtimeNs: int, device: int, inode: int)

  /** One raw file and where its frames go; `sources` is present in the sparse form. */
  datatype FilePlan = FilePlan(path: string, firstFrame: int, frameCount: nat,
                               slots: Option<seq<int>>, sources: Option<seq<int>>, stamp: FileStamp)

  datatype Plan = Plan(frameBytes: int, payloadBytes: int, slotCount: int, files: seq<FilePlan>, streaming: bool)

  datatype PlanError =
    | ChunkSizes | UnalignedHeader | SlotCountRange | Geometry
    | MappingShape | SourceRange | DestinationRange | DuplicateDestination

  datatype Verdict = Fine | Decline | Raise(error: PlanError)

  /** One frontier of one group: its sliced plans and the slots [firstSlot, stopSlot) they fill. */
  datatype Task = Task(frontier: nat, group: nat, plans: seq<Plan>, firstSlot: int, stopSlot: int, chunkBytes: int)

  datatype Outcome = Declined | Raised(error: PlanError) | Tasks(tasks: seq<Task>)

  const INT32_MAX: int := 0x7FFF_FFFF

  // ----- selected entries -----

  /** The raw frame mapping entry i stands for, relative to the file's first frame. */
  function SourceOf(f: FilePlan, i: nat): int
    requires f.sources.Some? ==> i < |f.sources.value|
  {
    if f.sources.Some? then f.sources.value[i] else i
  }

  predicate ShapeFits(f: FilePlan) {
    f.slots.Some?
    && if f.sources.Some? then |f.slots.value| == |f.sources.value| else |f.slots.value| == f.frameCount
  }

  /** The entries with a destination, among the first n mapping entries. */
  function SelectedUpTo(f: FilePlan, n: nat): seq<Entry>
    requires ShapeFits(f) && n <= |f.slots.value|
  {
    if n == 0 then []
    else
      var rest := SelectedUpTo(f, n - 1);
      if f.slots.value[n - 1] >= 0 then rest + [Entry(SourceOf(f, n - 1), f.slots.value[n - 1])] else rest
  }

  function Selected(f: FilePlan): seq<Entry> {
    if ShapeFits(f) then SelectedUpTo(f, |f.slots.value|) else []
  }

  predicate Picks(f: FilePlan, i: nat, e: Entry) {
    ShapeFits(f) && i < |f.slots.value| && f.slots.value[i] >= 0
    && e == Entry(SourceOf(f, i), f.slots.value[i])
  }

  lemma {:induction false} SelectedMembers(f: FilePlan, n: nat, e: Entry)
    requires ShapeFits(f) && n <= |f.slots.value|
    ensures e in SelectedUpTo(f, n) <==> exists i :: 0 <= i < n && Picks(f, i, e)
  {
    if n > 0 {
      SelectedMembers(f, n - 1, e);
      if Picks(f, n - 1, e) {
        assert e in SelectedUpTo(f, n);
      }
    }
  }

  /** All selected entries of the first n files of a plan, in order. */
  function PlanSelected(files: seq<FilePlan>, n: nat): seq<Entry>
    requires n <= |files|
  {
    if n == 0 then [] else PlanSelected(files, n - 1) + Selected(files[n - 1])
  }

  /** The plans of a group list the same number of files. */
  predicate Uniform(group: seq<Plan>) {
    group != [] && forall i :: 0 <= i < |group| ==> |group[i].files| == |group[0].files|
  }

  /** The selected entries of file number k in the first n plans of a group. */
  function GroupSelected(group: seq<Plan>, k: nat, n: nat): seq<Entry>
    requires Uniform(group) && k < |group[0].files| && n <= |group|
  {
    if n == 0 then [] else GroupSelected(group, k, n - 1) + Selected(group[n - 1].files[k])
  }

  predicate IsOrdered(entries: seq<Entry>) {
    OrderedBySlot(entries) && OrderedByFrame(entries)
  }

  // ----- validation, in the order the source checks -----

  function FileVerdict(plan: Plan, f: FilePlan, reference: FilePlan): Verdict {
    if f.slots.None? || f.path != reference.path || f.firstFrame != reference.firstFrame
       || f.frameCount != reference.frameCount then Decline
    else if !ShapeFits(f) then Raise(MappingShape)
    else if f.sources.Some? && exists s :: s in f.sources.value && !(0 <= s < f.frameCount) then Raise(SourceRange)
    else if exists d :: d in f.slots.value && !(-1 <= d < plan.slotCount) then Raise(DestinationRange)
    else Fine
  }

  function FilesVerdict(plan: Plan, references: seq<FilePlan>, n: nat): Verdict
    requires n <= |plan.files| == |references|
  {
    if n == 0 then Fine
    else
      var before := FilesVerdict(plan, references, n - 1);
      if before != Fine then before
      else
        var v := FileVerdict(plan, plan.files[n - 1], references[n - 1]);
        if v != Fine then v
        else if !DistinctSlots(PlanSelected(plan.files, n)) then Raise(DuplicateDestination)
        else Fine
  }

  function PlanVerdict(plan: Plan, reference: Plan): Verdict
    requires |plan.files| == |reference.files|
  {
    if !(0 < plan.slotCount <= INT32_MAX) then Raise(SlotCountRange)
    else if plan.frameBytes != reference.frameBytes || plan.payloadBytes != reference.payloadBytes then Raise(Geometry)
    else FilesVerdict(plan, reference.files, |plan.files|)
  }

  function PlansVerdict(group: seq<Plan>, n: nat): Verdict
    requires Uniform(group) && n <= |group|
  {
    if n == 0 then Fine
    else
      var before := PlansVerdict(group, n - 1);
      if before != Fine then before else PlanVerdict(group[n - 1], group[0])
  }

  function GroupVerdict(group: seq<Plan>): Verdict {
    if group == [] || exists i :: 0 <= i < |group| && group[i].streaming then Decline
    else
      var first := group[0];
      if first.frameBytes <= 32 || first.frameBytes % 8 != 0 || first.payloadBytes != first.frameBytes - 32
        then Raise(UnalignedHeader)
      else if exists i :: 0 <= i < |group| && group[i].slotCount != first.slotCount then Decline
      else if !Uniform(group) then Decline
      else PlansVerdict(group, |group|)
  }

  function GroupsVerdict(groups: seq<seq<Plan>>, n: nat): Verdict
    requires n <= |groups|
  {
    if n == 0 then Fine
    else
      var before := GroupsVerdict(groups, n - 1);
      if before != Fine then before else GroupVerdict(groups[n - 1])
  }

  // ----- frontiers -----

  function MinSlots(groups: seq<seq<Plan>>, n: nat, cap: int): int
    requires n <= |groups|
  {
    if n == 0 then cap
    else
      var before := MinSlots(groups, n - 1, cap);
      if groups[n - 1] == [] then before else MinInt(before, groups[n - 1][0].slotCount)
  }

  /** min(frontier_count, fewest slots of any group). */
  function EffectiveFrontiers(groups: seq<seq<Plan>>, frontierCount: int): int {
    MinSlots(groups, |groups|, frontierCount)
  }

  /** slot_count * frontier // effective_frontiers. */
  function Edge(slots: int, frontiers: int, q: int): int
    requires frontiers > 0
  {
    slots * q / frontiers
  }

  function Stops(slots: int, frontiers: nat): (stops: seq<int>)
    requires frontiers > 0
    ensures |stops| == frontiers
    ensures forall q :: 0 <= q < frontiers ==> stops[q] == Edge(slots, frontiers, q + 1)
  {
    seq(frontiers, q requires 0 <= q < frontiers => Edge(slots, frontiers, q + 1))
  }

  lemma EdgeStep(slots: int, frontiers: int, q: int)
    requires 0 < frontiers <= slots && 0 <= q
    ensures Edge(slots, frontiers, q) < Edge(slots, frontiers, q + 1)
  {
    var a := slots * q;
    assert slots * (q + 1) == a + slots;
    DivAddOne(a, frontiers);
    DivMonotone(a + frontiers, a + slots, frontiers);
  }

  lemma {:induction false} EdgesIncrease(slots: int, frontiers: int, q: int, r: int)
    requires 0 < frontiers <= slots && 0 <= q < r
    ensures Edge(slots, frontiers, q) < Edge(slots, frontiers, r)
    decreases r
  {
    EdgeStep(slots, frontiers, r - 1);
    if q < r - 1 {
      EdgesIncrease(slots, frontiers, q, r - 1);
    }
  }

  /** Frontiers are nonempty, abut each other and cover [0, slots) exactly. */
  lemma EdgesTile(slots: int, frontiers: nat)
    requires 0 < frontiers <= slots
    ensures Edge(slots, frontiers, 0) == 0 && Edge(slots, frontiers, frontiers) == slots
    ensures forall q :: 0 <= q < frontiers ==> Edge(slots, frontiers, q) < Edge(slots, frontiers, q + 1)
  {
    EdgeEnds(slots, frontiers);
    forall q | 0 <= q < frontiers ensures Edge(slots, frontiers, q) < Edge(slots, frontiers, q + 1) {
      EdgeStep(slots, frontiers, q);
    }
  }

  /** Slot s belongs to frontier q. */
  predicate Within(slots: int, frontiers: nat, q: int, s: int)
    requires frontiers > 0
  {
    Edge(slots, frontiers, q) <= s < Edge(slots, frontiers, q + 1)
  }

  lemma EdgeEnds(slots: int, frontiers: nat)
    requires 0 < frontiers <= slots
    ensures Edge(slots, frontiers, 0) == 0 && Edge(slots, frontiers, frontiers) == slots
  {
    DivExact(slots, frontiers);
    assert slots * 0 == 0;
  }

  /** Every slot belongs to exactly one frontier. */
  lemma SlotHasOneFrontier(slots: int, frontiers: nat, s: int) returns (q: nat)
    requires 0 < frontiers <= slots && 0 <= s < slots
    ensures q < frontiers && Within(slots, frontiers, q, s)
    ensures forall r :: 0 <= r < frontiers && Within(slots, frontiers, r, s) ==> r == q
  {
    EdgeEnds(slots, frontiers);
    q := FindFrontier(slots, frontiers, s, frontiers);
    forall r | 0 <= r < frontiers && Within(slots, frontiers, r, s) ensures r == q {
      if r < q {
        WithinLater(slots, frontiers, r, q);
      } else if q < r {
        WithinLater(slots, frontiers, q, r);
      }
    }
  }

  lemma WithinLater(slots: int, frontiers: nat, q: nat, r: nat)
    requires 0 < frontiers <= slots && q < r
    ensures Edge(slots, frontiers, q + 1) <= Edge(slots, frontiers, r)
  {
    if q + 1 < r {
      EdgesIncrease(slots, frontiers, q + 1, r);
    }
  }

  lemma {:induction false} FindFrontier(slots: int, frontiers: nat, s: int, n: nat) returns (q: nat)
    requires 0 < frontiers <= slots && 0 <= s < Edge(slots, frontiers, n)
    ensures q < n && Within(slots, frontiers, q, s)
  {
    EdgeEnds(slots, frontiers);
    if s >= Edge(slots, frontiers, n - 1) {
      q := n - 1;
    } else {
      q := FindFrontier(slots, frontiers, s, n - 1);
    }
  }

  lemma StopsBucket(slots: int, frontiers: nat)
    requires 0 < frontiers <= slots
    ensures Increasing(Stops(slots, frontiers)) && 0 <= Stops(slots, frontiers)[0]
    ensures Stops(slots, frontiers)[frontiers - 1] == slots
    ensures forall q :: 0 <= q < frontiers ==> Lower(Stops(slots, frontiers), q) == Edge(slots, frontiers, q)
  {
    var stops := Stops(slots, frontiers);
    EdgesTile(slots, frontiers);
    forall i, j | 0 <= i < j < frontiers ensures stops[i] < stops[j] {
      EdgesIncrease(slots, frontiers, i + 1, j + 1);
    }
    EdgeStep(slots, frontiers, 0);
  }

  // ----- envelopes -----

  /** The frames [start, stop) read for frontier q of file k; none when start >= stop. */
  datatype Span = Span(start: int, stop: int)

  function SpanLength(s: Span): int {
    MaxInt(0, s.stop - s.start)
  }

  function FileSpan(group: seq<Plan>, k: nat, lo: int, hi: int): Span
    requires Uniform(group) && k < |group[0].files|
  {
    var entries := GroupSelected(group, k, |group|);
    Span(MinFrame(entries, lo, hi, group[0].files[k].frameCount), MaxStop(entries, lo, hi, 0))
  }

  function FrontierSpan(group: seq<Plan>, k: nat, frontiers: nat, q: nat): Span
    requires Uniform(group) && k < |group[0].files| && q < frontiers
  {
    var slots := group[0].slotCount;
    FileSpan(group, k, Edge(slots, frontiers, q), Edge(slots, frontiers, q + 1))
  }

  function SplitTotal(group: seq<Plan>, k: nat, frontiers: nat, n: nat): int
    requires Uniform(group) && k < |group[0].files| && n <= frontiers
  {
    if n == 0 then 0
    else SplitTotal(group, k, frontiers, n - 1) + SpanLength(FrontierSpan(group, k, frontiers, n - 1))
  }

  /** Some of the first n plans map file k out of order. */
  predicate AnyUnordered(group: seq<Plan>, k: nat, n: nat)
    requires Uniform(group) && k < |group[0].files| && n <= |group|
  {
    n > 0 && (AnyUnordered(group, k, n - 1) || !IsOrdered(Selected(group[n - 1].files[k])))
  }

  /** More than 105 frames read for every 100 of the unsplit envelope, on a file some plan maps out of order. */
  predicate FileExcessive(group: seq<Plan>, k: nat, frontiers: nat)
    requires Uniform(group) && k < |group[0].files|
  {
    var whole := FileSpan(group, k, 0, group[0].slotCount);
    && whole.start < whole.stop
    && AnyUnordered(group, k, |group|)
    && SplitTotal(group, k, frontiers, frontiers) * 100 > (whole.stop - whole.start) * 105
  }

  /** One of the first n files reads too much. */
  predicate GroupExcessive(group: seq<Plan>, frontiers: nat, n: nat)
    requires Uniform(group) && n <= |group[0].files|
  {
    n > 0 && (GroupExcessive(group, frontiers, n - 1) || FileExcessive(group, n - 1, frontiers))
  }

  // ----- slices -----

  function SliceDense(slots: seq<int>, first: int, stop: int, span: Span): seq<int>
    requires 0 <= span.start <= span.stop <= |slots|
  {
    seq(span.stop - span.start, i requires 0 <= i < span.stop - span.start =>
      if first <= slots[span.start + i] < stop then slots[span.start + i] - first else -1)
  }

  /** The sparse entries kept by a slice, destinations and sources made relative. */
  function SliceSparse(slots: seq<int>, sources: seq<int>, first: int, stop: int, span: Span, n: nat): seq<Entry>
    requires n <= |slots| == |sources|
  {
    if n == 0 then []
    else
      var rest := SliceSparse(slots, sources, first, stop, span, n - 1);
      if first <= slots[n - 1] < stop && span.start <= sources[n - 1] < span.stop
      then rest + [Entry(sources[n - 1] - span.start, slots[n - 1] - first)] else rest
  }

  function SlotsOf(entries: seq<Entry>): seq<int> {
    seq(|entries|, i requires 0 <= i < |entries| => entries[i].slot)
  }

  function FramesOf(entries: seq<Entry>): seq<int> {
    seq(|entries|, i requires 0 <= i < |entries| => entries[i].frame)
  }

  function SliceFile(f: FilePlan, first: int, stop: int, span: Span): FilePlan
    requires ShapeFits(f) && 0 <= span.start < span.stop <= f.frameCount
  {
    if f.sources.None? then
      FilePlan(f.path, f.firstFrame + span.start, span.stop - span.start,
               Some(SliceDense(f.slots.value, first, stop, span)), None, f.stamp)
    else
      var kept := SliceSparse(f.slots.value, f.sources.value, first, stop, span, |f.slots.value|);
      FilePlan(f.path, f.firstFrame + span.start, span.stop - span.start,
               Some(SlotsOf(kept)), Some(FramesOf(kept)), f.stamp)
  }

  /** Every file of the group can be sliced at every span the envelopes give. */
  predicate Sliceable(group: seq<Plan>, frontiers: nat) {
    && Uniform(group) && 0 < frontiers <= group[0].slotCount
    && (forall i :: 0 <= i < |group| ==> group[i].slotCount == group[0].slotCount)
    && (forall i, k :: 0 <= i < |group| && 0 <= k < |group[0].files| ==> ShapeMatches(group, i, k))
    && (forall k, q :: 0 <= k < |group[0].files| && 0 <= q < frontiers ==>
          SpanFits(FrontierSpan(group, k, frontiers, q), group[0].files[k].frameCount))
  }

  predicate ShapeMatches(group: seq<Plan>, i: nat, k: nat)
    requires Uniform(group) && i < |group| && k < |group[0].files|
  {
    ShapeFits(group[i].files[k]) && group[i].files[k].frameCount == group[0].files[k].frameCount
  }

  predicate SpanFits(span: Span, frameCount: int) {
    span.start < span.stop ==> 0 <= span.start && span.stop <= frameCount
  }

  function SliceFiles(group: seq<Plan>, p: nat, frontiers: nat, q: nat, n: nat): seq<FilePlan>
    requires Sliceable(group, frontiers) && p < |group| && q < frontiers && n <= |group[0].files|
  {
    if n == 0 then []
    else
      assert ShapeMatches(group, p, n - 1);
      var slots := group[0].slotCount;
      var rest := SliceFiles(group, p, frontiers, q, n - 1);
      var span := FrontierSpan(group, n - 1, frontiers, q);
      if span.start < span.stop then
        rest + [SliceFile(group[p].files[n - 1], Edge(slots, frontiers, q), Edge(slots, frontiers, q + 1), span)]
      else rest
  }

  function SlicePlan(group: seq<Plan>, p: nat, frontiers: nat, q: nat): Plan
    requires Sliceable(group, frontiers) && p < |group| && q < frontiers
  {
    var slots := group[0].slotCount;
    Plan(group[p].frameBytes, group[p].payloadBytes, Edge(slots, frontiers, q + 1) - Edge(slots, frontiers, q),
         SliceFiles(group, p, frontiers, q, |group[0].files|), false)
  }

  function SliceTask(groups: seq<seq<Plan>>, chunkBytes: seq<int>, frontiers: nat, q: nat, g: nat): Task
    requires g < |groups| == |chunkBytes| && q < frontiers && Sliceable(groups[g], frontiers)
  {
    var group := groups[g];
    var slots := group[0].slotCount;
    Task(q, g, seq(|group|, p requires 0 <= p < |group| => SlicePlan(group, p, frontiers, q)),
         Edge(slots, frontiers, q), Edge(slots, frontiers, q + 1), chunkBytes[g])
  }

  /** Tasks frontier by frontier, the groups in order inside each. */
  function AllTasks(groups: seq<seq<Plan>>, chunkBytes: seq<int>, frontiers: nat): seq<Task>
    requires |groups| == |chunkBytes| && groups != []
    requires forall g :: 0 <= g < |groups| ==> Sliceable(groups[g], frontiers)
  {
    seq(frontiers * |groups|, i requires 0 <= i < frontiers * |groups| =>
      RowColumn(i, |groups|, frontiers);
      SliceTask(groups, chunkBytes, frontiers, i / |groups|, i % |groups|))
  }

  // ----- what an accepted group looks like -----

  predicate FineGroup(group: seq<Plan>) {
    GroupVerdict(group) == Fine
  }

  lemma {:induction false} FilesFine(plan: Plan, references: seq<FilePlan>, n: nat)
    requires n <= |plan.files| == |references| && FilesVerdict(plan, references, n) == Fine
    ensures forall k :: 0 <= k < n ==> FileVerdict(plan, plan.files[k], references[k]) == Fine
    ensures DistinctSlots(PlanSelected(plan.files, n))
  {
    if n > 0 {
      FilesFine(plan, references, n - 1);
    }
  }

  lemma {:induction false} PlansFine(group: seq<Plan>, n: nat)
    requires Uniform(group) && n <= |group|
    requires PlansVerdict(group, n) == Fine
    ensures forall i :: 0 <= i < n ==> PlanVerdict(group[i], group[0]) == Fine
  {
    if n > 0 {
      PlansFine(group, n - 1);
    }
  }

  lemma {:induction false} GroupsFine(groups: seq<seq<Plan>>, n: nat)
    requires n <= |groups| && GroupsVerdict(groups, n) == Fine
    ensures forall g :: 0 <= g < n ==> FineGroup(groups[g])
  {
    if n > 0 {
      GroupsFine(groups, n - 1);
    }
  }

  /** A selected entry of an accepted file is a real frame and a real slot. */
  lemma SelectedInRange(plan: Plan, f: FilePlan, reference: FilePlan)
    requires FileVerdict(plan, f, reference) == Fine
    ensures forall e :: e in Selected(f) ==> 0 <= e.frame < f.frameCount && 0 <= e.slot < plan.slotCount
  {
    forall e | e in Selected(f) ensures 0 <= e.frame < f.frameCount && 0 <= e.slot < plan.slotCount {
      SelectedMembers(f, |f.slots.value|, e);
      var i :| 0 <= i < |f.slots.value| && Picks(f, i, e);
      assert f.slots.value[i] in f.slots.value;
      if f.sources.Some? {
        assert f.sources.value[i] in f.sources.value;
      }
    }
  }

  lemma {:induction false} GroupSelectedMembers(group: seq<Plan>, k: nat, n: nat, e: Entry)
    requires Uniform(group) && k < |group[0].files| && n <= |group|
    ensures e in GroupSelected(group, k, n) <==> exists i :: 0 <= i < n && e in Selected(group[i].files[k])
  {
    if n > 0 {
      GroupSelectedMembers(group, k, n - 1, e);
    }
  }

  lemma GroupShape(group: seq<Plan>)
    requires FineGroup(group)
    ensures Uniform(group) && 0 < group[0].slotCount
    ensures forall i :: 0 <= i < |group| ==> group[i].slotCount == group[0].slotCount
    ensures forall i, k :: 0 <= i < |group| && 0 <= k < |group[0].files| ==>
      FileVerdict(group[i], group[i].files[k], group[0].files[k]) == Fine
    ensures forall i :: 0 <= i < |group| ==> DistinctSlots(PlanSelected(group[i].files, |group[i].files|))
  {
    PlansFine(group, |group|);
    forall i | 0 <= i < |group|
      ensures forall k :: 0 <= k < |group[0].files| ==>
        FileVerdict(group[i], group[i].files[k], group[0].files[k]) == Fine
      ensures DistinctSlots(PlanSelected(group[i].files, |group[i].files|))
    {
      FilesFine(group[i], group[0].files, |group[i].files|);
    }
    assert PlanVerdict(group[0], group[0]) == Fine;
  }

  lemma GroupEntriesInRange(group: seq<Plan>, k: nat)
    requires FineGroup(group) && Uniform(group) && k < |group[0].files|
    ensures forall e :: e in GroupSelected(group, k, |group|) ==>
      0 <= e.frame < group[0].files[k].frameCount && 0 <= e.slot < group[0].slotCount
  {
    GroupShape(group);
    forall e | e in GroupSelected(group, k, |group|)
      ensures 0 <= e.frame < group[0].files[k].frameCount && 0 <= e.slot < group[0].slotCount
    {
      GroupSelectedMembers(group, k, |group|, e);
      var i :| 0 <= i < |group| && e in Selected(group[i].files[k]);
      SelectedInRange(group[i], group[i].files[k], group[0].files[k]);
    }
  }

  lemma FineSpan(group: seq<Plan>, k: nat, lo: int, hi: int)
    requires FineGroup(group) && Uniform(group) && k < |group[0].files|
    ensures SpanFits(FileSpan(group, k, lo, hi), group[0].files[k].frameCount)
  {
    GroupEntriesInRange(group, k);
    var entries := GroupSelected(group, k, |group|);
    EnvelopeWithin(entries, lo, hi, group[0].files[k].frameCount);
  }

  lemma EnvelopeWithin(entries: seq<Entry>, lo: int, hi: int, count: nat)
    requires forall e :: e in entries ==> 0 <= e.frame < count
    ensures MaxStop(entries, lo, hi, 0) > MinFrame(entries, lo, hi, count) ==>
      0 <= MinFrame(entries, lo, hi, count) && MaxStop(entries, lo, hi, 0) <= count
  {
    MinFrameIsLeast(entries, lo, hi, count);
    MaxStopIsGreatest(entries, lo, hi, 0);
  }

  /** Envelopes of accepted groups stay inside the file. */
  lemma FineGroupSliceable(group: seq<Plan>, frontiers: nat)
    requires FineGroup(group) && 0 < frontiers <= group[0].slotCount
    ensures Sliceable(group, frontiers)
  {
    GroupShape(group);
    forall i, k | 0 <= i < |group| && 0 <= k < |group[0].files| ensures ShapeMatches(group, i, k) {
      assert FileVerdict(group[i], group[i].files[k], group[0].files[k]) == Fine;
    }
    forall k, q | 0 <= k < |group[0].files| && 0 <= q < frontiers
      ensures SpanFits(FrontierSpan(group, k, frontiers, q), group[0].files[k].frameCount)
    {
      FineSpan(group, k, Edge(group[0].slotCount, frontiers, q), Edge(group[0].slotCount, frontiers, q + 1));
    }
  }

  // ----- the planner's result -----

  lemma {:induction false} MinSlotsBound(groups: seq<seq<Plan>>, n: nat, cap: int)
    requires n <= |groups|
    ensures MinSlots(groups, n, cap) <= cap
    ensures forall g :: 0 <= g < n && groups[g] != [] ==> MinSlots(groups, n, cap) <= groups[g][0].slotCount
  {
    if n > 0 {
      MinSlotsBound(groups, n - 1, cap);
    }
  }

  /** Groups that pass every check and yield more than one frontier. */
  predicate Splittable(groups: seq<seq<Plan>>, frontierCount: int) {
    && groups != [] && GroupsVerdict(groups, |groups|) == Fine
    && EffectiveFrontiers(groups, frontierCount) > 1
  }

  lemma SplittableGroups(groups: seq<seq<Plan>>, frontierCount: int)
    requires Splittable(groups, frontierCount)
    ensures forall g :: 0 <= g < |groups| ==>
      FineGroup(groups[g]) && Uniform(groups[g]) && Sliceable(groups[g], EffectiveFrontiers(groups, frontierCount))
  {
    GroupsFine(groups, |groups|);
    MinSlotsBound(groups, |groups|, frontierCount);
    forall g | 0 <= g < |groups|
      ensures FineGroup(groups[g]) && Sliceable(groups[g], EffectiveFrontiers(groups, frontierCount))
    {
      FineGroupSliceable(groups[g], EffectiveFrontiers(groups, frontierCount));
    }
  }

  /** One of the first n groups reads too much. */
  predicate Excessive(groups: seq<seq<Plan>>, frontiers: nat, n: nat)
    requires n <= |groups|
  {
    n > 0
    && (Excessive(groups, frontiers, n - 1)
        || (Uniform(groups[n - 1]) && GroupExcessive(groups[n - 1], frontiers, |groups[n - 1][0].files|)))
  }

  /** What the planner answers for any input. */
  function PlanUploads(groups: seq<seq<Plan>>, chunkBytes: seq<int>, frontierCount: int): Outcome {
    if frontierCount <= 1 || groups == [] then Declined
    else if |chunkBytes| != |groups| then Raised(ChunkSizes)
    else
      match GroupsVerdict(groups, |groups|)
      case Decline => Declined
      case Raise(e) => Raised(e)
      case Fine =>
        if EffectiveFrontiers(groups, frontierCount) <= 1 then Declined
        else if Excessive(groups, EffectiveFrontiers(groups, frontierCount), |groups|) then Declined
        else
          SplittableGroups(groups, frontierCount);
          Tasks(AllTasks(groups, chunkBytes, EffectiveFrontiers(groups, frontierCount)))
  }
}
